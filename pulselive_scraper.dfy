// The transforms of the Pulselive API scraper function: the session type and
// event code checks, the event and session lookups, and the loop that turns a
// classification into `motogp_results` records for one session. The HTTP
// requests, the rider query and the database write are left out.
module PulseliveScraper {
  import opened Wrappers
  import opened Collections
  import opened Points
  import opened Records
  import Text
  import ScrapeMotoGP
  import MotoGPScraper

  datatype SessionType = Q1 | Q2 | SPR | RAC

  function CodeOf(t: SessionType): string {
    match t
    case Q1 => "Q1"
    case Q2 => "Q2"
    case SPR => "SPR"
    case RAC => "RAC"
  }

  /** `String(payload.sessionType || "").toUpperCase()`, accepted only when it is one of the
      four codes; a missing value is "". */
  function ParseSessionType(raw: string): Option<SessionType> {
    var code := Text.ToUpper(raw);
    if code == "Q1" then Some(Q1)
    else if code == "Q2" then Some(Q2)
    else if code == "SPR" then Some(SPR)
    else if code == "RAC" then Some(RAC)
    else None
  }

  /** The session type is accepted exactly when its upper-cased text is one of Q1, Q2, SPR, RAC,
      and it is that code. */
  lemma SessionTypeAccepted(raw: string)
    ensures ParseSessionType(raw).Some? <==> Text.ToUpper(raw) in ["Q1", "Q2", "SPR", "RAC"]
    ensures ParseSessionType(raw).Some? ==> CodeOf(ParseSessionType(raw).value) == Text.ToUpper(raw)
  {
  }

  /** Every code is accepted in any letter case; a missing value is refused. */
  lemma SessionTypeAnyCase(t: SessionType, raw: string)
    requires Text.ToUpper(raw) == CodeOf(t)
    ensures ParseSessionType(raw) == Some(t)
    ensures ParseSessionType("") == None
  {
    assert Text.ToUpper("") == "";
  }

  lemma SessionTypeRoundTrip(t: SessionType)
    ensures ParseSessionType(CodeOf(t)) == Some(t)
  {
    var c := CodeOf(t);
    assert forall i :: 0 <= i < |c| ==> !('a' <= c[i] <= 'z');
    assert Text.ToUpper(c) == c;
  }

  // ---------------------------------------------------------------------------
  // Event codes

  /** A race or an event; an absent `short_name` or country iso is "". */
  datatype EventNames = EventNames(shortName: string, iso: string)

  datatype Event = Event(id: string, names: EventNames)

  /** `(short_name || country.iso || "")`. */
  function NameOf(n: EventNames): string {
    if n.shortName != "" then n.shortName else n.iso
  }

  /** The upper-cased code of the calendar's race; empty is refused. */
  function RaceCode(race: EventNames): Option<string> {
    var code := Text.ToUpper(NameOf(race));
    if code == "" then None else Some(code)
  }

  /** `events.find`: the first event whose code is the race's code. */
  function FindEvent(events: seq<Event>, code: string): Option<Event> {
    FindFirst(events, (e: Event) => Text.ToUpper(NameOf(e.names)) == code)
  }

  /** A race yields a code unless it has neither a short name nor an iso code. */
  lemma RaceCodeMissing(race: EventNames)
    ensures RaceCode(race).None? <==> race.shortName == "" && race.iso == ""
  {
  }

  /** Events are matched by the same rule as the race, ignoring letter case: the first event
      whose short name (or iso code, without one) equals the race's, case aside, is found, and
      none is found when no event qualifies. */
  lemma FindEventMatches(events: seq<Event>, race: EventNames)
    requires RaceCode(race).Some?
    ensures var found := FindEvent(events, RaceCode(race).value);
      (found.None? <==>
         forall i :: 0 <= i < |events| ==> !Text.EqualsIgnoreCase(NameOf(events[i].names), NameOf(race))) &&
      (found.Some? ==>
         (exists i :: 0 <= i < |events| && events[i] == found.value &&
            Text.EqualsIgnoreCase(NameOf(events[i].names), NameOf(race)) &&
            forall j :: 0 <= j < i ==> !Text.EqualsIgnoreCase(NameOf(events[j].names), NameOf(race))))
  {
  }

  // ---------------------------------------------------------------------------
  // The session lookup

  /** `sessions.find`: the first session whose upper-cased type is the session type's code. */
  function FindSession(sessions: seq<ScrapeMotoGP.Session>, t: SessionType): Option<ScrapeMotoGP.Session> {
    FindFirst(sessions, (s: ScrapeMotoGP.Session) => Text.ToUpper(s.sessionType) == CodeOf(t))
  }

  /** The two scrapers resolve qualifying sessions differently: for a session listed with type Q
      and number 1, the Express route finds it for "Q1" and this function does not. */
  lemma QualifyingLookupsDiffer()
    ensures var sessions := [ScrapeMotoGP.Session("q1-session", "Q", Some(1))];
      FindSession(sessions, Q1).None? && ScrapeMotoGP.FindSession(sessions, "Q1") == Some("q1-session")
  {
    var s := ScrapeMotoGP.Session("q1-session", "Q", Some(1));
    assert Text.ToUpper("Q") == "Q";
    assert |Text.ToUpper(s.sessionType)| == 1;
  }

  // ---------------------------------------------------------------------------
  // Building the records

  /** A classification entry; `riderNumber` is `String(entry.rider.number)`. A rider without a
      classified position has position null (`None`). */
  datatype Entry = Entry(riderNumber: string, position: Option<int>, points: Option<int>)

  /** The position written for an entry: in Q1 moved back by ten, where a null position counts as
      0 (`null + 10` is 10); otherwise the entry's own, null included. */
  function WrittenPosition(position: Option<int>, t: SessionType): Option<int> {
    if t == Q1 then Some(position.GetOr(0) + 10) else position
  }

  /** `getMotoGPPoints(pos)`: the table points, and 0 for a null position (`table[null]` is undefined). */
  function QualifyingPoints(pos: Option<int>): int {
    if pos.None? then 0 else MotoGPPoints(pos.value)
  }

  /** The record entry `i` contributes, if any: none for an unmapped rider or for the first two
      Q1 entries; Q1 positions move back by ten. */
  function RecordAt(entry: Entry, i: int, t: SessionType, championshipId: int, calendarId: int,
                    riderMap: map<string, int>): (r: Option<ResultRow>)
    ensures r.Some? <==> MotoGPScraper.ResolveNumber(riderMap, entry.riderNumber).Some? && (t == Q1 ==> i >= 2)
    ensures r.Some? ==>
      r.value.Key() == ResultKey(championshipId, MotoGPScraper.ResolveNumber(riderMap, entry.riderNumber).value, calendarId)
  {
    var riderId := MotoGPScraper.ResolveNumber(riderMap, entry.riderNumber);
    if riderId.None? then None
    else if t == Q1 && i < 2 then None
    else
      var pos := WrittenPosition(entry.position, t);
      var base := KeyOnly(championshipId, calendarId, riderId.value);
      Some(match t
        case Q1 => base.(qualifyingPosition := pos, qualifyingPoints := Some(QualifyingPoints(pos)))
        case Q2 => base.(qualifyingPosition := pos, qualifyingPoints := Some(QualifyingPoints(pos)))
        case SPR => base.(sprintPosition := pos, sprintPoints := entry.points)
        case RAC => base.(racePosition := pos, racePoints := entry.points))
  }

  /** Each record sets exactly the pair of its session type: qualifying position and table points
      for Q1 and Q2 (with Q1 positions shifted by ten, a null one counting as 0), sprint or race
      position and the entry's own points otherwise; a null position stays null outside Q1 and then
      earns 0 qualifying points. */
  lemma RecordFields(entry: Entry, i: int, t: SessionType, championshipId: int, calendarId: int,
                     riderMap: map<string, int>)
    requires RecordAt(entry, i, t, championshipId, calendarId, riderMap).Some?
    ensures var r := RecordAt(entry, i, t, championshipId, calendarId, riderMap).value;
      (t == Q1 ==>
         r.qualifyingPosition == Some(entry.position.GetOr(0) + 10) &&
         r.qualifyingPoints == Some(MotoGPPoints(entry.position.GetOr(0) + 10))) &&
      (t == Q2 ==>
         r.qualifyingPosition == entry.position &&
         r.qualifyingPoints == Some(if entry.position.None? then 0 else MotoGPPoints(entry.position.value))) &&
      (t == Q1 || t == Q2 ==>
         r.sprintPosition.None? && r.sprintPoints.None? && r.racePosition.None? && r.racePoints.None?) &&
      (t == SPR ==>
         r.sprintPosition == entry.position && r.sprintPoints == entry.points &&
         r.qualifyingPosition.None? && r.qualifyingPoints.None? && r.racePosition.None? && r.racePoints.None?) &&
      (t == RAC ==>
         r.racePosition == entry.position && r.racePoints == entry.points &&
         r.qualifyingPosition.None? && r.qualifyingPoints.None? && r.sprintPosition.None? && r.sprintPoints.None?)
  {
  }

  function RecordsOf(classification: seq<Entry>, t: SessionType, championshipId: int, calendarId: int,
                     riderMap: map<string, int>): seq<ResultRow>
    decreases |classification|
  {
    if classification == [] then []
    else
      var n := |classification| - 1;
      var rec := RecordAt(classification[n], n, t, championshipId, calendarId, riderMap);
      RecordsOf(classification[..n], t, championshipId, calendarId, riderMap) +
        (if rec.Some? then [rec.value] else [])
  }

  /** The indexed `for` loop over the classification. */
  method BuildRecords(classification: seq<Entry>, t: SessionType, championshipId: int, calendarId: int,
                      riderMap: map<string, int>) returns (upserts: seq<ResultRow>)
    ensures upserts == RecordsOf(classification, t, championshipId, calendarId, riderMap)
  {
    upserts := [];
    var i := 0;
    while i < |classification|
      invariant 0 <= i <= |classification|
      invariant upserts == RecordsOf(classification[..i], t, championshipId, calendarId, riderMap)
    {
      assert classification[..i + 1][..i] == classification[..i];
      var entry := classification[i];
      var riderId := MotoGPScraper.ResolveNumber(riderMap, entry.riderNumber);
      if riderId.Some? && !(t == Q1 && i < 2) {
        var pos := entry.position;
        if t == Q1 {
          pos := Some(pos.GetOr(0) + 10);
        }
        var record := KeyOnly(championshipId, calendarId, riderId.value);
        if t == Q1 || t == Q2 {
          record := record.(qualifyingPosition := pos, qualifyingPoints := Some(QualifyingPoints(pos)));
        } else if t == SPR {
          record := record.(sprintPosition := pos, sprintPoints := entry.points);
        } else {
          record := record.(racePosition := pos, racePoints := entry.points);
        }
        upserts := upserts + [record];
      }
      i := i + 1;
    }
    assert classification[..i] == classification;
  }

  /** There are never more records than entries; each record is the one some entry contributes,
      and every contributing entry's record is there. */
  lemma {:induction false} RecordsOfEntries(classification: seq<Entry>, t: SessionType, championshipId: int,
                                           calendarId: int, riderMap: map<string, int>)
    ensures var out := RecordsOf(classification, t, championshipId, calendarId, riderMap);
      |out| <= |classification| &&
      (forall r :: r in out ==>
         (exists i :: 0 <= i < |classification| &&
            RecordAt(classification[i], i, t, championshipId, calendarId, riderMap) == Some(r))) &&
      (forall i ::
         (0 <= i < |classification| && RecordAt(classification[i], i, t, championshipId, calendarId, riderMap).Some?) ==>
         RecordAt(classification[i], i, t, championshipId, calendarId, riderMap).value in out)
    decreases |classification|
  {
    if classification != [] {
      var n := |classification| - 1;
      var init := classification[..n];
      RecordsOfEntries(init, t, championshipId, calendarId, riderMap);
      forall i | 0 <= i < n ensures init[i] == classification[i] {}
    }
  }

  /** For Q1 the first two entries never produce a record, and every record's position is an
      entry's position plus ten, a null position counting as 0. */
  lemma Q1SkipsTopTwo(classification: seq<Entry>, championshipId: int, calendarId: int, riderMap: map<string, int>)
    ensures forall r :: r in RecordsOf(classification, Q1, championshipId, calendarId, riderMap) ==>
      exists i :: 2 <= i < |classification| &&
        r.qualifyingPosition == Some(classification[i].position.GetOr(0) + 10) &&
        r.qualifyingPoints == Some(MotoGPPoints(classification[i].position.GetOr(0) + 10))
  {
    RecordsOfEntries(classification, Q1, championshipId, calendarId, riderMap);
    forall r | r in RecordsOf(classification, Q1, championshipId, calendarId, riderMap)
      ensures (exists i :: 2 <= i < |classification| &&
                 r.qualifyingPosition == Some(classification[i].position.GetOr(0) + 10) &&
                 r.qualifyingPoints == Some(MotoGPPoints(classification[i].position.GetOr(0) + 10)))
    {
      var i :| 0 <= i < |classification| &&
               RecordAt(classification[i], i, Q1, championshipId, calendarId, riderMap) == Some(r);
      RecordFields(classification[i], i, Q1, championshipId, calendarId, riderMap);
    }
  }

  /** A Q1 entry without a position, past the first two, is written as 10th with its 6 points;
      in Q2 it is written without a position and with 0 qualifying points. */
  lemma NullPositionRecords(entry: Entry, i: int, championshipId: int, calendarId: int, riderMap: map<string, int>)
    requires entry.position.None? && i >= 2
    requires MotoGPScraper.ResolveNumber(riderMap, entry.riderNumber).Some?
    ensures var r := RecordAt(entry, i, Q1, championshipId, calendarId, riderMap).value;
      r.qualifyingPosition == Some(10) && r.qualifyingPoints == Some(6)
    ensures var r := RecordAt(entry, i, Q2, championshipId, calendarId, riderMap).value;
      r.qualifyingPosition.None? && r.qualifyingPoints == Some(0)
  {
  }
}
