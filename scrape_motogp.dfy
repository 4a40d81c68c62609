// The result-ingestion transforms of the Express scraper route: the Q1 rule,
// the per-rider merge of the four sessions, the session finder, and the
// `motogp_results` rows built from the merge. Fetching from Pulselive and the
// database write are left out; their results are the arguments here.
module ScrapeMotoGP {
  import opened Wrappers
  import opened Collections
  import opened Points
  import opened Records
  import Text

  /** One classification entry. `riderUuid` is "" when `rider.id` is missing (falsy); a rider
      number that does not convert to a number is `None`. */
  datatype ClassRow = ClassRow(riderUuid: string, riderNumber: Option<int>, riderName: string,
                               teamName: string, position: int, points: Option<int>)

  // ---------------------------------------------------------------------------
  // adjustQ1

  function ShiftPositions(rows: seq<ClassRow>, offset: int): seq<ClassRow> {
    seq(|rows|, i requires 0 <= i < |rows| => rows[i].(position := rows[i].position + offset))
  }

  /** The Q1 rule: the first two Q1 rows went through to Q2, the rest rank from 11th on. */
  function AdjustQ1(rows: seq<ClassRow>): (r: seq<ClassRow>)
    ensures |r| == if |rows| < 2 then 0 else |rows| - 2
    ensures forall i :: 0 <= i < |r| ==> r[i] == rows[i + 2].(position := rows[i + 2].position + 10)
  {
    if |rows| < 2 then [] else ShiftPositions(rows[2..], 10)
  }

  /** With positions counted from 1, every rider kept from Q1 earns fewer qualifying points than
      any of the ten Q2 places. */
  lemma Q1RanksBehindQ2(rows: seq<ClassRow>, i: int, q2Position: int)
    requires forall k :: 0 <= k < |rows| ==> rows[k].position >= 1
    requires 0 <= i < |AdjustQ1(rows)| && 1 <= q2Position <= 10
    ensures AdjustQ1(rows)[i].position >= 11
    ensures MotoGPPoints(AdjustQ1(rows)[i].position) < MotoGPPoints(q2Position)
  {
    var p := AdjustQ1(rows)[i].position;
    PointsNonIncreasing(11, p);
    PointsStrictlyDecreasing(q2Position, 11);
  }

  // ---------------------------------------------------------------------------
  // mergeSessions

  datatype SessionKind = Q1 | Q2 | Spr | Rac

  datatype Slot = Slot(position: int, points: Option<int>)

  /** The merged record of one rider: identity fields and one slot per session. */
  datatype RiderEntry = RiderEntry(riderUuid: string, riderNumber: Option<int>, riderName: string,
                                   teamName: string, q1: Option<Slot>, q2: Option<Slot>,
                                   spr: Option<Slot>, rac: Option<Slot>)

  function UuidOf(e: RiderEntry): string {
    e.riderUuid
  }

  function NewEntry(r: ClassRow): RiderEntry {
    RiderEntry(r.riderUuid, r.riderNumber, r.riderName, r.teamName, None, None, None, None)
  }

  /** Qualifying points come from the points table, sprint and race points from the row. */
  function SlotOf(r: ClassRow, kind: SessionKind): Slot {
    if kind == Q1 || kind == Q2 then Slot(r.position, Some(MotoGPPoints(r.position)))
    else Slot(r.position, r.points)
  }

  function WithSlot(e: RiderEntry, kind: SessionKind, s: Option<Slot>): RiderEntry {
    match kind
    case Q1 => e.(q1 := s)
    case Q2 => e.(q2 := s)
    case Spr => e.(spr := s)
    case Rac => e.(rac := s)
  }

  function SlotAt(e: RiderEntry, kind: SessionKind): Option<Slot> {
    match kind
    case Q1 => e.q1
    case Q2 => e.q2
    case Spr => e.spr
    case Rac => e.rac
  }

  /** The `byRider` map together with its insertion order, which `Map.values()` follows. */
  datatype RiderTable = RiderTable(byRider: map<string, RiderEntry>, order: seq<string>)

  ghost predicate WellFormed(t: RiderTable) {
    (forall i, j :: 0 <= i < j < |t.order| ==> t.order[i] != t.order[j]) &&
    (forall u :: u in t.byRider <==> u in t.order) &&
    (forall u :: u in t.byRider ==> t.byRider[u].riderUuid == u) &&
    "" !in t.byRider
  }

  function Get(t: RiderTable, u: string): Option<RiderEntry> {
    if u in t.byRider then Some(t.byRider[u]) else None
  }

  /** One iteration of `up`: a row without a rider id is skipped; otherwise the rider's entry
      (created from this row if new) gets this session's slot. */
  function Step(t: RiderTable, r: ClassRow, kind: SessionKind): (t': RiderTable)
    ensures WellFormed(t) ==> WellFormed(t')
  {
    if r.riderUuid == "" then t
    else
      var u := r.riderUuid;
      var cur := if u in t.byRider then t.byRider[u] else NewEntry(r);
      RiderTable(t.byRider[u := WithSlot(cur, kind, Some(SlotOf(r, kind)))],
                 if u in t.byRider then t.order else t.order + [u])
  }

  function UpFold(t: RiderTable, rows: seq<ClassRow>, kind: SessionKind): (t': RiderTable)
    ensures WellFormed(t) ==> WellFormed(t')
    decreases |rows|
  {
    if rows == [] then t else UpFold(Step(t, rows[0], kind), rows[1..], kind)
  }

  /** `up(rows, kind)`: folds one session's rows into the table. */
  method Up(t: RiderTable, rows: seq<ClassRow>, kind: SessionKind) returns (t': RiderTable)
    ensures t' == UpFold(t, rows, kind)
  {
    t' := t;
    var i := 0;
    while i < |rows|
      invariant 0 <= i <= |rows|
      invariant UpFold(t', rows[i..], kind) == UpFold(t, rows, kind)
    {
      assert rows[i..][1..] == rows[i + 1..];
      t' := Step(t', rows[i], kind);
      i := i + 1;
    }
  }

  function SessionTable(q1: seq<ClassRow>, q2: seq<ClassRow>, spr: seq<ClassRow>, rac: seq<ClassRow>): RiderTable {
    UpFold(UpFold(UpFold(UpFold(RiderTable(map[], []), q1, Q1), q2, Q2), spr, Spr), rac, Rac)
  }

  function Entries(t: RiderTable): seq<RiderEntry>
    requires forall u :: u in t.order ==> u in t.byRider
  {
    seq(|t.order|, i requires 0 <= i < |t.order| => t.byRider[t.order[i]])
  }

  /** The sort key: the first present position among race, sprint, Q2 and Q1, else 999. */
  function Ord(e: RiderEntry): int {
    if e.rac.Some? then e.rac.value.position
    else if e.spr.Some? then e.spr.value.position
    else if e.q2.Some? then e.q2.value.position
    else if e.q1.Some? then e.q1.value.position
    else 999
  }

  /** `mergeSessions`: fold Q1, Q2, sprint and race in that order, then sort by `Ord`. Each
      rider with an id appears once, as `ExpectedEntry` describes it. */
  method MergeSessions(q1: seq<ClassRow>, q2: seq<ClassRow>, spr: seq<ClassRow>, rac: seq<ClassRow>)
    returns (merged: seq<RiderEntry>)
    ensures SortedBy(merged, Ord)
    ensures InjectiveOn(merged, UuidOf)
    ensures forall e :: e in merged ==>
      e.riderUuid != "" && ExpectedEntry(q1, q2, spr, rac, e.riderUuid) == Some(e)
    ensures forall r :: r in q1 + q2 + spr + rac && r.riderUuid != "" ==>
      exists e :: e in merged && e.riderUuid == r.riderUuid
    ensures WellFormed(SessionTable(q1, q2, spr, rac)) &&
      merged == SortBy(Entries(SessionTable(q1, q2, spr, rac)), Ord)
    ensures forall k :: WithKey(merged, Ord, k) == WithKey(Entries(SessionTable(q1, q2, spr, rac)), Ord, k)
  {
    var t := RiderTable(map[], []);
    t := Up(t, q1, Q1);
    t := Up(t, q2, Q2);
    t := Up(t, spr, Spr);
    t := Up(t, rac, Rac);
    assert t == SessionTable(q1, q2, spr, rac);
    assert WellFormed(t);
    merged := SortBy(Entries(t), Ord);
    MergedDescribed(q1, q2, spr, rac);
    MergedCovers(q1, q2, spr, rac);
    forall k ensures WithKey(merged, Ord, k) == WithKey(Entries(t), Ord, k) {
      SortStable(Entries(t), Ord, k);
    }
  }

  /** The rider ids of `rows` not yet in `seen`, appended in order of first appearance; rows
      without an id are skipped. */
  function FirstSeen(seen: seq<string>, rows: seq<ClassRow>): seq<string>
    decreases |rows|
  {
    if rows == [] then seen
    else
      var u := rows[0].riderUuid;
      FirstSeen(if u == "" || u in seen then seen else seen + [u], rows[1..])
  }

  /** Folding a session appends its new riders in the order they are first seen. */
  lemma {:induction false} UpFoldOrder(t: RiderTable, rows: seq<ClassRow>, kind: SessionKind)
    requires WellFormed(t)
    ensures UpFold(t, rows, kind).order == FirstSeen(t.order, rows)
    decreases |rows|
  {
    if rows != [] {
      UpFoldOrder(Step(t, rows[0], kind), rows[1..], kind);
    }
  }

  lemma {:induction false} FirstSeenAppend(seen: seq<string>, a: seq<ClassRow>, b: seq<ClassRow>)
    ensures FirstSeen(seen, a + b) == FirstSeen(FirstSeen(seen, a), b)
    decreases |a|
  {
    if a == [] {
      assert a + b == b;
    } else {
      var u := a[0].riderUuid;
      assert (a + b)[0] == a[0] && (a + b)[1..] == a[1..] + b;
      FirstSeenAppend(if u == "" || u in seen then seen else seen + [u], a[1..], b);
    }
  }

  /** The table lists the riders in the order they are first seen across Q1, Q2, sprint and
      race, which is the `Map`'s insertion order and so the order ties keep after the sort. */
  lemma SessionOrderFirstSeen(q1: seq<ClassRow>, q2: seq<ClassRow>, spr: seq<ClassRow>, rac: seq<ClassRow>)
    ensures var t := SessionTable(q1, q2, spr, rac);
      WellFormed(t) && t.order == FirstSeen([], q1 + q2 + spr + rac) &&
      forall i :: 0 <= i < |t.order| ==> Entries(t)[i].riderUuid == t.order[i]
  {
    var t0 := RiderTable(map[], []);
    var t1 := UpFold(t0, q1, Q1);
    var t2 := UpFold(t1, q2, Q2);
    var t3 := UpFold(t2, spr, Spr);
    UpFoldOrder(t0, q1, Q1);
    UpFoldOrder(t1, q2, Q2);
    UpFoldOrder(t2, spr, Spr);
    UpFoldOrder(t3, rac, Rac);
    FirstSeenAppend([], q1, q2);
    FirstSeenAppend([], q1 + q2, spr);
    FirstSeenAppend([], q1 + q2 + spr, rac);
  }

  /** The sorted entries hold one entry per rider id, each as `ExpectedEntry` describes it. */
  lemma MergedDescribed(q1: seq<ClassRow>, q2: seq<ClassRow>, spr: seq<ClassRow>, rac: seq<ClassRow>)
    ensures var t := SessionTable(q1, q2, spr, rac);
      WellFormed(t) &&
      var merged := SortBy(Entries(t), Ord);
      InjectiveOn(merged, UuidOf) &&
      forall e :: e in merged ==> e.riderUuid != "" && ExpectedEntry(q1, q2, spr, rac, e.riderUuid) == Some(e)
  {
    var t := SessionTable(q1, q2, spr, rac);
    var entries := Entries(t);
    var merged := SortBy(entries, Ord);
    EntriesInjective(t);
    PermutationKeepsInjective(entries, merged, UuidOf);
    EntriesDescribed(q1, q2, spr, rac);
    var described := (e: RiderEntry) => e.riderUuid != "" && ExpectedEntry(q1, q2, spr, rac, e.riderUuid) == Some(e);
    assert forall i :: 0 <= i < |entries| ==> described(entries[i]);
    PermutationKeepsAll(entries, merged, described);
  }

  /** Every rider id named in some session has an entry among the sorted entries. */
  lemma MergedCovers(q1: seq<ClassRow>, q2: seq<ClassRow>, spr: seq<ClassRow>, rac: seq<ClassRow>)
    ensures var t := SessionTable(q1, q2, spr, rac);
      WellFormed(t) &&
      var merged := SortBy(Entries(t), Ord);
      forall r :: r in q1 + q2 + spr + rac && r.riderUuid != "" ==>
        exists e :: e in merged && e.riderUuid == r.riderUuid
  {
    var t := SessionTable(q1, q2, spr, rac);
    var entries := Entries(t);
    var merged := SortBy(entries, Ord);
    EntriesCover(q1, q2, spr, rac);
    forall r | r in q1 + q2 + spr + rac && r.riderUuid != ""
      ensures exists e :: e in merged && e.riderUuid == r.riderUuid
    {
      var i :| 0 <= i < |entries| && entries[i].riderUuid == r.riderUuid;
      assert entries[i] in multiset(merged);
    }
  }

  lemma EntriesInjective(t: RiderTable)
    requires WellFormed(t)
    ensures InjectiveOn(Entries(t), UuidOf)
  {
    var entries := Entries(t);
    forall i, j | 0 <= i < j < |entries| ensures UuidOf(entries[i]) != UuidOf(entries[j]) {
      assert entries[i].riderUuid == t.order[i];
      assert entries[j].riderUuid == t.order[j];
    }
  }

  /** Every entry of the folded table is the one `ExpectedEntry` describes for its rider id. */
  lemma EntriesDescribed(q1: seq<ClassRow>, q2: seq<ClassRow>, spr: seq<ClassRow>, rac: seq<ClassRow>)
    ensures var t := SessionTable(q1, q2, spr, rac);
      WellFormed(t) &&
      forall i :: 0 <= i < |Entries(t)| ==>
        Entries(t)[i].riderUuid != "" && ExpectedEntry(q1, q2, spr, rac, Entries(t)[i].riderUuid) == Some(Entries(t)[i])
  {
    var t := SessionTable(q1, q2, spr, rac);
    var entries := Entries(t);
    forall i | 0 <= i < |entries|
      ensures entries[i].riderUuid != "" && ExpectedEntry(q1, q2, spr, rac, entries[i].riderUuid) == Some(entries[i])
    {
      SessionsEntry(q1, q2, spr, rac, t.order[i]);
    }
  }

  /** Every rider id named in some session has an entry in the folded table. */
  lemma EntriesCover(q1: seq<ClassRow>, q2: seq<ClassRow>, spr: seq<ClassRow>, rac: seq<ClassRow>)
    ensures var t := SessionTable(q1, q2, spr, rac);
      WellFormed(t) &&
      forall r :: r in q1 + q2 + spr + rac && r.riderUuid != "" ==>
        exists i :: 0 <= i < |Entries(t)| && Entries(t)[i].riderUuid == r.riderUuid
  {
    var t := SessionTable(q1, q2, spr, rac);
    var entries := Entries(t);
    var all := q1 + q2 + spr + rac;
    forall r | r in all && r.riderUuid != ""
      ensures exists i :: 0 <= i < |entries| && entries[i].riderUuid == r.riderUuid
    {
      var u := r.riderUuid;
      SessionsEntry(q1, q2, spr, rac, u);
      var k :| 0 <= k < |all| && all[k] == r;
      assert FirstRowOf(all, u).Some?;
      assert u in t.order;
      var i :| 0 <= i < |t.order| && t.order[i] == u;
      assert entries[i].riderUuid == u;
    }
  }

  // ---------------------------------------------------------------------------
  // The reference description of a merged entry

  function FirstRowOf(rows: seq<ClassRow>, u: string): Option<ClassRow> {
    FindFirst(rows, (r: ClassRow) => r.riderUuid == u)
  }

  function LastRowOf(rows: seq<ClassRow>, u: string): (r: Option<ClassRow>)
    ensures r.None? <==> forall i :: 0 <= i < |rows| ==> rows[i].riderUuid != u
    ensures r.Some? ==> r.value in rows && r.value.riderUuid == u
    decreases |rows|
  {
    if rows == [] then None
    else
      var later := LastRowOf(rows[1..], u);
      assert forall i :: 0 < i < |rows| ==> rows[i] == rows[1..][i - 1];
      if later.Some? then later
      else if rows[0].riderUuid == u then Some(rows[0])
      else None
  }

  function SessionSlot(rows: seq<ClassRow>, u: string, kind: SessionKind): Option<Slot> {
    match LastRowOf(rows, u)
    case None => None
    case Some(l) => Some(SlotOf(l, kind))
  }

  /** Rider `u`'s merged entry: number, name and team from the first row seen for `u` across the
      sessions in the order Q1, Q2, sprint, race; each slot from the last row of that session;
      no entry when no row names `u`. */
  function ExpectedEntry(q1: seq<ClassRow>, q2: seq<ClassRow>, spr: seq<ClassRow>, rac: seq<ClassRow>, u: string)
    : Option<RiderEntry>
  {
    match FirstRowOf(q1 + q2 + spr + rac, u)
    case None => None
    case Some(f) =>
      Some(RiderEntry(u, f.riderNumber, f.riderName, f.teamName,
                      SessionSlot(q1, u, Q1), SessionSlot(q2, u, Q2),
                      SessionSlot(spr, u, Spr), SessionSlot(rac, u, Rac)))
  }

  /** What one session does to the entry of rider `u`. */
  function AfterSession(prev: Option<RiderEntry>, rows: seq<ClassRow>, u: string, kind: SessionKind): Option<RiderEntry> {
    match LastRowOf(rows, u)
    case None => prev
    case Some(l) =>
      var base := if prev.Some? then prev.value else NewEntry(FirstRowOf(rows, u).GetOr(l));
      Some(WithSlot(base, kind, Some(SlotOf(l, kind))))
  }

  lemma {:induction false} UpFoldEntry(t: RiderTable, rows: seq<ClassRow>, kind: SessionKind, u: string)
    requires u != ""
    ensures Get(UpFold(t, rows, kind), u) == AfterSession(Get(t, u), rows, u, kind)
    decreases |rows|
  {
    if rows != [] {
      var r0, rest := rows[0], rows[1..];
      var t1 := Step(t, r0, kind);
      UpFoldEntry(t1, rest, kind, u);
      if r0.riderUuid == u {
        assert FirstRowOf(rows, u) == Some(r0);
      } else {
        assert FirstRowOf(rows, u) == FirstRowOf(rest, u);
        assert Get(t1, u) == Get(t, u);
      }
    }
  }

  lemma FirstRowOfConcat(a: seq<ClassRow>, b: seq<ClassRow>, u: string)
    ensures FirstRowOf(a + b, u) == if FirstRowOf(a, u).Some? then FirstRowOf(a, u) else FirstRowOf(b, u)
  {
    if FirstRowOf(a, u).Some? {
      FindFirstAppend(a, b, (r: ClassRow) => r.riderUuid == u);
    } else {
      FindFirstSkipsMiss(a, b, (r: ClassRow) => r.riderUuid == u);
    }
  }

  lemma FirstAndLastAgree(rows: seq<ClassRow>, u: string)
    ensures FirstRowOf(rows, u).Some? <==> LastRowOf(rows, u).Some?
    ensures FirstRowOf(rows, u).Some? ==> FirstRowOf(rows, u).value.riderUuid == u
  {
  }

  /** The entry for `u` once the rows `seen` have been folded: identity from the first of them
      naming `u`, slots as in `slots`; none when no row names `u`. */
  function Described(seen: seq<ClassRow>, u: string, slots: RiderEntry): Option<RiderEntry> {
    match FirstRowOf(seen, u)
    case None => None
    case Some(f) => Some(slots.(riderUuid := u, riderNumber := f.riderNumber, riderName := f.riderName,
                                teamName := f.teamName))
  }

  predicate NoSlots(e: RiderEntry) {
    e.q1.None? && e.q2.None? && e.spr.None? && e.rac.None?
  }

  /** Folding one more session keeps the entry described, with that session's slot filled from
      its last row naming `u`. */
  lemma AfterSessionDescribed(prev: Option<RiderEntry>, seen: seq<ClassRow>, rows: seq<ClassRow>,
                              u: string, kind: SessionKind, slots: RiderEntry)
    requires u != ""
    requires SlotAt(slots, kind).None?
    requires FirstRowOf(seen, u).None? ==> NoSlots(slots)
    requires prev == Described(seen, u, slots)
    ensures AfterSession(prev, rows, u, kind) ==
            Described(seen + rows, u, WithSlot(slots, kind, SessionSlot(rows, u, kind)))
  {
    FirstRowOfConcat(seen, rows, u);
    FirstAndLastAgree(rows, u);
    FirstAndLastAgree(seen, u);
  }

  /** One session folded into a table whose entry for `u` is described by the rows seen so far. */
  lemma FoldStepDescribed(t: RiderTable, seen: seq<ClassRow>, rows: seq<ClassRow>, u: string,
                          kind: SessionKind, slots: RiderEntry)
    requires u != ""
    requires SlotAt(slots, kind).None?
    requires FirstRowOf(seen, u).None? ==> NoSlots(slots)
    requires Get(t, u) == Described(seen, u, slots)
    ensures Get(UpFold(t, rows, kind), u) ==
            Described(seen + rows, u, WithSlot(slots, kind, SessionSlot(rows, u, kind)))
  {
    UpFoldEntry(t, rows, kind, u);
    AfterSessionDescribed(Get(t, u), seen, rows, u, kind, slots);
  }

  lemma NoRowNoSlots(seen: seq<ClassRow>, rows: seq<ClassRow>, u: string, kind: SessionKind, slots: RiderEntry)
    requires FirstRowOf(seen, u).None? ==> NoSlots(slots)
    ensures FirstRowOf(seen + rows, u).None? ==> NoSlots(WithSlot(slots, kind, SessionSlot(rows, u, kind)))
  {
    FirstRowOfConcat(seen, rows, u);
    FirstAndLastAgree(rows, u);
  }

  function Slots(q1: seq<ClassRow>, q2: seq<ClassRow>, spr: seq<ClassRow>, rac: seq<ClassRow>, u: string): RiderEntry {
    RiderEntry("", None, "", "", SessionSlot(q1, u, Q1), SessionSlot(q2, u, Q2),
               SessionSlot(spr, u, Spr), SessionSlot(rac, u, Rac))
  }

  lemma DescribedIsExpected(q1: seq<ClassRow>, q2: seq<ClassRow>, spr: seq<ClassRow>, rac: seq<ClassRow>, u: string)
    ensures Described(q1 + q2 + spr + rac, u, Slots(q1, q2, spr, rac, u)) == ExpectedEntry(q1, q2, spr, rac, u)
  {
  }

  /** The fold of the four sessions holds for every rider id exactly the entry `ExpectedEntry`
      describes. */
  lemma SessionsEntry(q1: seq<ClassRow>, q2: seq<ClassRow>, spr: seq<ClassRow>, rac: seq<ClassRow>, u: string)
    requires u != ""
    ensures Get(SessionTable(q1, q2, spr, rac), u) == ExpectedEntry(q1, q2, spr, rac, u)
  {
    var t0 := RiderTable(map[], []);
    var t1 := UpFold(t0, q1, Q1);
    var t2 := UpFold(t1, q2, Q2);
    var t3 := UpFold(t2, spr, Spr);
    var a, b, c, d := SessionSlot(q1, u, Q1), SessionSlot(q2, u, Q2), SessionSlot(spr, u, Spr), SessionSlot(rac, u, Rac);
    var s0 := RiderEntry("", None, "", "", None, None, None, None);
    var s1 := RiderEntry("", None, "", "", a, None, None, None);
    var s2 := RiderEntry("", None, "", "", a, b, None, None);
    var s3 := RiderEntry("", None, "", "", a, b, c, None);
    assert Get(t1, u) == Described(q1, u, s1) && (FirstRowOf(q1, u).None? ==> NoSlots(s1)) by {
      assert [] + q1 == q1;
      FoldStepDescribed(t0, [], q1, u, Q1, s0);
      NoRowNoSlots([], q1, u, Q1, s0);
    }
    assert Get(t2, u) == Described(q1 + q2, u, s2) && (FirstRowOf(q1 + q2, u).None? ==> NoSlots(s2)) by {
      FoldStepDescribed(t1, q1, q2, u, Q2, s1);
      NoRowNoSlots(q1, q2, u, Q2, s1);
    }
    assert Get(t3, u) == Described(q1 + q2 + spr, u, s3) && (FirstRowOf(q1 + q2 + spr, u).None? ==> NoSlots(s3)) by {
      FoldStepDescribed(t2, q1 + q2, spr, u, Spr, s2);
      NoRowNoSlots(q1 + q2, spr, u, Spr, s2);
    }
    assert Get(UpFold(t3, rac, Rac), u) == Described(q1 + q2 + spr + rac, u, Slots(q1, q2, spr, rac, u)) by {
      FoldStepDescribed(t3, q1 + q2 + spr, rac, u, Rac, s3);
    }
    DescribedIsExpected(q1, q2, spr, rac, u);
  }

  // ---------------------------------------------------------------------------
  // buildUpserts

  /** `(a) || (b) || null` over numbers: the first present non-zero value, else null. */
  function FirstTruthy(a: Option<int>, b: Option<int>): (r: Option<int>)
    ensures r.Some? ==> r.value != 0 && (r == a || r == b)
    ensures a.Some? && a.value != 0 ==> r == a
    ensures r.None? <==> (a.None? || a.value == 0) && (b.None? || b.value == 0)
  {
    if a.Some? && a.value != 0 then a
    else if b.Some? && b.value != 0 then b
    else None
  }

  function PositionOf(s: Option<Slot>): Option<int> {
    if s.Some? then Some(s.value.position) else None
  }

  function PointsOf(s: Option<Slot>): Option<int> {
    if s.Some? then s.value.points else None
  }

  /** The rider id for a rider number; an unknown number or an id of 0 resolves to nothing. */
  function ResolveRider(numberToId: map<int, int>, number: Option<int>): Option<int> {
    if number.Some? && number.value in numberToId && numberToId[number.value] != 0
    then Some(numberToId[number.value]) else None
  }

  function UpsertRow(championshipId: int, calendarId: int, riderId: int, e: RiderEntry): ResultRow {
    ResultRow(championshipId, calendarId, riderId,
              FirstTruthy(PositionOf(e.q1), PositionOf(e.q2)),
              FirstTruthy(PointsOf(e.q1), PointsOf(e.q2)),
              FirstTruthy(PositionOf(e.spr), None),
              FirstTruthy(PointsOf(e.spr), None),
              FirstTruthy(PositionOf(e.rac), None),
              FirstTruthy(PointsOf(e.rac), None))
  }

  /** A session value that `||` keeps: present and not 0. */
  predicate Truthy(v: Option<int>) {
    v.Some? && v.value != 0
  }

  /** The fields of a built row, each chosen on its own: the qualifying position is Q1's when
      that is truthy, else Q2's, else null, and the qualifying points independently likewise;
      sprint and race fields are the session's own, with 0 or an absent session written as null. */
  lemma UpsertRowFields(championshipId: int, calendarId: int, riderId: int, e: RiderEntry)
    ensures var row := UpsertRow(championshipId, calendarId, riderId, e);
      row.Key() == ResultKey(championshipId, riderId, calendarId) &&
      (e.q1.Some? && e.q1.value.position != 0 ==> row.qualifyingPosition == Some(e.q1.value.position)) &&
      ((e.q1.None? || e.q1.value.position == 0) && e.q2.Some? && e.q2.value.position != 0 ==>
         row.qualifyingPosition == Some(e.q2.value.position)) &&
      ((e.q1.None? || e.q1.value.position == 0) && (e.q2.None? || e.q2.value.position == 0) ==>
         row.qualifyingPosition.None?)
    ensures var row := UpsertRow(championshipId, calendarId, riderId, e);
      (e.q1.Some? && Truthy(e.q1.value.points) ==> row.qualifyingPoints == e.q1.value.points) &&
      (!(e.q1.Some? && Truthy(e.q1.value.points)) && e.q2.Some? && Truthy(e.q2.value.points) ==>
         row.qualifyingPoints == e.q2.value.points) &&
      (!(e.q1.Some? && Truthy(e.q1.value.points)) && !(e.q2.Some? && Truthy(e.q2.value.points)) ==>
         row.qualifyingPoints.None?)
    ensures var row := UpsertRow(championshipId, calendarId, riderId, e);
      (e.spr.Some? && e.spr.value.position != 0 ==> row.sprintPosition == Some(e.spr.value.position)) &&
      (e.spr.None? || e.spr.value.position == 0 ==> row.sprintPosition.None?) &&
      (e.spr.Some? && Truthy(e.spr.value.points) ==> row.sprintPoints == e.spr.value.points) &&
      (!(e.spr.Some? && Truthy(e.spr.value.points)) ==> row.sprintPoints.None?)
    ensures var row := UpsertRow(championshipId, calendarId, riderId, e);
      (e.rac.Some? && e.rac.value.position != 0 ==> row.racePosition == Some(e.rac.value.position)) &&
      (e.rac.None? || e.rac.value.position == 0 ==> row.racePosition.None?) &&
      (e.rac.Some? && Truthy(e.rac.value.points) ==> row.racePoints == e.rac.value.points) &&
      (!(e.rac.Some? && Truthy(e.rac.value.points)) ==> row.racePoints.None?)
  {
  }

  /** The two qualifying fields fall back separately, so a row can pair the Q1 position with the
      Q2 points: here a rider 16th after the Q1 shift, which earns nothing, and 3rd in Q2. */
  lemma QualifyingFieldsMix(championshipId: int, calendarId: int, riderId: int)
    ensures var e := RiderEntry("u", Some(7), "", "", Some(Slot(16, Some(MotoGPPoints(16)))),
                                Some(Slot(3, Some(MotoGPPoints(3)))), None, None);
      var row := UpsertRow(championshipId, calendarId, riderId, e);
      row.qualifyingPosition == Some(16) && row.qualifyingPoints == Some(16)
  {
    assert MotoGPPoints(16) == 0 && MotoGPPoints(3) == 16;
  }

  /** The rows `buildUpserts` produces, in merge order. */
  function Upserts(merged: seq<RiderEntry>, championshipId: int, calendarId: int, numberToId: map<int, int>)
    : seq<ResultRow>
    decreases |merged|
  {
    if merged == [] then []
    else
      var e := merged[|merged| - 1];
      var id := ResolveRider(numberToId, e.riderNumber);
      Upserts(merged[..|merged| - 1], championshipId, calendarId, numberToId) +
        (if id.Some? then [UpsertRow(championshipId, calendarId, id.value, e)] else [])
  }

  /** Riders whose number does not resolve are skipped, so there are never more rows than
      merged entries; every other entry gives exactly its row. */
  lemma {:induction false} UpsertsFiltered(merged: seq<RiderEntry>, championshipId: int, calendarId: int,
                                          numberToId: map<int, int>)
    ensures var out := Upserts(merged, championshipId, calendarId, numberToId);
      |out| <= |merged| &&
      (forall row :: row in out ==>
         (exists e :: e in merged && ResolveRider(numberToId, e.riderNumber).Some? &&
            row == UpsertRow(championshipId, calendarId, ResolveRider(numberToId, e.riderNumber).value, e))) &&
      (forall e :: e in merged && ResolveRider(numberToId, e.riderNumber).Some? ==>
         UpsertRow(championshipId, calendarId, ResolveRider(numberToId, e.riderNumber).value, e) in out)
    decreases |merged|
  {
    if merged != [] {
      var init := merged[..|merged| - 1];
      UpsertsFiltered(init, championshipId, calendarId, numberToId);
      assert merged == init + [merged[|merged| - 1]];
    }
  }

  /** `buildUpserts`: one row per merged entry whose rider number resolves, in merge order. */
  method BuildUpserts(merged: seq<RiderEntry>, championshipId: int, calendarId: int, numberToId: map<int, int>)
    returns (out: seq<ResultRow>)
    ensures out == Upserts(merged, championshipId, calendarId, numberToId)
  {
    out := [];
    var i := 0;
    while i < |merged|
      invariant 0 <= i <= |merged|
      invariant out == Upserts(merged[..i], championshipId, calendarId, numberToId)
    {
      assert merged[..i + 1][..i] == merged[..i];
      var r := merged[i];
      var riderId := ResolveRider(numberToId, r.riderNumber);
      if riderId.Some? {
        out := out + [UpsertRow(championshipId, calendarId, riderId.value, r)];
      }
      i := i + 1;
    }
    assert merged[..i] == merged;
  }

  // ---------------------------------------------------------------------------
  // The session finder

  /** A Pulselive session: `sessionType` is "" when `type` is missing. */
  datatype Session = Session(id: string, sessionType: string, number: Option<int>)

  predicate SessionMatches(x: Session, code: string) {
    if code == "Q1" || code == "Q2" then
      Text.ToUpper(x.sessionType) == "Q" && x.number == Some(if code == "Q1" then 1 else 2)
    else Text.ToUpper(x.sessionType) == code
  }

  /** `find`: "Q1" and "Q2" name the sessions of type Q numbered 1 and 2; any other code is
      compared with the upper-cased type. */
  function FindSession(sessions: seq<Session>, code: string): Option<string> {
    var s :=
      if code == "Q1" || code == "Q2" then
        FindFirst(sessions, (x: Session) => Text.ToUpper(x.sessionType) == "Q" &&
                                            x.number == Some(if code == "Q1" then 1 else 2))
      else FindFirst(sessions, (x: Session) => Text.ToUpper(x.sessionType) == code);
    if s.Some? then Some(s.value.id) else None
  }

  /** The finder returns the id of the first session that matches the code, and nothing
      exactly when none does. */
  lemma FindSessionFirstMatch(sessions: seq<Session>, code: string)
    ensures FindSession(sessions, code).None? <==>
      forall i :: 0 <= i < |sessions| ==> !SessionMatches(sessions[i], code)
    ensures FindSession(sessions, code).Some? ==>
      exists i :: 0 <= i < |sessions| && SessionMatches(sessions[i], code) &&
        sessions[i].id == FindSession(sessions, code).value &&
        forall j :: 0 <= j < i ==> !SessionMatches(sessions[j], code)
  {
  }

  /** A session typed "Q1" is never what the code "Q1" finds: qualifying sessions are matched
      by type Q and number. */
  lemma QualifyingCodeIgnoresTypeName(x: Session)
    requires x.sessionType == "Q1"
    ensures !SessionMatches(x, "Q1")
  {
    assert |Text.ToUpper(x.sessionType)| == 2;
  }
}
