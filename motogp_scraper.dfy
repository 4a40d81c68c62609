// The transforms of the browser-based scraper function: partial records are
// assembled from the four scraped classifications (qualifying only when both
// Q1 and Q2 were scraped), then merged into one record per (championship,
// rider, calendar) key, where the first defined value of each field wins.
// Scraping the pages, the rider query and the database write are left out.
module MotoGPScraper {
  import opened Wrappers
  import opened Collections
  import opened Points
  import opened Records

  // ---------------------------------------------------------------------------
  // mergeResults

  datatype Field = QualifyingPosition | QualifyingPoints | SprintPosition | SprintPoints | RacePosition | RacePoints

  function FieldOf(r: ResultRow, f: Field): Option<int> {
    match f
    case QualifyingPosition => r.qualifyingPosition
    case QualifyingPoints => r.qualifyingPoints
    case SprintPosition => r.sprintPosition
    case SprintPoints => r.sprintPoints
    case RacePosition => r.racePosition
    case RacePoints => r.racePoints
  }

  function RowKey(r: ResultRow): ResultKey {
    r.Key()
  }

  function Defined(a: Option<int>, b: Option<int>): Option<int> {
    if a.Some? then a else b
  }

  /** A later partial record fills only the fields still undefined; the key fields are kept. */
  function FillUndefined(cur: ResultRow, item: ResultRow): (r: ResultRow)
    ensures r.Key() == cur.Key()
    ensures forall f :: FieldOf(cur, f).Some? ==> FieldOf(r, f) == FieldOf(cur, f)
    ensures forall f :: FieldOf(cur, f).None? ==> FieldOf(r, f) == FieldOf(item, f)
  {
    ResultRow(cur.championshipId, cur.calendarId, cur.riderId,
              Defined(cur.qualifyingPosition, item.qualifyingPosition),
              Defined(cur.qualifyingPoints, item.qualifyingPoints),
              Defined(cur.sprintPosition, item.sprintPosition),
              Defined(cur.sprintPoints, item.sprintPoints),
              Defined(cur.racePosition, item.racePosition),
              Defined(cur.racePoints, item.racePoints))
  }

  /** The `merged` dictionary with its insertion order, which `Object.values` follows. */
  datatype MergeState = MergeState(byKey: map<ResultKey, ResultRow>, order: seq<ResultKey>)

  ghost predicate Consistent(st: MergeState) {
    (forall i, j :: 0 <= i < j < |st.order| ==> st.order[i] != st.order[j]) &&
    (forall k :: k in st.byKey <==> k in st.order) &&
    (forall k :: k in st.byKey ==> st.byKey[k].Key() == k)
  }

  /** One iteration of the outer loop: a new key takes a copy of the item, a known key has its
      undefined fields filled. */
  function AddPartial(st: MergeState, item: ResultRow): (r: MergeState)
    ensures Consistent(st) ==> Consistent(r)
  {
    var k := item.Key();
    if k !in st.byKey then MergeState(st.byKey[k := item], st.order + [k])
    else MergeState(st.byKey[k := FillUndefined(st.byKey[k], item)], st.order)
  }

  function MergeFold(data: seq<ResultRow>): (st: MergeState)
    ensures Consistent(st)
    decreases |data|
  {
    if data == [] then MergeState(map[], [])
    else AddPartial(MergeFold(data[..|data| - 1]), data[|data| - 1])
  }

  function Values(st: MergeState): seq<ResultRow>
    requires forall k :: k in st.order ==> k in st.byKey
  {
    seq(|st.order|, i requires 0 <= i < |st.order| => st.byKey[st.order[i]])
  }

  /** What `mergeResults` returns. */
  function Merged(data: seq<ResultRow>): seq<ResultRow> {
    Values(MergeFold(data))
  }

  /** `mergeResults`. */
  method MergeResults(data: seq<ResultRow>) returns (out: seq<ResultRow>)
    ensures out == Merged(data)
  {
    var byKey: map<ResultKey, ResultRow> := map[];
    var order: seq<ResultKey> := [];
    var i := 0;
    while i < |data|
      invariant 0 <= i <= |data|
      invariant MergeState(byKey, order) == MergeFold(data[..i])
    {
      assert data[..i + 1][..i] == data[..i];
      var item := data[i];
      var key := item.Key();
      if key !in byKey {
        byKey := byKey[key := item];
        order := order + [key];
      } else {
        byKey := byKey[key := FillUndefined(byKey[key], item)];
      }
      i := i + 1;
    }
    assert data[..i] == data;
    out := Values(MergeState(byKey, order));
  }

  /** The first value of field `f` defined by a record with key `k`, in input order. */
  function FirstDefined(data: seq<ResultRow>, k: ResultKey, f: Field): Option<int> {
    var hit := FindFirst(data, (r: ResultRow) => r.Key() == k && FieldOf(r, f).Some?);
    if hit.Some? then FieldOf(hit.value, f) else None
  }

  lemma FirstDefinedSnoc(data: seq<ResultRow>, x: ResultRow, k: ResultKey, f: Field)
    ensures FirstDefined(data + [x], k, f) ==
      if FirstDefined(data, k, f).Some? then FirstDefined(data, k, f)
      else if x.Key() == k then FieldOf(x, f) else None
  {
    var p := (r: ResultRow) => r.Key() == k && FieldOf(r, f).Some?;
    if FindFirst(data, p).Some? {
      FindFirstAppend(data, [x], p);
    } else {
      FindFirstSkipsMiss(data, [x], p);
    }
  }

  function KeySet(data: seq<ResultRow>): set<ResultKey>
    decreases |data|
  {
    if data == [] then {} else KeySet(data[..|data| - 1]) + {data[|data| - 1].Key()}
  }

  lemma {:induction false} KeySetMembers(data: seq<ResultRow>)
    ensures forall k :: k in KeySet(data) <==> exists i :: 0 <= i < |data| && data[i].Key() == k
    decreases |data|
  {
    if data != [] {
      var init, x := data[..|data| - 1], data[|data| - 1];
      KeySetMembers(init);
      assert KeySet(data) == KeySet(init) + {x.Key()};
      forall k | k in KeySet(data) ensures exists i :: 0 <= i < |data| && data[i].Key() == k {
        if k != x.Key() {
          var i :| 0 <= i < |init| && init[i].Key() == k;
          assert data[i] == init[i];
        }
      }
      forall k | exists i :: 0 <= i < |data| && data[i].Key() == k ensures k in KeySet(data) {
        var i :| 0 <= i < |data| && data[i].Key() == k;
        if i < |init| {
          assert init[i] == data[i];
        }
      }
    }
  }

  lemma {:induction false} MergeFoldKeySet(data: seq<ResultRow>)
    ensures MergeFold(data).byKey.Keys == KeySet(data)
    decreases |data|
  {
    if data != [] {
      MergeFoldKeySet(data[..|data| - 1]);
    }
  }

  /** The merge has a record for exactly the keys of the partials. */
  lemma MergeFoldKeys(data: seq<ResultRow>)
    ensures forall k :: k in MergeFold(data).byKey <==> exists i :: 0 <= i < |data| && data[i].Key() == k
  {
    MergeFoldKeySet(data);
    KeySetMembers(data);
  }

  /** Each field of a merged record is the first value a partial with its key defined. */
  lemma {:induction false} MergeFoldFields(data: seq<ResultRow>)
    ensures forall k, f :: k in MergeFold(data).byKey ==>
      FieldOf(MergeFold(data).byKey[k], f) == FirstDefined(data, k, f)
    decreases |data|
  {
    if data != [] {
      var init, x := data[..|data| - 1], data[|data| - 1];
      assert data == init + [x];
      MergeFoldFields(init);
      var st := MergeFold(init);
      forall k, f | k in MergeFold(data).byKey
        ensures FieldOf(MergeFold(data).byKey[k], f) == FirstDefined(data, k, f)
      {
        FirstDefinedSnoc(init, x, k, f);
        if k == x.Key() && k !in st.byKey {
          var p := (r: ResultRow) => r.Key() == k && FieldOf(r, f).Some?;
          assert FindFirst(init, p).None? by {
            MergeFoldKeys(init);
          }
        }
      }
    }
  }

  lemma MergedKeysDistinct(data: seq<ResultRow>)
    ensures |Merged(data)| <= |data|
    ensures InjectiveOn(Merged(data), RowKey)
  {
    var st := MergeFold(data);
    var out := Merged(data);
    KeysBound(data);
    forall i, j | 0 <= i < j < |out| ensures RowKey(out[i]) != RowKey(out[j]) {
      assert out[i].Key() == st.order[i];
    }
  }

  lemma MergedKeysCovered(data: seq<ResultRow>)
    ensures forall r :: r in Merged(data) ==> exists d :: d in data && d.Key() == r.Key()
    ensures forall d :: d in data ==> exists r :: r in Merged(data) && r.Key() == d.Key()
  {
    var st := MergeFold(data);
    var out := Merged(data);
    MergeFoldKeys(data);
    forall r | r in out ensures exists d :: d in data && d.Key() == r.Key() {
      var i :| 0 <= i < |out| && out[i] == r;
      assert st.order[i] in st.byKey;
      var m :| 0 <= m < |data| && data[m].Key() == st.order[i];
      assert data[m] in data;
    }
    forall d | d in data ensures exists r :: r in out && r.Key() == d.Key() {
      var m :| 0 <= m < |data| && data[m] == d;
      assert d.Key() in st.order;
      var i :| 0 <= i < |st.order| && st.order[i] == d.Key();
      assert out[i] in out && out[i].Key() == d.Key();
    }
  }

  lemma MergedFields(data: seq<ResultRow>)
    ensures forall r, f :: r in Merged(data) ==> FieldOf(r, f) == FirstDefined(data, r.Key(), f)
  {
    var st := MergeFold(data);
    var out := Merged(data);
    MergeFoldFields(data);
    forall r, f | r in out ensures FieldOf(r, f) == FirstDefined(data, r.Key(), f) {
      var i :| 0 <= i < |out| && out[i] == r;
      assert r == st.byKey[st.order[i]];
    }
  }

  /** The merge holds one record per distinct key, no more records than partials, and each field
      of a record is the first value any partial with that key defined for it. */
  lemma MergedRecords(data: seq<ResultRow>)
    ensures var out := Merged(data);
      |out| <= |data| &&
      InjectiveOn(out, RowKey) &&
      (forall r :: r in out ==> exists d :: d in data && d.Key() == r.Key()) &&
      (forall d :: d in data ==> exists r :: r in out && r.Key() == d.Key()) &&
      (forall r, f :: r in out ==> FieldOf(r, f) == FirstDefined(data, r.Key(), f))
  {
    MergedKeysDistinct(data);
    MergedKeysCovered(data);
    MergedFields(data);
  }

  lemma {:induction false} KeysBound(data: seq<ResultRow>)
    ensures |MergeFold(data).order| <= |data|
    decreases |data|
  {
    if data != [] {
      KeysBound(data[..|data| - 1]);
    }
  }

  lemma {:induction false} MergeFoldOfUnique(data: seq<ResultRow>)
    requires InjectiveOn(data, RowKey)
    ensures |MergeFold(data).order| == |data|
    ensures forall i :: 0 <= i < |data| ==>
      MergeFold(data).order[i] == data[i].Key() && MergeFold(data).byKey[data[i].Key()] == data[i]
    decreases |data|
  {
    if data != [] {
      var init := data[..|data| - 1];
      var x := data[|data| - 1];
      assert InjectiveOn(init, RowKey) by {
        forall i, j | 0 <= i < j < |init| ensures RowKey(init[i]) != RowKey(init[j]) {
          assert init[i] == data[i] && init[j] == data[j];
        }
      }
      MergeFoldOfUnique(init);
      var st := MergeFold(init);
      assert x.Key() !in st.order by {
        forall i | 0 <= i < |init| ensures st.order[i] != x.Key() {
          assert RowKey(data[i]) != RowKey(data[|data| - 1]);
        }
      }
      assert MergeFold(data) == MergeState(st.byKey[x.Key() := x], st.order + [x.Key()]);
      forall i | 0 <= i < |data|
        ensures MergeFold(data).order[i] == data[i].Key() && MergeFold(data).byKey[data[i].Key()] == data[i]
      {
        if i < |init| {
          assert data[i] == init[i];
          assert RowKey(data[i]) != RowKey(x);
        }
      }
    }
  }

  /** Partials whose keys are already distinct come out of the merge unchanged. */
  lemma MergeOfDistinctKeys(data: seq<ResultRow>)
    requires InjectiveOn(data, RowKey)
    ensures Merged(data) == data
  {
    MergeFoldOfUnique(data);
  }

  /** `mergeResults` is idempotent. */
  lemma MergeIdempotent(data: seq<ResultRow>)
    ensures Merged(Merged(data)) == Merged(data)
  {
    MergedRecords(data);
    MergeOfDistinctKeys(Merged(data));
  }

  // ---------------------------------------------------------------------------
  // Assembling the partial records

  /** A scraped classification row; the rider number is the text of the page's cell. */
  datatype ScrapedRow = ScrapedRow(position: int, points: Option<int>, riderNumber: string,
                                   riderName: string, team: string)

  datatype Part = Qualifying | Sprint | Race

  /** `riderMap.get(number)`, with an unknown number or an id of 0 resolving to nothing. */
  function ResolveNumber(riderMap: map<string, int>, number: string): Option<int> {
    if number in riderMap && riderMap[number] != 0 then Some(riderMap[number]) else None
  }

  /** The partial record one row contributes: its key and the one pair of fields of its part. */
  function PartialFor(row: ScrapedRow, part: Part, championshipId: int, calendarId: int, riderId: int)
    : (r: ResultRow)
    ensures r.Key() == ResultKey(championshipId, riderId, calendarId)
    ensures part == Qualifying <==> r.qualifyingPosition.Some?
    ensures part == Sprint <==> r.sprintPosition.Some?
    ensures part == Race <==> r.racePosition.Some?
    ensures part != Qualifying ==> r.qualifyingPoints.None?
    ensures part != Sprint ==> r.sprintPoints.None?
    ensures part != Race ==> r.racePoints.None?
    ensures part == Qualifying ==>
      r.qualifyingPosition == Some(row.position) && r.qualifyingPoints == Some(MotoGPPoints(row.position))
    ensures part == Sprint ==> r.sprintPosition == Some(row.position) && r.sprintPoints == row.points
    ensures part == Race ==> r.racePosition == Some(row.position) && r.racePoints == row.points
  {
    var base := KeyOnly(championshipId, calendarId, riderId);
    match part
    case Qualifying =>
      base.(qualifyingPosition := Some(row.position), qualifyingPoints := Some(MotoGPPoints(row.position)))
    case Sprint => base.(sprintPosition := Some(row.position), sprintPoints := row.points)
    case Race => base.(racePosition := Some(row.position), racePoints := row.points)
  }

  /** Q1 without its first two rows, positions moved back by ten. */
  function Q1Fixed(q1: seq<ScrapedRow>): (r: seq<ScrapedRow>)
    ensures |r| == if |q1| < 2 then 0 else |q1| - 2
    ensures forall i :: 0 <= i < |r| ==> r[i] == q1[i + 2].(position := q1[i + 2].position + 10)
  {
    if |q1| < 2 then []
    else seq(|q1| - 2, i requires 0 <= i < |q1| - 2 => q1[i + 2].(position := q1[i + 2].position + 10))
  }

  function PartialsOf(rows: seq<ScrapedRow>, part: Part, championshipId: int, calendarId: int,
                      riderMap: map<string, int>): seq<ResultRow>
    decreases |rows|
  {
    if rows == [] then []
    else
      var row := rows[|rows| - 1];
      var id := ResolveNumber(riderMap, row.riderNumber);
      PartialsOf(rows[..|rows| - 1], part, championshipId, calendarId, riderMap) +
        (if id.Some? then [PartialFor(row, part, championshipId, calendarId, id.value)] else [])
  }

  /** All partial records: qualifying (Q2 rows, then fixed Q1 rows) only when both sessions have
      rows, then sprint, then race. */
  function Partials(q1: seq<ScrapedRow>, q2: seq<ScrapedRow>, spr: seq<ScrapedRow>, rac: seq<ScrapedRow>,
                    championshipId: int, calendarId: int, riderMap: map<string, int>): seq<ResultRow>
  {
    (if |q1| > 0 && |q2| > 0
     then PartialsOf(q2 + Q1Fixed(q1), Qualifying, championshipId, calendarId, riderMap) else []) +
    PartialsOf(spr, Sprint, championshipId, calendarId, riderMap) +
    PartialsOf(rac, Race, championshipId, calendarId, riderMap)
  }

  /** One of the three `for` loops: appends the partials of one part. */
  method CollectPartials(partials: seq<ResultRow>, rows: seq<ScrapedRow>, part: Part,
                         championshipId: int, calendarId: int, riderMap: map<string, int>)
    returns (out: seq<ResultRow>)
    ensures out == partials + PartialsOf(rows, part, championshipId, calendarId, riderMap)
  {
    out := partials;
    var i := 0;
    while i < |rows|
      invariant 0 <= i <= |rows|
      invariant out == partials + PartialsOf(rows[..i], part, championshipId, calendarId, riderMap)
    {
      assert rows[..i + 1][..i] == rows[..i];
      var row := rows[i];
      var riderId := ResolveNumber(riderMap, row.riderNumber);
      if riderId.Some? {
        out := out + [PartialFor(row, part, championshipId, calendarId, riderId.value)];
      }
      i := i + 1;
    }
    assert rows[..i] == rows;
  }

  /** The partial records of one scrape, merged. */
  method AssembleResults(q1: seq<ScrapedRow>, q2: seq<ScrapedRow>, spr: seq<ScrapedRow>, rac: seq<ScrapedRow>,
                         championshipId: int, calendarId: int, riderMap: map<string, int>)
    returns (records: seq<ResultRow>)
    ensures records == Merged(Partials(q1, q2, spr, rac, championshipId, calendarId, riderMap))
  {
    var partials: seq<ResultRow> := [];
    if |q1| > 0 && |q2| > 0 {
      var qualifyingData := q2 + Q1Fixed(q1);
      partials := CollectPartials(partials, qualifyingData, Qualifying, championshipId, calendarId, riderMap);
      assert partials == PartialsOf(qualifyingData, Qualifying, championshipId, calendarId, riderMap);
    }
    ghost var qualifying := partials;
    assert qualifying == if |q1| > 0 && |q2| > 0
      then PartialsOf(q2 + Q1Fixed(q1), Qualifying, championshipId, calendarId, riderMap) else [];
    partials := CollectPartials(partials, spr, Sprint, championshipId, calendarId, riderMap);
    partials := CollectPartials(partials, rac, Race, championshipId, calendarId, riderMap);
    assert partials == qualifying + PartialsOf(spr, Sprint, championshipId, calendarId, riderMap) +
                       PartialsOf(rac, Race, championshipId, calendarId, riderMap);
    records := MergeResults(partials);
  }

  /** Each partial comes from a row whose rider number resolves, carries that rider's key and
      sets only its part's fields; every such row gives one. */
  lemma {:induction false} PartialsOfRows(rows: seq<ScrapedRow>, part: Part, championshipId: int, calendarId: int,
                                         riderMap: map<string, int>)
    ensures var ps := PartialsOf(rows, part, championshipId, calendarId, riderMap);
      |ps| <= |rows| &&
      (forall p :: p in ps ==>
         (exists row :: row in rows && ResolveNumber(riderMap, row.riderNumber) == Some(p.riderId) &&
            p == PartialFor(row, part, championshipId, calendarId, p.riderId))) &&
      (forall row :: row in rows && ResolveNumber(riderMap, row.riderNumber).Some? ==>
         PartialFor(row, part, championshipId, calendarId, ResolveNumber(riderMap, row.riderNumber).value) in ps)
    decreases |rows|
  {
    if rows != [] {
      PartialsOfRows(rows[..|rows| - 1], part, championshipId, calendarId, riderMap);
      assert rows == rows[..|rows| - 1] + [rows[|rows| - 1]];
    }
  }

  lemma {:induction false} PartialsOfAppend(a: seq<ScrapedRow>, b: seq<ScrapedRow>, part: Part,
                                           championshipId: int, calendarId: int, riderMap: map<string, int>)
    ensures PartialsOf(a + b, part, championshipId, calendarId, riderMap) ==
            PartialsOf(a, part, championshipId, calendarId, riderMap) +
            PartialsOf(b, part, championshipId, calendarId, riderMap)
    decreases |b|
  {
    if b == [] {
      assert a + b == a;
    } else {
      var b' := b[..|b| - 1];
      assert (a + b)[..|a + b| - 1] == a + b';
      PartialsOfAppend(a, b', part, championshipId, calendarId, riderMap);
    }
  }

  /** A qualifying partial from the fixed Q1 rows comes from a Q1 row after the first two, with
      that row's position moved back by ten and the table points of the moved position. */
  lemma Q1PartialsShifted(q1: seq<ScrapedRow>, championshipId: int, calendarId: int, riderMap: map<string, int>)
    ensures forall p :: p in PartialsOf(Q1Fixed(q1), Qualifying, championshipId, calendarId, riderMap) ==>
      exists i :: 2 <= i < |q1| && ResolveNumber(riderMap, q1[i].riderNumber) == Some(p.riderId) &&
        p.qualifyingPosition == Some(q1[i].position + 10) &&
        p.qualifyingPoints == Some(MotoGPPoints(q1[i].position + 10))
  {
    var fixed := Q1Fixed(q1);
    PartialsOfRows(fixed, Qualifying, championshipId, calendarId, riderMap);
    forall p | p in PartialsOf(fixed, Qualifying, championshipId, calendarId, riderMap)
      ensures exists i :: 2 <= i < |q1| && ResolveNumber(riderMap, q1[i].riderNumber) == Some(p.riderId) &&
                          p.qualifyingPosition == Some(q1[i].position + 10) &&
                          p.qualifyingPoints == Some(MotoGPPoints(q1[i].position + 10))
    {
      var row :| row in fixed && ResolveNumber(riderMap, row.riderNumber) == Some(p.riderId) &&
                 p == PartialFor(row, Qualifying, championshipId, calendarId, p.riderId);
      var j :| 0 <= j < |fixed| && fixed[j] == row;
      assert row.riderNumber == q1[j + 2].riderNumber && row.position == q1[j + 2].position + 10;
    }
  }

  /** Without both Q1 and Q2 rows no record carries qualifying values. */
  lemma QualifyingNeedsBothSessions(q1: seq<ScrapedRow>, q2: seq<ScrapedRow>, spr: seq<ScrapedRow>,
                                    rac: seq<ScrapedRow>, championshipId: int, calendarId: int,
                                    riderMap: map<string, int>)
    requires q1 == [] || q2 == []
    ensures forall p :: p in Partials(q1, q2, spr, rac, championshipId, calendarId, riderMap) ==>
      p.qualifyingPosition.None? && p.qualifyingPoints.None?
  {
    PartialsOfRows(spr, Sprint, championshipId, calendarId, riderMap);
    PartialsOfRows(rac, Race, championshipId, calendarId, riderMap);
  }

  /** The partials of one part all carry the scrape's key fields and a mapped, non-zero rider. */
  lemma PartialsMapped(rows: seq<ScrapedRow>, part: Part, championshipId: int, calendarId: int,
                       riderMap: map<string, int>)
    ensures forall p :: p in PartialsOf(rows, part, championshipId, calendarId, riderMap) ==>
      p.championshipId == championshipId && p.calendarId == calendarId &&
      exists number :: number in riderMap && riderMap[number] == p.riderId != 0
  {
    PartialsOfRows(rows, part, championshipId, calendarId, riderMap);
    forall p | p in PartialsOf(rows, part, championshipId, calendarId, riderMap)
      ensures p.championshipId == championshipId && p.calendarId == calendarId &&
        exists number :: number in riderMap && riderMap[number] == p.riderId != 0
    {
      var row :| row in rows && ResolveNumber(riderMap, row.riderNumber) == Some(p.riderId) &&
                 p == PartialFor(row, part, championshipId, calendarId, p.riderId);
      assert row.riderNumber in riderMap && riderMap[row.riderNumber] == p.riderId != 0;
    }
  }

  /** Riders whose number is not in the map, or maps to 0, produce no record. */
  lemma UnmappedRidersProduceNothing(q1: seq<ScrapedRow>, q2: seq<ScrapedRow>, spr: seq<ScrapedRow>,
                                     rac: seq<ScrapedRow>, championshipId: int, calendarId: int,
                                     riderMap: map<string, int>)
    ensures forall p :: p in Partials(q1, q2, spr, rac, championshipId, calendarId, riderMap) ==>
      p.championshipId == championshipId && p.calendarId == calendarId &&
      exists number :: number in riderMap && riderMap[number] == p.riderId != 0
  {
    PartialsMapped(q2 + Q1Fixed(q1), Qualifying, championshipId, calendarId, riderMap);
    PartialsMapped(spr, Sprint, championshipId, calendarId, riderMap);
    PartialsMapped(rac, Race, championshipId, calendarId, riderMap);
  }

  /** The first partial defining a qualifying position for a rider present in Q2 comes from a
      Q2 row of that rider. */
  lemma FirstQualifyingFromQ2(q1: seq<ScrapedRow>, q2: seq<ScrapedRow>, spr: seq<ScrapedRow>, rac: seq<ScrapedRow>,
                              championshipId: int, calendarId: int, riderMap: map<string, int>, row: ScrapedRow)
    requires |q1| > 0 && row in q2
    requires ResolveNumber(riderMap, row.riderNumber).Some?
    ensures var id := ResolveNumber(riderMap, row.riderNumber).value;
      var all := Partials(q1, q2, spr, rac, championshipId, calendarId, riderMap);
      exists r2 :: r2 in q2 && ResolveNumber(riderMap, r2.riderNumber) == Some(id) &&
        FirstDefined(all, ResultKey(championshipId, id, calendarId), QualifyingPosition) == Some(r2.position)
  {
    var id := ResolveNumber(riderMap, row.riderNumber).value;
    var k := ResultKey(championshipId, id, calendarId);
    var fromQ2 := PartialsOf(q2, Qualifying, championshipId, calendarId, riderMap);
    var rest := PartialsOf(Q1Fixed(q1), Qualifying, championshipId, calendarId, riderMap) +
                PartialsOf(spr, Sprint, championshipId, calendarId, riderMap) +
                PartialsOf(rac, Race, championshipId, calendarId, riderMap);
    var all := Partials(q1, q2, spr, rac, championshipId, calendarId, riderMap);
    PartialsOfAppend(q2, Q1Fixed(q1), Qualifying, championshipId, calendarId, riderMap);
    assert all == fromQ2 + rest;
    PartialsOfRows(q2, Qualifying, championshipId, calendarId, riderMap);
    var p := (r: ResultRow) => r.Key() == k && FieldOf(r, QualifyingPosition).Some?;
    var mine := PartialFor(row, Qualifying, championshipId, calendarId, id);
    assert FindFirst(fromQ2, p).Some? by {
      assert mine in fromQ2;
      var i :| 0 <= i < |fromQ2| && fromQ2[i] == mine;
      assert p(fromQ2[i]);
    }
    FindFirstAppend(fromQ2, rest, p);
    var hit := FindFirst(fromQ2, p).value;
    assert hit in fromQ2 && hit.Key() == k;
    var r2 :| r2 in q2 && ResolveNumber(riderMap, r2.riderNumber) == Some(hit.riderId) &&
              hit == PartialFor(r2, Qualifying, championshipId, calendarId, hit.riderId);
    assert FirstDefined(all, k, QualifyingPosition) == Some(r2.position);
  }

  /** Q2 rows come before the fixed Q1 rows, so a rider present in Q2 keeps a Q2 qualifying
      position in the merged record, whatever Q1 held. */
  lemma Q2WinsOnConflict(q1: seq<ScrapedRow>, q2: seq<ScrapedRow>, spr: seq<ScrapedRow>, rac: seq<ScrapedRow>,
                         championshipId: int, calendarId: int, riderMap: map<string, int>, row: ScrapedRow)
    requires |q1| > 0 && row in q2
    requires ResolveNumber(riderMap, row.riderNumber).Some?
    ensures var id := ResolveNumber(riderMap, row.riderNumber).value;
      forall rec :: rec in Merged(Partials(q1, q2, spr, rac, championshipId, calendarId, riderMap)) &&
                    rec.riderId == id ==>
        exists r2 :: r2 in q2 && ResolveNumber(riderMap, r2.riderNumber) == Some(id) &&
                     rec.qualifyingPosition == Some(r2.position)
  {
    var id := ResolveNumber(riderMap, row.riderNumber).value;
    var k := ResultKey(championshipId, id, calendarId);
    var all := Partials(q1, q2, spr, rac, championshipId, calendarId, riderMap);
    FirstQualifyingFromQ2(q1, q2, spr, rac, championshipId, calendarId, riderMap, row);
    MergedKeysCovered(all);
    MergedFields(all);
    forall rec | rec in Merged(all) && rec.riderId == id
      ensures exists r2 :: r2 in q2 && ResolveNumber(riderMap, r2.riderNumber) == Some(id) &&
                           rec.qualifyingPosition == Some(r2.position)
    {
      var d :| d in all && d.Key() == rec.Key();
      PartialKeys(q1, q2, spr, rac, championshipId, calendarId, riderMap, d);
      assert rec.Key() == k;
      assert FieldOf(rec, QualifyingPosition) == FirstDefined(all, k, QualifyingPosition);
    }
  }

  lemma PartialKeys(q1: seq<ScrapedRow>, q2: seq<ScrapedRow>, spr: seq<ScrapedRow>, rac: seq<ScrapedRow>,
                    championshipId: int, calendarId: int, riderMap: map<string, int>, d: ResultRow)
    requires d in Partials(q1, q2, spr, rac, championshipId, calendarId, riderMap)
    ensures d.championshipId == championshipId && d.calendarId == calendarId
  {
    UnmappedRidersProduceNothing(q1, q2, spr, rac, championshipId, calendarId, riderMap);
  }
}
