// Sprint bets: the PUT handler's validation chain and keyed upsert, and the
// keyed DELETE. The `sprint_bets` table is a sequence of rows with a unique
// (championship, user, calendar, rider) key; the championship's configuration
// row supplies three limits, each disabled when it is null or 0.
module SprintBets {
  import opened Wrappers
  import opened Collections

  type UserId = string

  datatype SprintBet = SprintBet(championshipId: int, userId: UserId, calendarId: int, riderId: int,
                                 position: int, points: int)

  /** The upsert and delete key. */
  datatype BetKey = BetKey(championshipId: int, userId: UserId, calendarId: int, riderId: int)

  function KeyOf(b: SprintBet): BetKey {
    BetKey(b.championshipId, b.userId, b.calendarId, b.riderId)
  }

  /** `bets_limit_sprint_points`, `bets_limit_sprint_race`, `bets_limit_sprint_driver`. */
  datatype Limits = Limits(pointsLimit: Option<int>, raceLimit: Option<int>, riderLimit: Option<int>)

  /** The request body; `stake` is `parseInt(points, 10)`, with `None` for NaN. */
  datatype PutRequest = PutRequest(calendarId: int, riderId: int, position: int, stake: Option<int>)

  datatype BetError =
    | InvalidStake
    | ConfigurationUnavailable
    | PointsBudgetExceeded(remaining: int)
    | RaceBetLimitReached(limit: int)
    | RiderBetLimitReached(limit: int)

  /** A limit takes part only when it is set and non-zero (JavaScript truthiness). */
  predicate Enabled(limit: Option<int>) {
    limit.Some? && limit.value != 0
  }

  /** The user's bets in the championship, as the handler loads them. */
  function UserBets(rows: seq<SprintBet>, championshipId: int, userId: UserId): (r: seq<SprintBet>)
    ensures forall b :: b in r <==> b in rows && b.championshipId == championshipId && b.userId == userId
  {
    if rows == [] then []
    else
      (if rows[0].championshipId == championshipId && rows[0].userId == userId then [rows[0]] else [])
        + UserBets(rows[1..], championshipId, userId)
  }

  /** Stakes already placed on race `calendarId`: a sum from 0 (see the finding on `reduce`). */
  function PointsOnRace(bets: seq<SprintBet>, calendarId: int): int {
    if bets == [] then 0
    else (if bets[0].calendarId == calendarId then bets[0].points else 0) + PointsOnRace(bets[1..], calendarId)
  }

  function BetsOnRace(bets: seq<SprintBet>, calendarId: int): nat {
    if bets == [] then 0
    else (if bets[0].calendarId == calendarId then 1 else 0) + BetsOnRace(bets[1..], calendarId)
  }

  function BetsOnRider(bets: seq<SprintBet>, riderId: int): nat {
    if bets == [] then 0
    else (if bets[0].riderId == riderId then 1 else 0) + BetsOnRider(bets[1..], riderId)
  }

  predicate ValidStake(stake: Option<int>) {
    stake.Some? && stake.value >= 1
  }

  /** The validation chain: stake, configuration, points budget, bets on this race, bets on this
      rider. The existing bets are counted as they are, including one with the request's own key. */
  function CheckSprintBet(limits: Option<Limits>, existing: seq<SprintBet>, req: PutRequest): Result<int, BetError> {
    if !ValidStake(req.stake) then Failure(InvalidStake)
    else if limits.None? then Failure(ConfigurationUnavailable)
    else
      var l, stake := limits.value, req.stake.value;
      var total := PointsOnRace(existing, req.calendarId);
      if Enabled(l.pointsLimit) && total + stake > l.pointsLimit.value then
        Failure(PointsBudgetExceeded(l.pointsLimit.value - total))
      else if Enabled(l.raceLimit) && BetsOnRace(existing, req.calendarId) >= l.raceLimit.value then
        Failure(RaceBetLimitReached(l.raceLimit.value))
      else if Enabled(l.riderLimit) && BetsOnRider(existing, req.riderId) >= l.riderLimit.value then
        Failure(RiderBetLimitReached(l.riderLimit.value))
      else Success(stake)
  }

  // ---------------------------------------------------------------------------
  // Properties of the validation chain

  /** A request is accepted exactly when its stake is a positive integer, the configuration is
      there and each enabled limit holds; the accepted stake is the requested one. */
  lemma AcceptedIffWithinLimits(limits: Option<Limits>, existing: seq<SprintBet>, req: PutRequest)
    ensures CheckSprintBet(limits, existing, req).Success? <==>
      ValidStake(req.stake) && limits.Some? &&
      (Enabled(limits.value.pointsLimit) ==>
         PointsOnRace(existing, req.calendarId) + req.stake.value <= limits.value.pointsLimit.value) &&
      (Enabled(limits.value.raceLimit) ==>
         BetsOnRace(existing, req.calendarId) < limits.value.raceLimit.value) &&
      (Enabled(limits.value.riderLimit) ==>
         BetsOnRider(existing, req.riderId) < limits.value.riderLimit.value)
    ensures CheckSprintBet(limits, existing, req).Success? ==>
      CheckSprintBet(limits, existing, req).value == req.stake.value
  {
  }

  /** A stake that is missing or below 1 is rejected before any other check. */
  lemma StakeCheckedFirst(limits: Option<Limits>, existing: seq<SprintBet>, req: PutRequest)
    requires !ValidStake(req.stake)
    ensures CheckSprintBet(limits, existing, req) == Failure(InvalidStake)
  {
  }

  /** Reaching the points budget exactly is allowed; one point more is refused. */
  lemma BudgetBoundary(limits: Limits, existing: seq<SprintBet>, req: PutRequest)
    requires ValidStake(req.stake) && Enabled(limits.pointsLimit)
    ensures PointsOnRace(existing, req.calendarId) + req.stake.value == limits.pointsLimit.value ==>
      !CheckSprintBet(Some(limits), existing, req).Failure? ||
      !CheckSprintBet(Some(limits), existing, req).error.PointsBudgetExceeded?
    ensures PointsOnRace(existing, req.calendarId) + req.stake.value == limits.pointsLimit.value + 1 ==>
      CheckSprintBet(Some(limits), existing, req) == Failure(PointsBudgetExceeded(req.stake.value - 1))
  {
  }

  /** The checks fire in the order budget, race count, rider count. */
  lemma ChecksInOrder(limits: Limits, existing: seq<SprintBet>, req: PutRequest)
    requires ValidStake(req.stake)
    ensures var r := CheckSprintBet(Some(limits), existing, req);
      (r.Failure? && r.error.RaceBetLimitReached?) ==>
        !Enabled(limits.pointsLimit) ||
        PointsOnRace(existing, req.calendarId) + req.stake.value <= limits.pointsLimit.value
    ensures var r := CheckSprintBet(Some(limits), existing, req);
      (r.Failure? && r.error.RiderBetLimitReached?) ==>
        (!Enabled(limits.pointsLimit) ||
         PointsOnRace(existing, req.calendarId) + req.stake.value <= limits.pointsLimit.value) &&
        (!Enabled(limits.raceLimit) || BetsOnRace(existing, req.calendarId) < limits.raceLimit.value)
  {
  }

  /** With every limit null or 0, a positive stake is always accepted. */
  lemma DisabledLimitsAccept(limits: Limits, existing: seq<SprintBet>, req: PutRequest)
    requires ValidStake(req.stake)
    requires !Enabled(limits.pointsLimit) && !Enabled(limits.raceLimit) && !Enabled(limits.riderLimit)
    ensures CheckSprintBet(Some(limits), existing, req) == Success(req.stake.value)
  {
  }

  lemma {:induction false} CountsAtLeastOne(bets: seq<SprintBet>, b: SprintBet)
    requires b in bets
    ensures BetsOnRace(bets, b.calendarId) >= 1
    ensures BetsOnRider(bets, b.riderId) >= 1
    ensures (forall x :: x in bets ==> x.points >= 0) ==> PointsOnRace(bets, b.calendarId) >= b.points
  {
    if bets[0] != b {
      CountsAtLeastOne(bets[1..], b);
    } else if (forall x :: x in bets ==> x.points >= 0) {
      NonNegativePoints(bets[1..], b.calendarId);
    }
  }

  lemma {:induction false} NonNegativePoints(bets: seq<SprintBet>, calendarId: int)
    requires forall x :: x in bets ==> x.points >= 0
    ensures PointsOnRace(bets, calendarId) >= 0
  {
    if bets != [] {
      NonNegativePoints(bets[1..], calendarId);
    }
  }

  /** Re-submitting a bet on the same race and rider is not exempt: the bet being replaced still
      counts, so with a per-race limit of 1 the update is refused. */
  lemma ResubmissionCountsReplacedBet(limits: Limits, existing: seq<SprintBet>, req: PutRequest, prior: SprintBet)
    requires ValidStake(req.stake)
    requires prior in existing && prior.calendarId == req.calendarId && prior.riderId == req.riderId
    requires limits.raceLimit == Some(1)
    ensures CheckSprintBet(Some(limits), existing, req).Failure?
  {
    CountsAtLeastOne(existing, prior);
  }

  // ---------------------------------------------------------------------------
  // The table operations

  predicate UniqueKeys(rows: seq<SprintBet>) {
    InjectiveOn(rows, KeyOf)
  }

  /** Replaces the row with `b`'s key, or appends `b` when there is none. */
  function Upsert(rows: seq<SprintBet>, b: SprintBet): (r: seq<SprintBet>)
    requires UniqueKeys(rows)
    ensures UniqueKeys(r)
    ensures forall x :: x in r <==> x == b || (x in rows && KeyOf(x) != KeyOf(b))
    ensures |r| == if exists x :: x in rows && KeyOf(x) == KeyOf(b) then |rows| else |rows| + 1
  {
    if rows == [] then [b]
    else
      HeadKeyUnique(rows);
      UniqueTail(rows);
      assert forall x :: x in rows <==> x == rows[0] || x in rows[1..];
      if KeyOf(rows[0]) == KeyOf(b) then
        ConsUnique(b, rows[1..]);
        [b] + rows[1..]
      else
        var tail := Upsert(rows[1..], b);
        ConsUnique(rows[0], tail);
        [rows[0]] + tail
  }

  /** Removes the row with key `key`, if any. */
  function Remove(rows: seq<SprintBet>, key: BetKey): (r: seq<SprintBet>)
    requires UniqueKeys(rows)
    ensures UniqueKeys(r)
    ensures forall x :: x in r <==> x in rows && KeyOf(x) != key
    ensures |r| == if exists x :: x in rows && KeyOf(x) == key then |rows| - 1 else |rows|
  {
    if rows == [] then []
    else
      HeadKeyUnique(rows);
      UniqueTail(rows);
      assert forall x :: x in rows <==> x == rows[0] || x in rows[1..];
      var tail := Remove(rows[1..], key);
      if KeyOf(rows[0]) == key then tail
      else
        ConsUnique(rows[0], tail);
        [rows[0]] + tail
  }

  lemma UniqueTail(rows: seq<SprintBet>)
    requires rows != [] && UniqueKeys(rows)
    ensures UniqueKeys(rows[1..])
  {
    forall i, j | 0 <= i < j < |rows[1..]| ensures KeyOf(rows[1..][i]) != KeyOf(rows[1..][j]) {
      assert rows[1..][i] == rows[i + 1] && rows[1..][j] == rows[j + 1];
    }
  }

  lemma HeadKeyUnique(rows: seq<SprintBet>)
    requires rows != [] && UniqueKeys(rows)
    ensures forall x :: x in rows[1..] ==> KeyOf(x) != KeyOf(rows[0])
  {
    forall x | x in rows[1..] ensures KeyOf(x) != KeyOf(rows[0]) {
      var j :| 0 <= j < |rows[1..]| && rows[1..][j] == x;
      assert KeyOf(rows[0]) != KeyOf(rows[j + 1]);
    }
  }

  lemma ConsUnique(x: SprintBet, tail: seq<SprintBet>)
    requires UniqueKeys(tail)
    requires forall y :: y in tail ==> KeyOf(y) != KeyOf(x)
    ensures UniqueKeys([x] + tail)
  {
    var r := [x] + tail;
    forall i, j | 0 <= i < j < |r| ensures KeyOf(r[i]) != KeyOf(r[j]) {
      assert r[j] == tail[j - 1];
      if i > 0 {
        assert r[i] == tail[i - 1];
      }
    }
  }

  /** Upserting the same bet twice is the same as upserting it once. */
  lemma {:induction false} UpsertIdempotent(rows: seq<SprintBet>, b: SprintBet)
    requires UniqueKeys(rows)
    ensures Upsert(Upsert(rows, b), b) == Upsert(rows, b)
  {
    if rows == [] {
    } else if KeyOf(rows[0]) == KeyOf(b) {
      assert ([b] + rows[1..])[1..] == rows[1..];
    } else {
      UniqueTail(rows);
      UpsertIdempotent(rows[1..], b);
      var tail := Upsert(rows[1..], b);
      assert ([rows[0]] + tail)[1..] == tail;
    }
  }

  /** Deleting the key just upserted leaves the table as deleting it would have without the
      upsert: an upsert touches no other row. */
  lemma {:induction false} RemoveAfterUpsert(rows: seq<SprintBet>, b: SprintBet)
    requires UniqueKeys(rows)
    ensures Remove(Upsert(rows, b), KeyOf(b)) == Remove(rows, KeyOf(b))
  {
    if rows == [] {
      assert [b][1..] == [];
    } else if KeyOf(rows[0]) == KeyOf(b) {
      UniqueTail(rows);
      assert ([b] + rows[1..])[1..] == rows[1..];
    } else {
      UniqueTail(rows);
      RemoveAfterUpsert(rows[1..], b);
      var tail := Upsert(rows[1..], b);
      assert ([rows[0]] + tail)[1..] == tail;
    }
  }

  // ---------------------------------------------------------------------------
  // The handler's behaviour as written (see the finding on `reduce`)

  /** The values the `reduce` accumulator takes in JavaScript: a number, the first bet object
      itself, or the string `"[object Object]…"` that `+` makes of that object. */
  datatype JsValue = JsNumber(n: int) | JsBetObject | JsText

  function JsPlus(a: JsValue, n: int): JsValue {
    if a.JsNumber? then JsNumber(a.n + n) else JsText
  }

  /** `a > limit`: a non-numeric string converts to NaN, and every comparison with NaN is false. */
  predicate JsGreater(a: JsValue, limit: int) {
    a.JsNumber? && a.n > limit
  }

  function ReduceFrom(acc: JsValue, bets: seq<SprintBet>, calendarId: int): JsValue
    decreases |bets|
  {
    if bets == [] then acc
    else
      var next := if bets[0].calendarId == calendarId then JsPlus(acc, bets[0].points) else JsPlus(acc, 0);
      ReduceFrom(next, bets[1..], calendarId)
  }

  /** `reduce` without an initial value: a TypeError (`None`) on an empty array, otherwise the
      first element is the starting accumulator. */
  function ReduceWithoutInitial(bets: seq<SprintBet>, calendarId: int): Option<JsValue> {
    if bets == [] then None else Some(ReduceFrom(JsBetObject, bets[1..], calendarId))
  }

  datatype BudgetOutcome = BudgetThrows | BudgetRejects | BudgetPasses

  /** The points-budget step exactly as the handler runs it. */
  function BudgetCheckAsWritten(existing: seq<SprintBet>, calendarId: int, stake: int, limit: Option<int>): BudgetOutcome {
    match ReduceWithoutInitial(existing, calendarId)
    case None => BudgetThrows
    case Some(total) =>
      if Enabled(limit) && JsGreater(JsPlus(total, stake), limit.value) then BudgetRejects else BudgetPasses
  }

  lemma {:induction false} ReduceFromNeverNumber(acc: JsValue, bets: seq<SprintBet>, calendarId: int)
    requires !acc.JsNumber?
    ensures !ReduceFrom(acc, bets, calendarId).JsNumber?
    decreases |bets|
  {
    if bets != [] {
      var next := if bets[0].calendarId == calendarId then JsPlus(acc, bets[0].points) else JsPlus(acc, 0);
      ReduceFromNeverNumber(next, bets[1..], calendarId);
    }
  }

  /** As written, the budget step throws on a user's first sprint bet (caught as a server error)
      and never rejects any later one, whatever the limit. */
  lemma BudgetAsWrittenNeverRejects(existing: seq<SprintBet>, calendarId: int, stake: int, limit: Option<int>)
    ensures existing == [] ==> BudgetCheckAsWritten(existing, calendarId, stake, limit) == BudgetThrows
    ensures existing != [] ==> BudgetCheckAsWritten(existing, calendarId, stake, limit) == BudgetPasses
  {
    if existing != [] {
      ReduceFromNeverNumber(JsBetObject, existing[1..], calendarId);
    }
  }

  /** A limit of 10 with 6 points already on the race: the handler as written lets a further 5
      through, the sum from 0 refuses it. */
  lemma BudgetCounterexample()
    ensures var existing := [SprintBet(1, "u", 7, 93, 3, 6)];
            var req := PutRequest(7, 20, 2, Some(5));
            var limits := Limits(Some(10), Some(2), None);
            BudgetCheckAsWritten(existing, 7, 5, limits.pointsLimit) == BudgetPasses &&
            CheckSprintBet(Some(limits), existing, req) == Failure(PointsBudgetExceeded(4))
  {
    var existing := [SprintBet(1, "u", 7, 93, 3, 6)];
    BudgetAsWrittenNeverRejects(existing, 7, 5, Some(10));
    assert PointsOnRace(existing, 7) == 6;
  }

  // ---------------------------------------------------------------------------
  // The stored table

  class SprintBetTable {
    var rows: seq<SprintBet>

    ghost predicate Valid()
      reads this
    {
      UniqueKeys(rows)
    }

    constructor ()
      ensures Valid() && rows == []
    {
      rows := [];
    }

    /** PUT: validate against the user's bets in the championship, then upsert on the key. */
    method Put(limits: Option<Limits>, championshipId: int, userId: UserId, req: PutRequest)
      returns (r: Result<SprintBet, BetError>)
      requires Valid()
      modifies this
      ensures Valid()
      ensures r.Failure? ==>
        rows == old(rows) &&
        CheckSprintBet(limits, UserBets(old(rows), championshipId, userId), req) == Failure(r.error)
      ensures r.Success? ==>
        CheckSprintBet(limits, UserBets(old(rows), championshipId, userId), req).Success? &&
        r.value == SprintBet(championshipId, userId, req.calendarId, req.riderId, req.position, req.stake.value) &&
        rows == Upsert(old(rows), r.value)
    {
      var existing := UserBets(rows, championshipId, userId);
      var check := CheckSprintBet(limits, existing, req);
      if check.Failure? {
        return Failure(check.error);
      }
      var bet := SprintBet(championshipId, userId, req.calendarId, req.riderId, req.position, check.value);
      rows := Upsert(rows, bet);
      r := Success(bet);
    }

    /** DELETE: remove exactly the row with the four-part key. */
    method Delete(championshipId: int, calendarId: int, userId: UserId, riderId: int)
      requires Valid()
      modifies this
      ensures Valid()
      ensures rows == Remove(old(rows), BetKey(championshipId, userId, calendarId, riderId))
    {
      rows := Remove(rows, BetKey(championshipId, userId, calendarId, riderId));
    }
  }
}
