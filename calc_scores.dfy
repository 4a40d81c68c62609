// Race scoring and standings reconciliation: the compute-scores handler.
//
// For one (championship, race) pair the handler scores every fantasy team
// from the race's lineups, sprint bets, race bets and `motogp_results` rows,
// adds each team's delta to its user's standing, re-ranks the updated rows by
// descending score and writes them back stamped with the race, unless every
// standing row already carries that stamp.
module CalcScores {
  import opened Wrappers
  import opened Collections
  import opened Records

  type UserId = string

  datatype Team = Team(userId: UserId, name: string)

  /** A user's picks for the race: the rider scored for qualifying and the rider scored for the race. */
  datatype Lineup = Lineup(userId: UserId, qualifyingRiderId: int, raceRiderId: int)

  /** A sprint or race bet: the predicted finishing position of a rider and the stake (`points`).
      A stored position that is null compares as 0 (`+null`), so it is the position 0 here. */
  datatype Bet = Bet(userId: UserId, riderId: int, position: int, points: int)

  /** One entry of the handler's response: the score a team earned in this race. */
  datatype ScoreDelta = ScoreDelta(userId: UserId, teamName: string, score: int)

  /** The data loads the handler checks before scoring. */
  datatype LoadFailure =
    | FantasyTeamsNotLoaded
    | LineupsNotLoaded
    | RaceBetsNotLoaded
    | SprintBetsNotLoaded
    | ResultsNotLoaded

  // ---------------------------------------------------------------------------
  // Scoring one team

  function LineupOf(lineups: seq<Lineup>, u: UserId): Option<Lineup> {
    FindFirst(lineups, (l: Lineup) => l.userId == u)
  }

  function BetOf(bets: seq<Bet>, u: UserId): Option<Bet> {
    FindFirst(bets, (b: Bet) => b.userId == u)
  }

  /** The first result row of `rider`; no rider (no lineup, no bet) finds no row. */
  function ResultFor(results: seq<ResultRow>, rider: Option<int>): Option<ResultRow> {
    if rider.None? then None
    else FindFirst(results, (r: ResultRow) => r.riderId == rider.value)
  }

  function QualifyingRider(lineup: Option<Lineup>): Option<int> {
    if lineup.None? then None else Some(lineup.value.qualifyingRiderId)
  }

  function RaceRider(lineup: Option<Lineup>): Option<int> {
    if lineup.None? then None else Some(lineup.value.raceRiderId)
  }

  function BetRider(bet: Option<Bet>): Option<int> {
    if bet.None? then None else Some(bet.value.riderId)
  }

  /** The qualifying points of the qualifying rider plus the race points of the race rider. */
  function LineupScore(lineup: Option<Lineup>, results: seq<ResultRow>): int {
    var q := ResultFor(results, QualifyingRider(lineup));
    var r := ResultFor(results, RaceRider(lineup));
    (if q.None? then 0 else q.value.qualifyingPoints.GetOr(0)) +
    (if r.None? then 0 else r.value.racePoints.GetOr(0))
  }

  /** The sprint position the bet is compared with: nothing without a result row for its rider
      (`+undefined` is NaN, equal to nothing), and 0 for a row whose position is null (`+null`). */
  function SprintActual(bet: Option<Bet>, results: seq<ResultRow>): Option<int> {
    var r := ResultFor(results, BetRider(bet));
    if r.None? then None else Some(r.value.sprintPosition.GetOr(0))
  }

  /** The race position the bet is compared with, by the same rule as the sprint one. */
  function RaceActual(bet: Option<Bet>, results: seq<ResultRow>): Option<int> {
    var r := ResultFor(results, BetRider(bet));
    if r.None? then None else Some(r.value.racePosition.GetOr(0))
  }

  /** A bet wins when it names the actual position or the one just above it. */
  predicate BetWins(bet: Bet, actual: Option<int>) {
    actual.Some? && (bet.position == actual.value || bet.position == actual.value - 1)
  }

  /** A winning bet earns its stake, a losing one costs half of it (rounded down), no bet is worth 0. */
  function BetNet(bet: Option<Bet>, actual: Option<int>): int {
    if bet.None? then 0
    else if BetWins(bet.value, actual) then bet.value.points
    else -(bet.value.points / 2)
  }

  function Stake(bet: Option<Bet>): int {
    if bet.None? then 0 else bet.value.points
  }

  /** The score user `u` earns in this race. */
  function TeamDelta(u: UserId, lineups: seq<Lineup>, raceBets: seq<Bet>, sprintBets: seq<Bet>,
                     results: seq<ResultRow>): int
  {
    var sprintBet := BetOf(sprintBets, u);
    var raceBet := BetOf(raceBets, u);
    LineupScore(LineupOf(lineups, u), results)
      + BetNet(sprintBet, SprintActual(sprintBet, results))
      + BetNet(raceBet, RaceActual(raceBet, results))
  }

  /** The team loop: one delta per fantasy team, in team order, built step by step. */
  method ScoreTeams(teams: seq<Team>, lineups: seq<Lineup>, raceBets: seq<Bet>, sprintBets: seq<Bet>,
                    results: seq<ResultRow>) returns (deltas: seq<ScoreDelta>)
    ensures |deltas| == |teams|
    ensures forall i :: 0 <= i < |teams| ==>
      deltas[i] == ScoreDelta(teams[i].userId, teams[i].name,
                              TeamDelta(teams[i].userId, lineups, raceBets, sprintBets, results))
  {
    deltas := [];
    var i := 0;
    while i < |teams|
      invariant 0 <= i <= |teams|
      invariant |deltas| == i
      invariant forall k :: 0 <= k < i ==>
        deltas[k] == ScoreDelta(teams[k].userId, teams[k].name,
                                TeamDelta(teams[k].userId, lineups, raceBets, sprintBets, results))
    {
      var u := teams[i].userId;
      var lineup := LineupOf(lineups, u);
      var raceBet := BetOf(raceBets, u);
      var sprintBet := BetOf(sprintBets, u);
      var totalScore := LineupScore(lineup, results);
      if sprintBet.Some? {
        if BetWins(sprintBet.value, SprintActual(sprintBet, results)) {
          totalScore := totalScore + sprintBet.value.points;
        } else {
          totalScore := totalScore - sprintBet.value.points / 2;
        }
      }
      assert totalScore == LineupScore(lineup, results) + BetNet(sprintBet, SprintActual(sprintBet, results));
      if raceBet.Some? {
        if BetWins(raceBet.value, RaceActual(raceBet, results)) {
          totalScore := totalScore + raceBet.value.points;
        } else {
          totalScore := totalScore - raceBet.value.points / 2;
        }
      }
      assert totalScore == TeamDelta(u, lineups, raceBets, sprintBets, results);
      deltas := deltas + [ScoreDelta(u, teams[i].name, totalScore)];
      i := i + 1;
    }
  }

  // ---------------------------------------------------------------------------
  // Properties of the scoring rule

  /** With non-negative stakes, a delta lies between the lineup score minus half of each stake
      and the lineup score plus each stake. */
  lemma DeltaBounds(u: UserId, lineups: seq<Lineup>, raceBets: seq<Bet>, sprintBets: seq<Bet>,
                    results: seq<ResultRow>)
    requires Stake(BetOf(sprintBets, u)) >= 0 && Stake(BetOf(raceBets, u)) >= 0
    ensures var ls, s1, s2 := LineupScore(LineupOf(lineups, u), results),
                              Stake(BetOf(sprintBets, u)), Stake(BetOf(raceBets, u));
            ls - s1 / 2 - s2 / 2 <= TeamDelta(u, lineups, raceBets, sprintBets, results) <= ls + s1 + s2
  {
  }

  /** A user with no bet of either kind scores exactly the lineup score, and one with no lineup
      either scores 0. */
  lemma NoBetsScoreLineupOnly(u: UserId, lineups: seq<Lineup>, raceBets: seq<Bet>, sprintBets: seq<Bet>,
                              results: seq<ResultRow>)
    requires forall i :: 0 <= i < |raceBets| ==> raceBets[i].userId != u
    requires forall i :: 0 <= i < |sprintBets| ==> sprintBets[i].userId != u
    ensures TeamDelta(u, lineups, raceBets, sprintBets, results) == LineupScore(LineupOf(lineups, u), results)
    ensures (forall i :: 0 <= i < |lineups| ==> lineups[i].userId != u) ==>
              TeamDelta(u, lineups, raceBets, sprintBets, results) == 0
  {
  }

  /** An existing bet wins its full stake when it names the actual position or the one above it,
      and otherwise loses half its stake, also when its rider has no result row. */
  lemma BetOutcome(bet: Bet, actual: Option<int>)
    ensures actual.Some? && (bet.position == actual.value || bet.position + 1 == actual.value) ==>
              BetNet(Some(bet), actual) == bet.points
    ensures actual.None? ==> BetNet(Some(bet), actual) == -(bet.points / 2)
    ensures actual.Some? && bet.position != actual.value && bet.position + 1 != actual.value ==>
              BetNet(Some(bet), actual) == -(bet.points / 2)
  {
  }

  /** A result row whose position is null compares as position 0: a bet on 0 or -1 wins its
      stake, any other bet loses half of it. */
  lemma NullPositionComparesAsZero(bet: Bet, results: seq<ResultRow>)
    requires ResultFor(results, Some(bet.riderId)).Some?
    ensures ResultFor(results, Some(bet.riderId)).value.sprintPosition.None? ==>
      BetNet(Some(bet), SprintActual(Some(bet), results))
        == if bet.position == 0 || bet.position == -1 then bet.points else -(bet.points / 2)
    ensures ResultFor(results, Some(bet.riderId)).value.racePosition.None? ==>
      BetNet(Some(bet), RaceActual(Some(bet), results))
        == if bet.position == 0 || bet.position == -1 then bet.points else -(bet.points / 2)
  {
  }

  /** A bet whose rider has no result row loses half its stake. */
  lemma BetWithoutResultLoses(u: UserId, lineups: seq<Lineup>, raceBets: seq<Bet>, sprintBets: seq<Bet>,
                              results: seq<ResultRow>)
    requires BetOf(raceBets, u).Some?
    requires forall i :: 0 <= i < |results| ==> results[i].riderId != BetOf(raceBets, u).value.riderId
    ensures var sprintBet := BetOf(sprintBets, u);
            TeamDelta(u, lineups, raceBets, sprintBets, results)
              == LineupScore(LineupOf(lineups, u), results)
                 + BetNet(sprintBet, SprintActual(sprintBet, results))
                 - BetOf(raceBets, u).value.points / 2
  {
  }

  /** Only the first bet of each kind found for the user is scored: bets appended after it change
      nothing. */
  lemma OnlyFirstBetScored(u: UserId, lineups: seq<Lineup>, raceBets: seq<Bet>, moreRaceBets: seq<Bet>,
                           sprintBets: seq<Bet>, moreSprintBets: seq<Bet>, results: seq<ResultRow>)
    requires BetOf(raceBets, u).Some? && BetOf(sprintBets, u).Some?
    ensures TeamDelta(u, lineups, raceBets + moreRaceBets, sprintBets + moreSprintBets, results)
         == TeamDelta(u, lineups, raceBets, sprintBets, results)
  {
    FindFirstAppend(raceBets, moreRaceBets, (b: Bet) => b.userId == u);
    FindFirstAppend(sprintBets, moreSprintBets, (b: Bet) => b.userId == u);
  }

  /** `motogp_results` holds one row per rider, so the order in which the rows are loaded does not
      change any score. */
  lemma ResultOrderIrrelevant(u: UserId, lineups: seq<Lineup>, raceBets: seq<Bet>, sprintBets: seq<Bet>,
                              results: seq<ResultRow>, reordered: seq<ResultRow>)
    requires multiset(results) == multiset(reordered)
    requires InjectiveOn(results, (r: ResultRow) => r.riderId)
    ensures TeamDelta(u, lineups, raceBets, sprintBets, reordered)
         == TeamDelta(u, lineups, raceBets, sprintBets, results)
  {
    var sprintBet, raceBet := BetOf(sprintBets, u), BetOf(raceBets, u);
    var lineup := LineupOf(lineups, u);
    var riders := [QualifyingRider(lineup), RaceRider(lineup), BetRider(sprintBet), BetRider(raceBet)];
    forall k | 0 <= k < |riders| && riders[k].Some?
      ensures ResultFor(results, riders[k]) == ResultFor(reordered, riders[k])
    {
      var rider := riders[k].value;
      FindFirstPermutation(results, reordered, (r: ResultRow) => r.riderId == rider);
    }
    assert ResultFor(results, riders[0]) == ResultFor(reordered, riders[0]);
    assert ResultFor(results, riders[1]) == ResultFor(reordered, riders[1]);
    assert ResultFor(results, riders[2]) == ResultFor(reordered, riders[2]);
    assert ResultFor(results, riders[3]) == ResultFor(reordered, riders[3]);
  }

  // ---------------------------------------------------------------------------
  // Standings reconciliation

  /** A standing row: rank, cumulative score and the last race applied to it. */
  datatype Standing = Standing(position: int, score: int, updateCalendar: Option<int>)

  /** The standings of one championship, keyed by user (the upsert key is (championship, user)). */
  type Table = map<UserId, Standing>

  /** A standing with the race's delta added, before ranking. */
  datatype ScoredRow = ScoredRow(userId: UserId, score: int)

  /** A row of the final upsert: user, new rank, new score (each is stamped with the race). */
  datatype RankedRow = RankedRow(userId: UserId, position: int, score: int)

  function DeltaUser(d: ScoreDelta): UserId { d.userId }
  function RowUser(r: ScoredRow): UserId { r.userId }
  function RankedUser(r: RankedRow): UserId { r.userId }

  /** The users scored in this race. */
  function ScoredUsers(deltas: seq<ScoreDelta>): set<UserId> {
    set d | d in deltas :: d.userId
  }

  /** The delta of user `u`: that of its first entry (its only one when users are distinct). */
  function DeltaFor(deltas: seq<ScoreDelta>, u: UserId): int {
    if deltas == [] then 0
    else if deltas[0].userId == u then deltas[0].score
    else DeltaFor(deltas[1..], u)
  }

  /** Each scored user's standing with the delta added; users without a standing row are dropped. */
  function Merge(deltas: seq<ScoreDelta>, table: Table): (rows: seq<ScoredRow>)
    ensures |rows| <= |deltas|
  {
    if deltas == [] then []
    else
      var u := deltas[0].userId;
      (if u in table then [ScoredRow(u, table[u].score + deltas[0].score)] else []) + Merge(deltas[1..], table)
  }

  /** The users scored by a non-empty delta list: the first delta's user and those of the rest. */
  lemma ScoredUsersCons(deltas: seq<ScoreDelta>)
    requires deltas != []
    ensures ScoredUsers(deltas) == {deltas[0].userId} + ScoredUsers(deltas[1..])
  {
    assert deltas == [deltas[0]] + deltas[1..];
  }

  /** Every merged row belongs to a scored user with a standing. */
  lemma {:induction false} MergeRowsScored(deltas: seq<ScoreDelta>, table: Table)
    ensures forall i :: 0 <= i < |Merge(deltas, table)| ==>
      Merge(deltas, table)[i].userId in table && Merge(deltas, table)[i].userId in ScoredUsers(deltas)
  {
    if deltas != [] {
      var u := deltas[0].userId;
      var head: seq<ScoredRow> := if u in table then [ScoredRow(u, table[u].score + deltas[0].score)] else [];
      var rest := Merge(deltas[1..], table);
      MergeRowsScored(deltas[1..], table);
      ScoredUsersCons(deltas);
      assert Merge(deltas, table) == head + rest;
      forall i | 0 <= i < |head + rest|
        ensures (head + rest)[i].userId in table && (head + rest)[i].userId in ScoredUsers(deltas)
      {
        if i >= |head| {
          assert (head + rest)[i] == rest[i - |head|];
        }
      }
    }
  }

  /** Every scored user with a standing has a merged row. */
  lemma {:induction false} MergeReachesScored(deltas: seq<ScoreDelta>, table: Table)
    ensures forall u :: u in table && u in ScoredUsers(deltas) ==>
      exists i :: 0 <= i < |Merge(deltas, table)| && Merge(deltas, table)[i].userId == u
  {
    if deltas != [] {
      var u := deltas[0].userId;
      var head: seq<ScoredRow> := if u in table then [ScoredRow(u, table[u].score + deltas[0].score)] else [];
      var rest := Merge(deltas[1..], table);
      MergeReachesScored(deltas[1..], table);
      ScoredUsersCons(deltas);
      assert Merge(deltas, table) == head + rest;
      forall v | v in table && v in ScoredUsers(deltas)
        ensures exists i :: 0 <= i < |head + rest| && (head + rest)[i].userId == v
      {
        if v == u {
          assert (head + rest)[0].userId == v;
        } else {
          var i :| 0 <= i < |rest| && rest[i].userId == v;
          assert (head + rest)[|head| + i] == rest[i];
        }
      }
    }
  }

  /** Every merged row belongs to a user with a standing, and every scored user with a standing
      has a merged row. */
  lemma {:induction false} MergeCovers(deltas: seq<ScoreDelta>, table: Table)
    ensures forall i :: 0 <= i < |Merge(deltas, table)| ==>
      Merge(deltas, table)[i].userId in table && Merge(deltas, table)[i].userId in ScoredUsers(deltas)
    ensures forall u :: u in table && u in ScoredUsers(deltas) ==>
      exists i :: 0 <= i < |Merge(deltas, table)| && Merge(deltas, table)[i].userId == u
  {
    MergeRowsScored(deltas, table);
    MergeReachesScored(deltas, table);
  }

  /** With distinct users, no row merged from the later deltas belongs to the first delta's user. */
  lemma MergeTailAvoidsHead(deltas: seq<ScoreDelta>, table: Table)
    requires deltas != [] && InjectiveOn(deltas, DeltaUser)
    ensures forall i :: 0 <= i < |Merge(deltas[1..], table)| ==>
      Merge(deltas[1..], table)[i].userId != deltas[0].userId
  {
    var rest := Merge(deltas[1..], table);
    MergeCovers(deltas[1..], table);
    forall i | 0 <= i < |rest| ensures rest[i].userId != deltas[0].userId {
      var d :| d in deltas[1..] && d.userId == rest[i].userId;
      var k :| 0 <= k < |deltas[1..]| && deltas[1..][k] == d;
      assert d == deltas[k + 1];
    }
  }

  /** With distinct users, the merged rows are distinct too. */
  lemma {:induction false} MergeDistinct(deltas: seq<ScoreDelta>, table: Table)
    requires InjectiveOn(deltas, DeltaUser)
    ensures InjectiveOn(Merge(deltas, table), RowUser)
  {
    if deltas != [] {
      var u := deltas[0].userId;
      var rest := Merge(deltas[1..], table);
      InjectiveTail(deltas, DeltaUser);
      MergeDistinct(deltas[1..], table);
      if u in table {
        var row := ScoredRow(u, table[u].score + deltas[0].score);
        MergeTailAvoidsHead(deltas, table);
        assert forall i :: 0 <= i < |rest| ==> RowUser(rest[i]) != RowUser(row);
        assert Merge(deltas, table) == [row] + rest;
        InjectiveCons(row, rest, RowUser);
      } else {
        assert Merge(deltas, table) == rest;
      }
    }
  }

  /** With distinct users, each merged row holds the old score plus the user's delta. */
  lemma {:induction false} MergeRowScores(deltas: seq<ScoreDelta>, table: Table)
    requires InjectiveOn(deltas, DeltaUser)
    ensures forall i :: 0 <= i < |Merge(deltas, table)| ==>
      var r := Merge(deltas, table)[i];
      r.userId in table && r.score == table[r.userId].score + DeltaFor(deltas, r.userId)
  {
    if deltas != [] {
      var u := deltas[0].userId;
      var rest := Merge(deltas[1..], table);
      InjectiveTail(deltas, DeltaUser);
      MergeRowScores(deltas[1..], table);
      MergeTailAvoidsHead(deltas, table);
      assert forall i :: 0 <= i < |rest| ==> DeltaFor(deltas, rest[i].userId) == DeltaFor(deltas[1..], rest[i].userId);
      if u in table {
        var row := ScoredRow(u, table[u].score + deltas[0].score);
        assert Merge(deltas, table) == [row] + rest;
        forall i | 0 <= i < |[row] + rest|
          ensures var r := ([row] + rest)[i];
            r.userId in table && r.score == table[r.userId].score + DeltaFor(deltas, r.userId)
        {
          if i > 0 {
            assert ([row] + rest)[i] == rest[i - 1];
          }
        }
      } else {
        assert Merge(deltas, table) == rest;
      }
    }
  }

  /** With distinct users, the merged rows are distinct too and each is the old score plus the
      user's delta. */
  lemma MergeScores(deltas: seq<ScoreDelta>, table: Table)
    requires InjectiveOn(deltas, DeltaUser)
    ensures InjectiveOn(Merge(deltas, table), RowUser)
    ensures forall i :: 0 <= i < |Merge(deltas, table)| ==>
      var r := Merge(deltas, table)[i];
      r.userId in table && r.score == table[r.userId].score + DeltaFor(deltas, r.userId)
  {
    MergeDistinct(deltas, table);
    MergeRowScores(deltas, table);
  }

  /** Sort key putting higher scores first. */
  function ScoreDescending(r: ScoredRow): int { -r.score }

  /** Positions 1..n in the order of `rows`. */
  function Rank(rows: seq<ScoredRow>): (ranked: seq<RankedRow>)
    ensures |ranked| == |rows|
    ensures forall i :: 0 <= i < |rows| ==> ranked[i] == RankedRow(rows[i].userId, i + 1, rows[i].score)
  {
    seq(|rows|, i requires 0 <= i < |rows| => RankedRow(rows[i].userId, i + 1, rows[i].score))
  }

  /** The rows the handler writes: merged, sorted by descending score, ranked 1..n. */
  function Updates(table: Table, deltas: seq<ScoreDelta>): seq<RankedRow> {
    Rank(SortedMerge(table, deltas))
  }

  /** The merged rows in descending score order. */
  function SortedMerge(table: Table, deltas: seq<ScoreDelta>): seq<ScoredRow> {
    SortBy(Merge(deltas, table), ScoreDescending)
  }

  /** The upsert, one row after the other, each stamped with the race. */
  function Apply(table: Table, ranked: seq<RankedRow>, calendarId: int): Table
    decreases |ranked|
  {
    if ranked == [] then table
    else
      var r := ranked[0];
      Apply(table[r.userId := Standing(r.position, r.score, Some(calendarId))], ranked[1..], calendarId)
  }

  /** The re-run guard: some standing row has not yet been stamped with this race. */
  predicate AnyStale(table: Table, calendarId: int) {
    exists u :: u in table && table[u].updateCalendar != Some(calendarId)
  }

  /** The standings after reconciling this race's deltas. */
  function Reconciled(table: Table, calendarId: int, deltas: seq<ScoreDelta>): Table {
    var updates := Updates(table, deltas);
    if |updates| > 0 && AnyStale(table, calendarId) then Apply(table, updates, calendarId) else table
  }

  /** The `shouldUpdate` flag loop over the loaded standings. */
  method ShouldUpdate(table: Table, calendarId: int) returns (shouldUpdate: bool)
    ensures shouldUpdate <==> exists u :: u in table && table[u].updateCalendar != Some(calendarId)
  {
    shouldUpdate := false;
    var rest := table.Keys;
    while rest != {}
      invariant rest <= table.Keys
      invariant shouldUpdate <==>
        exists u :: u in table.Keys - rest && table[u].updateCalendar != Some(calendarId)
      decreases rest
    {
      var u :| u in rest;
      if table[u].updateCalendar != Some(calendarId) {
        shouldUpdate := true;
      }
      rest := rest - {u};
    }
  }

  // ---------------------------------------------------------------------------
  // Properties of reconciliation

  /** Sorting keeps the merged users distinct. */
  lemma SortedInjective(table: Table, deltas: seq<ScoreDelta>)
    requires InjectiveOn(deltas, DeltaUser)
    ensures InjectiveOn(SortedMerge(table, deltas), RowUser)
  {
    MergeScores(deltas, table);
    PermutationKeepsInjective(Merge(deltas, table), SortBy(Merge(deltas, table), ScoreDescending), RowUser);
  }

  /** Every sorted row is a scored user with a standing, holding the old score plus the delta. */
  lemma SortedScores(table: Table, deltas: seq<ScoreDelta>)
    requires InjectiveOn(deltas, DeltaUser)
    ensures var sorted := SortedMerge(table, deltas);
      forall i :: 0 <= i < |sorted| ==>
        sorted[i].userId in table && sorted[i].userId in ScoredUsers(deltas) &&
        sorted[i].score == table[sorted[i].userId].score + DeltaFor(deltas, sorted[i].userId)
  {
    var merged := Merge(deltas, table);
    var sorted := SortBy(merged, ScoreDescending);
    var p := (r: ScoredRow) => r.userId in table && r.userId in ScoredUsers(deltas) &&
      r.score == table[r.userId].score + DeltaFor(deltas, r.userId);
    assert forall i :: 0 <= i < |merged| ==> p(merged[i]) by {
      MergeCovers(deltas, table);
      MergeScores(deltas, table);
    }
    PermutationKeepsAll(merged, sorted, p);
    forall i | 0 <= i < |sorted| ensures p(sorted[i]) {
      assert sorted[i] in sorted;
    }
  }

  /** Every scored user with a standing has a sorted row. */
  lemma SortedCovers(table: Table, deltas: seq<ScoreDelta>)
    ensures var sorted := SortedMerge(table, deltas);
      forall u :: u in table && u in ScoredUsers(deltas) ==>
        exists i :: 0 <= i < |sorted| && sorted[i].userId == u
  {
    var merged := Merge(deltas, table);
    var sorted := SortBy(merged, ScoreDescending);
    forall u | u in table && u in ScoredUsers(deltas)
      ensures exists i :: 0 <= i < |sorted| && sorted[i].userId == u
    {
      var k :| 0 <= k < |merged| && merged[k].userId == u by {
        MergeCovers(deltas, table);
      }
      assert merged[k] in multiset(sorted);
      var i :| 0 <= i < |sorted| && sorted[i] == merged[k];
    }
    assert sorted == SortedMerge(table, deltas);
  }

  /** The written rows are ranked 1..n in order of non-increasing score. */
  lemma UpdatesOrdered(table: Table, deltas: seq<ScoreDelta>)
    ensures var ups := Updates(table, deltas);
      && (forall i :: 0 <= i < |ups| ==> ups[i].position == i + 1)
      && (forall i, j :: 0 <= i < j < |ups| ==> ups[i].score >= ups[j].score)
  {
    var sorted := SortedMerge(table, deltas);
    var ups := Updates(table, deltas);
    assert SortedBy(sorted, ScoreDescending);
    forall i, j | 0 <= i < j < |ups| ensures ups[i].score >= ups[j].score {
      assert ScoreDescending(sorted[i]) <= ScoreDescending(sorted[j]);
    }
  }

  /** With distinct scored users, each user is written at most once. */
  lemma UpdatesDistinct(table: Table, deltas: seq<ScoreDelta>)
    requires InjectiveOn(deltas, DeltaUser)
    ensures InjectiveOn(Updates(table, deltas), RankedUser)
  {
    var sorted := SortedMerge(table, deltas);
    var ups := Updates(table, deltas);
    SortedInjective(table, deltas);
    forall i, j | 0 <= i < j < |ups| ensures RankedUser(ups[i]) != RankedUser(ups[j]) {
      assert RowUser(sorted[i]) != RowUser(sorted[j]);
    }
  }

  /** Each written row is a scored user with a standing, holding the old score plus the delta. */
  lemma UpdatesScores(table: Table, deltas: seq<ScoreDelta>)
    requires InjectiveOn(deltas, DeltaUser)
    ensures var ups := Updates(table, deltas);
      forall i :: 0 <= i < |ups| ==>
        ups[i].userId in table && ups[i].userId in ScoredUsers(deltas) &&
        ups[i].score == table[ups[i].userId].score + DeltaFor(deltas, ups[i].userId)
  {
    var sorted := SortedMerge(table, deltas);
    var ups := Updates(table, deltas);
    SortedScores(table, deltas);
    forall i | 0 <= i < |ups|
      ensures ups[i].userId in table && ups[i].userId in ScoredUsers(deltas) &&
        ups[i].score == table[ups[i].userId].score + DeltaFor(deltas, ups[i].userId)
    {
      assert ups[i].userId == sorted[i].userId && ups[i].score == sorted[i].score;
    }
  }

  /** Every scored user with a standing is written. */
  lemma UpdatesCover(table: Table, deltas: seq<ScoreDelta>)
    ensures var ups := Updates(table, deltas);
      forall u :: u in table && u in ScoredUsers(deltas) ==>
        exists i :: 0 <= i < |ups| && ups[i].userId == u
  {
    var sorted := SortedMerge(table, deltas);
    var ups := Updates(table, deltas);
    SortedCovers(table, deltas);
    forall u | u in table && u in ScoredUsers(deltas)
      ensures exists i :: 0 <= i < |ups| && ups[i].userId == u
    {
      var i :| 0 <= i < |sorted| && sorted[i].userId == u;
      assert ups[i].userId == u;
    }
  }

  /** The written rows: positions are exactly 1..n in order, scores never increase with position,
      one row per scored user with a standing, each holding the old score plus the delta. */
  lemma UpdatesRanked(table: Table, deltas: seq<ScoreDelta>)
    requires InjectiveOn(deltas, DeltaUser)
    ensures var ups := Updates(table, deltas);
      && (forall i :: 0 <= i < |ups| ==> ups[i].position == i + 1)
      && (forall i, j :: 0 <= i < j < |ups| ==> ups[i].score >= ups[j].score)
      && InjectiveOn(ups, RankedUser)
      && (forall i :: 0 <= i < |ups| ==>
            ups[i].userId in table && ups[i].userId in ScoredUsers(deltas) &&
            ups[i].score == table[ups[i].userId].score + DeltaFor(deltas, ups[i].userId))
      && (forall u :: u in table && u in ScoredUsers(deltas) ==>
            exists i :: 0 <= i < |ups| && ups[i].userId == u)
  {
    UpdatesOrdered(table, deltas);
    UpdatesDistinct(table, deltas);
    UpdatesScores(table, deltas);
    UpdatesCover(table, deltas);
  }

  lemma {:induction false} ApplyKeys(table: Table, ranked: seq<RankedRow>, calendarId: int)
    requires forall i :: 0 <= i < |ranked| ==> ranked[i].userId in table
    ensures Apply(table, ranked, calendarId).Keys == table.Keys
    decreases |ranked|
  {
    if ranked != [] {
      var r := ranked[0];
      assert forall i :: 0 <= i < |ranked[1..]| ==> ranked[1..][i] == ranked[i + 1];
      ApplyKeys(table[r.userId := Standing(r.position, r.score, Some(calendarId))], ranked[1..], calendarId);
    }
  }

  /** After the upsert, a written user holds the row written for it, every other user its old row. */
  lemma {:induction false} ApplyAt(table: Table, ranked: seq<RankedRow>, calendarId: int)
    requires InjectiveOn(ranked, RankedUser)
    ensures forall i :: 0 <= i < |ranked| ==>
      ranked[i].userId in Apply(table, ranked, calendarId) &&
      Apply(table, ranked, calendarId)[ranked[i].userId]
        == Standing(ranked[i].position, ranked[i].score, Some(calendarId))
    ensures forall u :: u in table && (forall i :: 0 <= i < |ranked| ==> ranked[i].userId != u) ==>
      u in Apply(table, ranked, calendarId) && Apply(table, ranked, calendarId)[u] == table[u]
    decreases |ranked|
  {
    if ranked != [] {
      var r := ranked[0];
      var t := table[r.userId := Standing(r.position, r.score, Some(calendarId))];
      var tail := ranked[1..];
      assert forall j :: 0 <= j < |tail| ==> tail[j] == ranked[j + 1];
      assert InjectiveOn(tail, RankedUser);
      ApplyAt(t, tail, calendarId);
      assert Apply(table, ranked, calendarId) == Apply(t, tail, calendarId);
      forall j | 0 <= j < |tail| ensures tail[j].userId != r.userId {
        assert RankedUser(ranked[0]) != RankedUser(ranked[j + 1]);
      }
    }
  }

  /** Every row of an upsert whose users all had a standing is stamped, and no user is added. */
  lemma {:induction false} ApplyStamps(table: Table, ranked: seq<RankedRow>, calendarId: int, u: UserId)
    requires u in table
    requires exists i :: 0 <= i < |ranked| && ranked[i].userId == u
    ensures u in Apply(table, ranked, calendarId)
    ensures Apply(table, ranked, calendarId)[u].updateCalendar == Some(calendarId)
    decreases |ranked|
  {
    var r := ranked[0];
    var t := table[r.userId := Standing(r.position, r.score, Some(calendarId))];
    var tail := ranked[1..];
    assert Apply(table, ranked, calendarId) == Apply(t, tail, calendarId);
    if exists j :: 0 <= j < |tail| && tail[j].userId == u {
      ApplyStamps(t, tail, calendarId, u);
    } else {
      ApplyKeepsUntouched(t, tail, calendarId, u);
    }
  }

  lemma {:induction false} ApplyKeepsUntouched(table: Table, ranked: seq<RankedRow>, calendarId: int, u: UserId)
    requires u in table
    requires forall i :: 0 <= i < |ranked| ==> ranked[i].userId != u
    ensures u in Apply(table, ranked, calendarId) && Apply(table, ranked, calendarId)[u] == table[u]
    decreases |ranked|
  {
    if ranked != [] {
      var r := ranked[0];
      var tail := ranked[1..];
      assert forall j :: 0 <= j < |tail| ==> tail[j] == ranked[j + 1];
      ApplyKeepsUntouched(table[r.userId := Standing(r.position, r.score, Some(calendarId))], tail, calendarId, u);
    }
  }

  /** Reconciliation never adds or removes a user's standing. */
  lemma ReconcileKeepsUsers(table: Table, calendarId: int, deltas: seq<ScoreDelta>)
    ensures Reconciled(table, calendarId, deltas).Keys == table.Keys
  {
    var merged := Merge(deltas, table);
    var sorted := SortBy(merged, ScoreDescending);
    var ups := Updates(table, deltas);
    MergeCovers(deltas, table);
    forall i | 0 <= i < |ups| ensures ups[i].userId in table {
      assert sorted[i] in multiset(merged);
    }
    ApplyKeys(table, ups, calendarId);
  }

  /** When the guard lets the write through, each scored user with a standing gets the old score
      plus the delta and the race's stamp, and every other user keeps the old row. */
  lemma ReconcileScores(table: Table, calendarId: int, deltas: seq<ScoreDelta>)
    requires InjectiveOn(deltas, DeltaUser)
    requires |Updates(table, deltas)| > 0 && AnyStale(table, calendarId)
    ensures forall u :: u in table && u in ScoredUsers(deltas) ==>
      var s := Reconciled(table, calendarId, deltas);
      u in s && s[u].score == table[u].score + DeltaFor(deltas, u) &&
      s[u].updateCalendar == Some(calendarId)
    ensures forall u :: u in table && u !in ScoredUsers(deltas) ==>
      var s := Reconciled(table, calendarId, deltas);
      u in s && s[u] == table[u]
  {
    var ups := Updates(table, deltas);
    UpdatesRanked(table, deltas);
    ApplyAt(table, ups, calendarId);
  }

  /** When the write happens, the written users hold exactly the positions 1..n (n the number of
      written rows), and a user ranked above another never has the lower score. */
  lemma ReconcilePositions(table: Table, calendarId: int, deltas: seq<ScoreDelta>)
    requires InjectiveOn(deltas, DeltaUser)
    requires |Updates(table, deltas)| > 0 && AnyStale(table, calendarId)
    ensures var s, ups := Reconciled(table, calendarId, deltas), Updates(table, deltas);
      && InjectiveOn(ups, RankedUser)
      && (forall i :: 0 <= i < |ups| ==>
            ups[i].userId in table && ups[i].userId in ScoredUsers(deltas) &&
            ups[i].userId in s && s[ups[i].userId].position == i + 1)
      && (forall u :: u in table && u in ScoredUsers(deltas) ==>
            exists i :: 0 <= i < |ups| && ups[i].userId == u)
      && (forall u, v ::
            u in table && u in ScoredUsers(deltas) && v in table && v in ScoredUsers(deltas) &&
            s[u].position < s[v].position
            ==> s[u].score >= s[v].score)
  {
    var s := Reconciled(table, calendarId, deltas);
    var ups := Updates(table, deltas);
    UpdatesRanked(table, deltas);
    ApplyAt(table, ups, calendarId);
    forall u, v | u in table && u in ScoredUsers(deltas) && v in table && v in ScoredUsers(deltas) &&
                  s[u].position < s[v].position
      ensures s[u].score >= s[v].score
    {
      var i :| 0 <= i < |ups| && ups[i].userId == u;
      var j :| 0 <= j < |ups| && ups[j].userId == v;
      assert s[u] == Standing(i + 1, ups[i].score, Some(calendarId));
      assert s[v] == Standing(j + 1, ups[j].score, Some(calendarId));
    }
  }

  /** Reconciling a race a second time changes nothing, provided every standing row belongs to a
      scored user; otherwise an unstamped row keeps the guard open (see UnscoredStandingReopensGuard). */
  lemma ReconcileIdempotent(table: Table, calendarId: int, deltas: seq<ScoreDelta>)
    requires table.Keys <= ScoredUsers(deltas)
    ensures Reconciled(Reconciled(table, calendarId, deltas), calendarId, deltas)
         == Reconciled(table, calendarId, deltas)
  {
    var ups := Updates(table, deltas);
    if |ups| > 0 && AnyStale(table, calendarId) {
      var sorted := SortedMerge(table, deltas);
      var s := Apply(table, ups, calendarId);
      ReconcileKeepsUsers(table, calendarId, deltas);
      forall u | u in s ensures s[u].updateCalendar == Some(calendarId) {
        assert exists i :: 0 <= i < |ups| && ups[i].userId == u by {
          SortedCovers(table, deltas);
          var i :| 0 <= i < |sorted| && sorted[i].userId == u;
          assert ups[i].userId == u;
        }
        ApplyStamps(table, ups, calendarId, u);
      }
      assert !AnyStale(s, calendarId);
    }
  }

  /** The guard inspects every standing row but the write stamps only scored users: while a
      standing row of an unscored user is unstamped, every re-run adds the deltas once more. */
  lemma UnscoredStandingReopensGuard(table: Table, calendarId: int, deltas: seq<ScoreDelta>, idle: UserId)
    requires InjectiveOn(deltas, DeltaUser)
    requires |Updates(table, deltas)| > 0
    requires idle in table && idle !in ScoredUsers(deltas) && table[idle].updateCalendar != Some(calendarId)
    ensures forall u :: u in table && u in ScoredUsers(deltas) ==>
      var twice := Reconciled(Reconciled(table, calendarId, deltas), calendarId, deltas);
      u in twice && twice[u].score == table[u].score + 2 * DeltaFor(deltas, u)
  {
    var once := Reconciled(table, calendarId, deltas);
    ReconcileScores(table, calendarId, deltas);
    ReconcileKeepsUsers(table, calendarId, deltas);
    var first := Merge(deltas, table)[0];
    MergeCovers(deltas, table);
    MergeCovers(deltas, once);
    assert first.userId in once && first.userId in ScoredUsers(deltas);
    assert |Updates(once, deltas)| > 0;
    assert AnyStale(once, calendarId);
    ReconcileScores(once, calendarId, deltas);
  }

  /** The guard as evidently intended: some row about to be written is not yet stamped with this
      race. Unlike AnyStale, a standing row the write never touches cannot hold it open. */
  predicate AnyScoredStale(table: Table, calendarId: int, deltas: seq<ScoreDelta>) {
    exists u :: u in table && u in ScoredUsers(deltas) && table[u].updateCalendar != Some(calendarId)
  }

  /** Reconciling under the corrected guard. */
  function ReconciledScoredGuard(table: Table, calendarId: int, deltas: seq<ScoreDelta>): Table {
    var updates := Updates(table, deltas);
    if |updates| > 0 && AnyScoredStale(table, calendarId, deltas) then Apply(table, updates, calendarId) else table
  }

  /** Under the corrected guard a second run for the same race changes nothing, whatever other
      standing rows the table holds. */
  lemma ScoredGuardIdempotent(table: Table, calendarId: int, deltas: seq<ScoreDelta>)
    ensures ReconciledScoredGuard(ReconciledScoredGuard(table, calendarId, deltas), calendarId, deltas)
         == ReconciledScoredGuard(table, calendarId, deltas)
  {
    var ups := Updates(table, deltas);
    if |ups| > 0 && AnyScoredStale(table, calendarId, deltas) {
      var sorted := SortedMerge(table, deltas);
      var s := Apply(table, ups, calendarId);
      assert AnyStale(table, calendarId);
      ReconcileKeepsUsers(table, calendarId, deltas);
      forall u | u in s && u in ScoredUsers(deltas) ensures s[u].updateCalendar == Some(calendarId) {
        assert exists i :: 0 <= i < |ups| && ups[i].userId == u by {
          SortedCovers(table, deltas);
          var i :| 0 <= i < |sorted| && sorted[i].userId == u;
          assert ups[i].userId == u;
        }
        ApplyStamps(table, ups, calendarId, u);
      }
      assert !AnyScoredStale(s, calendarId, deltas);
    }
  }

  /** When every standing row belongs to a scored user the two guards agree, so the correction
      changes nothing in that case. */
  lemma ScoredGuardAgrees(table: Table, calendarId: int, deltas: seq<ScoreDelta>)
    requires table.Keys <= ScoredUsers(deltas)
    ensures ReconciledScoredGuard(table, calendarId, deltas) == Reconciled(table, calendarId, deltas)
  {
    assert AnyScoredStale(table, calendarId, deltas) <==> AnyStale(table, calendarId);
  }

  // ---------------------------------------------------------------------------
  // The standings table and the handler

  class StandingsStore {
    var table: Table

    constructor (initial: Table)
      ensures table == initial
    {
      table := initial;
    }

    /** Merge, sort, rank and, when the guard allows it, upsert the standings. */
    method Reconcile(calendarId: int, deltas: seq<ScoreDelta>) returns (written: bool)
      modifies this
      ensures written <==> |Updates(old(table), deltas)| > 0 && AnyStale(old(table), calendarId)
      ensures table == Reconciled(old(table), calendarId, deltas)
    {
      var updates := Updates(table, deltas);
      written := false;
      if |updates| > 0 {
        var shouldUpdate := ShouldUpdate(table, calendarId);
        if shouldUpdate {
          table := Apply(table, updates, calendarId);
          written := true;
        }
      }
    }

    /** The compute-scores handler: reject a failed load, score every team, reconcile, and answer
        with the per-team deltas. */
    method CalcScores(calendarId: int, teams: Option<seq<Team>>, lineups: Option<seq<Lineup>>,
                      raceBets: Option<seq<Bet>>, sprintBets: Option<seq<Bet>>,
                      results: Option<seq<ResultRow>>)
      returns (response: Result<seq<ScoreDelta>, LoadFailure>)
      modifies this
      ensures response.Failure? <==>
        teams.None? || lineups.None? || raceBets.None? || sprintBets.None? || results.None?
      ensures teams.None? ==> response == Failure(FantasyTeamsNotLoaded)
      ensures teams.Some? && lineups.None? ==> response == Failure(LineupsNotLoaded)
      ensures teams.Some? && lineups.Some? && raceBets.None? ==> response == Failure(RaceBetsNotLoaded)
      ensures teams.Some? && lineups.Some? && raceBets.Some? && sprintBets.None? ==>
        response == Failure(SprintBetsNotLoaded)
      ensures teams.Some? && lineups.Some? && raceBets.Some? && sprintBets.Some? && results.None? ==>
        response == Failure(ResultsNotLoaded)
      ensures response.Failure? ==> table == old(table)
      ensures response.Success? ==>
        |response.value| == |teams.value| &&
        (forall i :: 0 <= i < |teams.value| ==>
          response.value[i].userId == teams.value[i].userId &&
          response.value[i].teamName == teams.value[i].name &&
          response.value[i].score == TeamDelta(teams.value[i].userId, lineups.value, raceBets.value,
                                               sprintBets.value, results.value)) &&
        table == Reconciled(old(table), calendarId, response.value)
    {
      if teams.None? {
        return Failure(FantasyTeamsNotLoaded);
      }
      if lineups.None? {
        return Failure(LineupsNotLoaded);
      }
      if raceBets.None? {
        return Failure(RaceBetsNotLoaded);
      }
      if sprintBets.None? {
        return Failure(SprintBetsNotLoaded);
      }
      if results.None? {
        return Failure(ResultsNotLoaded);
      }
      var deltas := ScoreTeams(teams.value, lineups.value, raceBets.value, sprintBets.value, results.value);
      var _ := Reconcile(calendarId, deltas);
      response := Success(deltas);
    }
  }
}
