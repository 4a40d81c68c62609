# Motomota backend core, modelled in Dafny

Motomota is a fantasy MotoGP game. Players field a team with a lineup (one rider scored for
qualifying, one for the race) and bet stakes on where riders finish the sprint and the race.
This project models the logic that decides the game's outcome:

- **Race scoring and standings** (`CalcScores`, `calc_scores.dfy`). Each fantasy team earns a
  delta from its lineup and its first sprint and race bet. The deltas are added to the
  standings. The updated rows are sorted by descending score, ranked 1..n and written back with
  the race's stamp, unless every standing already carries that stamp.
- **Sprint-bet validation and storage** (`SprintBets`, `sprint_bet.dfy`). Checks the stake,
  the points budget and the per-race and per-rider counts. Then upserts or deletes on the
  four-part key (championship, user, race, rider).
- **Result ingestion**, three ways:
  - the Express route over the Pulselive API (`ScrapeMotoGP`, `scrape_motogp.dfy`): Q1 adjustment,
    merge of the four sessions per rider, ordering, upsert rows, session lookup;
  - the headless-browser scraper function (`MotoGPScraper`, `motogp_scraper.dfy`): partial
    records per session, merged by `mergeResults`;
  - the Pulselive scraper function (`PulseliveScraper`, `pulselive_scraper.dfy`): one session at
    a time, with its session-type, event and session lookups.
- **Translations** (`I18n`, `i18n.dfy`): the language-code check, the key → value dictionary
  and the language id.
- **Authentication and authorisation** (`AuthMiddleware`, `auth_middleware.dfy`;
  `AuthorizeRoles`, `authorize_roles.dfy`): the `Bearer` header parse, the fields the
  middleware copies onto the request from the verified token, and the role check.

Shared pieces:
- Points: the MotoGP points table.
- Records: the `motogp_results` row and its key.
- Text: ASCII upper-casing.
- Collections: `Array.prototype.find`, sorting, injectivity.
- Wrappers: `Option` and `Result`.

The model follows JavaScript semantics where they decide behaviour:
- An absent value is `None`.
- `||` and `if (!x)` also treat 0 and "" as absent.
- `find` returns the first match.
- `Map` and `Object.values` keep insertion order; the model carries that order as a sequence.
- `split(' ')` keeps empty parts.

Three places differ from the program as written:
- A bet whose rider has no result row never wins (`NaN` compares unequal); see "## Left out".
- A scored user with no standing row is dropped from the written rows. The handler instead
  writes a row with only a position and the race stamp; see "## Left out".
- The sprint points budget is summed from 0; see "## Findings".

A result row whose position is null compares as 0 (`+null`). The model keeps that.

## Model

| member | source | states |
|---|---|---|
| `Collections.FindFirst` | routes/calcScores.js:41-53 | `find` returns nothing exactly when no element matches, else the element at the first matching index |
| `Collections.SortBy` | routes/calcScores.js:104 | the standings sort yields a permutation of its input ordered by the key |
| `Collections.InsertBeforeEqual` | routes/calcScores.js:104 | inserting an element puts it ahead of every element that has the same key |
| `Collections.SortStable` | routes/scrapeMotoGP.js:121-129 | the sort is stable: for every key, the elements with that key keep their input order (equal scores keep team order, equal session positions keep `Map` insertion order) |
| `Points.MotoGPPoints` | routes/scrapeMotoGP.js:12-17 | a position earns points exactly when it is 1..15; 1st earns 25, 15th earns 1, anything else 0 |
| `Points.PointsStrictlyDecreasing` | supabase/functions/motogp-scraper/index.ts:16-23 | over positions 1..15 a better position always earns strictly more points |
| `Points.PointsNonIncreasing` | supabase/functions/pulselive-scraper/index.ts:11-18 | from position 1 on, points never increase as the position grows |
| `Text.ToUpper` | supabase/functions/pulselive-scraper/index.ts:49 | `toUpperCase` keeps the length and maps each character to its upper-case form |
| `CalcScores.ScoreTeams` | routes/calcScores.js:40-90 | the team loop yields exactly one delta per fantasy team, in team order, each the team user's score for the race; a bet's rider without a result row never matches, and a row whose position is null compares as 0 |
| `CalcScores.DeltaBounds` | routes/calcScores.js:57-82 | with non-negative stakes a delta lies between lineup score − ⌊s1/2⌋ − ⌊s2/2⌋ and lineup score + s1 + s2 |
| `CalcScores.NoBetsScoreLineupOnly` | routes/calcScores.js:45-60 | a user with no bets scores exactly the lineup score (qualifying points of the qualifying rider + race points of the race rider), and 0 with no lineup either |
| `CalcScores.BetOutcome` | routes/calcScores.js:62-71 | an existing bet wins its full stake when it names the actual position or the one above it, and otherwise loses half its stake (rounded down), also when its rider has no result row |
| `CalcScores.NullPositionComparesAsZero` | routes/calcScores.js:62-81 | when the rider's result row has a null sprint or race position, a bet on 0 or −1 wins its stake and any other bet loses half |
| `CalcScores.BetWithoutResultLoses` | routes/calcScores.js:77-82 | a race bet whose rider has no result row costs half its stake |
| `CalcScores.OnlyFirstBetScored` | routes/calcScores.js:41-43 | only the first bet of each kind found for a user is scored; later bets change nothing |
| `CalcScores.ResultOrderIrrelevant` | routes/calcScores.js:50-53 | with one result row per rider, the order of the loaded rows does not change any score |
| `CalcScores.Merge` | routes/calcScores.js:93-103 | the merge yields at most one row per delta |
| `CalcScores.MergeCovers` | routes/calcScores.js:93-103 | merged rows belong to scored users with a standing, and every scored user with a standing has one |
| `CalcScores.MergeScores` | routes/calcScores.js:93-103 | with distinct users, merged rows are distinct and each holds the old score plus the user's delta |
| `CalcScores.Rank` | routes/calcScores.js:105-108 | ranking keeps the rows in order and numbers them 1..n |
| `CalcScores.SortedInjective` | routes/calcScores.js:104 | sorting keeps the merged users distinct |
| `CalcScores.SortedScores` | routes/calcScores.js:93-104 | after sorting, every row is a scored user with a standing holding the old score plus the delta |
| `CalcScores.SortedCovers` | routes/calcScores.js:93-104 | after sorting, every scored user with a standing still has a row |
| `CalcScores.UpdatesRanked` | routes/calcScores.js:104-115 | the written rows carry positions exactly 1..n, scores never increase with position, and each scored user with a standing appears once with the old score plus the delta |
| `CalcScores.ApplyKeys` | routes/calcScores.js:128 | the upsert of rows for existing users neither adds nor removes a standing |
| `CalcScores.ApplyAt` | routes/calcScores.js:109-115 | each written user ends with the written position and score stamped with the race; every other user keeps the old row |
| `CalcScores.ApplyStamps` | routes/calcScores.js:114 | a written user's standing carries the race as `update_calendar` |
| `CalcScores.ApplyKeepsUntouched` | routes/calcScores.js:128 | a user absent from the written rows keeps the old standing |
| `CalcScores.ShouldUpdate` | routes/calcScores.js:119-124 | the flag loop is true exactly when some standing's `update_calendar` differs from the race |
| `CalcScores.ReconcileKeepsUsers` | routes/calcScores.js:117-132 | reconciling never adds or removes a user's standing |
| `CalcScores.ReconcileScores` | routes/calcScores.js:93-128 | when the write happens each scored user with a standing gets the old score plus the delta and the race stamp, and every other user keeps the old row |
| `CalcScores.ReconcilePositions` | routes/calcScores.js:104-115 | after the write the written users hold positions 1..n, and a user ranked above another never has the lower score |
| `CalcScores.ReconcileIdempotent` | routes/calcScores.js:117-132 | when every standing belongs to a scored user, a second run for the same race changes nothing |
| `CalcScores.UnscoredStandingReopensGuard` | routes/calcScores.js:117-128 | an unstamped standing of an unscored user keeps the guard open, so a second run adds every delta a second time |
| `CalcScores.ScoredGuardIdempotent` | routes/calcScores.js:117-128 | with the guard restricted to the rows being written, a second run for the same race changes nothing, whatever other standings exist |
| `CalcScores.ScoredGuardAgrees` | routes/calcScores.js:117-128 | when every standing belongs to a scored user, the restricted guard reconciles exactly as the guard as written |
| `CalcScores.StandingsStore.Reconcile` | routes/calcScores.js:117-132 | writes exactly when there are rows and some standing is unstamped, and leaves the standings reconciled |
| `CalcScores.StandingsStore.CalcScores` | routes/calcScores.js:22-137 | a failed load of the teams, lineups, race bets, sprint bets or results is refused with the table unchanged, reporting the first failed load in that order; otherwise one delta per team in team order, carrying the team's user and name, and the standings reconciled with those deltas |
| `SprintBets.UserBets` | routes/sprintBet.js:37-41 | the loaded bets are exactly the user's bets in the championship |
| `SprintBets.AcceptedIffWithinLimits` | routes/sprintBet.js:19-70 | a bet is accepted exactly when the stake is an integer ≥ 1, the configuration is there and every enabled limit holds; the accepted stake is the requested one |
| `SprintBets.StakeCheckedFirst` | routes/sprintBet.js:19-22 | a missing or non-positive stake is refused before any other check |
| `SprintBets.BudgetBoundary` | routes/sprintBet.js:49-54 | reaching the points budget exactly is accepted; one point over is refused, reporting the points left |
| `SprintBets.ChecksInOrder` | routes/sprintBet.js:50-70 | a race-count refusal implies the budget passed; a rider-count refusal implies both earlier checks passed |
| `SprintBets.DisabledLimitsAccept` | routes/sprintBet.js:50-66 | with every limit null or 0, any positive stake is accepted |
| `SprintBets.CountsAtLeastOne` | routes/sprintBet.js:57-65 | an existing bet counts toward its race's and its rider's totals and its stake toward the race's points |
| `SprintBets.NonNegativePoints` | routes/sprintBet.js:49 | stakes already placed never sum to a negative total |
| `SprintBets.ResubmissionCountsReplacedBet` | routes/sprintBet.js:57-62 | re-submitting a bet on the same race and rider is refused under a race limit of 1, because the bet being replaced is counted |
| `SprintBets.Upsert` | routes/sprintBet.js:73-84 | the new bet replaces the row with its key or is appended; every other row is kept, and keys stay unique |
| `SprintBets.Remove` | routes/sprintBet.js:148-154 | exactly the row with the key is removed, every other row is kept, and keys stay unique |
| `SprintBets.UpsertIdempotent` | routes/sprintBet.js:73-84 | upserting the same bet twice equals upserting it once |
| `SprintBets.RemoveAfterUpsert` | routes/sprintBet.js:148-154 | deleting a key just upserted gives the table that deleting it without the upsert gives |
| `SprintBets.SprintBetTable.Put` | routes/sprintBet.js:19-84 | a refused bet leaves the table unchanged with the check's error; an accepted one is upserted on its key |
| `SprintBets.SprintBetTable.Delete` | routes/sprintBet.js:148-154 | the table becomes the old table without the four-part key |
| `SprintBets.ReduceFromNeverNumber` | routes/sprintBet.js:49 | once the accumulator is a bet object, `reduce` never yields a number |
| `SprintBets.BudgetAsWrittenNeverRejects` | routes/sprintBet.js:49-54 | as written, the budget step throws on the user's first bet and passes every later one |
| `SprintBets.BudgetCounterexample` | routes/sprintBet.js:49-54 | 6 points on the race, limit 10, stake 5: as written it passes, summed from 0 it is refused with 4 points left |
| `ScrapeMotoGP.AdjustQ1` | routes/scrapeMotoGP.js:79-87 | drops the first two Q1 rows and moves each remaining position back by ten |
| `ScrapeMotoGP.Q1RanksBehindQ2` | routes/scrapeMotoGP.js:79-87 | every rider kept from Q1 ranks 11th or lower and earns fewer qualifying points than any Q2 position 1..10 |
| `ScrapeMotoGP.Up` | routes/scrapeMotoGP.js:92-114 | one session's loop is the fold of `up` over its rows |
| `ScrapeMotoGP.UpFoldEntry` | routes/scrapeMotoGP.js:92-114 | the fold changes a rider's entry exactly as that rider's rows in the session do |
| `ScrapeMotoGP.SessionsEntry` | routes/scrapeMotoGP.js:116-119 | after the four sessions each rider's entry holds identity from the first row seen and each session's slot from its last row |
| `ScrapeMotoGP.MergeSessions` | routes/scrapeMotoGP.js:89-132 | the merge is sorted by race, sprint, Q2, Q1 position (else 999), holds one entry per rider id, every entry is that rider's expected entry, and every rider with an id has one; it is the stable sort of the table's entries, so entries with equal sort keys keep the table's order |
| `ScrapeMotoGP.SessionOrderFirstSeen` | routes/scrapeMotoGP.js:89-129 | the table lists the riders in the order they are first seen across Q1, Q2, sprint and race, the `Map`'s insertion order that ties keep after the sort |
| `ScrapeMotoGP.FirstTruthy` | routes/scrapeMotoGP.js:144-149 | `a \|\| b \|\| null` yields the first present non-zero value, and null when neither is one |
| `ScrapeMotoGP.UpsertRowFields` | routes/scrapeMotoGP.js:140-149 | a built row carries the key; each field falls back on its own: the qualifying position is Q1's if non-zero, else Q2's, else null, and the qualifying points independently likewise; sprint and race positions and points are the session's own, null when the session is absent or the value is 0 |
| `ScrapeMotoGP.QualifyingFieldsMix` | routes/scrapeMotoGP.js:144-145 | a rider 16th after the Q1 shift (0 points) and 3rd in Q2 gets qualifying position 16 with Q2's 16 points |
| `ScrapeMotoGP.UpsertsFiltered` | routes/scrapeMotoGP.js:136-138 | riders whose number does not resolve are skipped; every other entry yields its row, in merge order |
| `ScrapeMotoGP.BuildUpserts` | routes/scrapeMotoGP.js:134-154 | the loop yields exactly the rows of the resolvable entries, in merge order |
| `ScrapeMotoGP.FindSessionFirstMatch` | routes/scrapeMotoGP.js:194-203 | the finder returns the id of the first session matching the code (Q numbered 1 or 2 for Q1/Q2, the type otherwise), and nothing when none matches |
| `ScrapeMotoGP.QualifyingCodeIgnoresTypeName` | routes/scrapeMotoGP.js:197-199 | a session typed "Q1" is never what code "Q1" finds; only type Q with number 1 is |
| `AuthorizeRoles.AdminGate` | routes/scrapeMotoGP.js:217-218 | the write gate `includes("Admin")` is the role check with "Admin" as the only allowed role |
| `MotoGPScraper.FillUndefined` | supabase/functions/motogp-scraper/index.ts:56-62 | a later partial fills only the fields still undefined; key fields and defined fields are kept |
| `MotoGPScraper.MergeResults` | supabase/functions/motogp-scraper/index.ts:49-66 | the loop computes the merge of the partials |
| `MotoGPScraper.MergeFoldKeys` | supabase/functions/motogp-scraper/index.ts:51-55 | the dictionary holds exactly the keys of the partials |
| `MotoGPScraper.MergeFoldFields` | supabase/functions/motogp-scraper/index.ts:51-64 | each field of a record in the dictionary is the first value a partial with that key defined |
| `MotoGPScraper.MergedKeysDistinct` | supabase/functions/motogp-scraper/index.ts:65 | the merge holds no two records with the same key and no more records than partials |
| `MotoGPScraper.MergedKeysCovered` | supabase/functions/motogp-scraper/index.ts:52-54 | every merged key comes from a partial and every partial's key is merged |
| `MotoGPScraper.MergedFields` | supabase/functions/motogp-scraper/index.ts:56-62 | each merged field is the first value defined for its key in input order |
| `MotoGPScraper.MergedRecords` | supabase/functions/motogp-scraper/index.ts:49-66 | one record per distinct key, no more records than partials, and each field the first defined value |
| `MotoGPScraper.MergeOfDistinctKeys` | supabase/functions/motogp-scraper/index.ts:49-66 | partials with distinct keys come out unchanged |
| `MotoGPScraper.MergeIdempotent` | supabase/functions/motogp-scraper/index.ts:49-66 | merging the merge changes nothing |
| `MotoGPScraper.PartialFor` | supabase/functions/motogp-scraper/index.ts:194-231 | a partial carries the rider's key and exactly the pair of fields of its session: the row's position with its table points for qualifying, the row's position and points for sprint and race |
| `MotoGPScraper.Q1Fixed` | supabase/functions/motogp-scraper/index.ts:183-189 | the fixed Q1 rows are Q1 without its first two rows, each with its position moved back by ten |
| `MotoGPScraper.Q1PartialsShifted` | supabase/functions/motogp-scraper/index.ts:183-200 | every Q1 qualifying partial comes from a Q1 row past the first two, with that row's position plus ten and the table points of that position |
| `MotoGPScraper.CollectPartials` | supabase/functions/motogp-scraper/index.ts:191-201 | one loop appends the partials of its rows |
| `MotoGPScraper.AssembleResults` | supabase/functions/motogp-scraper/index.ts:179-238 | the records are the merge of all partials: qualifying, sprint, race |
| `MotoGPScraper.PartialsOfRows` | supabase/functions/motogp-scraper/index.ts:191-200 | each partial comes from a row whose rider number resolves, and carries that row's values |
| `MotoGPScraper.QualifyingNeedsBothSessions` | supabase/functions/motogp-scraper/index.ts:182 | without both Q1 and Q2 rows no partial carries qualifying values |
| `MotoGPScraper.UnmappedRidersProduceNothing` | supabase/functions/motogp-scraper/index.ts:192-193 | a rider whose number is unmapped or maps to 0 produces no partial |
| `MotoGPScraper.FirstQualifyingFromQ2` | supabase/functions/motogp-scraper/index.ts:190 | the first qualifying partial for a rider present in Q2 comes from a Q2 row |
| `MotoGPScraper.Q2WinsOnConflict` | supabase/functions/motogp-scraper/index.ts:190-238 | a rider present in Q2 keeps a Q2 qualifying position after the merge |
| `MotoGPScraper.PartialKeys` | supabase/functions/motogp-scraper/index.ts:194-197 | every partial carries the championship and race being scraped |
| `PulseliveScraper.SessionTypeAccepted` | supabase/functions/pulselive-scraper/index.ts:49-58 | a session type is accepted exactly when its upper-cased text is Q1, Q2, SPR or RAC |
| `PulseliveScraper.SessionTypeAnyCase` | supabase/functions/pulselive-scraper/index.ts:49 | every code is accepted in any letter case; a missing value is refused |
| `PulseliveScraper.SessionTypeRoundTrip` | supabase/functions/pulselive-scraper/index.ts:52-53 | parsing a session type's code gives back that session type |
| `PulseliveScraper.RaceCodeMissing` | supabase/functions/pulselive-scraper/index.ts:76-79 | the race code is refused exactly when neither a short name nor an iso code exists |
| `PulseliveScraper.FindEventMatches` | supabase/functions/pulselive-scraper/index.ts:104-106 | the event found is the first whose short name (else iso) equals the race's, case aside, and none when no event qualifies |
| `PulseliveScraper.QualifyingLookupsDiffer` | supabase/functions/pulselive-scraper/index.ts:121 | a session of type Q numbered 1 is found for Q1 by the Express route but not by this function |
| `PulseliveScraper.RecordAt` | supabase/functions/pulselive-scraper/index.ts:155-170 | an entry yields a record exactly when its rider resolves and it is not among the first two Q1 entries; the record carries the rider's key |
| `PulseliveScraper.RecordFields` | supabase/functions/pulselive-scraper/index.ts:159-181 | a record sets exactly its session's pair: qualifying position (Q1 shifted by ten, null counting as 0) with table points, or sprint/race position with the entry's points; a null position stays null outside Q1 |
| `PulseliveScraper.BuildRecords` | supabase/functions/pulselive-scraper/index.ts:152-184 | the indexed loop yields the records of the contributing entries, in order |
| `PulseliveScraper.RecordsOfEntries` | supabase/functions/pulselive-scraper/index.ts:152-184 | no more records than entries; every record comes from an entry and every contributing entry's record is there |
| `PulseliveScraper.Q1SkipsTopTwo` | supabase/functions/pulselive-scraper/index.ts:161-164 | in Q1 the first two entries give no record and every record's position is an entry's position plus ten, null counting as 0 |
| `PulseliveScraper.NullPositionRecords` | supabase/functions/pulselive-scraper/index.ts:155-170 | an entry without a position is written 10th with 6 points in Q1, and without a position with 0 points in Q2 |
| `I18n.TrimSlice` | routes/i18n.js:10 | `trim` yields a slice of the input with only white space cut at either end, neither starting nor ending with white space |
| `I18n.LanguageCodeRefused` | routes/i18n.js:10-14 | the code is refused exactly when the parameter is all white space or empty; otherwise it is the trimmed parameter |
| `I18n.BuildDictionary` | routes/i18n.js:42-49 | a key is in the dictionary exactly when some row has a string key and value, and its value is the last such row's |
| `I18n.LanguageId` | routes/i18n.js:84 | the language id is 1 exactly for `en` and 2 otherwise |
| `AuthMiddleware.Split` | middleware/authMiddleware.js:11 | `split(' ')` yields at least one part and no part holds a space |
| `AuthMiddleware.SplitJoin` | middleware/authMiddleware.js:11 | joining the parts with the separator gives back the header |
| `AuthMiddleware.SplitCount` | middleware/authMiddleware.js:11-14 | there is one part more than there are spaces |
| `AuthMiddleware.HeaderLookup` | middleware/authMiddleware.js:5-8 | the lower-case header wins, the capitalised one is read only when that is missing or empty, and with neither the request is refused first |
| `AuthMiddleware.TokenErrorExactly` | middleware/authMiddleware.js:11-14 | a present header is a token error exactly when it does not hold exactly one space |
| `AuthMiddleware.AcceptedHeaders` | middleware/authMiddleware.js:11-22 | a token is passed on exactly when the header is a Bearer scheme (any case), one space and a space-free token, and it is the text after the space |
| `AuthMiddleware.BearerRoundTrip` | middleware/authMiddleware.js:16-22 | `Bearer <token>` in any letter case yields the token |
| `AuthMiddleware.Authenticate` | middleware/authMiddleware.js:3-32 | a header failure is reported as such, a token the signature check rejects is invalid, and otherwise the request carries the token's user id and user name and no roles |
| `AuthorizeRoles.HasRoleIff` | middleware/authorizeRoles.js:9-14 | access is granted exactly when some role of the user is allowed |
| `AuthorizeRoles.MissingRolesDenied` | middleware/authorizeRoles.js:9 | a user without roles is refused |
| `AuthorizeRoles.EmptyAllowedDenies` | middleware/authorizeRoles.js:10 | with no allowed roles nobody passes |
| `AuthorizeRoles.MoreRolesNeverDeny` | middleware/authorizeRoles.js:10-14 | giving a user more roles never turns access into refusal |
| `AuthorizeRoles.AuthenticatedRequestsRefused` | middleware/authMiddleware.js:28-29 | as written, every authenticated request is refused by any role check, whatever roles its token names |
| `AuthorizeRoles.AdminWriteNeverOpens` | routes/scrapeMotoGP.js:217-218 | as written, the write gate of the motogp-results route never opens for an authenticated request |
| `AuthorizeRoles.IntendedRolesDecide` | routes/auth.js:57-65 | with the signed roles attached, access is granted exactly when the token names an allowed role, and the write gate opens exactly for "Admin" |

## Left out

- Database reads and writes, HTTP requests, the fetch timeout and retries, the headless browser, logging and `Promise.all`: loaded data are parameters, and a failed load is a `None` input where the source checks for one (see `CalcScores.StandingsStore.CalcScores` below for the one it does not).
- The JWT signature check (`jwt.verify`, middleware/authMiddleware.js:22-25) calls a library outside this repository. It is the parameter `verify` of `AuthMiddleware.Authenticate`: the claims of a token it accepts, nothing for one it rejects. Token expiry is part of that check.
- Wall-clock fields (`modified_at`, `last_modification_at`, `updated_at`): they are written from the clock and affect nothing else.
- Number parsing (`parseInt`, `Number`, unary `+`, `NaN`): request and page values arrive already parsed, with a missing value as `None`. A `NaN` from unparseable text and `parseInt`'s truncation of "2.5" to 2 are not modelled. The browser scraper's position reads an empty cell as "0" (supabase/functions/motogp-scraper/index.ts:89), so it is an integer there. The Pulselive positions can be null, and the model carries that.
- JavaScript loose equality and mixed string/number ids (`==` at routes/calcScores.js:121 and routes/i18n.js:84, `===` between a body value and a stored id at routes/sprintBet.js:49-65): all ids are integers and compared as integers.
- CalcScores.BetOutcome: when the bet's rider has no result row, the `+x == +y` comparisons with `undefined` give `NaN` and fail. The model expresses this as a missing position that never wins; it is not a literal `NaN` model. A row with a null position compares as 0, as `+null` does.
- CalcScores.Merge: for a scored user without a standing row, the `if(standing)` guard makes the map yield `undefined` (routes/calcScores.js:94-95). The sort puts it last (line 104). Spreading it gives a row `{position: k, update_calendar}` with no user, championship or score (lines 105-115). Such rows count toward `length > 0` (line 117) and go into the batch upsert, whose failure `updateStandings` logs and swallows (lines 319-322). The model drops these rows. The real rows still get positions 1..m.
- CalcScores.StandingsStore.CalcScores: `loadStandings` returns null on a failed query (routes/calcScores.js:299-309), and the handler does not check it (lines 22-37). With at least one team, `standings.find` then throws (line 94). The model takes the standings as loaded and does not model that crash. The response's `first_name` and `team_name` display fields are left out. `ScoreDelta` carries the team name only.
- Rider-map construction (`riders.forEach` at supabase/functions/motogp-scraper/index.ts:161-166 and its twins): the map is an input, and an id of 0 resolves to nothing as `!riderId` does.
- The string keys `${championship}-${rider}-${calendar}` of `mergeResults` are modelled as the triple `ResultKey`, which distinguishes every pair of id triples. That matches the string for non-negative ids.
- Upper-casing and case-insensitive comparison cover ASCII letters only. `trim` covers the white space and line-terminator characters JavaScript lists.
- The event code of the Express route (`String(country).toUpperCase()`, routes/scrapeMotoGP.js:186) and `getEventByCode` share the event-matching rule of `PulseliveScraper.FindEvent`. They are not modelled separately.
- The bet `position` of a sprint bet is stored as sent; the source does not validate it, and neither does the model.
- The sprint-bet GET route, the i18n PUT route's key upsert, and the remaining routes are outside the modelled core.
- A dictionary key such as `__proto__`, which a plain JavaScript object treats specially, is an ordinary key in the model.

## Findings

| source | as written | input that shows it | evidently intended | confidence | as-written member | corrected member |
|---|---|---|---|---|---|---|
| routes/sprintBet.js:49 | `existingBets.reduce((sum, b) => …)` has no initial value, so the accumulator starts as the first bet object. The sum becomes that object plus numbers (a string), and `totalPoints + points > limit` compares a non-numeric string, which is always false. With no earlier bets `reduce` throws. | existing bets `[{calendar 7, rider 93, points 6}]`, limit 10, request on race 7 with stake 5: as written it passes; the intended total 6 + 5 = 11 exceeds 10 | `reduce(…, 0)`: the stakes already placed on this race, summed from 0 | high, not executed | `SprintBets.BudgetCounterexample` | `SprintBets.BudgetBoundary` |
| routes/calcScores.js:117-128 | The re-run guard `shouldUpdate` looks at every standing row, but the write stamps only the rows of users who scored. A standing row of a user without a fantasy team therefore stays unstamped, and the guard stays open. | one standing row for a user with a team and delta 10, one for a user without a team, neither stamped: the first run adds 10 and the second adds 10 again | the guard asks whether a row about to be written is still unstamped, so the same race is never added twice | medium, not executed | `CalcScores.UnscoredStandingReopensGuard` | `CalcScores.ScoredGuardIdempotent` |
| middleware/authMiddleware.js:28-29 | After verifying the token the middleware copies only `userId` and `username` onto the request. `req.roles`, which the role check reads (middleware/authorizeRoles.js:7-9) and the motogp-results route reads (routes/scrapeMotoGP.js:217), is never set, so `req.roles \|\| []` is always empty. | a token signed with roles `["Admin"]` (routes/auth.js:64) on the calc-scores route, guarded by `authorizeRoles('Admin')` (routes/calcScores.js:7): refused with 403 | the middleware also copies `decoded.roles`, so the signed roles decide access | high, not executed | `AuthorizeRoles.AuthenticatedRequestsRefused` | `AuthorizeRoles.IntendedRolesDecide` |
