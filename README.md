# pronoNexa scoring engine and store rules, in Dafny

pronoNexa runs a football prediction contest. Users register a username,
an administrator creates matches with their rosters, users predict a
match's exact score and best scorer until five minutes before kick-off,
and when the administrator enters a final result every prediction of that
match is rescored (+3 exact score, +2 best scorer, +1 outcome) and the
owners' `totalPoints` are recomputed from scratch.

This project models that core:

- `ResultClassifier`, `PointsCalculator`, `Recalculation`: `calculateResult`,
  `calculatePoints` and `recalculatePointsForMatch` of
  `lib/utils/pointsCalculator.ts`. The recalculation is a method with a loop
  over the store, proved equal to the functional `Recalculate`.
- `MatchModel`, `PredictionModel`, `UserModel`: the three record shapes and
  what their schemas enforce. The loaded match document is a class,
  `MatchDocument`, whose `CalculateWinner` assigns `winner` in place.
- `Database`: the store, a class holding the three collections in insertion
  order and the generator of fresh identifiers, with `Invariant` gathering
  the unique indexes and schema constraints.
- `PredictionsRoute`, `MatchesRoute`, `UsersRoute`: the POST and GET
  handlers of the three API routes. Each POST is a function giving the
  answer (the checks in the handler's order, each with its status code) and
  a method with early returns proved to give that answer, keep the store
  invariant and insert exactly the new record.
- `MatchResultRoute`: the result entry the administration page sends as a
  PATCH to `/api/matches/[id]` (`app/admin/results/page.tsx:56-67`). Its
  handler (`app/api/matches/[id]/route.ts`, lines 55-136) checks the body,
  saves the final score with the scorer trimmed, derives the winner with the
  same comparisons as `calculateWinner`, marks the match finished and calls
  the recalculation; the rows below cite the schema and scoring lines each
  member rests on.
- `Text`, `Sorting`, `Selection`, `Http`: JavaScript `trim`/`toLowerCase`,
  the store's `.sort(...)` and `.find(query)`, fields as the handlers test
  them, and responses.

The clock (`new Date()`) is a parameter `now` in milliseconds; a request
body is a datatype that records exactly the distinctions the handler's
tests make (falsy, string, other truthy value; number or not).

The model follows the code as written: submission accepts a best scorer
that matches a roster name up to ASCII case and surrounding whitespace,
while scoring compares exactly (`PredictionsRoute.CaseVariantScorerNeverScores`,
`PredictionsRoute.ListedVariantNeverScores`), and submission never checks
that the submitting user exists.

## Model

| member | source | states |
|---|---|---|
| `ResultClassifier.CalculateResult` | lib/utils/pointsCalculator.ts:10-14 | total; 'A' iff a > b, 'B' iff b > a, 'DRAW' iff a == b |
| `PointsCalculator.CalculatePoints` | lib/utils/pointsCalculator.ts:22-52 | at most 6 points, and 0 whenever the match has no final score |
| `PointsCalculator.PointsAreAwards` | lib/utils/pointsCalculator.ts:27-51 | the points are 3·exact + 2·scorer + 1·outcome, three independent awards |
| `PointsCalculator.ExactImpliesOutcome` | lib/utils/pointsCalculator.ts:44-49 | when the stored result agrees with the predicted score, an exact hit is also an outcome hit |
| `PointsCalculator.AwardsFromPoints` | lib/utils/pointsCalculator.ts:27-51 | with an agreeing stored result: exact iff points ≥ 4, scorer iff points in {2,3,6}, outcome iff not in {0,2}; never 5 |
| `PointsCalculator.NoRecordedScorerNoAward` | lib/utils/pointsCalculator.ts:39-41 | an absent or empty recorded scorer never grants the +2: the points are 3·exact + 1·outcome alone, so 0, 1 or 4 for a stored prediction |
| `PointsCalculator.SumPointsAgree` | lib/utils/pointsCalculator.ts:83-84 | a user's sum depends only on that user's predictions and their points |
| `PointsCalculator.SumPointsAppend` | lib/utils/pointsCalculator.ts:83-84 | appending a prediction adds its points to its owner's sum only |
| `Recalculation.RecalculatePointsForMatch` | lib/utils/pointsCalculator.ts:59-89 | the loop leaves exactly the store `Recalculate` describes, and keeps the store invariant |
| `Recalculation.RecalculateKeepsInvariant` | lib/utils/pointsCalculator.ts:73-88 | recalculation keeps unique indexes, schema constraints and stored results intact |
| `Recalculation.RecalculateEffect` | lib/utils/pointsCalculator.ts:70-88 | each prediction of the match gets `calculatePoints`, others untouched; each participating user's total is its full sum, other users untouched |
| `Recalculation.RecalculateNoOp` | lib/utils/pointsCalculator.ts:64-67 | a missing match or one without a final score leaves the store unchanged |
| `Recalculation.RescoredTwice` | lib/utils/pointsCalculator.ts:73-76 | rescoring ignores previous points, so rescoring twice equals rescoring once |
| `Recalculation.RecalculateIdempotent` | lib/utils/pointsCalculator.ts:59-89 | a second recalculation of the same match changes nothing |
| `Recalculation.RecalculateKeepsTotals` | lib/utils/pointsCalculator.ts:78-87 | if every total equals its user's sum before, it does after |
| `MatchModel.MatchDocument.HasStarted` | lib/models/Match.ts:105-110 | true iff now ≥ matchDate, with no margin |
| `MatchModel.MatchDocument.CalculateWinner` | lib/models/Match.ts:115-125 | with both components defined, winner is `calculateResult` of them; otherwise unchanged; no other field changes |
| `PredictionsRoute.FindScorer` | app/api/predictions/route.ts:69-71 | true iff some roster name equals the scorer after lower-casing and trimming both |
| `PredictionsRoute.Submit` | app/api/predictions/route.ts:11-105 | answers as `Submission`, inserts exactly the accepted prediction, keeps the store invariant |
| `PredictionsRoute.ListedScorerNonEmpty` | lib/models/Prediction.ts:52-56 | a scorer matching a roster name is non-empty once trimmed, so the schema accepts it |
| `PredictionsRoute.SubmissionKeepsInvariant` | app/api/predictions/route.ts:80-105 | an accepted submission keeps one prediction per (user, match), fresh ids, agreeing results |
| `PredictionsRoute.SubmissionAcceptedIff` | app/api/predictions/route.ts:19-105 | accepted iff every check passes; then 201, points 0, result `calculateResult` of the guess, trimmed scorer |
| `PredictionsRoute.SubmissionRejections` | app/api/predictions/route.ts:19-89 | 400 missing field, 400 bad score, 404 unknown match, 400 finished; closed iff now ≥ matchDate − 300000; then 400 scorer not on the roster, 409 existing (user, match) prediction |
| `PredictionsRoute.RejectionChangesNothing` | app/api/predictions/route.ts:80-89 | a rejection leaves the store unchanged; an existing (user, match) prediction is never duplicated |
| `PredictionsRoute.StartedImpliesClosed` | lib/models/Match.ts:105-110 | a started match is closed to submissions, and submissions close before the match starts |
| `PredictionsRoute.CaseVariantScorerNeverScores` | app/api/predictions/route.ts:69-71 | "mbappe" passes the roster check for "Mbappe" but never earns the scorer points against "Mbappe" |
| `PredictionsRoute.ListedVariantNeverScores` | lib/utils/pointsCalculator.ts:39-41 | for all inputs: a trimmed case variant of the recorded rostered scorer passes the roster check yet never earns the +2 |
| `PredictionsRoute.SubmissionKeepsTotals` | app/api/predictions/route.ts:104 | a new prediction carries 0 points, so totals still equal the sums |
| `PredictionsRoute.ListPredictions` | app/api/predictions/route.ts:155-170 | exactly the predictions matching the given filters, newest first; 500 iff one of them has a missing user or match |
| `MatchesRoute.CheckPlayers` | app/api/matches/route.ts:32-39 | true iff every player has a truthy name and a team of "A" or "B" |
| `MatchesRoute.Create` | app/api/matches/route.ts:9-82 | answers as `Creation`, inserts exactly the accepted match, keeps the store invariant |
| `MatchesRoute.CreationKeepsInvariant` | app/api/matches/route.ts:50-59 | a created match has a fresh id, trimmed non-empty names and no result |
| `MatchesRoute.CreationKeepsTotals` | app/api/matches/route.ts:50-59 | a new match changes no prediction or user, so totals still equal the sums |
| `MatchesRoute.CreationAcceptedIff` | app/api/matches/route.ts:17-59 | created iff every check passes; then trimmed teams, roster in order with trimmed names and teams kept, no result, not finished |
| `MatchesRoute.RejectionCreatesNothing` | app/api/matches/route.ts:17-47 | each failed check answers 400 and creates nothing |
| `MatchesRoute.BuildQuery` | app/api/matches/route.ts:99-114 | the query admits a match iff it meets the `upcoming`/`finished` selection, `finished` overriding the state filter |
| `MatchesRoute.List` | app/api/matches/route.ts:116-118 | exactly the selected matches, by kick-off ascending |
| `UsersRoute.FindUser` | app/api/users/route.ts:24 | true iff a stored user has exactly this username |
| `UsersRoute.Register` | app/api/users/route.ts:9-56 | answers as `Registration`, inserts exactly the accepted user, keeps the store invariant |
| `UsersRoute.RegistrationKeepsInvariant` | lib/models/User.ts:18-30 | a registered user keeps usernames unique, trimmed and 2 to 30 long |
| `UsersRoute.RegistrationAcceptedIff` | app/api/users/route.ts:16-36 | registered iff a non-blank string whose trimmed form is free and 2 to 30 long; a missing, non-string or blank name answers 400; taken names answer 409 and add nothing |
| `UsersRoute.RegistrationKeepsTotals` | app/api/users/route.ts:33-36 | a new user starts at 0, so totals still equal the sums |
| `UsersRoute.List` | app/api/users/route.ts:66-69 | every user once, points descending, ties by registration time ascending |
| `MatchResultRoute.RecordedScorer` | lib/models/Match.ts:77-80 | a truthy scorer is recorded trimmed, a falsy one not at all |
| `MatchResultRoute.EnterResult` | app/admin/results/page.tsx:56-67 | answers as `ResultEntry`, saves the match, then leaves the store `Recalculate` describes |
| `MatchResultRoute.ResultKeepsInvariant` | lib/models/Match.ts:68-90 | the saved match keeps its id and carries a winner consistent with its score |
| `MatchResultRoute.ResultAcceptedIff` | lib/models/Match.ts:115-125 | accepted iff score present with two non-negative numbers and the match exists; then score, winner, finished set, rest unchanged |
| `MatchResultRoute.ResultRescores` | lib/utils/pointsCalculator.ts:70-76 | after the result, each prediction of the match holds `calculatePoints` against the saved match |
| `MatchResultRoute.ResultKeepsTotals` | lib/utils/pointsCalculator.ts:78-87 | entering a result keeps every total equal to its user's sum |
| `MatchResultRoute.ResultIdempotent` | lib/utils/pointsCalculator.ts:59-89 | entering the same result twice answers the same and changes nothing the second time |
| `Sorting.SortBy` | app/api/users/route.ts:68 | the result is sorted by the key and a permutation of the input |
| `Selection.Filter` | app/api/predictions/route.ts:155-159 | each admitted document as often as stored, no other |
| `Scenarios.ScoringScenarios` | lib/utils/pointsCalculator.ts:22-52 | 2-1 with "X" guessed exactly earns 6; right outcome only earns 1; no final score earns 0 |
| `Scenarios.TotalReplacedScenario` | lib/utils/pointsCalculator.ts:83-85 | recalculation replaces a stale total of 99 by the sum 5 |

## Left out

- MongoDB and mongoose: connections, documents and saves are replaced by the `Store` class; each handler runs as one atomic step.
- Recalculation partial failure: the loop's awaited saves are not transactional in the source; the model applies them all.
- Concurrent requests: the duplicate-key race that answers 409 at app/api/predictions/route.ts:126-131 (and 500 for users) cannot arise when each request is atomic.
- Response bodies: the handlers' JSON projections (string ids, populated usernames and team names, `|| null`) are not modelled; a reply carries the stored record.
- Date parsing: `new Date(matchDate)` is the `DateInput` the caller supplies (absent, unparsable, or milliseconds).
- Identifier casting: ids are natural numbers; a malformed ObjectId string (a cast error, answered 500) is not modelled.
- JavaScript numbers: scores are integers; non-integral or non-finite numbers are not modelled.
- `toLowerCase` lower-cases ASCII letters only; Unicode case mapping is not modelled.
- Username length is counted in code points, not UTF-16 code units.
- A `null` roster entry throws in the source (500); the model has no such entry. A primitive entry reads `.name` as undefined and is `RawPlayer(Missing, Missing)`, refused with 400.
- `MatchResultRoute.ResultEntry`: a best scorer that is a truthy non-string answers 500; mongoose's String cast would store a number or a boolean as its string form (`7` as "7", `true` as "true").
- `UsersRoute.RegistrationKeepsTotals`: requires that no stored prediction already names the new user's id, because submission does not check that its user exists.
- `!match.finalScore` (lib/utils/pointsCalculator.ts:23 and :65) is read as "no final score stored", as the `IScore | null` type says; a mongoose document may present an unset nested path as an empty object, which the model does not capture (the only caller sets the score first).
- GET /api/matches/[id] (a lookup by id answering 404 or the record) is not modelled.
- Among documents with equal sort keys the store promises no order; `Sorting.SortBy` fixes one.
- The leaderboard route, the React pages and the seed script are not part of this model.
