/** The prediction record of lib/models/Prediction.ts and its unique (user, match) index. */
module PredictionModel {
  import opened Http
  import opened Text
  import opened ResultClassifier

  /** The predicted score: both components required and at least 0. */
  datatype PredictedScore = PredictedScore(teamA: nat, teamB: nat)

  /** A stored prediction (IPrediction); `points` defaults to 0 and is never negative. */
  datatype Prediction = Prediction(
    id: Id,
    userId: Id,              // the schema's `user` reference
    matchId: Id,             // the schema's `match` reference
    exactScore: PredictedScore,
    bestScorer: string,
    result: Outcome,
    points: nat,
    createdAt: int)          // milliseconds since the epoch

  /** The schema's constraint on strings: `bestScorer` is required and stored trimmed. */
  predicate SchemaValid(p: Prediction) {
    RequiredTrimmed(p.bestScorer)
  }

  /** The stored outcome is the one the predicted score implies. */
  predicate ResultAgrees(p: Prediction) {
    p.result == CalculateResult(p.exactScore.teamA, p.exactScore.teamB)
  }

  /** Some prediction of the user for the match is stored (`Prediction.findOne`). */
  predicate PredictionExists(ps: seq<Prediction>, userId: Id, matchId: Id) {
    exists i :: 0 <= i < |ps| && ps[i].userId == userId && ps[i].matchId == matchId
  }

  /** The unique index on (user, match): no two predictions share both. */
  predicate OnePerUserAndMatch(ps: seq<Prediction>) {
    forall i, j :: 0 <= i < j < |ps| ==> ps[i].userId != ps[j].userId || ps[i].matchId != ps[j].matchId
  }
}
