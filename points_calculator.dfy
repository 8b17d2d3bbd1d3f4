/**
 * `calculatePoints` of lib/utils/pointsCalculator.ts and the per-user sum that
 * `recalculatePointsForMatch` stores in `totalPoints`.
 */
module PointsCalculator {
  import opened Http
  import opened ResultClassifier
  import opened MatchModel
  import opened PredictionModel

  const ExactScorePoints: nat := 3
  const BestScorerPoints: nat := 2
  const OutcomePoints: nat := 1

  /** Both predicted components equal the final score's (`===`, so an undefined component never matches). */
  predicate ExactScoreHit(guess: PredictedScore, fs: Score) {
    fs.teamA == Some(guess.teamA) && fs.teamB == Some(guess.teamB)
  }

  /** The recorded best scorer is a non-empty string equal, case-sensitively, to the predicted one. */
  predicate ScorerHit(guess: string, fs: Score) {
    fs.bestScorer.Some? && fs.bestScorer.value != "" && guess == fs.bestScorer.value
  }

  /**
   * `calculateResult(finalScore.teamA, finalScore.teamB)`. A comparison with
   * an undefined component is false both ways, so an incomplete score reads
   * as a draw.
   */
  function ActualResult(fs: Score): Outcome {
    if Complete(fs) then CalculateResult(fs.teamA.value, fs.teamB.value) else Draw
  }

  /**
   * `calculatePoints(prediction, match)`: 0 while the match has no final score;
   * otherwise +3 for the exact score, +2 for the best scorer and +1 for the
   * outcome, accumulated independently.
   */
  function CalculatePoints(p: Prediction, m: Match): (points: nat)
    ensures points <= ExactScorePoints + BestScorerPoints + OutcomePoints
    ensures m.finalScore.None? ==> points == 0
  {
    if m.finalScore.None? then 0
    else
      var fs := m.finalScore.value;
      var points := 0;
      var points := if ExactScoreHit(p.exactScore, fs) then points + ExactScorePoints else points;
      var points := if ScorerHit(p.bestScorer, fs) then points + BestScorerPoints else points;
      var points := if p.result == ActualResult(fs) then points + OutcomePoints else points;
      points
  }

  /** The points are the sum of three independent awards: 3 for the exact score, 2 for the scorer, 1 for the outcome. */
  lemma PointsAreAwards(p: Prediction, m: Match)
    requires m.finalScore.Some?
    ensures var fs := m.finalScore.value;
      CalculatePoints(p, m) ==
        (if ExactScoreHit(p.exactScore, fs) then 3 else 0)
        + (if ScorerHit(p.bestScorer, fs) then 2 else 0)
        + (if p.result == ActualResult(fs) then 1 else 0)
  {
  }

  /** An exact score hit implies the outcome hit when the stored result agrees with the predicted score. */
  lemma ExactImpliesOutcome(p: Prediction, fs: Score)
    requires ResultAgrees(p) && ExactScoreHit(p.exactScore, fs)
    ensures p.result == ActualResult(fs)
  {
    assert Complete(fs);
  }

  /**
   * With a stored result that agrees with the predicted score (as every
   * submission stores it), the points tell which awards were granted: the
   * exact score iff 4 or more, the scorer iff 2, 3 or 6, the outcome iff
   * neither 0 nor 2. In particular a prediction never scores 5.
   */
  lemma {:induction false} AwardsFromPoints(p: Prediction, m: Match)
    requires m.finalScore.Some? && ResultAgrees(p)
    ensures var fs, points := m.finalScore.value, CalculatePoints(p, m);
      && (ExactScoreHit(p.exactScore, fs) <==> points >= 4)
      && (ScorerHit(p.bestScorer, fs) <==> points in {2, 3, 6})
      && (p.result == ActualResult(fs) <==> points !in {0, 2})
      && points != 5
  {
    if ExactScoreHit(p.exactScore, m.finalScore.value) {
      ExactImpliesOutcome(p, m.finalScore.value);
    }
  }

  /** Without a recorded best scorer, or with an empty one, the +2 is never awarded. */
  lemma NoRecordedScorerNoAward(p: Prediction, m: Match)
    requires m.finalScore.Some?
    requires m.finalScore.value.bestScorer.None? || m.finalScore.value.bestScorer.value == ""
    ensures !ScorerHit(p.bestScorer, m.finalScore.value)
    ensures CalculatePoints(p, m)
      == (if ExactScoreHit(p.exactScore, m.finalScore.value) then 3 else 0)
      + (if p.result == ActualResult(m.finalScore.value) then 1 else 0)
    ensures ResultAgrees(p) ==> CalculatePoints(p, m) in {0, 1, 4}
  {
    if ResultAgrees(p) && ExactScoreHit(p.exactScore, m.finalScore.value) {
      ExactImpliesOutcome(p, m.finalScore.value);
    }
  }

  /** The sum of the points of `userId`'s predictions (the `reduce` over `Prediction.find({ user })`). */
  function SumPoints(ps: seq<Prediction>, userId: Id): nat {
    if ps == [] then 0
    else (if ps[0].userId == userId then ps[0].points else 0) + SumPoints(ps[1..], userId)
  }

  /**
   * Two prediction lists that agree, position by position, on which entries
   * belong to `userId` and on those entries' points give that user the same sum.
   */
  lemma {:induction false} SumPointsAgree(ps: seq<Prediction>, qs: seq<Prediction>, userId: Id)
    requires |ps| == |qs|
    requires forall k :: 0 <= k < |ps| ==> (ps[k].userId == userId <==> qs[k].userId == userId)
    requires forall k :: 0 <= k < |ps| && ps[k].userId == userId ==> ps[k].points == qs[k].points
    ensures SumPoints(ps, userId) == SumPoints(qs, userId)
  {
    if ps != [] {
      SumPointsAgree(ps[1..], qs[1..], userId);
    }
  }

  /** Appending a prediction adds its points to its owner's sum only. */
  lemma {:induction false} SumPointsAppend(ps: seq<Prediction>, p: Prediction, userId: Id)
    ensures SumPoints(ps + [p], userId) == SumPoints(ps, userId) + (if p.userId == userId then p.points else 0)
  {
    if ps != [] {
      assert (ps + [p])[1..] == ps[1..] + [p];
      SumPointsAppend(ps[1..], p, userId);
    }
  }
}
