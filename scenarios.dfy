/** Worked examples of the scoring rules, on concrete matches and predictions. */
module Scenarios {
  import opened Http
  import opened ResultClassifier
  import opened MatchModel
  import opened PredictionModel
  import opened UserModel
  import opened PointsCalculator
  import opened Database
  import opened Recalculation

  function Finished(a: nat, b: nat, scorer: string): Match {
    Match(10, "Lions", "Eagles", 0, [Player("X", TeamA), Player("Y", TeamB)],
          Some(Score(Some(a), Some(b), Some(scorer))), Some(CalculateResult(a, b)), true)
  }

  function Guess(matchId: Id, a: nat, b: nat, scorer: string): Prediction {
    Prediction(20, 1, matchId, PredictedScore(a, b), scorer, CalculateResult(a, b), 0, 0)
  }

  /**
   * Final 2-1 with scorer "X": the exact guess with "X" earns 6; 1-0 with the
   * wrong scorer earns the outcome point only. Final 1-1: 2-2 earns the outcome
   * point only. Without a final score every guess earns 0.
   */
  lemma ScoringScenarios()
    ensures CalculatePoints(Guess(10, 2, 1, "X"), Finished(2, 1, "X")) == 6
    ensures CalculatePoints(Guess(10, 1, 0, "Y"), Finished(2, 1, "X")) == 1
    ensures CalculatePoints(Guess(10, 2, 2, "Y"), Finished(1, 1, "X")) == 1
    ensures CalculatePoints(Guess(10, 2, 1, "X"), Finished(2, 1, "X").(finalScore := None)) == 0
  {
    assert ExactScoreHit(Guess(10, 2, 1, "X").exactScore, Finished(2, 1, "X").finalScore.value);
    assert !ExactScoreHit(Guess(10, 1, 0, "Y").exactScore, Finished(2, 1, "X").finalScore.value);
    assert !ExactScoreHit(Guess(10, 2, 2, "Y").exactScore, Finished(1, 1, "X").finalScore.value);
  }

  /**
   * A user holding 99 points, with a prediction of the finished match that
   * earns 4 (exact score and outcome) and a prediction of another match that
   * holds 1: recalculating the finished match sets the total to 5, replacing
   * the old value.
   */
  lemma TotalReplacedScenario()
    ensures var m := Finished(2, 1, "X");
      var s := Snapshot([User(1, "ann", 99, 0)], [m],
                        [Guess(10, 2, 1, "Y"), Guess(11, 0, 0, "Y").(id := 21, points := 1)], 30);
      Recalculate(s, 10).users[0].totalPoints == 5
  {
    var m := Finished(2, 1, "X");
    var p, q := Guess(10, 2, 1, "Y"), Guess(11, 0, 0, "Y").(id := 21, points := 1);
    var s := Snapshot([User(1, "ann", 99, 0)], [m], [p, q], 30);
    assert MatchIndex(s.matches, 10) == Some(0);
    assert CalculatePoints(p, m) == 4 by {
      assert ExactScoreHit(p.exactScore, m.finalScore.value);
    }
    var scored := Rescored(s.predictions, m);
    assert scored == [p.(points := 4), q];
    assert Participates(s.predictions, 10, 1) by {
      assert s.predictions[0].matchId == 10;
    }
    assert SumPoints(scored, 1) == 5 by {
      assert scored[1..] == [q];
      assert [q][1..] == [];
      assert SumPoints([q], 1) == 1 + SumPoints([], 1);
      assert SumPoints(scored, 1) == 4 + SumPoints([q], 1);
    }
  }
}
