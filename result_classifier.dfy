/** The outcome of a score pair (`calculateResult` in lib/utils/pointsCalculator.ts). */
module ResultClassifier {

  /** 'A' (team A won), 'B' (team B won) or 'DRAW'. */
  datatype Outcome = WinA | WinB | Draw

  /** Classifies a score pair; total, and each outcome holds for exactly its own case. */
  function CalculateResult(scoreA: nat, scoreB: nat): (r: Outcome)
    ensures r == WinA <==> scoreA > scoreB
    ensures r == WinB <==> scoreB > scoreA
    ensures r == Draw <==> scoreA == scoreB
  {
    if scoreA > scoreB then WinA
    else if scoreB > scoreA then WinB
    else Draw
  }
}
