/**
 * PATCH /api/matches/[id] (app/api/matches/[id]/route.ts): enter a match's
 * final result, derive its winner, mark it finished, then rescore its
 * predictions with `recalculatePointsForMatch`.
 */
module MatchResultRoute {
  import opened Http
  import opened Text
  import opened ResultClassifier
  import opened MatchModel
  import opened PointsCalculator
  import opened Database
  import opened Recalculation

  /** The `finalScore` object sent: a component is `None` when it is not a number. */
  datatype RawFinalScore = RawFinalScore(teamA: Option<int>, teamB: Option<int>, bestScorer: Field)

  /** The body of the request; `finalScore` is `None` when falsy. */
  datatype ResultRequest = ResultRequest(finalScore: Option<RawFinalScore>)

  /** `bestScorer || undefined`, stored trimmed by the schema. */
  function RecordedScorer(f: Field): (r: Option<string>)
    requires !f.NonText?
    ensures r.Some? <==> Truthy(f)
    ensures r.Some? ==> r.value == Trim(f.s) && Trimmed(r.value)
  {
    if f.Text? && f.s != "" then Some(Trim(f.s)) else None
  }

  /**
   * The answer to a result entry, check by check in the handler's order:
   * 400 no final score, 400 a component not a non-negative number, 404 unknown
   * match, 500 for every truthy scorer that is not a string (the source fails
   * only when the String cast fails, and stores `7` as "7"; see README);
   * otherwise 200 with the saved match.
   */
  function ResultEntry(s: Snapshot, matchId: Id, req: ResultRequest): Response<Match> {
    if req.finalScore.None? then Err(MissingFinalScore)
    else
      var f := req.finalScore.value;
      if f.teamA.None? || f.teamB.None? || f.teamA.value < 0 || f.teamB.value < 0 then Err(InvalidScores)
      else match MatchIndex(s.matches, matchId)
        case None => Err(MatchNotFound)
        case Some(mi) =>
          if f.bestScorer.NonText? then Err(ServerError)
          else
            var a, b := f.teamA.value, f.teamB.value;
            Ok(200, s.matches[mi].(finalScore := Some(Score(Some(a), Some(b), RecordedScorer(f.bestScorer))),
                                   isFinished := true,
                                   winner := Some(CalculateResult(a, b))))
  }

  /** The store once the saved match has replaced the stored one. */
  function WithResult(s: Snapshot, matchId: Id, reply: Response<Match>): Snapshot {
    if reply.Ok? && MatchIndex(s.matches, matchId).Some?
    then s.(matches := s.matches[MatchIndex(s.matches, matchId).value := reply.value])
    else s
  }

  /** The store after the request: the match saved, then its predictions rescored. */
  function AfterResult(s: Snapshot, matchId: Id, reply: Response<Match>): Snapshot {
    if reply.Ok? then Recalculate(WithResult(s, matchId, reply), matchId) else s
  }

  /** PATCH /api/matches/[id]. */
  method EnterResult(db: Store, matchId: Id, req: ResultRequest) returns (reply: Response<Match>)
    requires db.Valid()
    modifies db
    ensures db.Valid()
    ensures reply == ResultEntry(old(db.State()), matchId, req)
    ensures db.State() == AfterResult(old(db.State()), matchId, reply)
  {
    if req.finalScore.None? {
      return Err(MissingFinalScore);
    }
    var f := req.finalScore.value;
    if f.teamA.None? || f.teamB.None? || f.teamA.value < 0 || f.teamB.value < 0 {
      return Err(InvalidScores);
    }
    var mi := MatchIndex(db.matches, matchId);
    if mi.None? {
      return Err(MatchNotFound);
    }
    if f.bestScorer.NonText? {
      // answered 500 for every truthy non-string scorer; the source's `save`
      // fails only when the String cast fails, and stores `7` as "7"
      return Err(ServerError);
    }
    var doc := new MatchDocument.Hydrate(db.matches[mi.value]);
    doc.finalScore := Some(Score(Some(f.teamA.value), Some(f.teamB.value), RecordedScorer(f.bestScorer)));
    doc.isFinished := true;
    // the handler writes out the same comparisons as `calculateWinner`
    doc.CalculateWinner();
    reply := Ok(200, doc.Record());
    ResultKeepsInvariant(db.State(), matchId, req);
    db.matches := db.matches[mi.value := doc.Record()];
    RecalculatePointsForMatch(db, matchId);
  }

  /** Saving the result keeps every store invariant: same id, trimmed scorer, consistent winner. */
  lemma ResultKeepsInvariant(s: Snapshot, matchId: Id, req: ResultRequest)
    requires Invariant(s)
    ensures Invariant(WithResult(s, matchId, ResultEntry(s, matchId, req)))
  {
    var reply := ResultEntry(s, matchId, req);
    if reply.Ok? {
      var mi := MatchIndex(s.matches, matchId).value;
      var t := WithResult(s, matchId, reply);
      assert ValidMatch(s.matches[mi]);
      assert ValidMatch(reply.value);
      forall x ensures MatchIndex(t.matches, x) == MatchIndex(s.matches, x) {
        IndexOfAfterUpdate(s.matches, MatchId, mi, reply.value, x);
      }
    }
  }

  /**
   * A result is accepted exactly when a final score is sent with two
   * non-negative numbers, the match exists and the scorer is absent or a
   * string. The saved match then carries that score, the trimmed scorer when
   * one was given, the winner the result classifier gives, and is finished;
   * its teams, date and roster are unchanged.
   */
  lemma ResultAcceptedIff(s: Snapshot, matchId: Id, req: ResultRequest)
    ensures ResultEntry(s, matchId, req).Ok? <==>
      && req.finalScore.Some?
      && req.finalScore.value.teamA.Some? && req.finalScore.value.teamA.value >= 0
      && req.finalScore.value.teamB.Some? && req.finalScore.value.teamB.value >= 0
      && MatchIndex(s.matches, matchId).Some?
      && !req.finalScore.value.bestScorer.NonText?
    ensures var reply := ResultEntry(s, matchId, req);
      reply.Ok? ==>
        var f, m := req.finalScore.value, s.matches[MatchIndex(s.matches, matchId).value];
        && reply.Status() == 200
        && reply.value.finalScore == Some(Score(Some(f.teamA.value), Some(f.teamB.value), RecordedScorer(f.bestScorer)))
        && reply.value.winner == Some(CalculateResult(f.teamA.value, f.teamB.value))
        && reply.value.isFinished
        && WinnerConsistent(reply.value)
        && reply.value.(finalScore := m.finalScore, winner := m.winner, isFinished := m.isFinished) == m
  {
  }

  /**
   * After an accepted result, the stored match is the saved one and each
   * prediction of the match holds the points `calculatePoints` gives against
   * it; the other predictions are untouched.
   */
  lemma ResultRescores(s: Snapshot, matchId: Id, req: ResultRequest)
    requires ResultEntry(s, matchId, req).Ok?
    ensures var reply := ResultEntry(s, matchId, req);
      var t := AfterResult(s, matchId, reply);
      var mi := MatchIndex(s.matches, matchId).value;
      && t.matches == s.matches[mi := reply.value]
      && |t.predictions| == |s.predictions|
      && (forall k :: 0 <= k < |s.predictions| && s.predictions[k].matchId == matchId ==>
            t.predictions[k] == s.predictions[k].(points := CalculatePoints(s.predictions[k], reply.value)))
      && (forall k :: 0 <= k < |s.predictions| && s.predictions[k].matchId != matchId ==>
            t.predictions[k] == s.predictions[k])
  {
    var reply := ResultEntry(s, matchId, req);
    var mi := MatchIndex(s.matches, matchId).value;
    var w := WithResult(s, matchId, reply);
    IndexOfAfterUpdate(s.matches, MatchId, mi, reply.value, matchId);
    RecalculateEffect(w, matchId, mi);
  }

  /** Entering a result keeps every user's total equal to the sum of that user's prediction points. */
  lemma ResultKeepsTotals(s: Snapshot, matchId: Id, req: ResultRequest)
    requires TotalsAgree(s)
    ensures TotalsAgree(AfterResult(s, matchId, ResultEntry(s, matchId, req)))
  {
    var reply := ResultEntry(s, matchId, req);
    if reply.Ok? {
      RecalculateKeepsTotals(WithResult(s, matchId, reply), matchId);
    }
  }

  /** Entering the same result a second time answers the same and changes nothing. */
  lemma ResultIdempotent(s: Snapshot, matchId: Id, req: ResultRequest)
    requires ResultEntry(s, matchId, req).Ok?
    ensures var t := AfterResult(s, matchId, ResultEntry(s, matchId, req));
      && ResultEntry(t, matchId, req) == ResultEntry(s, matchId, req)
      && AfterResult(t, matchId, ResultEntry(t, matchId, req)) == t
  {
    var reply := ResultEntry(s, matchId, req);
    var mi := MatchIndex(s.matches, matchId).value;
    var w := WithResult(s, matchId, reply);
    var t := AfterResult(s, matchId, reply);
    IndexOfAfterUpdate(s.matches, MatchId, mi, reply.value, matchId);
    RecalculateEffect(w, matchId, mi);
    assert t.matches == w.matches;
    assert ResultEntry(t, matchId, req) == reply;
    assert WithResult(t, matchId, reply) == t;
    RecalculateIdempotent(w, matchId);
  }
}
