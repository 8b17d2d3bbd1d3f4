/**
 * The handlers of app/api/predictions/route.ts: POST submits a prediction
 * after a fixed sequence of checks, GET lists predictions, newest first.
 */
module PredictionsRoute {
  import opened Http
  import opened Text
  import opened ResultClassifier
  import opened MatchModel
  import opened PredictionModel
  import opened UserModel
  import opened PointsCalculator
  import opened Database
  import opened Sorting
  import opened Selection
  import Recalculation

  /** Submissions close this long before kick-off: five minutes. */
  const CutoffMarginMs: int := 5 * 60 * 1000

  /** A submitted score component: `None` when it is not a JSON number. */
  datatype RawScore = RawScore(teamA: Option<int>, teamB: Option<int>)

  /**
   * The body of a submission. `userId`/`matchId`/`exactScore` are `None` when
   * falsy; a truthy `exactScore` that is not an object reads as two non-numbers.
   */
  datatype SubmitRequest = SubmitRequest(
    userId: Option<Id>,
    matchId: Option<Id>,
    exactScore: Option<RawScore>,
    bestScorer: Field)

  /** Submissions for `m` are closed at `now`: at or after five minutes before kick-off. */
  predicate Closed(m: Match, now: int) {
    now >= m.matchDate - CutoffMarginMs
  }

  /** The name `players.some(p => p.name.toLowerCase().trim() === scorer.toLowerCase().trim())` looks for. */
  predicate SameName(name: string, scorer: string) {
    Trim(Lower(name)) == Trim(Lower(scorer))
  }

  predicate ScorerListed(players: seq<Player>, scorer: string) {
    exists i :: 0 <= i < |players| && SameName(players[i].name, scorer)
  }

  predicate MissingFields(req: SubmitRequest) {
    req.userId.None? || req.matchId.None? || req.exactScore.None? || !Truthy(req.bestScorer)
  }

  predicate BadScores(sc: RawScore) {
    sc.teamA.None? || sc.teamB.None? || sc.teamA.value < 0 || sc.teamB.value < 0
  }

  /**
   * The answer to a submission, check by check in the handler's order:
   * 400 missing field, 400 bad score, 404 unknown match, 400 finished match,
   * 400 closed, 400 scorer not on the roster (500 when the scorer is not a
   * string and the roster is not empty: `toLowerCase` throws), 409 duplicate;
   * otherwise 201 with the new prediction.
   */
  function Submission(s: Snapshot, req: SubmitRequest, now: int): Response<Prediction> {
    if MissingFields(req) then Err(MissingPredictionFields)
    else if BadScores(req.exactScore.value) then Err(InvalidScores)
    else match MatchIndex(s.matches, req.matchId.value)
      case None => Err(MatchNotFound)
      case Some(mi) =>
        var m := s.matches[mi];
        if m.isFinished then Err(MatchAlreadyFinished)
        else if Closed(m, now) then Err(PredictionsClosed)
        else if req.bestScorer.NonText? then (if |m.players| == 0 then Err(ScorerNotInMatch) else Err(ServerError))
        else if !ScorerListed(m.players, req.bestScorer.s) then Err(ScorerNotInMatch)
        else if PredictionExists(s.predictions, req.userId.value, req.matchId.value) then Err(DuplicatePrediction)
        else
          var a, b := req.exactScore.value.teamA.value, req.exactScore.value.teamB.value;
          Ok(201, Prediction(s.nextId, req.userId.value, req.matchId.value, PredictedScore(a, b),
                             Trim(req.bestScorer.s), CalculateResult(a, b), 0, now))
  }

  /** The store after a submission: one more prediction when it was accepted, unchanged otherwise. */
  function AfterSubmission(s: Snapshot, reply: Response<Prediction>): Snapshot {
    if reply.Ok? then s.(predictions := s.predictions + [reply.value], nextId := s.nextId + 1) else s
  }

  /** `players.some(...)`: stops at the first player whose name matches. */
  method FindScorer(players: seq<Player>, scorer: string) returns (found: bool)
    ensures found <==> ScorerListed(players, scorer)
  {
    found := false;
    var i := 0;
    while i < |players|
      invariant 0 <= i <= |players|
      invariant forall k :: 0 <= k < i ==> !SameName(players[k].name, scorer)
    {
      if SameName(players[i].name, scorer) {
        return true;
      }
      i := i + 1;
    }
  }

  /** POST /api/predictions, with the clock reading `now` passed in. */
  method Submit(db: Store, req: SubmitRequest, now: int) returns (reply: Response<Prediction>)
    requires db.Valid()
    modifies db
    ensures db.Valid()
    ensures reply == Submission(old(db.State()), req, now)
    ensures db.State() == AfterSubmission(old(db.State()), reply)
  {
    if req.userId.None? || req.matchId.None? || req.exactScore.None? || !Truthy(req.bestScorer) {
      return Err(MissingPredictionFields);
    }
    var score := req.exactScore.value;
    if score.teamA.None? || score.teamB.None? || score.teamA.value < 0 || score.teamB.value < 0 {
      return Err(InvalidScores);
    }
    var mi := MatchIndex(db.matches, req.matchId.value);
    if mi.None? {
      return Err(MatchNotFound);
    }
    var m := db.matches[mi.value];
    if m.isFinished {
      return Err(MatchAlreadyFinished);
    }
    if now >= m.matchDate - CutoffMarginMs {
      return Err(PredictionsClosed);
    }
    if req.bestScorer.NonText? {
      // the callback of `some` throws on `bestScorer.toLowerCase()` as soon as it runs
      if |m.players| > 0 {
        return Err(ServerError);
      }
      return Err(ScorerNotInMatch);
    }
    var listed := FindScorer(m.players, req.bestScorer.s);
    if !listed {
      return Err(ScorerNotInMatch);
    }
    if PredictionExists(db.predictions, req.userId.value, req.matchId.value) {
      return Err(DuplicatePrediction);
    }
    var a, b := score.teamA.value, score.teamB.value;
    var p := Prediction(db.nextId, req.userId.value, req.matchId.value, PredictedScore(a, b),
                        Trim(req.bestScorer.s), CalculateResult(a, b), 0, now);
    SubmissionKeepsInvariant(db.State(), req, now);
    db.predictions := db.predictions + [p];
    db.nextId := db.nextId + 1;
    reply := Ok(201, p);
  }

  /** A scorer that matches a roster name (non-empty once trimmed) is itself non-empty once trimmed. */
  lemma ListedScorerNonEmpty(players: seq<Player>, scorer: string)
    requires forall i :: 0 <= i < |players| ==> RequiredTrimmed(players[i].name)
    requires ScorerListed(players, scorer)
    ensures RequiredTrimmed(Trim(scorer))
  {
    var i :| 0 <= i < |players| && SameName(players[i].name, scorer);
    var name := players[i].name;
    TrimLowerCommute(name);
    TrimLowerCommute(scorer);
    TrimTrimmed(name);
  }

  /** An accepted submission keeps every store invariant, the unique (user, match) index included. */
  lemma SubmissionKeepsInvariant(s: Snapshot, req: SubmitRequest, now: int)
    requires Invariant(s)
    ensures Invariant(AfterSubmission(s, Submission(s, req, now)))
  {
    var reply := Submission(s, req, now);
    if reply.Ok? {
      var p := reply.value;
      var mi := MatchIndex(s.matches, p.matchId).value;
      assert ValidMatch(s.matches[mi]);
      ListedScorerNonEmpty(s.matches[mi].players, req.bestScorer.s);
      var t := AfterSubmission(s, reply);
      assert t.predictions[|s.predictions|] == p;
      assert ValidPrediction(p, t.matches);
      assert !PredictionExists(s.predictions, p.userId, p.matchId);
    }
  }

  /**
   * A submission is accepted exactly when every check passes: all fields
   * present, both score components non-negative numbers, the match stored,
   * not finished and not closed, the scorer a string naming a rostered player
   * up to case and surrounding whitespace, and no earlier prediction by the
   * user for the match. The new prediction then stores the predicted score,
   * the outcome it implies, the trimmed scorer and 0 points.
   */
  lemma SubmissionAcceptedIff(s: Snapshot, req: SubmitRequest, now: int)
    ensures var reply := Submission(s, req, now);
      reply.Ok? <==>
        && !MissingFields(req)
        && !BadScores(req.exactScore.value)
        && MatchIndex(s.matches, req.matchId.value).Some?
        && var m := s.matches[MatchIndex(s.matches, req.matchId.value).value];
           && !m.isFinished
           && !Closed(m, now)
           && req.bestScorer.Text?
           && ScorerListed(m.players, req.bestScorer.s)
           && !PredictionExists(s.predictions, req.userId.value, req.matchId.value)
    ensures var reply := Submission(s, req, now);
      reply.Ok? ==>
        var a, b := req.exactScore.value.teamA.value, req.exactScore.value.teamB.value;
        && reply.Status() == 201
        && reply.value.userId == req.userId.value && reply.value.matchId == req.matchId.value
        && reply.value.exactScore == PredictedScore(a, b)
        && reply.value.result == CalculateResult(a, b)
        && reply.value.bestScorer == Trim(req.bestScorer.s)
        && reply.value.points == 0
  {
  }

  /**
   * Which rejection a failing check produces: 400 for a missing field or a bad
   * score, 404 for an unknown match, 400 for a finished one; and, once those
   * pass, the request is refused as closed exactly when it comes at or after
   * five minutes before kick-off; after that, 400 for a scorer missing from
   * the roster and 409 for an existing prediction of the user for the match.
   */
  lemma SubmissionRejections(s: Snapshot, req: SubmitRequest, now: int)
    ensures MissingFields(req) ==> Submission(s, req, now) == Err(MissingPredictionFields)
    ensures !MissingFields(req) && BadScores(req.exactScore.value) ==> Submission(s, req, now) == Err(InvalidScores)
    ensures !MissingFields(req) && !BadScores(req.exactScore.value) ==>
      var mi := MatchIndex(s.matches, req.matchId.value);
      && (mi.None? ==> Submission(s, req, now).Status() == 404)
      && (mi.Some? && s.matches[mi.value].isFinished ==> Submission(s, req, now) == Err(MatchAlreadyFinished))
      && (mi.Some? && !s.matches[mi.value].isFinished ==>
            (Submission(s, req, now) == Err(PredictionsClosed) <==> now >= s.matches[mi.value].matchDate - 300000))
    ensures !MissingFields(req) && !BadScores(req.exactScore.value) && req.bestScorer.Text? ==>
      var mi := MatchIndex(s.matches, req.matchId.value);
      mi.Some? && !s.matches[mi.value].isFinished && !Closed(s.matches[mi.value], now) ==>
        var m := s.matches[mi.value];
        && (!ScorerListed(m.players, req.bestScorer.s) ==> Submission(s, req, now) == Err(ScorerNotInMatch))
        && (ScorerListed(m.players, req.bestScorer.s) && PredictionExists(s.predictions, req.userId.value, req.matchId.value) ==>
              Submission(s, req, now) == Err(DuplicatePrediction) && Submission(s, req, now).Status() == 409)
  {
  }

  /**
   * A rejected submission leaves the store as it was, and a user who already
   * predicted a match never gets a second prediction for it.
   */
  lemma RejectionChangesNothing(s: Snapshot, req: SubmitRequest, now: int)
    ensures Submission(s, req, now).Err? ==> AfterSubmission(s, Submission(s, req, now)) == s
    ensures req.userId.Some? && req.matchId.Some? && PredictionExists(s.predictions, req.userId.value, req.matchId.value)
            ==> Submission(s, req, now).Err?
  {
  }

  /**
   * Once a match has started (`hasStarted`, no margin) submissions for it are
   * closed; they close five minutes earlier, so there are instants where the
   * match has not started and submissions are already refused.
   */
  lemma StartedImpliesClosed(doc: MatchDocument, now: int)
    ensures doc.HasStarted(now) ==> Closed(doc.Record(), now)
    ensures Closed(doc.Record(), doc.matchDate - 1) && !doc.HasStarted(doc.matchDate - 1)
  {
  }

  /**
   * Submission matches the scorer up to case and whitespace, scoring does not:
   * "mbappe" is accepted for a roster listing "Mbappe", is stored as "mbappe",
   * and earns no scorer points when the result records "Mbappe".
   */
  lemma CaseVariantScorerNeverScores(fs: Score)
    requires fs.bestScorer == Some("Mbappe")
    ensures ScorerListed([Player("Mbappe", TeamA)], "mbappe")
    ensures Trim("mbappe") == "mbappe"
    ensures !ScorerHit(Trim("mbappe"), fs)
  {
    TrimTrimmed("Mbappe");
    TrimTrimmed("mbappe");
    assert Lower("Mbappe") == "mbappe";
    assert Lower("mbappe") == "mbappe";
    TrimTrimmed(Lower("mbappe"));
    assert SameName([Player("Mbappe", TeamA)][0].name, "mbappe");
  }

  /**
   * For every roster and recorded scorer: a trimmed case variant `v` of a
   * rostered name that is recorded as the best scorer passes the roster
   * check, yet the prediction storing it never earns the scorer points.
   */
  lemma ListedVariantNeverScores(players: seq<Player>, i: nat, v: string, fs: Score)
    requires i < |players| && fs.bestScorer == Some(players[i].name)
    requires Lower(v) == Lower(players[i].name) && v != players[i].name && Trimmed(v)
    ensures ScorerListed(players, v)
    ensures !ScorerHit(Trim(v), fs)
  {
    TrimTrimmed(v);
    assert SameName(players[i].name, v);
  }

  /** A new prediction carries 0 points, so every user's total still matches their predictions. */
  lemma SubmissionKeepsTotals(s: Snapshot, req: SubmitRequest, now: int)
    requires Recalculation.TotalsAgree(s)
    ensures Recalculation.TotalsAgree(AfterSubmission(s, Submission(s, req, now)))
  {
    var reply := Submission(s, req, now);
    if reply.Ok? {
      forall j | 0 <= j < |s.users|
        ensures SumPoints(s.predictions + [reply.value], s.users[j].id) == SumPoints(s.predictions, s.users[j].id)
      {
        SumPointsAppend(s.predictions, reply.value, s.users[j].id);
      }
    }
  }

  /** `GET /api/predictions?userId=..&matchId=..`: the filters that are given must match. */
  predicate Selects(userId: Option<Id>, matchId: Option<Id>, p: Prediction) {
    (userId.Some? ==> p.userId == userId.value) && (matchId.Some? ==> p.matchId == matchId.value)
  }

  /** `Prediction.find(query)`. */
  function Find(ps: seq<Prediction>, userId: Option<Id>, matchId: Option<Id>): seq<Prediction> {
    Filter(ps, p => Selects(userId, matchId, p))
  }

  /** `.sort({ createdAt: -1 })`: newest first. */
  function NewestFirst(p: Prediction): Rank {
    Rank(-p.createdAt, 0)
  }

  /** `.populate(...)` yields null for a missing user or match, and reading `_id` from it throws. */
  predicate Dangling(s: Snapshot, p: Prediction) {
    UserIndex(s.users, p.userId).None? || MatchIndex(s.matches, p.matchId).None?
  }

  /** A selected prediction is dangling exactly when a stored one that the filters select is. */
  lemma FindDangling(s: Snapshot, userId: Option<Id>, matchId: Option<Id>)
    ensures var found := Find(s.predictions, userId, matchId);
      (exists k :: 0 <= k < |found| && Dangling(s, found[k])) <==>
      (exists k :: 0 <= k < |s.predictions| && Selects(userId, matchId, s.predictions[k]) && Dangling(s, s.predictions[k]))
  {
    var found := Find(s.predictions, userId, matchId);
    if k :| 0 <= k < |found| && Dangling(s, found[k]) {
      var p := found[k];
      assert multiset(found)[p] > 0;
      assert p in s.predictions;
    }
    if k :| 0 <= k < |s.predictions| && Selects(userId, matchId, s.predictions[k]) && Dangling(s, s.predictions[k]) {
      var p := s.predictions[k];
      assert multiset(s.predictions)[p] > 0;
      assert p in found;
      var j :| 0 <= j < |found| && found[j] == p;
      assert Dangling(s, found[j]);
    }
  }

  /**
   * GET /api/predictions: the predictions the given filters select, newest
   * first; 500 when one of them belongs to a user or match that is not stored.
   */
  function ListPredictions(s: Snapshot, userId: Option<Id>, matchId: Option<Id>): (r: Response<seq<Prediction>>)
    ensures r.Ok? ==> r.status == 200 && SortedBy(r.value, NewestFirst)
    ensures r.Ok? ==> forall p :: multiset(r.value)[p] == if Selects(userId, matchId, p) then multiset(s.predictions)[p] else 0
    ensures r.Err? <==> exists k :: 0 <= k < |s.predictions| && Selects(userId, matchId, s.predictions[k]) && Dangling(s, s.predictions[k])
    ensures r.Err? ==> r.error == ServerError
  {
    var found := Find(s.predictions, userId, matchId);
    FindDangling(s, userId, matchId);
    if exists k :: 0 <= k < |found| && Dangling(s, found[k]) then Err(ServerError) else Ok(200, SortBy(found, NewestFirst))
  }
}
