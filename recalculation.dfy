/**
 * `recalculatePointsForMatch` of lib/utils/pointsCalculator.ts: rescore every
 * prediction of a finished match and recompute, from scratch, the total of
 * every user who owns one of them.
 */
module Recalculation {
  import opened Http
  import opened MatchModel
  import opened PredictionModel
  import opened UserModel
  import opened PointsCalculator
  import opened Database

  /** A prediction after rescoring against match `m`: only predictions of `m` change, and only their points. */
  function Rescore(p: Prediction, m: Match): Prediction {
    if p.matchId == m.id then p.(points := CalculatePoints(p, m)) else p
  }

  function Rescored(ps: seq<Prediction>, m: Match): seq<Prediction> {
    seq(|ps|, k requires 0 <= k < |ps| => Rescore(ps[k], m))
  }

  /** The user owns at least one prediction for the match. */
  predicate Participates(ps: seq<Prediction>, matchId: Id, userId: Id) {
    exists k :: 0 <= k < |ps| && ps[k].matchId == matchId && ps[k].userId == userId
  }

  /** Every participating user's total replaced by the sum of its points in `scored`; the others untouched. */
  function Retotaled(us: seq<User>, ps: seq<Prediction>, matchId: Id, scored: seq<Prediction>): seq<User> {
    seq(|us|, j requires 0 <= j < |us| =>
      if Participates(ps, matchId, us[j].id) then us[j].(totalPoints := SumPoints(scored, us[j].id)) else us[j])
  }

  /**
   * The store after `recalculatePointsForMatch(matchId)`: unchanged if the
   * match is missing or has no final score; otherwise its predictions are
   * rescored and the participants' totals recomputed.
   */
  function Recalculate(s: Snapshot, matchId: Id): Snapshot {
    match MatchIndex(s.matches, matchId)
    case None => s
    case Some(i) =>
      var m := s.matches[i];
      if m.finalScore.None? then s
      else
        var scored := Rescored(s.predictions, m);
        s.(predictions := scored, users := Retotaled(s.users, s.predictions, matchId, scored))
  }

  /**
   * The store after the loop has handled the first `i` predictions: those
   * are rescored, the rest untouched, and the users owning a prediction of the
   * match among the first `i` carry their current sum.
   */
  function Partial(s: Snapshot, m: Match, i: nat): Snapshot
    requires i <= |s.predictions|
  {
    var scored := Rescored(s.predictions[..i], m) + s.predictions[i..];
    s.(predictions := scored, users := Retotaled(s.users, s.predictions[..i], m.id, scored))
  }

  /** One pass of the loop body on prediction `i`. */
  function Step(st: Snapshot, i: nat, m: Match): Snapshot
    requires i < |st.predictions|
  {
    var p := st.predictions[i];
    if p.matchId != m.id then st
    else
      var ps := st.predictions[i := p.(points := CalculatePoints(p, m))];
      match UserIndex(st.users, p.userId)
      case None => st.(predictions := ps)
      case Some(j) => st.(predictions := ps, users := st.users[j := st.users[j].(totalPoints := SumPoints(ps, p.userId))])
  }

  lemma PartialStart(s: Snapshot, m: Match)
    ensures Partial(s, m, 0) == s
  {
    assert s.predictions[..0] == [];
    assert Rescored([], m) + s.predictions[0..] == s.predictions;
    assert Retotaled(s.users, [], m.id, s.predictions) == s.users;
  }

  lemma PartialEnd(s: Snapshot, m: Match, i: nat, mi: nat)
    requires i == |s.predictions|
    requires MatchIndex(s.matches, m.id) == Some(mi) && s.matches[mi] == m && m.finalScore.Some?
    ensures Partial(s, m, i) == Recalculate(s, m.id)
  {
    assert s.predictions[..i] == s.predictions;
    assert Rescored(s.predictions, m) + s.predictions[i..] == Rescored(s.predictions, m);
  }

  /** Each pass of the loop body extends the handled prefix by one prediction. */
  lemma {:induction false} StepAdvances(s: Snapshot, m: Match, i: nat)
    requires i < |s.predictions|
    requires UniqueUserIds(s.users)
    ensures Step(Partial(s, m, i), i, m) == Partial(s, m, i + 1)
  {
    var ps := s.predictions;
    var st := Partial(s, m, i);
    var nx := Partial(s, m, i + 1);
    var p := ps[i];
    assert st.predictions[i] == p;
    assert ps[..i + 1] == ps[..i] + [p];
    forall u ensures Participates(ps[..i + 1], m.id, u) <==> Participates(ps[..i], m.id, u) || (p.matchId == m.id && p.userId == u) {
      if Participates(ps[..i + 1], m.id, u) {
        var k :| 0 <= k < i + 1 && ps[..i + 1][k].matchId == m.id && ps[..i + 1][k].userId == u;
        if k < i { assert ps[..i][k] == ps[k]; }
      }
      if Participates(ps[..i], m.id, u) {
        var k :| 0 <= k < i && ps[..i][k].matchId == m.id && ps[..i][k].userId == u;
        assert ps[..i + 1][k] == ps[k];
      }
      if p.matchId == m.id && p.userId == u {
        assert ps[..i + 1][i] == p;
      }
    }
    if p.matchId != m.id {
      assert st.predictions == nx.predictions;
    } else {
      var after := st.predictions[i := p.(points := CalculatePoints(p, m))];
      assert after == nx.predictions;
      forall j | 0 <= j < |s.users| && s.users[j].id != p.userId
        ensures SumPoints(after, s.users[j].id) == SumPoints(st.predictions, s.users[j].id)
      {
        SumPointsAgree(after, st.predictions, s.users[j].id);
      }
    }
  }

  /**
   * The loop of `recalculatePointsForMatch`, over the predictions in store
   * order: each prediction of the match gets `calculatePoints`, and its owner,
   * when that user exists, gets the sum over all of its predictions.
   */
  method RecalculatePointsForMatch(db: Store, matchId: Id)
    requires db.Valid()
    modifies db
    ensures db.Valid()
    ensures db.State() == Recalculate(old(db.State()), matchId)
  {
    var mi := MatchIndex(db.matches, matchId);
    if mi.None? || db.matches[mi.value].finalScore.None? {
      return;
    }
    var m := db.matches[mi.value];
    ghost var s0 := db.State();
    PartialStart(s0, m);
    var i := 0;
    while i < |db.predictions|
      invariant 0 <= i <= |s0.predictions|
      invariant db.State() == Partial(s0, m, i)
    {
      assert Invariant(s0);
      StepAdvances(s0, m, i);
      var p := db.predictions[i];
      if p.matchId == matchId {
        db.predictions := db.predictions[i := p.(points := CalculatePoints(p, m))];
        var ui := UserIndex(db.users, p.userId);
        if ui.Some? {
          var total := SumPoints(db.predictions, p.userId);
          db.users := db.users[ui.value := db.users[ui.value].(totalPoints := total)];
        }
      }
      i := i + 1;
    }
    PartialEnd(s0, m, i, mi.value);
    RecalculateKeepsInvariant(s0, matchId);
  }

  /** Recalculation changes only points and totals, so the store invariant survives it. */
  lemma RecalculateKeepsInvariant(s: Snapshot, matchId: Id)
    requires Invariant(s)
    ensures Invariant(Recalculate(s, matchId))
  {
  }

  /**
   * After a recalculation for a match with a final score, each of its
   * predictions holds `calculatePoints` against that match, every other
   * prediction and every match is untouched, each participating user's total
   * is the sum over all of that user's predictions, and the other users are
   * untouched.
   */
  lemma RecalculateEffect(s: Snapshot, matchId: Id, mi: nat)
    requires MatchIndex(s.matches, matchId) == Some(mi) && s.matches[mi].finalScore.Some?
    ensures var r, m := Recalculate(s, matchId), s.matches[mi];
      && r.matches == s.matches && r.nextId == s.nextId
      && |r.predictions| == |s.predictions| && |r.users| == |s.users|
      && (forall k :: 0 <= k < |s.predictions| && s.predictions[k].matchId == matchId ==>
            r.predictions[k] == s.predictions[k].(points := CalculatePoints(s.predictions[k], m)))
      && (forall k :: 0 <= k < |s.predictions| && s.predictions[k].matchId != matchId ==>
            r.predictions[k] == s.predictions[k])
      && (forall j :: 0 <= j < |s.users| && Participates(s.predictions, matchId, s.users[j].id) ==>
            r.users[j] == s.users[j].(totalPoints := SumPoints(r.predictions, s.users[j].id)))
      && (forall j :: 0 <= j < |s.users| && !Participates(s.predictions, matchId, s.users[j].id) ==>
            r.users[j] == s.users[j])
  {
  }

  /** Nothing happens for a missing match or one without a final score. */
  lemma RecalculateNoOp(s: Snapshot, matchId: Id)
    requires MatchIndex(s.matches, matchId).None? || s.matches[MatchIndex(s.matches, matchId).value].finalScore.None?
    ensures Recalculate(s, matchId) == s
  {
  }

  /** Rescoring ignores the points a prediction held before, so rescoring twice is rescoring once. */
  lemma RescoredTwice(ps: seq<Prediction>, m: Match)
    ensures Rescored(Rescored(ps, m), m) == Rescored(ps, m)
  {
    var once := Rescored(ps, m);
    forall k | 0 <= k < |ps| ensures Rescore(once[k], m) == once[k] {
      if ps[k].matchId == m.id {
        assert CalculatePoints(once[k], m) == CalculatePoints(ps[k], m);
      }
    }
  }

  /** A second recalculation of the same match, with nothing changed in between, changes nothing. */
  lemma {:induction false} RecalculateIdempotent(s: Snapshot, matchId: Id)
    ensures Recalculate(Recalculate(s, matchId), matchId) == Recalculate(s, matchId)
  {
    var r := Recalculate(s, matchId);
    match MatchIndex(s.matches, matchId)
    case None =>
    case Some(i) =>
      var m := s.matches[i];
      if m.finalScore.Some? {
        RescoredTwice(s.predictions, m);
        forall u ensures Participates(r.predictions, matchId, u) <==> Participates(s.predictions, matchId, u) {
          if Participates(s.predictions, matchId, u) {
            var k :| 0 <= k < |s.predictions| && s.predictions[k].matchId == matchId && s.predictions[k].userId == u;
            assert r.predictions[k].matchId == matchId && r.predictions[k].userId == u;
          }
        }
        assert Retotaled(r.users, r.predictions, matchId, r.predictions) == r.users;
      }
  }

  /** Every user's total equals the sum of the points of that user's predictions. */
  ghost predicate TotalsAgree(s: Snapshot) {
    forall j :: 0 <= j < |s.users| ==> s.users[j].totalPoints == SumPoints(s.predictions, s.users[j].id)
  }

  /**
   * Recalculation keeps totals in agreement with the predictions: users who
   * own no prediction of the match keep a total whose sum did not change.
   */
  lemma {:induction false} RecalculateKeepsTotals(s: Snapshot, matchId: Id)
    requires TotalsAgree(s)
    ensures TotalsAgree(Recalculate(s, matchId))
  {
    var r := Recalculate(s, matchId);
    match MatchIndex(s.matches, matchId)
    case None =>
    case Some(i) =>
      var m := s.matches[i];
      if m.finalScore.Some? {
        forall j | 0 <= j < |s.users| && !Participates(s.predictions, matchId, s.users[j].id)
          ensures SumPoints(r.predictions, s.users[j].id) == SumPoints(s.predictions, s.users[j].id)
        {
          SumPointsAgree(r.predictions, s.predictions, s.users[j].id);
        }
      }
  }
}
