/**
 * The document store the handlers use: the users, matches and predictions
 * collections in insertion order, and the generator of fresh identifiers.
 * `Invariant` gathers what the schemas and unique indexes guarantee.
 */
module Database {
  import opened Http
  import opened Text
  import opened ResultClassifier
  import opened MatchModel
  import opened PredictionModel
  import opened UserModel

  /** The contents of the store at one moment. */
  datatype Snapshot = Snapshot(
    users: seq<User>,
    matches: seq<Match>,
    predictions: seq<Prediction>,
    nextId: Id)

  /** `Model.findById`: the position of the document whose identifier is `id`, if any. */
  function IndexOf<T>(s: seq<T>, idOf: T -> Id, id: Id): (r: Option<nat>)
    ensures r.Some? ==> r.value < |s| && idOf(s[r.value]) == id
    ensures r.None? ==> forall k :: 0 <= k < |s| ==> idOf(s[k]) != id
  {
    if s == [] then None
    else if idOf(s[0]) == id then Some(0)
    else match IndexOf(s[1..], idOf, id)
      case None => None
      case Some(k) => Some(k + 1)
  }

  /** Replacing a document by one with the same identifier moves no document: every lookup answers as before. */
  lemma {:induction false} IndexOfAfterUpdate<T>(s: seq<T>, idOf: T -> Id, i: nat, x: T, id: Id)
    requires i < |s| && idOf(s[i]) == idOf(x)
    ensures IndexOf(s[i := x], idOf, id) == IndexOf(s, idOf, id)
  {
    if idOf(s[0]) != id {
      if i == 0 {
        assert s[i := x][1..] == s[1..];
      } else {
        assert s[i := x][1..] == s[1..][i - 1 := x];
        IndexOfAfterUpdate(s[1..], idOf, i - 1, x, id);
      }
    }
  }

  function MatchId(m: Match): Id { m.id }

  function UserId(u: User): Id { u.id }

  /** `Match.findById`. */
  function MatchIndex(ms: seq<Match>, id: Id): Option<nat> {
    IndexOf(ms, MatchId, id)
  }

  /** `User.findById`. */
  function UserIndex(us: seq<User>, id: Id): Option<nat> {
    IndexOf(us, UserId, id)
  }

  predicate UniqueUserIds(us: seq<User>) {
    forall i, j :: 0 <= i < j < |us| ==> us[i].id != us[j].id
  }

  predicate UniqueMatchIds(ms: seq<Match>) {
    forall i, j :: 0 <= i < j < |ms| ==> ms[i].id != ms[j].id
  }

  predicate UniquePredictionIds(ps: seq<Prediction>) {
    forall i, j :: 0 <= i < j < |ps| ==> ps[i].id != ps[j].id
  }

  /**
   * A stored match's derived fields: a recorded final score has both
   * components, and `winner` is present exactly when a final score is, and
   * is the outcome of that score.
   */
  predicate WinnerConsistent(m: Match) {
    if m.finalScore.None? then m.winner.None?
    else Complete(m.finalScore.value)
         && m.winner == Some(CalculateResult(m.finalScore.value.teamA.value, m.finalScore.value.teamB.value))
  }

  predicate ValidMatch(m: Match) {
    MatchModel.SchemaValid(m) && WinnerConsistent(m)
  }

  predicate ValidPrediction(p: Prediction, ms: seq<Match>) {
    && PredictionModel.SchemaValid(p)
    && ResultAgrees(p)
    && MatchIndex(ms, p.matchId).Some?
  }

  /**
   * What holds of the store between requests: identifiers are fresh and
   * unique, usernames are unique and well formed, every match satisfies its
   * schema and carries a consistent winner, every prediction satisfies its
   * schema, stores the outcome of its predicted score and refers to a stored
   * match, and no user has two predictions for one match.
   */
  ghost predicate Invariant(s: Snapshot) {
    && UniqueUserIds(s.users)
    && UniqueMatchIds(s.matches)
    && UniquePredictionIds(s.predictions)
    && (forall i :: 0 <= i < |s.users| ==> s.users[i].id < s.nextId)
    && (forall i :: 0 <= i < |s.matches| ==> s.matches[i].id < s.nextId)
    && (forall i :: 0 <= i < |s.predictions| ==> s.predictions[i].id < s.nextId)
    && UniqueUsernames(s.users)
    && (forall i :: 0 <= i < |s.users| ==> ValidUsername(s.users[i].username))
    && (forall i :: 0 <= i < |s.matches| ==> ValidMatch(s.matches[i]))
    && (forall i :: 0 <= i < |s.predictions| ==> ValidPrediction(s.predictions[i], s.matches))
    && OnePerUserAndMatch(s.predictions)
  }

  /** The store, whose collections the handlers read and replace. */
  class Store {
    var users: seq<User>
    var matches: seq<Match>
    var predictions: seq<Prediction>
    var nextId: Id

    function State(): Snapshot
      reads this
    {
      Snapshot(users, matches, predictions, nextId)
    }

    ghost predicate Valid()
      reads this
    {
      Invariant(State())
    }

    /** An empty store. */
    constructor ()
      ensures Valid()
      ensures State() == Snapshot([], [], [], 0)
    {
      users, matches, predictions, nextId := [], [], [], 0;
    }
  }
}
