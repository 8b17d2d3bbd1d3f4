/**
 * The handlers of app/api/users/route.ts: POST registers a username, GET
 * lists users for the ranking.
 */
module UsersRoute {
  import opened Http
  import opened Text
  import opened UserModel
  import opened PointsCalculator
  import opened Database
  import opened Sorting
  import Recalculation

  /**
   * The answer to a registration, check by check in the handler's order:
   * 400 unless the username is a string that is not blank, 409 when the
   * trimmed name is taken, 500 when the schema refuses its length; otherwise
   * 201 with the new user, created at `now`.
   */
  function Registration(s: Snapshot, username: Field, now: int): Response<User> {
    if !username.Text? || Trim(username.s) == "" then Err(InvalidUsername)
    else
      var name := Trim(username.s);
      if UsernameTaken(s.users, name) then Err(DuplicateUsername)
      else if !(MinUsernameLength <= |name| <= MaxUsernameLength) then Err(ServerError)
      else Ok(201, User(s.nextId, name, 0, now))
  }

  function AfterRegistration(s: Snapshot, reply: Response<User>): Snapshot {
    if reply.Ok? then s.(users := s.users + [reply.value], nextId := s.nextId + 1) else s
  }

  /** `User.findOne({ username })`: scans the users for the name. */
  method FindUser(users: seq<User>, name: string) returns (taken: bool)
    ensures taken <==> UsernameTaken(users, name)
  {
    var i := 0;
    while i < |users|
      invariant 0 <= i <= |users|
      invariant forall k :: 0 <= k < i ==> users[k].username != name
    {
      if users[i].username == name {
        return true;
      }
      i := i + 1;
    }
    return false;
  }

  /** POST /api/users, with the clock reading `now` (the `createdAt` timestamp) passed in. */
  method Register(db: Store, username: Field, now: int) returns (reply: Response<User>)
    requires db.Valid()
    modifies db
    ensures db.Valid()
    ensures reply == Registration(old(db.State()), username, now)
    ensures db.State() == AfterRegistration(old(db.State()), reply)
  {
    if !username.Text? || |Trim(username.s)| == 0 {
      return Err(InvalidUsername);
    }
    var name := Trim(username.s);
    var taken := FindUser(db.users, name);
    if taken {
      return Err(DuplicateUsername);
    }
    if |name| < MinUsernameLength || |name| > MaxUsernameLength {
      return Err(ServerError);
    }
    var u := User(db.nextId, name, 0, now);
    RegistrationKeepsInvariant(db.State(), username, now);
    db.users := db.users + [u];
    db.nextId := db.nextId + 1;
    reply := Ok(201, u);
  }

  /** A registered user keeps every store invariant: fresh id, unique well-formed username. */
  lemma RegistrationKeepsInvariant(s: Snapshot, username: Field, now: int)
    requires Invariant(s)
    ensures Invariant(AfterRegistration(s, Registration(s, username, now)))
  {
    var reply := Registration(s, username, now);
    if reply.Ok? {
      var t := AfterRegistration(s, reply);
      assert t.users[|s.users|] == reply.value;
      assert ValidUsername(reply.value.username);
    }
  }

  /**
   * A user is registered exactly when the username is a non-blank string whose
   * trimmed form is free and 2 to 30 characters long; the user then has the
   * trimmed name and 0 points. A missing, non-string or blank username is
   * refused with 400; a taken name is refused with 409 and adds nothing.
   */
  lemma RegistrationAcceptedIff(s: Snapshot, username: Field, now: int)
    ensures Registration(s, username, now).Ok? <==>
      username.Text? && Trim(username.s) != "" && !UsernameTaken(s.users, Trim(username.s))
      && MinUsernameLength <= |Trim(username.s)| <= MaxUsernameLength
    ensures !username.Text? || Trim(username.s) == "" ==> Registration(s, username, now).Status() == 400
    ensures var reply := Registration(s, username, now);
      reply.Ok? ==> reply.Status() == 201 && reply.value.username == Trim(username.s) && reply.value.totalPoints == 0
    ensures username.Text? && Trim(username.s) != "" && UsernameTaken(s.users, Trim(username.s)) ==>
      Registration(s, username, now).Status() == 409
      && AfterRegistration(s, Registration(s, username, now)) == s
  {
  }

  /**
   * A new user starts at 0 points, so totals still agree with the predictions,
   * provided no stored prediction already names the identifier the user gets.
   */
  lemma RegistrationKeepsTotals(s: Snapshot, username: Field, now: int)
    requires Recalculation.TotalsAgree(s)
    requires forall k :: 0 <= k < |s.predictions| ==> s.predictions[k].userId != s.nextId
    ensures Recalculation.TotalsAgree(AfterRegistration(s, Registration(s, username, now)))
  {
    var reply := Registration(s, username, now);
    if reply.Ok? {
      NoPredictionsNoPoints(s.predictions, s.nextId);
    }
  }

  lemma {:induction false} NoPredictionsNoPoints(ps: seq<PredictionModel.Prediction>, userId: Id)
    requires forall k :: 0 <= k < |ps| ==> ps[k].userId != userId
    ensures SumPoints(ps, userId) == 0
  {
    if ps != [] {
      NoPredictionsNoPoints(ps[1..], userId);
    }
  }

  /** `.sort({ totalPoints: -1, createdAt: 1 })`: most points first, then the earliest registered. */
  function ByRanking(u: User): Rank {
    Rank(0 - u.totalPoints as int, u.createdAt)
  }

  /** GET /api/users: every user once, by points descending, ties by registration time. */
  method List(db: Store) returns (reply: Response<seq<User>>)
    ensures reply.Ok? && reply.status == 200
    ensures multiset(reply.value) == multiset(db.users)
    ensures forall i, j :: 0 <= i < j < |reply.value| ==>
      reply.value[i].totalPoints > reply.value[j].totalPoints
      || (reply.value[i].totalPoints == reply.value[j].totalPoints && reply.value[i].createdAt <= reply.value[j].createdAt)
  {
    var sorted := SortBy(db.users, ByRanking);
    assert SortedBy(sorted, ByRanking);
    reply := Ok(200, sorted);
  }
}
