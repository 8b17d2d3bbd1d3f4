/**
 * The handlers of app/api/matches/route.ts: POST creates a match after
 * validating the body, GET lists matches by kick-off, optionally only the
 * upcoming or only the finished ones.
 */
module MatchesRoute {
  import opened Http
  import opened Text
  import opened MatchModel
  import opened Database
  import opened Sorting
  import opened Selection
  import opened Recalculation

  /** A roster entry as sent: its `name` and `team` fields. */
  datatype RawPlayer = RawPlayer(name: Field, team: Field)

  /**
   * `matchDate` as sent: `NoDate` for a falsy value, `Unparsable` when
   * `new Date(matchDate)` is an invalid date, `At(ms)` otherwise.
   */
  datatype DateInput = NoDate | Unparsable | At(ms: int)

  /** The body of a creation request; `players` is `None` when it is not an array. */
  datatype CreateRequest = CreateRequest(
    teamA: Field,
    teamB: Field,
    matchDate: DateInput,
    players: Option<seq<RawPlayer>>)

  /** The loop's test: a truthy name and a team that is exactly "A" or "B". */
  predicate PlayerAccepted(p: RawPlayer) {
    Truthy(p.name) && (p.team == Text("A") || p.team == Text("B"))
  }

  predicate AllAccepted(ps: seq<RawPlayer>) {
    forall i :: 0 <= i < |ps| ==> PlayerAccepted(ps[i])
  }

  /**
   * What makes `Match.create` throw once the checks have passed: `trim` on a
   * team or player name that is not a string, or a name that the schema's
   * `required` refuses because it is empty once trimmed.
   */
  predicate CreateThrows(req: CreateRequest)
    requires req.players.Some?
  {
    || !req.teamA.Text? || !req.teamB.Text?
    || Trim(req.teamA.s) == "" || Trim(req.teamB.s) == ""
    || exists i :: 0 <= i < |req.players.value| && (!req.players.value[i].name.Text? || Trim(req.players.value[i].name.s) == "")
  }

  function TeamOf(f: Field): Team {
    if f == Text("A") then TeamA else TeamB
  }

  /** `players.map(p => ({ name: p.name.trim(), team: p.team }))`. */
  function Roster(ps: seq<RawPlayer>): (r: seq<Player>)
    requires forall i :: 0 <= i < |ps| ==> ps[i].name.Text?
  {
    seq(|ps|, i requires 0 <= i < |ps| => Player(Trim(ps[i].name.s), TeamOf(ps[i].team)))
  }

  /**
   * The answer to a creation request, check by check in the handler's order:
   * 400 missing team or date, 400 players missing or empty, 400 a rejected
   * player, 400 unparsable date, 500 when creation throws; otherwise 201 with
   * the new match.
   */
  function Creation(s: Snapshot, req: CreateRequest): Response<Match> {
    if !Truthy(req.teamA) || !Truthy(req.teamB) || req.matchDate.NoDate? then Err(MissingMatchFields)
    else if req.players.None? || req.players.value == [] then Err(MissingPlayers)
    else if !AllAccepted(req.players.value) then Err(InvalidPlayer)
    else if req.matchDate.Unparsable? then Err(InvalidDate)
    else if CreateThrows(req) then Err(ServerError)
    else Ok(201, Match(s.nextId, Trim(req.teamA.s), Trim(req.teamB.s), req.matchDate.ms,
                       Roster(req.players.value), None, None, false))
  }

  function AfterCreation(s: Snapshot, reply: Response<Match>): Snapshot {
    if reply.Ok? then s.(matches := s.matches + [reply.value], nextId := s.nextId + 1) else s
  }

  /** The `for (const player of players)` loop: false at the first rejected player. */
  method CheckPlayers(ps: seq<RawPlayer>) returns (ok: bool)
    ensures ok <==> AllAccepted(ps)
  {
    for i := 0 to |ps|
      invariant forall k :: 0 <= k < i ==> PlayerAccepted(ps[k])
    {
      var p := ps[i];
      if !Truthy(p.name) || !Truthy(p.team) || !(p.team == Text("A") || p.team == Text("B")) {
        return false;
      }
    }
    return true;
  }

  /** POST /api/matches. */
  method Create(db: Store, req: CreateRequest) returns (reply: Response<Match>)
    requires db.Valid()
    modifies db
    ensures db.Valid()
    ensures reply == Creation(old(db.State()), req)
    ensures db.State() == AfterCreation(old(db.State()), reply)
  {
    if !Truthy(req.teamA) || !Truthy(req.teamB) || req.matchDate.NoDate? {
      return Err(MissingMatchFields);
    }
    if req.players.None? || |req.players.value| == 0 {
      return Err(MissingPlayers);
    }
    var players := req.players.value;
    var ok := CheckPlayers(players);
    if !ok {
      return Err(InvalidPlayer);
    }
    if req.matchDate.Unparsable? {
      return Err(InvalidDate);
    }
    if CreateThrows(req) {
      return Err(ServerError);
    }
    var m := Match(db.nextId, Trim(req.teamA.s), Trim(req.teamB.s), req.matchDate.ms,
                   Roster(players), None, None, false);
    CreationKeepsInvariant(db.State(), req);
    db.matches := db.matches + [m];
    db.nextId := db.nextId + 1;
    reply := Ok(201, m);
  }

  /** A created match keeps every store invariant: fresh id, trimmed names, no result yet. */
  lemma CreationKeepsInvariant(s: Snapshot, req: CreateRequest)
    requires Invariant(s)
    ensures Invariant(AfterCreation(s, Creation(s, req)))
  {
    var reply := Creation(s, req);
    if reply.Ok? {
      var t := AfterCreation(s, reply);
      var m := reply.value;
      assert ValidMatch(m);
      forall i | 0 <= i < |s.predictions|
        ensures ValidPrediction(s.predictions[i], t.matches)
      {
        var p := s.predictions[i];
        var k := MatchIndex(s.matches, p.matchId).value;
        assert t.matches[k].id == p.matchId;
      }
    }
  }

  /** A new match changes no prediction and no user, so totals still equal the sums. */
  lemma CreationKeepsTotals(s: Snapshot, req: CreateRequest)
    requires TotalsAgree(s)
    ensures TotalsAgree(AfterCreation(s, Creation(s, req)))
  {
  }

  /**
   * A match is created exactly when every check passes, and it then holds the
   * trimmed team names, the date, the roster in the order sent with names
   * trimmed and teams kept, no result, no winner, and `isFinished = false`.
   */
  lemma CreationAcceptedIff(s: Snapshot, req: CreateRequest)
    ensures Creation(s, req).Ok? <==>
      && Truthy(req.teamA) && Truthy(req.teamB) && req.matchDate.At?
      && req.players.Some? && req.players.value != [] && AllAccepted(req.players.value)
      && !CreateThrows(req)
    ensures var reply := Creation(s, req);
      reply.Ok? ==>
        var ps := req.players.value;
        && reply.Status() == 201
        && reply.value.teamA == Trim(req.teamA.s) && reply.value.teamB == Trim(req.teamB.s)
        && reply.value.matchDate == req.matchDate.ms
        && |reply.value.players| == |ps|
        && (forall i :: 0 <= i < |ps| ==>
              reply.value.players[i].name == Trim(ps[i].name.s)
              && (reply.value.players[i].team == TeamA <==> ps[i].team == Text("A")))
        && reply.value.finalScore.None? && reply.value.winner.None? && !reply.value.isFinished
  {
  }

  /**
   * A rejected request creates nothing; a missing team or date, a missing or
   * empty roster, a rejected player and an unparsable date are each refused
   * with 400.
   */
  lemma RejectionCreatesNothing(s: Snapshot, req: CreateRequest)
    ensures Creation(s, req).Err? ==> AfterCreation(s, Creation(s, req)) == s
    ensures !Truthy(req.teamA) || !Truthy(req.teamB) || req.matchDate.NoDate? ==> Creation(s, req) == Err(MissingMatchFields)
    ensures req.players.None? || req.players == Some([]) ==> Creation(s, req).Status() == 400
    ensures req.players.Some? && !AllAccepted(req.players.value) ==> Creation(s, req).Status() == 400
    ensures req.matchDate.Unparsable? ==> Creation(s, req).Status() == 400
  {
  }

  /** How far back `upcoming` reaches: one hour. */
  const UpcomingSlackMs: int := 60 * 60 * 1000

  /** The query object GET builds: a filter on `isFinished` and a lower bound on `matchDate`. */
  datatype MatchQuery = MatchQuery(isFinished: Option<bool>, notBefore: Option<int>)

  predicate Admits(q: MatchQuery, m: Match) {
    (q.isFinished.Some? ==> m.isFinished == q.isFinished.value)
    && (q.notBefore.Some? ==> m.matchDate >= q.notBefore.value)
  }

  /**
   * The matches the flags ask for: with `finished`, the finished ones; with
   * `upcoming` alone, the unfinished ones; with `upcoming`, only those that
   * kick off an hour ago or later.
   */
  predicate Requested(upcoming: bool, finished: bool, now: int, m: Match) {
    && (finished ==> m.isFinished)
    && (upcoming && !finished ==> !m.isFinished)
    && (upcoming ==> m.matchDate >= now - UpcomingSlackMs)
  }

  /**
   * The query built from `upcoming=true` and `finished=true`, field by field:
   * `upcoming` asks for unfinished matches from an hour ago on, and `finished`
   * then overrides the `isFinished` filter while the date bound stays.
   */
  method BuildQuery(upcoming: bool, finished: bool, now: int) returns (q: MatchQuery)
    ensures forall m :: Admits(q, m) <==> Requested(upcoming, finished, now, m)
  {
    q := MatchQuery(None, None);
    if upcoming {
      q := q.(isFinished := Some(false));
      q := q.(notBefore := Some(now - UpcomingSlackMs));
    }
    if finished {
      q := q.(isFinished := Some(true));
    }
  }

  /** `.sort({ matchDate: 1 })`: earliest kick-off first. */
  function ByKickOff(m: Match): Rank {
    Rank(m.matchDate, 0)
  }

  /**
   * GET /api/matches, with the clock reading `now` passed in: the matches the
   * flags select, each as often as stored, earliest kick-off first. An absent
   * final score or winner is the `None` of the record.
   */
  method List(db: Store, upcoming: bool, finished: bool, now: int) returns (reply: Response<seq<Match>>)
    ensures reply.Ok? && reply.status == 200
    ensures SortedBy(reply.value, ByKickOff)
    ensures forall m :: multiset(reply.value)[m] == if Requested(upcoming, finished, now, m) then multiset(db.matches)[m] else 0
  {
    var q := BuildQuery(upcoming, finished, now);
    var found := Filter(db.matches, m => Admits(q, m));
    reply := Ok(200, SortBy(found, ByKickOff));
  }
}
