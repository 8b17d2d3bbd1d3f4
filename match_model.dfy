/**
 * The match record of lib/models/Match.ts: its shape, the schema's defaults
 * and constraints, and the two document methods `hasStarted` and
 * `calculateWinner`.
 */
module MatchModel {
  import opened Http
  import opened Text
  import opened ResultClassifier

  /** A player's side: 'A' or 'B' (the schema's enum). */
  datatype Team = TeamA | TeamB

  datatype Player = Player(name: string, team: Team)

  /**
   * The final score. The schema declares both components with `min: 0` but
   * not `required`, so either may be undefined; `bestScorer` is optional.
   */
  datatype Score = Score(teamA: Option<nat>, teamB: Option<nat>, bestScorer: Option<string>)

  /** Both components of a final score are defined. */
  predicate Complete(s: Score) {
    s.teamA.Some? && s.teamB.Some?
  }

  /** A stored match (IMatch); `finalScore` and `winner` are null until a result is entered. */
  datatype Match = Match(
    id: Id,
    teamA: string,
    teamB: string,
    matchDate: int,          // milliseconds since the epoch
    players: seq<Player>,
    finalScore: Option<Score>,
    winner: Option<Outcome>,
    isFinished: bool)

  /**
   * What the schema enforces on save: team names and player names are
   * required and stored trimmed, a recorded best scorer is stored trimmed.
   */
  predicate SchemaValid(m: Match) {
    && RequiredTrimmed(m.teamA)
    && RequiredTrimmed(m.teamB)
    && (forall i :: 0 <= i < |m.players| ==> RequiredTrimmed(m.players[i].name))
    && (m.finalScore.Some? && m.finalScore.value.bestScorer.Some? ==>
          Trimmed(m.finalScore.value.bestScorer.value))
  }

  /**
   * A match document loaded from the store: a mutable object whose fields the
   * handlers assign before saving it back.
   */
  class MatchDocument {
    var id: Id
    var teamA: string
    var teamB: string
    var matchDate: int
    var players: seq<Player>
    var finalScore: Option<Score>
    var winner: Option<Outcome>
    var isFinished: bool

    /** Loads a stored match (`Match.findById`). */
    constructor Hydrate(m: Match)
      ensures Record() == m
    {
      id, teamA, teamB, matchDate := m.id, m.teamA, m.teamB, m.matchDate;
      players, finalScore, winner, isFinished := m.players, m.finalScore, m.winner, m.isFinished;
    }

    /** The record `save()` writes back. */
    function Record(): Match
      reads this
    {
      Match(id, teamA, teamB, matchDate, players, finalScore, winner, isFinished)
    }

    /** `hasStarted()`, with the clock reading `now` passed in: no margin. */
    function HasStarted(now: int): (started: bool)
      reads this
      ensures started <==> matchDate <= now
    {
      now >= matchDate
    }

    /**
     * `calculateWinner()`: when both final-score components are defined it sets
     * `winner` to the outcome the result classifier gives for them; otherwise it
     * leaves `winner` as it was. Nothing else changes.
     */
    method CalculateWinner()
      modifies this`winner
      ensures finalScore.Some? && Complete(finalScore.value) ==>
                winner == Some(CalculateResult(finalScore.value.teamA.value, finalScore.value.teamB.value))
      ensures !(finalScore.Some? && Complete(finalScore.value)) ==> winner == old(winner)
      ensures Record() == old(Record()).(winner := winner)
    {
      if finalScore.Some? && finalScore.value.teamA.Some? && finalScore.value.teamB.Some? {
        var a, b := finalScore.value.teamA.value, finalScore.value.teamB.value;
        if a > b {
          winner := Some(WinA);
        } else if b > a {
          winner := Some(WinB);
        } else {
          winner := Some(Draw);
        }
      }
    }
  }
}
