/**
 * What the route handlers share: identifiers, the kinds of JSON value a
 * handler tells apart when it validates a request body, the error kinds the
 * handlers answer with (each with its HTTP status code), and the response.
 */
module Http {

  datatype Option<T> = None | Some(value: T)

  /** A document identifier (a MongoDB ObjectId). */
  type Id = nat

  /**
   * A request-body field as a handler tests it. `Missing` stands for every
   * falsy value except the empty string (absent, null, false, 0); `Text(s)` is
   * a string, the empty one included; `NonText` is a truthy value that is not a
   * string (a non-zero number, true, an object).
   */
  datatype Field = Missing | Text(s: string) | NonText

  /** JavaScript truthiness of a field: `!field` is false. */
  predicate Truthy(f: Field) {
    f.NonText? || (f.Text? && f.s != "")
  }

  /** The distinct rejections of the handlers. */
  datatype ErrorKind =
    // POST /api/predictions
    | MissingPredictionFields | InvalidScores | MatchNotFound | MatchAlreadyFinished
    | PredictionsClosed | ScorerNotInMatch | DuplicatePrediction
    // POST /api/matches
    | MissingMatchFields | MissingPlayers | InvalidPlayer | InvalidDate
    // POST /api/users
    | InvalidUsername | DuplicateUsername
    // PATCH /api/matches/[id]
    | MissingFinalScore
    // a thrown error (type error, schema validation, duplicate key) caught by the handler
    | ServerError

  /** The HTTP status each rejection is answered with. */
  function StatusOf(e: ErrorKind): (code: nat)
    ensures code == 404 <==> e == MatchNotFound
    ensures code == 409 <==> e == DuplicatePrediction || e == DuplicateUsername
    ensures code == 500 <==> e == ServerError
    ensures code in {400, 404, 409, 500}
  {
    match e
    case MatchNotFound => 404
    case DuplicatePrediction | DuplicateUsername => 409
    case ServerError => 500
    case _ => 400
  }

  /** A handler's answer: a success status with its payload, or a rejection. */
  datatype Response<T> = Ok(status: nat, value: T) | Err(error: ErrorKind) {
    function Status(): nat {
      if Ok? then status else StatusOf(error)
    }
  }
}
