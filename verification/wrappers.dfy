/** Outcome types shared by every controller model: an optional value, and a
    result that is either the new value or the HTTP-level error the controller
    answers with. */
module Wrappers {

  datatype Option<+T> = None | Some(value: T) {

    function GetOr(default: T): T {
      match this
      case Some(v) => v
      case None => default
    }
  }

  /** The error responses the controllers produce. Each kind has one status code. */
  datatype Error =
    | ValidationFailed   // the request validator refused the input
    | NotFound           // a route-bound or findOrFail lookup found nothing
    | BadRequest         // an explicit 400 answer from the controller
    | Refused            // an explicit 422 answer from the controller
    | Unauthenticated    // no authenticated user
    | ServerError        // an exception caught by the controller or the framework
  {
    function Status(): int {
      match this
      case ValidationFailed => 422
      case NotFound => 404
      case BadRequest => 400
      case Refused => 422
      case Unauthenticated => 401
      case ServerError => 500
    }
  }

  datatype Result<+T> = Ok(value: T) | Err(error: Error)

  /** Uuid strings identify every persisted row. */
  type Uuid = string
}
