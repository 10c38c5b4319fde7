/** Outcomes of the services: a value, or the exception the service throws. */
module Results {

  datatype Option<+T> = None | Some(value: T)

  /** The exception classes the services raise, each with its message. */
  datatype Error =
    | BadRequest(message: string)        // HTTP 400
    | NotFound(message: string)          // HTTP 404
    | Conflict(message: string)          // HTTP 409
    | Unauthorized                       // HTTP 401, message "Unauthorized"
    | HttpError(message: string, status: int)
    | TooManyRequests(remainingTime: int) // HTTP 429 raised by the rate-limit guard
    | Failure(message: string)           // a plain Error, or an error of the database client

  datatype Result<+T> = Ok(value: T) | Err(error: Error)

  /** The text an exception carries in `error.message`. */
  function MessageOf(e: Error): string
  {
    match e
    case BadRequest(m) => m
    case NotFound(m) => m
    case Conflict(m) => m
    case Unauthorized => "Unauthorized"
    case HttpError(m, _) => m
    case TooManyRequests(_) => "Too Many Requests"
    case Failure(m) => m
  }
}
