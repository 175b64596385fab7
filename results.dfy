/** Outcomes of the request handlers: a value, or the failure kind an ApiError carries. */
module Results {

  datatype Option<+T> = None | Some(value: T)

  /** The failure kinds the handlers raise; `Status` is the HTTP status each one is answered with.
      `ServerError` stands for every exception that is not an ApiError (a TypeError, a failed
      upload, a rejected database command), which the error handler answers with 500. */
  datatype Code = BadRequest | Unauthenticated | Forbidden | NotFound | ServerError {
    function Status(): nat {
      match this
      case BadRequest => 400
      case Unauthenticated => 401
      case Forbidden => 403
      case NotFound => 404
      case ServerError => 500
    }
  }

  datatype Result<+T> = Ok(value: T) | Err(code: Code)
}
