/** The documents of the two Mongo collections, as plain values, and the
    error responses the routes can produce. */
module Records {

  datatype Option<T> = None | Some(value: T)

  /** A document of the `customers` collection. `last_active` and
      `ai_enabled` may be missing from a stored document. */
  datatype Customer = Customer(key: string, lastActive: Option<int>, aiEnabled: Option<bool>)

  /** A document of the `history` collection; timestamps are integer seconds. */
  datatype HistoryDoc = HistoryDoc(customerKey: string, timestamp: int, userMessage: string)

  /** The error responses of the routes: the 401 raised by `require_admin`,
      the 404 "User not found" page and the 400 "failed" JSON answer. */
  datatype HttpError = Unauthorized | NotFound | BadRequest

  function StatusCode(e: HttpError): (code: int)
    ensures 400 <= code < 500
  {
    match e
    case Unauthorized => 401
    case NotFound => 404
    case BadRequest => 400
  }

  datatype Result<T> = Ok(value: T) | Err(error: HttpError)

  /** The outcome of a guard that either lets the request through or rejects it. */
  datatype Gate = Pass | Fail(error: HttpError)
}
