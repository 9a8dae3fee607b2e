/** Optional values, request outcomes and the HTTP failures the service raises. */
module Results {

  /** A value that may be absent; `None` stands for Python's `None` or a pandas NaN cell. */
  datatype Option<+T> = None | Some(value: T)

  /** Why a request was refused. */
  datatype Reason =
    | MissingContentType  // the upload carries no media type, so `startswith` fails
    | Undecodable         // no candidate text encoding decodes the CSV bytes
    | Unreadable          // the CSV or spreadsheet reader rejects the content
    | NoColumns           // the table has no column to fall back on
    | NoUsernames         // no cell of the chosen column normalises to a non-empty key
    | InvalidPlatform     // the platform tag is neither "instagram" nor "x"
    | InvalidUsername     // a manual entry normalises to the empty key
    | PostNotFound        // no stored post carries the requested id

  /** An HTTP error response: its status code and the reason behind it. */
  datatype Failure = Failure(status: nat, reason: Reason)

  const BadRequest: nat := 400
  const NotFound: nat := 404

  /** The outcome of an operation that may be refused with an HTTP error. */
  datatype Result<+T> = Ok(value: T) | Err(failure: Failure)
}
