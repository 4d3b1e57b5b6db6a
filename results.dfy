/** Failure-carrying values used throughout the model. A Python exception that the
    source lets propagate becomes a `Failure`; a value that may be absent (a missing
    tag, a failed optional fetch) becomes an `Option`. */
module Results {

  datatype Option<+T> = None | Some(value: T) {
    /** The value, or `default` when there is none (Python's `x if x else default`). */
    function GetOr(default: T): T {
      match this
      case Some(v) => v
      case None => default
    }
  }

  /** The two kinds of exception that can escape an adapter: a transport failure
      (connection, timeout, non-success status) and a payload of unexpected shape. */
  datatype Error = TransportError | ParseError

  datatype Result<+T> = Success(value: T) | Failure(error: Error)
}
