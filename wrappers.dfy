/** Optional values and results with an error, shared by every module of the model. */
module Wrappers {

  /** A value that may be absent: Python's `None` or a missing dictionary entry. */
  datatype Option<+T> = None | Some(value: T) {

    /** The wrapped value, or `default` when there is none. */
    function GetOr(default: T): T {
      match this
      case Some(v) => v
      case None => default
    }
  }

  /** The outcome of an operation that may raise: `Ok` with a value or `Err` with the exception. */
  datatype Result<+T, +E> = Ok(value: T) | Err(error: E)
}
