/** Failure-carrying values shared by every module of the model. */
module Wrappers {

  /** A value that may be absent: a NULL column, a missing JSON key, a date out of range. */
  datatype Option<+T> = None | Some(value: T) {
    function GetOr(default: T): T {
      match this
      case Some(v) => v
      case None => default
    }
  }

  /** The outcome of an operation that either yields a value or fails with an error
      (the request handler raising, so that nothing it wrote is committed). */
  datatype Result<+T, +E> = Ok(value: T) | Err(error: E)
}
