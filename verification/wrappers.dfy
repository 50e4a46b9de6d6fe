/** Failure-carrying values shared by every module of the model. */
module Wrappers {

  /** A value that may be absent: the model's stand-in for JavaScript's `null` results. */
  datatype Option<+T> = None | Some(value: T) {
    function GetOr(default: T): T {
      match this
      case Some(v) => v
      case None => default
    }
  }

  /** The outcome of an operation that can throw: the value, or the error it raised. */
  datatype Result<+T, +E> = Ok(value: T) | Err(error: E)
}
