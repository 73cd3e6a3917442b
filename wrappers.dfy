/** Option and Result types shared by every module of the model. */
module Wrappers {

  /** A value that may be missing (Python's `None`, or a key a dict lacks). */
  datatype Option<+T> = None | Some(value: T) {
    function GetOr(default: T): T {
      match this
      case Some(v) => v
      case None => default
    }
  }

  /** The outcome of an operation that may raise: a value, or the error it raised. */
  datatype Result<+T, +E> = Ok(value: T) | Err(error: E)
}
