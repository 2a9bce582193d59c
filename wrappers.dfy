/** Option, Result and Outcome datatypes used throughout the model. */
module Wrappers {

  /** A value that may be absent (Python's `None`, JavaScript's `undefined`). */
  datatype Option<+T> = None | Some(value: T) {
    function GetOr(default: T): T {
      match this
      case Some(v) => v
      case None => default
    }
  }

  /** The outcome of an operation that may raise. */
  datatype Result<+R, +E> = Success(value: R) | Failure(error: E)

  /** Success or failure of an operation that yields nothing. */
  datatype Outcome<+E> = Pass | Fail(error: E)
}
