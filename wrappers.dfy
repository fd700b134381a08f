/** Failure-compatible wrappers: Option stands for a Java reference that may be null. */
module Wrappers {

  datatype Option<+T> = None | Some(value: T) {

    /** The value, or `default` when absent (Java: `x == null ? default : x`). */
    function GetOr(default: T): T {
      match this
      case Some(v) => v
      case None => default
    }
  }

  /** A result that is either a value or an error. */
  datatype Result<+R, +E> = Success(value: R) | Failure(error: E)
}
