/** Option and Result: how the model writes Python's None and its raised exceptions. */
module Wrappers {

  /** A value that may be absent (Python's None, or a NaN cell read as "missing"). */
  datatype Option<+T> = None | Some(value: T) {
    function GetOr(default: T): T {
      match this
      case Some(v) => v
      case None => default
    }
  }

  /** Either a value or the exception the source raises instead of returning. */
  datatype Result<+T, +E> = Success(value: T) | Failure(error: E)
}
