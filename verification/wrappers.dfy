/** Optional values and results shared by every module of the model. */
module Wrappers {

  /** A value that may be absent (Go's nil, JavaScript's undefined/null). */
  datatype Option<+T> = None | Some(value: T) {
    function GetOr(default: T): T {
      match this
      case Some(v) => v
      case None => default
    }
  }

  /** Either a value or an error (Go's `(value, error)` pair). */
  datatype Result<+R, +E> = Success(value: R) | Failure(error: E)
}
