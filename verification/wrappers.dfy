/** Failure-compatible wrappers used throughout the model: the .NET code reports
    failures by exceptions or null, the model by these values. */
module Wrappers {

  /** A value that may be absent (the source's `null`). */
  datatype Option<+T> = None | Some(value: T) {

    /** The value, or `default` when absent (the `??` operator). */
    function GetOr(default: T): T {
      match this
      case Some(v) => v
      case None => default
    }
  }

  /** Either a value or the error that the source would have thrown. */
  datatype Result<+R, +E> = Success(value: R) | Failure(error: E)
}
