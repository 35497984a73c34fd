/** Failure-compatible wrappers used throughout the model: an optional value
    (Python's `None` or a value) and a success-or-error result (a value or the
    exception the Python code would raise). */
module Wrappers {

  datatype Option<+T> = None | Some(value: T) {

    /** Returns the wrapped value, or `default` when there is none. */
    function GetOr(default: T): T {
      match this
      case Some(v) => v
      case None => default
    }
  }

  datatype Result<+R, +E> = Success(value: R) | Failure(error: E)
}
