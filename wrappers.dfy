/** Failure-compatible wrappers for the places where the Python code raises. */
module Wrappers {

  datatype Option<+T> = None | Some(value: T)

  /** A value, or the error the Python code would raise instead of returning it. */
  datatype Result<+T, +E> = Success(value: T) | Failure(error: E)
}
