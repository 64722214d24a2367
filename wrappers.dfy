/** Failure-compatible wrappers shared by the other modules. */
module Wrappers {

  /** A value that may be missing (Python's `None`). */
  datatype Option<+T> = None | Some(value: T)

  /** The outcome of a step that can fail with an error value. */
  datatype Result<+R, +E> = Success(value: R) | Failure(error: E)
}
