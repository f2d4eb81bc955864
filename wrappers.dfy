/** Failure-compatible result types shared by every module of the model. */
module Wrappers {

  /** A value that may be absent: Python's `None` or an object. */
  datatype Option<+T> = None | Some(value: T)

  /** The outcome of an operation that the source ends with an exception or an error reply. */
  datatype Result<+T, +E> = Success(value: T) | Failure(error: E)
}
