/** Failure-aware return types used in place of Python's `None` results and raised exceptions. */
module Wrappers {

  /** `None` stands for Python's `None` return value. */
  datatype Option<+T> = None | Some(value: T)

  /** A success value or a typed failure (an exception in the source). */
  datatype Result<+T, +E> = Success(value: T) | Failure(error: E)
}
