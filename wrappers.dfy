/** Option and Result values used across the model for Python's `None` and raised exceptions. */
module Wrappers {

  /** `None` or a present value. */
  datatype Option<+T> = None | Some(value: T)

  /** A value, or the exception that a Python function raises instead of returning it. */
  datatype Result<+T, +E> = Success(value: T) | Failure(error: E)
}
