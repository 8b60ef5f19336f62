/** Option and Result, used for Python's `None` returns and raised exceptions. */
module Wrappers {

  /** `None` or a present value. */
  datatype Option<+T> = None | Some(value: T)

  /** A computed value, or the exception that was raised instead. */
  datatype Result<+R, +E> = Success(value: R) | Failure(error: E)
}
