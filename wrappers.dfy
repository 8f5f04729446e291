/** Optional values and results with an error case, shared by every module of the model. */
module Wrappers {

  /** Python's `None` or a present value. */
  datatype Option<+T> = None | Some(value: T)

  /** A value, or the exception that the Python code would raise instead. */
  datatype Result<+T, +E> = Success(value: T) | Failure(error: E)

  /** A step that returns nothing useful, or the exception it raises. */
  datatype Outcome<+E> = Pass | Fail(error: E)
}
