/** Success/failure wrappers used in place of Python's None and raised exceptions. */
module Outcomes {

  /** A value that may be absent (Python's `None`). */
  datatype Option<+T> = None | Some(value: T)

  /** A computed value, or the exception that aborted the computation. */
  datatype Result<+T, +E> = Success(value: T) | Failure(error: E)

  /** A call that returns normally (with no value of interest) or raises. */
  datatype Outcome<+E> = Pass | Fail(error: E)
}
