/** Values that stand for Java's `null`-free optional results and its checked exceptions. */
module Outcomes {

  datatype Option<+T> = None | Some(value: T)

  /** A value, or the exception that replaces it. */
  datatype Result<+T, +E> = Success(value: T) | Failure(error: E)

  /** Normal completion of a `void` method, or the exception it throws. */
  datatype Outcome<+E> = Pass | Fail(error: E)
}
