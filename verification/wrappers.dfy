/** Option, Result and Outcome: the values a Java method returns or the
    exception it throws. */
module Wrappers {

  datatype Option<+T> = None | Some(value: T)

  /** A value, or the exception that replaced it. */
  datatype Result<+T, +E> = Success(value: T) | Failure(error: E)

  /** A `void` method that returned normally, or the exception it threw. */
  datatype Outcome<+E> = Pass | Fail(error: E)
}
