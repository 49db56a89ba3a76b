/** Failure-carrying results, used where the Java code throws an exception. */
module Wrappers {

  /** A value, or the exception the Java method would have thrown instead. */
  datatype Result<+T, +E> = Success(value: T) | Failure(error: E)

  /** Completion of a void method, or the exception it would have thrown. */
  datatype Outcome<+E> = Pass | Fail(error: E)
}
