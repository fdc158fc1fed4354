/** Failure-carrying datatypes used in place of Java's null references and exceptions. */
module Wrappers {

  datatype Option<+T> = None | Some(value: T)

  /** Success or failure of an operation that returns nothing (a Java `void` method that may throw). */
  datatype Outcome<+E> = Pass | Fail(error: E)

  /** A value or the failure that prevented computing it. */
  datatype Result<+T, +E> = Success(value: T) | Failure(error: E)
}
