/** Failure-carrying values used in place of Java's null references and thrown exceptions. */
module Wrappers {

  /** A value that may be absent; `None` stands for a Java `null`. */
  datatype Option<+T> = None | Some(value: T)

  /** The outcome of an operation that returns a value or raises an error. */
  datatype Result<+R, +E> = Success(value: R) | Failure(error: E)

  /** The outcome of an operation that returns nothing (a Java `void` method) or raises an error. */
  datatype Outcome<+E> = Pass | Fail(error: E)
}
