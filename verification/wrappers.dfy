/** Failure-carrying datatypes used to model Java's null results and exceptions. */
module Wrappers {

  /** A lookup result: `None` stands for the `null` a repository returns. */
  datatype Option<+T> = None | Some(value: T)

  /** A computation that either returns a value or throws an error. */
  datatype Result<+R, +E> = Success(value: R) | Failure(error: E)

  /** A check that either passes or throws an error (a Java `void` method with `throws`). */
  datatype Outcome<+E> = Pass | Fail(error: E)
}
