/** Option, Result and Outcome: the model's stand-ins for Java's null and exceptions. */
module Wrappers {

  datatype Option<+T> = None | Some(value: T)

  /** A computation that either yields a value or raises an exception. */
  datatype Result<+R, +E> = Success(value: R) | Failure(error: E)

  /** A statement that either completes normally or raises an exception. */
  datatype Outcome<+E> = Pass | Fail(error: E)
}
