/** Option, Result and Outcome, standing for Java's nullable references,
    Optional, and the exceptions a call may throw. */
module Wrappers {

  datatype Option<+T> = None | Some(value: T)

  datatype Result<+T, +E> = Success(value: T) | Failure(error: E)

  /** The outcome of a void call that may throw. */
  datatype Outcome<+E> = Pass | Fail(error: E)
}
