/** Failure-carrying values: the model's stand-in for Java's null references
    and thrown exceptions. */
module Wrappers {

  /** A reference that may be null (None). */
  datatype Option<+T> = None | Some(value: T)

  /** A call that returns a value or throws. */
  datatype Result<+R, +E> = Success(value: R) | Failure(error: E)

  /** A void call that either completes or throws. */
  datatype Outcome<+E> = Pass | Fail(error: E)
}
