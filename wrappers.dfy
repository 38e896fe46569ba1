/** Failure-compatible wrappers shared by the other modules. */
module Wrappers {

  /** A value that may be absent: PHP's `null` where the source allows it. */
  datatype Option<+T> = None | Some(value: T)

  /** The outcome of an operation that either returns a value or throws. */
  datatype Result<+T, +E> = Ok(value: T) | Err(error: E)

  /** The outcome of an operation that returns nothing or throws. */
  datatype Outcome<+E> = Pass | Fail(error: E)
}
