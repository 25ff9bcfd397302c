/** Failure-carrying values used across the model in place of Java's null and exceptions. */
module Wrappers {

  /** A value that may be absent: a parse that failed, a row that was skipped. */
  datatype Option<+T> = None | Some(value: T)

  /** A call that either returns a value or raises an error. */
  datatype Result<+T, +E> = Ok(value: T) | Err(error: E)
}
