/** Option and Result, the stand-ins for Java's null and for thrown exceptions. */
module Wrappers {

  /** A value that may be absent (Java `null`, Python `None`). */
  datatype Option<+T> = None | Some(value: T)

  /** A computation that either yields a value or fails with an error. */
  datatype Result<+T, +E> = Success(value: T) | Failure(error: E)
}
