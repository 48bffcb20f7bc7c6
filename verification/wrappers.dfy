/** Option and Result: the model's stand-ins for Java's null, Optional and thrown exceptions. */
module Wrappers {

  /** A value that may be absent (Java's null or an empty Optional). */
  datatype Option<+T> = None | Some(value: T)

  /** A computation that either yields a value or fails with an error (a thrown exception). */
  datatype Result<+T, +E> = Success(value: T) | Failure(error: E)
}
