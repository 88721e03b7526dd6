/** Failure-carrying values used in place of Java's null returns and exceptions. */
module Outcomes {

  /** A present value or its absence (Java's `null`). */
  datatype Option<+T> = None | Some(value: T)

  /** A decoded value, or the reason the decoding threw. */
  datatype Result<+T, +E> = Success(value: T) | Failure(error: E)
}
