/** Option, Result and Outcome: the model's stand-ins for Java's null results and thrown exceptions. */
module Wrappers {

  /** A value that may be absent (a Java `null` return, or a lookup that found nothing). */
  datatype Option<+T> = None | Some(value: T)

  /** A computed value, or the exception that stopped the computation. */
  datatype Result<+T, +E> = Success(value: T) | Failure(error: E)

  /** A `void` operation that either completes or throws. */
  datatype Outcome<+E> = Pass | Fail(error: E)
}
