/** Option and Result: Java's null and thrown exceptions, as values. */
module Wrappers {

  /** A possibly absent value; None stands for Java's null. */
  datatype Option<+T> = None | Some(value: T)

  /** The outcome of an operation that may throw: Success, or Failure with the error. */
  datatype Result<+R, +E> = Success(value: R) | Failure(error: E)
}
