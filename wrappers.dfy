/** Failure-compatible wrappers shared by every module of the model. */
module Wrappers {

  /** An optional value: the model's rendering of a Java reference that may be null. */
  datatype Option<+T> = None | Some(value: T)

  /** A value or the error that stopped the computation: the model's rendering of a thrown exception. */
  datatype Result<+T, +E> = Success(value: T) | Failure(error: E)
}
