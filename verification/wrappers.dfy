/** Failure-compatible wrappers shared by the whole model. */
module Wrappers {

  /** An optional value: the model of a nullable reference or of "no action". */
  datatype Option<+T> = None | Some(value: T)

  /** A value or the error that replaced it (a thrown exception in the source). */
  datatype Result<+R, +E> = Success(value: R) | Failure(error: E)
}
