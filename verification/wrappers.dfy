/** Failure-compatible wrappers shared by every module of the model. */
module Wrappers {

  /** A value that may be absent; `None` stands for a Java `null` reference. */
  datatype Option<+T> = None | Some(value: T)

  /** The value of a computation that either succeeds or throws `error`. */
  datatype Result<+R, +E> = Success(value: R) | Failure(error: E)
}
