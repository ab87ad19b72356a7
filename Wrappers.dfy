/** Option and Result wrappers shared by every module of the model. */
module Wrappers {

  /** A value that may be absent: a failed fetch, a missing column, a null cell. */
  datatype Option<+T> = None | Some(value: T)

  /** The value of a computation, or the error that stopped it. */
  datatype Result<+R, +E> = Success(value: R) | Failure(error: E)
}
