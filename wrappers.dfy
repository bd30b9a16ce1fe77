/** Option and Result, the two failure-carrying wrappers used by the model. */
module Wrappers {

  /** A value that may be absent: stands for a .NET reference that may be null. */
  datatype Option<+T> = None | Some(value: T)

  /** Either a value or the exception a .NET call would have thrown. */
  datatype Result<+R, +E> = Success(value: R) | Failure(error: E)
}
