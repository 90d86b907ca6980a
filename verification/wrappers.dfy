/** Failure-carrying wrappers used throughout the model. */
module Wrappers {

  /** A value that may be missing; stands for a .NET reference that may be null. */
  datatype Option<+T> = None | Some(value: T)

  /** Either a value or the error that an operation raised instead. */
  datatype Result<+T, +E> = Success(value: T) | Failure(error: E)
}
