/** Failure-carrying values shared by every module of the model. */
module Wrappers {

  /** A value that may be absent (`undefined` / SQL NULL in the original). */
  datatype Option<+T> = None | Some(value: T)

  /** The outcome of an operation that can raise an error. */
  datatype Result<+T, +E> = Success(value: T) | Failure(error: E)
}
