/** Failure-carrying values shared by the model: an optional value and a result-or-error. */
module Wrappers {

  datatype Option<+T> = None | Some(value: T)

  /** The outcome of an operation that can raise: its value, or the description of the exception. */
  datatype Result<+R, +E> = Success(value: R) | Failure(error: E)
}
