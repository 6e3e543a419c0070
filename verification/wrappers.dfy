/** Option and Result values for the error paths of the protocol engine. */
module Wrappers {

  datatype Option<+T> = None | Some(value: T)

  /** The outcome of an operation that either produces a value or raises. */
  datatype Result<+T, +E> = Success(value: T) | Failure(error: E)
}
