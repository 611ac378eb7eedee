/** Option and Result values for the error paths of the modelled code. */
module Wrappers {

  datatype Option<+T> = None | Some(value: T)

  /** A successful value, or the error (exception message) the source raises. */
  datatype Result<+T, +E> = Success(value: T) | Failure(error: E)
}
