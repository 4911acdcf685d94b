/** Option and Result values for the parsers and the error paths of the model. */
module Wrappers {

  /** A value that may be absent; also stands for a Go map that may be nil. */
  datatype Option<+T> = None | Some(value: T)

  /** The outcome of an operation that returns a value or an error, like Go's `(T, error)` pairs. */
  datatype Result<+R, +E> = Success(value: R) | Failure(error: E)
}
