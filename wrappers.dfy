/** Option and Result, the two failure-carrying wrappers the model uses
    where the server returns nil, an error, or a value. */
module Wrappers {

  /** A value that may be absent: the model's stand-in for a nil pointer. */
  datatype Option<+T> = None | Some(value: T)

  /** A value or an error, as a Go `(T, error)` pair where exactly one is set. */
  datatype Result<+T, +E> = Success(value: T) | Failure(error: E)
}
