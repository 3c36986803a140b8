/** Option and Result: the one-slot channel buffer and the (value, error) pairs of the Go API. */
module Wrappers {

  /** A value that may be absent; `None` is an empty channel slot. */
  datatype Option<+T> = None | Some(value: T)

  /** Either a value or an error, standing for Go's `(T, error)` return pair. */
  datatype Result<+R, +E> = Success(value: R) | Failure(error: E)
}
