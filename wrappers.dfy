/** Optional values and error returns, standing for Go's nil pointers and (value, error) pairs. */
module Wrappers {

  /** An optional value: a Go pointer that may be nil. */
  datatype Option<+T> = None | Some(value: T)

  /** A Go `(value, error)` return: exactly one of the two is meaningful. */
  datatype Result<+T, +E> = Ok(value: T) | Err(error: E)
}
