// Shared carriers for Go's optional values and error returns.
module Wrappers {

  // A value that may be absent: a nil pointer, a nil slice, a zero time.
  datatype Option<+T> = None | Some(value: T)

  // The (value, error) pair of a Go function.
  datatype Result<+T, +E> = Ok(value: T) | Err(error: E)
}
