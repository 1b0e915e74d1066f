/** Failure-compatible wrappers used across the model: Go's nil-able values
    become Option, and Go's (value, error) pairs become Result. */
module Wrappers {

  datatype Option<+T> = None | Some(value: T)

  datatype Result<+R, +E> = Success(value: R) | Failure(error: E)
}
