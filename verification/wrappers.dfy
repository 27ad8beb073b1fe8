/** Option and Result datatypes used across the model: an optional value
    (a Go nil slice or a missing directory listing) and a success/failure
    result (a Go `(value, error)` pair). */
module Wrappers {

  datatype Option<+T> = None | Some(value: T)

  datatype Result<+R, +E> = Success(value: R) | Failure(error: E)
}
