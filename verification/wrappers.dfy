/** Failure-carrying values used throughout the model: Go's `(T, error)` pairs
    become `Result`, and a bare `error` return (nil or not) becomes `Option`. */
module Wrappers {

  datatype Option<+T> = None | Some(value: T)

  datatype Result<+T, +E> = Ok(value: T) | Err(error: E)
}
