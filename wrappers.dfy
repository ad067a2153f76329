/** Rust's `Result`, used for every fallible operation of the model. */
module Wrappers {

  datatype Result<+T, +E> = Success(value: T) | Failure(error: E)
}
