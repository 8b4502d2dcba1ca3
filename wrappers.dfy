/** Failure-carrying results used across the model: a Python step either
    returns a value or fails an assertion / raises. */
module Wrappers {

  datatype Option<+T> = None | Some(value: T)

  datatype Result<+T, +E> = Success(value: T) | Failure(error: E)
}
