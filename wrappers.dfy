/** Failure-carrying results: the model's stand-in for a Python exception. */
module Wrappers {

  datatype Result<+T, +E> = Success(value: T) | Failure(error: E)
}
