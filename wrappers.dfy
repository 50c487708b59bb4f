/** The outcome of an operation that the original program lets raise an exception. */
module Wrappers {

  datatype Result<+T, +E> = Success(value: T) | Failure(error: E)

}
