/** The success-or-error value used where the Python code raises an exception. */
module Wrappers {

  /** Either the value an operation produced or the reason it failed. */
  datatype Result<+T, +E> = Success(value: T) | Failure(error: E)
}
