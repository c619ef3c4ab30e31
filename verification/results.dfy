/** Success/failure values used where the C++ code throws an exception. */
module Results {

  /** Either the value an operation computed, or the error it raised instead. */
  datatype Result<+T, +E> = Success(value: T) | Failure(error: E)
}
