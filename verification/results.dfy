/** Failure-aware wrappers shared by the model. */
module Results {

  /** A value that may be absent (Python's `None` / a failed regex search). */
  datatype Option<+T> = None | Some(value: T)

  /** The outcome of an operation that may raise: a value or an error. */
  datatype Result<+T, +E> = Success(value: T) | Failure(error: E)
}
