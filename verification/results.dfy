/** Failure-carrying values shared by the model: the store and the
    authentication layer report Python exceptions as `Failure` values. */
module Results {

  /** A value that may be absent: Python's `None`, or a nullable column. */
  datatype Option<+T> = None | Some(value: T)

  /** Either the result of an operation or the error it raised. */
  datatype Result<+T, +E> = Success(value: T) | Failure(error: E)
}
