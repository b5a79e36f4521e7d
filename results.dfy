/** Success/failure values standing in for the exceptions and sentinel values of the source. */
module Results {

  datatype Option<+T> = None | Some(value: T)

  datatype Result<+T, +E> = Success(value: T) | Failure(error: E)
}
