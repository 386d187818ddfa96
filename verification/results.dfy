/** Optional values and success/failure outcomes of the controller actions. */
module Results {

  /** A value that may be absent, as a nullable reference or `string?` is in the application. */
  datatype Option<+T> = None | Some(value: T)

  /** The outcome of an action: the value it returns, or the client error it reports. */
  datatype Result<+T, +E> = Success(value: T) | Failure(error: E)
}
