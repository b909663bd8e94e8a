/** Failure-carrying values: an `Option` for a lookup that may find nothing,
    a `Result` for a computation that may abort with an error. */
module Results {

  datatype Option<T> = None | Some(value: T)

  datatype Result<T, E> = Success(value: T) | Failure(error: E)
}
