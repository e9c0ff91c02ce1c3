/** Failure-carrying values: PHP's `null` returns and thrown exceptions
    become `None` and `Failure` here. */
module Results {

  datatype Option<+T> = None | Some(value: T)

  datatype Result<+T, +E> = Success(value: T) | Failure(error: E)
}
