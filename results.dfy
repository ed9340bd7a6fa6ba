/** Option and Result values for the facade's optional handles and for
    operations that either succeed or end in a failure the caller sees. */
module Results {

  datatype Option<+T> = None | Some(value: T)

  datatype Result<+T, +E> = Success(value: T) | Failure(error: E)
}
