/** Option and Result values for lookups that may find nothing and operations that may fail. */
module Optional {

  datatype Option<T> = None | Some(value: T)

  datatype Result<T, E> = Success(value: T) | Failure(error: E)
}
