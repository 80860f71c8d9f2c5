/** Option and Result, for the source's nil-able pointers and error returns. */
module Wrappers {
  datatype Option<+T> = None | Some(value: T)

  datatype Result<+T, +E> = Success(value: T) | Failure(error: E)

  function ErrorOf<T, E>(r: Result<T, E>): Option<E> {
    match r
    case Success(_) => None
    case Failure(e) => Some(e)
  }
}
