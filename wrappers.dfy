/** Python's `None`-or-value and the success-or-exception outcome of a call. */
module Wrappers {

  datatype Option<T> = None | Some(value: T)

  datatype Result<T, E> = Success(value: T) | Failure(error: E)
}
