/** A value that may be missing, and an operation that may be refused. */
module Wrappers {
  datatype Option<T> = None | Some(value: T)

  datatype Fallible<T, E> = Ok(value: T) | Err(error: E)
}
