/** Failure-carrying result types used in place of the source's panics and `unwrap`s. */
module Wrappers {

  datatype Option<T> = None | Some(value: T)

  datatype Result<T, E> = Ok(value: T) | Err(error: E)
}
