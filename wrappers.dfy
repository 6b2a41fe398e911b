/** Failure-carrying datatypes shared by the other modules. */
module Wrappers {

  /** A value that may be absent (a missing JSON key, a failed parse). */
  datatype Option<T> = None | Some(value: T)

  /** Either a result or the error an endpoint reports instead. */
  datatype Result<T, E> = Ok(value: T) | Err(error: E)
}
