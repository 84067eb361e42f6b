/** Failure-carrying values shared by the sampling model. */
module Wrappers {

  datatype Option<+T> = None | Some(value: T)

  /** The outcome of an operation that either yields a value or raises an error. */
  datatype Result<+T, +E> = Ok(value: T) | Err(error: E)
}
