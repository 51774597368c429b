/** Option and Result, the two failure-carrying datatypes the rest of the model uses. */
module Wrappers {

  datatype Option<+T> = None | Some(value: T)

  /** A fallible computation: either a value or an error. */
  datatype Result<+T, +E> = Ok(value: T) | Err(error: E)
}
