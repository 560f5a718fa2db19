/** Option and Result, used for the values and exceptions of the modelled code. */
module Wrappers {

  datatype Option<+T> = None | Some(value: T)

  /** A value, or the exception the source raises instead of returning it. */
  datatype Result<+T, +E> = Ok(value: T) | Err(error: E)
}
