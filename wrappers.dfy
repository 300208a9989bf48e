/** Option and Result, the two failure-carrying shapes used throughout the model. */
module Wrappers {

  /** A value that may be absent (Python's `X | None`). */
  datatype Option<+T> = None | Some(value: T)

  /** Either a value or the error an endpoint raises instead of returning. */
  datatype Result<+T, +E> = Ok(value: T) | Err(error: E)
}
