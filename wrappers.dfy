/** Failure-aware results used across the model. */
module Wrappers {

  /** A value that may be absent: a masked table cell, a failed conversion. */
  datatype Option<T> = None | Some(value: T)

  /** The outcome of an operation that raises in `parse_day_time` or `data()`. */
  datatype Result<T, E> = Ok(value: T) | Err(error: E)
}
