/** Failure-compatible wrappers used across the model. */
module Wrappers {

  /** A value that may be absent: a missing request field, or a `Number(...)` that came out NaN. */
  datatype Option<+T> = None | Some(value: T) {
    function GetOr(default: T): T {
      match this
      case Some(v) => v
      case None => default
    }
  }

  /** The outcome of a handler: a value, or the error response it sends. */
  datatype Result<+T, +E> = Ok(value: T) | Err(error: E)
}
