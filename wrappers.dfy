/** Option and Result, the failure-carrying values used throughout the model. */
module Wrappers {

  /** A value that may be missing (a JavaScript `null` or `undefined`). */
  datatype Option<+T> = None | Some(value: T)

  /** The outcome of a remote call or a check: a value, or an error message. */
  datatype Result<+T, +E> = Ok(value: T) | Err(error: E)
}
