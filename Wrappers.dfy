/** Failure-compatible wrappers shared by the configuration and startup modules. */
module Wrappers {

  /** A value that may be absent, as an unset environment variable is. */
  datatype Option<+T> = None | Some(value: T)

  /** The outcome of a step that can stop with an error. */
  datatype Result<+T, +E> = Ok(value: T) | Err(error: E)
}
