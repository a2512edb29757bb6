/** Failure-carrying values used across the model. */
module Wrappers {

  /** A value that may be absent. */
  datatype Option<+T> = None | Some(value: T)

  /** The outcome of a call that can fail with a message. */
  datatype Result<+T> = Ok(value: T) | Err(error: string)
}
