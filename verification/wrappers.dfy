/** Failure-carrying values shared by every module of the model. */
module Wrappers {

  /** A value that may be absent: a Go zero-value lookup miss, an oracle that failed. */
  datatype Option<+T> = None | Some(value: T)

  /** The outcome of a step that can fail with an error value. */
  datatype Result<+T, +E> = Ok(value: T) | Err(error: E)
}
