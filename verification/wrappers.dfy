/** Failure-compatible result shapes shared by the model. */
module Wrappers {

  /** Rust's `Option`: a value, or nothing. */
  datatype Option<+T> = None | Some(value: T)

  /** Rust's `Result<(), E>`: success carrying nothing, or an error value. */
  datatype Outcome<+E> = Pass | Fail(error: E)
}
