/** Stock option and result types used for missing values and error returns. */
module Wrappers {

  datatype Option<+T> = None | Some(value: T)

  datatype Result<+T, +E> = Ok(value: T) | Err(error: E)

  /** The outcome of a check that carries no value: an error or nothing. */
  datatype Outcome<+E> = Pass | Fail(error: E)
}
