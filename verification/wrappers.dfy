/** Failure-carrying result types shared by the model. */
module Wrappers {

  /** A value that may be absent (a file that could not be opened). */
  datatype Option<+T> = None | Some(value: T)

  /** Either a value or the reason the program gave up. */
  datatype Result<+T, +E> = Ok(value: T) | Err(error: E)
}
