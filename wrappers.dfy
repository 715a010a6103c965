/** Failure-carrying values used in place of the exceptions raised by the batch script. */
module Wrappers {
  datatype Option<+T> = None | Some(value: T)

  /** `Err` carries the text of the exception the script would raise. */
  datatype Result<+T, +E> = Ok(value: T) | Err(error: E)
}
