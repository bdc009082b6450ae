/** Optional values and results with an error message, shared by every module. */
module Wrappers {

  /** An optional value; also the numeric view of a cell, where None is NaN. */
  datatype Option<+T> = None | Some(value: T)

  /** The outcome of an operation that can raise; the error carries the exception's message. */
  datatype Result<+T> = Ok(value: T) | Err(error: string)
}
