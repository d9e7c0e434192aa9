/** The two result shapes shared by every module of the model. */
module Wrappers {

  /** A value that may be absent (Python's None). */
  datatype Option<+T> = None | Some(value: T)

  /** The outcome of code that may raise: a value, or an exception. */
  datatype Result<+T> = Ok(value: T) | Raised
}
