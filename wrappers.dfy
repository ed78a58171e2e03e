/** Option and Result, used for absent values and for thrown exceptions. */
module Wrappers {

  datatype Option<+T> = None | Some(value: T)

  /** `Err` stands for an exception thrown by an (async) operation. */
  datatype Result<+T, +E> = Ok(value: T) | Err(error: E)
}
