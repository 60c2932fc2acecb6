/** Option and Result: the absent value and the thrown error of the modelled code. */
module Wrappers {

  datatype Option<+T> = None | Some(value: T)

  /** A settled promise: fulfilled with a value or rejected with an error. */
  datatype Result<+T, +E> = Ok(value: T) | Err(error: E)
}
