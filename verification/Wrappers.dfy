/** Result types shared by the other modules. */
module Wrappers {

  /** A value the source represents by itself or by `None`. */
  datatype Option<+T> = None | Some(value: T)

  /** A returned value, or the exception that was raised instead. */
  datatype Result<+T, +E> = Ok(value: T) | Err(error: E)
}
