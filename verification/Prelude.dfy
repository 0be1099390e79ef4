/** Option and Result, used by every other module. */
module Prelude {

  /** Python's `None` against a value. */
  datatype Option<+T> = None | Some(value: T)

  /** A return value against a raised exception. */
  datatype Result<+T, +E> = Ok(value: T) | Err(error: E)
}
