/** The two failure-compatible datatypes the model uses in place of the source's
    `Option` and `Result`. */
module Wrappers {

  datatype Option<+T> = None | Some(value: T)

  datatype Result<+T, +E> = Ok(value: T) | Err(error: E)

  /** One byte, as every wire buffer of the program holds them. */
  type byte = b: int | 0 <= b < 256
}
