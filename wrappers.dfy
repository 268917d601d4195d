/** Result and Option, the two failure-carrying types the conversion uses. */
module Wrappers {

  datatype Option<+T> = None | Some(value: T)

  /** Rust's `Result`: `Ok` with a value or `Err` with an error. */
  datatype Result<+T, +E> = Ok(value: T) | Err(error: E)
}
