/** Option and Result, the two failure-carrying types the Rust code uses, and its byte type. */
module Wrappers {

  /** Rust's `u8`: the brace counters of `find_keys` and the argument of `ExitCode::from`. */
  newtype u8 = x: int | 0 <= x < 256

  datatype Option<+T> = None | Some(value: T)

  datatype Result<+T, +E> = Ok(value: T) | Err(error: E)
}
