/** Option and Result, the two failure-carrying shapes the Rust code returns. */
module Wrappers {

  datatype Option<+T> = None | Some(value: T)

  datatype Result<+R, +E> = Success(value: R) | Failure(error: E)

  /** An unsigned 8-bit integer; arithmetic that leaves 0..255 is a Rust overflow panic. */
  newtype u8 = x: int | 0 <= x < 256
}
