/** Machine integers and the success/failure wrapper shared by the model. */
module Prelude {

  /** Rust's `u32`: process ids are 32-bit unsigned on Windows. */
  type Uint32 = x: int | 0 <= x < 0x1_0000_0000

  /** A computation that either yields a value or stops with an error (here: a Rust panic). */
  datatype Result<+T, +E> = Ok(value: T) | Err(error: E)
}
