/** Option and Result values, and the fixed-width integer ranges the client uses. */
module Wrappers {

  datatype Option<+T> = None | Some(value: T)

  datatype Result<+T, +E> = Ok(value: T) | Err(error: E)

  const MIN_I64: int := -0x8000_0000_0000_0000
  const MAX_I64: int := 0x7FFF_FFFF_FFFF_FFFF
  const MAX_U64: int := 0xFFFF_FFFF_FFFF_FFFF
  const MAX_U16: int := 0xFFFF

  /** Rust's `i64`. */
  type i64 = x: int | MIN_I64 <= x <= MAX_I64

  /** Rust's `u64`. */
  type u64 = x: int | 0 <= x <= MAX_U64

  /** Rust's `u16`. */
  type u16 = x: int | 0 <= x <= MAX_U16
}
