/** Shared value types and small arithmetic used by every other module. */
module Prelude {

  datatype Option<+T> = None | Some(value: T)

  datatype Result<+T, +E> = Ok(value: T) | Err(error: E)

  type byte = x: int | 0 <= x < 256

  /** Largest value of Rust's `u32`, the width of an IMAP UID. */
  const U32_MAX: nat := 0xFFFF_FFFF

  /** Largest value of Rust's `usize` on a 64-bit target. */
  const USIZE_MAX: nat := 0xFFFF_FFFF_FFFF_FFFF

  function Min(a: int, b: int): int { if a <= b then a else b }

  function Max(a: int, b: int): int { if a >= b then a else b }
}
