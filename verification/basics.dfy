/** Machine integers, optional values and results shared by every component. */
module Basics {

  /** Rust's `Option`. */
  datatype Option<+T> = None | Some(value: T)

  /** Rust's `Result`. */
  datatype Result<+T, +E> = Ok(value: T) | Err(error: E)

  const I32_MIN: int := -0x8000_0000
  const I32_MAX: int := 0x7FFF_FFFF
  const I64_MIN: int := -0x8000_0000_0000_0000
  const I64_MAX: int := 0x7FFF_FFFF_FFFF_FFFF
  const U64_MAX: int := 0xFFFF_FFFF_FFFF_FFFF
  const U128_MAX: int := 0xFFFF_FFFF_FFFF_FFFF_FFFF_FFFF_FFFF_FFFF

  type i32 = x: int | I32_MIN <= x <= I32_MAX
  type i64 = x: int | I64_MIN <= x <= I64_MAX
  type u8 = x: int | 0 <= x <= 0xFF
  type u32 = x: int | 0 <= x <= 0xFFFF_FFFF
  type u64 = x: int | 0 <= x <= U64_MAX
  type u128 = x: int | 0 <= x <= U128_MAX

  function Max(a: int, b: int): (m: int)
  {
    if a < b then b else a
  }

  function Min(a: int, b: int): (m: int)
  {
    if a < b then a else b
  }

  /** `i64::saturating_add`. */
  function SatAddI64(a: i64, b: i64): (r: i64)
  {
    Max(I64_MIN, Min(I64_MAX, a + b))
  }

  /** A 64-bit signed result after two's-complement wrap-around. */
  function WrapI64(x: int): (r: i64)
  {
    (x - I64_MIN) % 0x1_0000_0000_0000_0000 + I64_MIN
  }

  /** `u64::saturating_add` and the other saturating operations of unsigned words. */
  function SatU64(x: int): (r: u64)
  {
    Max(0, Min(U64_MAX, x))
  }

  function SatU128(x: int): (r: u128)
  {
    Max(0, Min(U128_MAX, x))
  }
}
