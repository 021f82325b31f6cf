/**
 * The program's machine integer types and the Rust integer operators it
 * applies to them. Dafny's `/` and `%` are Euclidean; Rust's round toward
 * zero, so the Rust operators are written out here.
 */
module Numeric {

  type u8 = x: int | 0 <= x < 0x100

  type i64 = x: int | -0x8000_0000_0000_0000 <= x < 0x8000_0000_0000_0000

  /** Byte strings: Rust's `String::len()` counts UTF-8 bytes. */
  type Bytes = seq<u8>

  /** Rust's `%`: the remainder has the sign of the dividend. */
  function TruncRem(a: int, b: int): (r: int)
    requires b > 0
    ensures -b < r < b
    ensures a >= 0 ==> r >= 0
    ensures a <= 0 ==> r <= 0
  {
    if a >= 0 then a % b else -((-a) % b)
  }

  /** Rust's `/`: the quotient is rounded toward zero. */
  function TruncDiv(a: int, b: int): (q: int)
    requires b > 0
    ensures q * b + TruncRem(a, b) == a
  {
    if a >= 0 then a / b else -((-a) / b)
  }

  /** Rust's `as u8`: keeps the low eight bits of the two's-complement value. */
  function AsU8(x: int): (r: u8)
    ensures (x - r) % 0x100 == 0
    ensures 0 <= x < 0x100 ==> r == x
  {
    x % 0x100
  }
}
