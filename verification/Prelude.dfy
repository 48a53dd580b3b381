/** Machine widths and small datatypes shared by every component. */
module Prelude {
  datatype Option<+T> = None | Some(value: T)

  const U16_MAX := 0xFFFF
  const U32_MAX := 0xFFFF_FFFF
  const U64_MAX := 0xFFFF_FFFF_FFFF_FFFF

  type Byte = x: int | 0 <= x < 256
  type U16 = x: int | 0 <= x <= U16_MAX
  type U32 = x: int | 0 <= x <= U32_MAX
  type U64 = x: int | 0 <= x <= U64_MAX

  /** A strictly positive real: linear milliwatts, or a ratio of powers. */
  type Positive = x: real | x > 0.0 witness 1.0

  function Min(a: int, b: int): int { if a <= b then a else b }

  function Max(a: int, b: int): int { if a <= b then b else a }

  /** `u64::saturating_add` */
  function SaturatingAdd(a: U64, b: U64): U64 { Min(a + b, U64_MAX) }

  /** `div_ceil` on unsigned integers */
  function DivCeil(a: nat, b: nat): nat
    requires b > 0
  {
    if a % b == 0 then a / b else a / b + 1
  }

  // ----- two-byte words

  function Low(v: U16): Byte { v % 256 }

  function High(v: U16): Byte { v / 256 }

  function Word(low: Byte, high: Byte): U16 {
    var l: int, h: int := low, high;
    l + 256 * h
  }
}
