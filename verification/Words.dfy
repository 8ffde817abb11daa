/** Machine words, and the Rust integer operations whose results depend on them. */
module Words {
  const U32_RANGE: nat := 0x1_0000_0000
  const U64_RANGE: nat := 0x1_0000_0000_0000_0000

  type u8 = x: nat | x < 0x100
  type i8 = x: int | -0x80 <= x < 0x80
  type u32 = x: nat | x < U32_RANGE
  type i32 = x: int | -0x8000_0000 <= x < 0x8000_0000
  type u64 = x: nat | x < U64_RANGE

  datatype Option<+T> = None | Some(value: T)

  function Min(a: int, b: int): int {
    if a <= b then a else b
  }

  function Max(a: int, b: int): int {
    if a >= b then a else b
  }

  function Abs(a: int): nat {
    if a >= 0 then a else -a
  }

  /** The narrowing cast `x as u64`. */
  function AsU64(x: nat): u64 {
    x % U64_RANGE
  }

  /** `u64::saturating_add`. */
  function SaturatingAdd(a: u64, b: u64): u64 {
    if a + b < U64_RANGE then a + b else U64_RANGE - 1
  }

  /** `u32::wrapping_add(1)`. */
  function WrappingIncrement(a: u32): u32 {
    (a + 1) % U32_RANGE
  }

  /** `Instant::saturating_duration_since`, in nanoseconds. */
  function Elapsed(earlier: int, now: int): nat {
    if now > earlier then now - earlier else 0
  }

  /** Rust's `/` on signed integers: the quotient is truncated toward zero. */
  function TruncatingHalf(x: int): int {
    if x >= 0 then x / 2 else -((-x) / 2)
  }

  /** Quotient and remainder are unique. */
  lemma RemainderOf(x: int, m: int, q: int, r: int)
    requires 0 <= r < m && x == m * q + r
    ensures x / m == q && x % m == r
  {
    var off := x / m - q;
    assert m * off == m * (x / m) - m * q;
    assert off >= 1 ==> m * off >= m;
    assert off <= -1 ==> m * off <= -m;
  }
}
