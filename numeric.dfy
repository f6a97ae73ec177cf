/** Machine integer ranges and the powers of ten used as scale factors. */
module Numeric {

  /** Rust's `u8`. */
  type u8 = x: int | 0 <= x < 256

  /** The largest `u32`, the ceiling of a saturating `as u32` cast. */
  const U32_MAX: nat := 0xFFFF_FFFF

  /** 10^n. */
  function Pow10(n: nat): (r: nat)
    ensures r >= 1
  {
    if n == 0 then 1 else 10 * Pow10(n - 1)
  }

  /** Scale factors grow with the number of decimals. */
  lemma {:induction false} Pow10Monotone(a: nat, b: nat)
    requires a <= b
    ensures Pow10(a) <= Pow10(b)
  {
    if a < b {
      Pow10Monotone(a, b - 1);
    }
  }
}
