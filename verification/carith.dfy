/** C integer semantics that the firmware relies on and that Dafny's
    unbounded, Euclidean arithmetic does not give for free. */
module CArith {

  const U32: nat := 0x1_0000_0000

  /** `uint32_t` values. */
  type Uint32 = x: nat | x < U32

  function Abs(x: int): int { if x < 0 then -x else x }

  /** C's `/` on signed integers: the quotient is truncated toward zero, so
      the remainder takes the sign of the dividend. */
  function CDiv(a: int, b: int): (q: int)
    requires b != 0
    ensures a >= 0 ==> 0 <= a - q * b < Abs(b)
    ensures a < 0 ==> -Abs(b) < a - q * b <= 0
  {
    if a >= 0 then
      (if b > 0 then a / b else -(a / -b))
    else
      (if b > 0 then -((-a) / b) else (-a) / (-b))
  }

  /** Truncated and Euclidean division agree on a non-negative dividend. */
  lemma CDivNonNegative(a: int, b: int)
    requires a >= 0 && b > 0
    ensures CDiv(a, b) == a / b
  {
  }

  /** They differ on a negative dividend: C gives -1 / 2 == 0, Dafny -1. */
  lemma CDivTruncatesTowardZero()
    ensures CDiv(-1, 2) == 0 && -1 / 2 == -1
    ensures CDiv(-3, 2) == -1 && -3 / 2 == -2
  {
  }

  /** `(int16_t)x`: narrowing by wrap-around, as two's-complement targets do. */
  function Int16(x: int): (r: int)
    ensures -0x8000 <= r < 0x8000
    ensures -0x8000 <= x < 0x8000 ==> r == x
    ensures (r - x) % 0x1_0000 == 0
  {
    (x + 0x8000) % 0x1_0000 - 0x8000
  }

  /** `x >> 1` on a signed value: an arithmetic shift, which rounds toward
      minus infinity (Dafny's `/ 2`, not C's). */
  function ShiftRight1(x: int): (r: int)
    ensures 2 * r <= x < 2 * r + 2
  {
    x / 2
  }

  /** Conversion of a signed value to `uint32_t`: reduction modulo 2^32. */
  function ToUint32(x: int): (r: Uint32)
    ensures 0 <= x < U32 ==> r == x
    ensures -(U32 as int) <= x < 0 ==> r == x + U32
  {
    x % U32
  }

  /** Unsigned 32-bit addition with wrap-around. */
  function AddU32(a: Uint32, b: Uint32): (r: Uint32)
    ensures a + b < U32 ==> r == a + b
    ensures a + b >= U32 ==> r == a + b - U32
  {
    (a + b) % U32
  }
}
