/**
  The C integer semantics the calibration code relies on, stated over
  unbounded integers: the fixed-width integer types, conversions that wrap,
  the bitwise complement, and division that truncates toward zero.
*/
module Bits {

  const TwoTo15: int := 0x8000
  const TwoTo16: int := 0x1_0000
  const TwoTo31: int := 0x8000_0000
  const TwoTo32: int := 0x1_0000_0000
  const TwoTo63: int := 0x8000_0000_0000_0000
  const TwoTo64: int := 0x1_0000_0000_0000_0000

  type uint8 = x: int | 0 <= x < 0x100
  type uint16 = x: int | 0 <= x < 0x1_0000
  type int32 = x: int | -0x8000_0000 <= x < 0x8000_0000
  type uint32 = x: int | 0 <= x < 0x1_0000_0000

  function Abs(x: int): int { if x < 0 then -x else x }

  /** C's `~` on a two's-complement `int`. */
  function BitNot(x: int): int { -x - 1 }

  /** Conversion to `uint16_t`: keeps the value modulo 2^16. */
  function ToUint16(x: int): (r: uint16)
    ensures (x - r) % TwoTo16 == 0
    ensures 0 <= x < TwoTo16 ==> r == x
  {
    x % TwoTo16
  }

  /** Conversion to `uint32_t`: keeps the value modulo 2^32. */
  function ToUint32(x: int): (r: uint32)
    ensures (x - r) % TwoTo32 == 0
    ensures 0 <= x < TwoTo32 ==> r == x
  {
    x % TwoTo32
  }

  /** A negative value above -2^32 becomes `x + 2^32` as a `uint32_t`. */
  lemma WrapNegative32(x: int)
    requires -0x1_0000_0000 <= x
    ensures x < 0 ==> ToUint32(x) == x + 0x1_0000_0000
  {
    if x < 0 {
      var q, r := x / 0x1_0000_0000, x % 0x1_0000_0000;
      assert x == q * 0x1_0000_0000 + r;
      assert q == -1;
    }
  }

  /** Conversion to `int16_t` (two's complement, wrapping). */
  function ToInt16(x: int): (r: int)
    ensures -TwoTo15 <= r < TwoTo15
    ensures (x - r) % TwoTo16 == 0
    ensures -TwoTo15 <= x < TwoTo15 ==> r == x
  {
    var v := x % TwoTo16;
    if v >= TwoTo15 then v - TwoTo16 else v
  }

  /** The ticks from `previous` forward to `current` on a 16-bit counter that wraps. */
  function Forward16(previous: uint16, current: uint16): uint16
  {
    (current - previous) % TwoTo16
  }

  /** Two values that agree modulo 2^16, one of them a signed 16-bit value, agree in `int16_t`. */
  lemma Int16Of(x: int, y: int)
    requires (x - y) % TwoTo16 == 0 && -TwoTo15 <= y < TwoTo15
    ensures ToInt16(x) == y
  {
    var r := ToInt16(x);
    assert x - r == TwoTo16 * ((x - r) / TwoTo16);
    assert x - y == TwoTo16 * ((x - y) / TwoTo16);
    assert r - y == TwoTo16 * ((x - y) / TwoTo16 - (x - r) / TwoTo16);
  }

  /** Conversion to `int32_t` (two's complement, wrapping as the compiler used does). */
  function ToInt32(x: int): (r: int32)
    ensures (x - r) % TwoTo32 == 0
    ensures -TwoTo31 <= x < TwoTo31 ==> r == x
  {
    var v := x % TwoTo32;
    if v >= TwoTo31 then v - TwoTo32 else v
  }

  /** Conversion to `int64_t` (two's complement, wrapping). */
  function ToInt64(x: int): (r: int)
    ensures -TwoTo63 <= r < TwoTo63
    ensures (x - r) % TwoTo64 == 0
    ensures -TwoTo63 <= x < TwoTo63 ==> r == x
  {
    var v := x % TwoTo64;
    if v >= TwoTo63 then v - TwoTo64 else v
  }

  /** C's `/`: the quotient truncated toward zero. */
  function CDiv(a: int, b: int): int
    requires b != 0
  {
    var q := Abs(a) / Abs(b);
    if (a >= 0) == (b > 0) then q else -q
  }

  /** Euclidean division of naturals leaves a remainder in [0, b). */
  lemma DivBounds(a: int, b: int)
    requires a >= 0 && b > 0
    ensures 0 <= b * (a / b) <= a && a - b * (a / b) < b
  {
    var q, r := a / b, a % b;
    assert a == b * q + r;
  }

  /**
    `CDiv` truncates toward zero: b * CDiv(a, b) lies between 0 and a and is
    less than |b| away from a.
  */
  lemma CDivTruncates(a: int, b: int)
    requires b != 0
    ensures a >= 0 ==> 0 <= b * CDiv(a, b) <= a
    ensures a <= 0 ==> a <= b * CDiv(a, b) <= 0
    ensures Abs(a - b * CDiv(a, b)) < Abs(b)
  {
    var n, d := Abs(a), Abs(b);
    var q0 := n / d;
    DivBounds(n, d);
    var p := d * q0;
    assert 0 <= p <= n && n - p < d;
    if (a >= 0) == (b > 0) {
      assert CDiv(a, b) == q0;
      SameSignProduct(a, b, q0, p);
    } else {
      assert CDiv(a, b) == -q0;
      MixedSignProduct(a, b, q0, p);
    }
  }

  /** With operands of the same sign, `b * q0` carries the sign of `a`. */
  lemma SameSignProduct(a: int, b: int, q0: int, p: int)
    requires b != 0 && (a >= 0) == (b > 0) && p == Abs(b) * q0
    ensures b * q0 == (if a >= 0 then p else -p)
  {
    if b < 0 {
      assert Abs(b) == -b;
    }
  }

  /** With operands of opposite signs, `b * -q0` carries the sign of `a`. */
  lemma MixedSignProduct(a: int, b: int, q0: int, p: int)
    requires b != 0 && (a >= 0) != (b > 0) && p == Abs(b) * q0
    ensures b * -q0 == (if a >= 0 then p else -p)
  {
    if b < 0 {
      assert Abs(b) == -b;
    }
  }

  /** C's `%`: the remainder that goes with `CDiv`, carrying the sign of the dividend. */
  function CRem(a: int, b: int): (r: int)
    requires b != 0
    ensures a == b * CDiv(a, b) + r
    ensures a >= 0 ==> 0 <= r < Abs(b)
    ensures a <= 0 ==> -Abs(b) < r <= 0
  {
    CDivTruncates(a, b);
    a - b * CDiv(a, b)
  }

  /** For a non-negative dividend and a positive divisor C and Dafny division agree. */
  lemma CDivNonNegative(a: int, b: int)
    requires a >= 0 && b > 0
    ensures CDiv(a, b) == a / b && CRem(a, b) == a % b
  {
  }
}
