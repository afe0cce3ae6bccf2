/**
 * Java's primitive integer semantics, written out over Dafny's unbounded
 * integers: the value ranges of `int` and `long`, division and remainder
 * that truncate toward zero, and the narrowing `(int)` cast that keeps the
 * low 32 bits of a `long`.
 */
module JavaArith {

  const IntMin: int := -0x8000_0000
  const IntMax: int := 0x7fff_ffff
  const LongMin: int := -0x8000_0000_0000_0000
  const LongMax: int := 0x7fff_ffff_ffff_ffff

  /** A value of Java's 32-bit `int`. */
  type int32 = x: int | IntMin <= x <= IntMax

  /** A value of Java's 64-bit `long`. */
  type long = x: int | LongMin <= x <= LongMax

  /**
   * Java's `/` on integers, for the positive divisors the clock uses: the
   * quotient truncated toward zero.
   */
  function Div(a: int, b: int): (q: int)
    requires b > 0
    ensures a >= 0 ==> 0 <= b * q <= a < b * q + b
    ensures a < 0 ==> b * q - b < a <= b * q <= 0
  {
    var n := if a >= 0 then a else -a;
    var m := n / b;
    assert n == b * m + n % b && 0 <= n % b < b;
    if a >= 0 then m
    else
      assert b * -m == -(b * m);
      -m
  }

  /** Java's `%` on integers: the remainder takes the sign of the dividend. */
  function Rem(a: int, b: int): (r: int)
    requires b > 0
    ensures a == b * Div(a, b) + r
    ensures a >= 0 ==> 0 <= r < b
    ensures a < 0 ==> -b < r <= 0
  {
    a - b * Div(a, b)
  }

  /** On a non-negative dividend Java's operators agree with Dafny's. */
  lemma DivRemNonNegative(a: int, b: int)
    requires a >= 0 && b > 0
    ensures Div(a, b) == a / b && Rem(a, b) == a % b
  {
  }

  /**
   * The narrowing cast `(int) x` from `long`: the result is the `int`
   * congruent to `x` modulo 2^32, so a value already in range is kept.
   */
  function ToInt(x: int): (r: int32)
    ensures (x - r) % 0x1_0000_0000 == 0
    ensures IntMin <= x <= IntMax ==> r == x
  {
    (x - IntMin) % 0x1_0000_0000 + IntMin
  }
}
