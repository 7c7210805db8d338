/**
 * Python's float operators over exact reals: floor division `//`, the
 * floored remainder `%` (never negative for a positive divisor) and `int()`,
 * which truncates toward zero.
 */
module RealArith {

  /** `x // d` for a positive divisor. */
  function FloorDiv(x: real, d: real): int
    requires d > 0.0
  {
    (x / d).Floor
  }

  lemma FloorDivBounds(x: real, d: real)
    requires d > 0.0
    ensures (FloorDiv(x, d) as real) * d <= x < (FloorDiv(x, d) as real + 1.0) * d
  {
    var q := x / d;
    assert q * d == x;
    var f := FloorDiv(x, d) as real;
    assert f <= q < f + 1.0;
    MulMonotone(f, q, d);
    MulStrict(q, f + 1.0, d);
    assert q * d < (f + 1.0) * d;
    assert x < (f + 1.0) * d;
  }

  lemma MulMonotone(a: real, b: real, d: real)
    requires a <= b && d > 0.0
    ensures a * d <= b * d
  {
  }

  lemma MulStrict(a: real, b: real, d: real)
    requires a < b && d > 0.0
    ensures a * d < b * d
  {
  }

  /** `x % d` for a positive divisor: the floored remainder. */
  function Mod(x: real, d: real): (r: real)
    requires d > 0.0
    ensures 0.0 <= r < d
    ensures x == (FloorDiv(x, d) as real) * d + r
  {
    FloorDivBounds(x, d);
    x - (FloorDiv(x, d) as real) * d
  }

  /** Rounding to the nearest integer, ties to the even one. */
  function RoundHalfEven(x: real): (n: int)
    ensures n as real - 0.5 <= x <= n as real + 0.5
    ensures x - x.Floor as real == 0.5 ==> n % 2 == 0
  {
    var f := x.Floor;
    var d := x - f as real;
    if d < 0.5 then f else if d > 0.5 then f + 1 else if f % 2 == 0 then f else f + 1
  }

  /** `int(x)`: truncation toward zero. */
  function Trunc(x: real): (n: int)
    ensures x >= 0.0 ==> n == x.Floor
    ensures -1.0 < x - n as real < 1.0
    ensures x >= 0.0 ==> n as real <= x
    ensures x < 0.0 ==> x <= n as real
  {
    if x >= 0.0 then x.Floor else -((-x).Floor)
  }

  /** Flooring a quotient by a whole number: the real floor then integer division. */
  lemma {:induction false} FloorOfQuotient(x: real, d: int)
    requires d > 0
    ensures (x / d as real).Floor == x.Floor / d
  {
    var k := x.Floor;
    var q := k / d;
    var r := k % d;
    assert k == q * d + r && 0 <= r < d;
    var D := d as real;
    assert (q as real) * D <= x by {
      assert (q as real) * D == (q * d) as real;
    }
    assert x < (q as real + 1.0) * D by {
      assert (q as real + 1.0) * D == (q * d + d) as real;
    }
    var y := x / D;
    assert y * D == x;
    DivideBounds(x, D, q as real);
  }

  lemma DivideBounds(x: real, D: real, q: real)
    requires D > 0.0 && q * D <= x < (q + 1.0) * D
    ensures q <= x / D < q + 1.0
  {
    var y := x / D;
    assert y * D == x;
    if y < q {
      MulStrict(y, q, D);
    }
    if y >= q + 1.0 {
      MulMonotone(q + 1.0, y, D);
    }
  }

  /** Subtracting a whole number commutes with the floor. */
  lemma FloorShift(x: real, n: int)
    ensures (x - n as real).Floor == x.Floor - n
  {
  }
}
