/**
 * JavaScript number operations whose meaning differs from Dafny's, on reals
 * as an idealisation of IEEE-754 doubles. JavaScript's `%` truncates the
 * quotient toward zero, so its remainder takes the sign of the dividend;
 * Dafny's `real` has no remainder operator at all.
 */
module JsNumber {

  /** The integer part of `q`, rounded toward zero (`Math.trunc`). */
  function Trunc(q: real): (n: int)
    ensures q >= 0.0 ==> (n as real) <= q < (n as real) + 1.0
    ensures q < 0.0 ==> (n as real) - 1.0 < q <= (n as real)
  {
    if q >= 0.0 then q.Floor else -((-q).Floor)
  }

  /**
   * JavaScript's `x % d`: `x - d * trunc(x / d)`. For a positive divisor the
   * result lies in `[0, d)` when `x` is non-negative and in `(-d, 0]` when
   * it is negative.
   */
  function Rem(x: real, d: real): (r: real)
    requires d != 0.0
    ensures d > 0.0 && x >= 0.0 ==> 0.0 <= r < d
    ensures d > 0.0 && x < 0.0 ==> -d < r <= 0.0
  {
    var n := Trunc(x / d) as real;
    RemBounds(x, d, n);
    x - d * n
  }

  /**
   * A non-negative `x` written as `k * d + r` with a whole `k >= 0` and
   * `0 <= r < d` has remainder `r`: on non-negative dividends the
   * truncating remainder is the Euclidean one.
   */
  lemma {:induction false} RemUnique(x: real, d: real, k: int, r: real)
    requires d > 0.0 && k >= 0 && 0.0 <= r < d && x == (k as real) * d + r
    ensures Rem(x, d) == r
  {
    DivBounds(r, d);
    DivOfSum(x, k as real, r, d);
    TruncOf(x / d, k);
    FracForm(x, d, k as real);
    DivMul(r, d);
  }

  /** A value already in `[0, d)` is its own remainder. */
  lemma RemOfInRange(x: real, d: real)
    requires 0.0 <= x < d
    ensures Rem(x, d) == x
  {
    RemUnique(x, d, 0, x);
  }

  /** A value in `(-d, 0]` is its own remainder: the quotient truncates to 0. */
  lemma RemNegInRange(x: real, d: real)
    requires d > 0.0 && -d < x <= 0.0
    ensures Rem(x, d) == x
  {
    DivBounds(-x, d);
    NegDiv(x, d);
    TruncOfNegFraction(x / d);
  }

  /** `RemOfInRange` for any divisor, as an implication. */
  lemma RemFixesRange(x: real, d: real)
    requires d != 0.0
    ensures 0.0 <= x < d ==> Rem(x, d) == x
  {
    if 0.0 <= x < d {
      RemOfInRange(x, d);
    }
  }

  /** Adding one period to a non-negative dividend leaves the remainder unchanged. */
  lemma RemShift(x: real, d: real)
    requires d > 0.0 && x >= 0.0
    ensures Rem(x + d, d) == Rem(x, d)
  {
    var k := Trunc(x / d);
    var r := Rem(x, d);
    assert x == (k as real) * d + r;
    assert x + d == ((k + 1) as real) * d + r;
    RemUnique(x + d, d, k + 1, r);
  }

  // Real-arithmetic steps, each small enough for the solver on its own.

  lemma RemBounds(x: real, d: real, n: real)
    requires d != 0.0 && n == Trunc(x / d) as real
    ensures d > 0.0 && x >= 0.0 ==> 0.0 <= x - d * n < d
    ensures d > 0.0 && x < 0.0 ==> -d < x - d * n <= 0.0
  {
    if d > 0.0 {
      DivSign(x, d);
      RemFromFraction(x, d, n);
    }
  }

  lemma TruncOfNegFraction(q: real)
    requires -1.0 < q <= 0.0
    ensures Trunc(q) == 0
  {
  }

  lemma NegDiv(x: real, d: real)
    requires d != 0.0
    ensures (-x) / d == -(x / d)
  {
  }

  lemma TruncOf(q: real, k: int)
    requires k >= 0 && (k as real) <= q < (k as real) + 1.0
    ensures Trunc(q) == k
  {
  }

  lemma RemFromFraction(x: real, d: real, n: real)
    requires d > 0.0
    ensures 0.0 <= x / d - n < 1.0 ==> 0.0 <= x - d * n < d
    ensures -1.0 < x / d - n <= 0.0 ==> -d < x - d * n <= 0.0
  {
    FracForm(x, d, n);
    ScaleFraction(x / d - n, d, x - d * n);
  }

  lemma ScaleFraction(f: real, d: real, y: real)
    requires d > 0.0 && y == f * d
    ensures 0.0 <= f < 1.0 ==> 0.0 <= y < d
    ensures -1.0 < f <= 0.0 ==> -d < y <= 0.0
  {
    if 0.0 <= f < 1.0 {
      ScalePositiveFraction(f, d, y);
    } else if -1.0 < f <= 0.0 {
      ScaleNegativeFraction(f, d, y);
    }
  }

  lemma ScalePositiveFraction(f: real, d: real, y: real)
    requires d > 0.0 && y == f * d && 0.0 <= f < 1.0
    ensures 0.0 <= y < d
  {
    MulLe(0.0, f, d);
    MulLt(f, 1.0, d);
  }

  lemma ScaleNegativeFraction(f: real, d: real, y: real)
    requires d > 0.0 && y == f * d && -1.0 < f <= 0.0
    ensures -d < y <= 0.0
  {
    MulLt(-1.0, f, d);
    MulLe(f, 0.0, d);
  }

  lemma FracForm(x: real, d: real, n: real)
    requires d != 0.0
    ensures x - d * n == (x / d - n) * d
  {
    DivMul(x, d);
  }

  lemma DivSign(x: real, d: real)
    requires d > 0.0
    ensures x >= 0.0 <==> x / d >= 0.0
  {
  }

  lemma MulLe(a: real, b: real, d: real)
    requires d > 0.0 && a <= b
    ensures a * d <= b * d
  {
  }

  lemma MulLt(a: real, b: real, d: real)
    requires d > 0.0 && a < b
    ensures a * d < b * d
  {
  }

  lemma DivMul(r: real, d: real)
    requires d != 0.0
    ensures (r / d) * d == r
  {
  }

  lemma DivOfSum(x: real, k: real, r: real, d: real)
    requires d != 0.0 && x == k * d + r
    ensures x / d == k + r / d
  {
  }

  lemma DivBounds(r: real, d: real)
    requires d > 0.0 && 0.0 <= r < d
    ensures 0.0 <= r / d < 1.0
  {
    DivSign(r, d);
    DivMul(r, d);
    if r / d >= 1.0 {
      MulLe(1.0, r / d, d);
      assert false;
    }
  }
}
