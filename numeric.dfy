/**
 * Arithmetic of the C# source stated over unbounded integers and exact reals:
 * the `(int)` cast of a floating value and the `/` of two ints both truncate
 * toward zero, unlike Dafny's Euclidean `/`.
 */
module Numeric {

  function Abs(x: real): real
  {
    if x < 0.0 then -x else x
  }

  function AbsInt(x: int): int
  {
    if x < 0 then -x else x
  }

  function Min(a: int, b: int): int
  {
    if a <= b then a else b
  }

  function Max(a: int, b: int): int
  {
    if a >= b then a else b
  }

  /** C#'s `(int)x` for a floating `x`: the integer part, rounding toward zero. */
  function Trunc(x: real): (r: int)
    ensures 0.0 <= x ==> 0 <= r && r as real <= x < r as real + 1.0
    ensures x < 0.0 ==> r <= 0 && r as real - 1.0 < x <= r as real
  {
    if x >= 0.0 then x.Floor else -((-x).Floor)
  }

  /** Truncation never moves a value away from zero. */
  lemma TruncTowardZero(x: real)
    ensures Abs(Trunc(x) as real) <= Abs(x)
  {
  }

  /** Truncation keeps a value that lies between two integers between them. */
  lemma TruncBetween(x: real, lo: int, hi: int)
    requires lo as real <= x <= hi as real
    ensures lo <= Trunc(x) <= hi
  {
  }

  /** C#'s `a / b` on ints: the quotient truncated toward zero. */
  function DivTrunc(a: int, b: int): (q: int)
    requires b != 0
    ensures 0 <= a ==> 0 <= a - q * b < AbsInt(b)
    ensures a < 0 ==> -AbsInt(b) < a - q * b <= 0
  {
    if a >= 0 then
      (if b > 0 then a / b else -(a / -b))
    else
      (if b > 0 then -((-a) / b) else (-a) / (-b))
  }

  /** An integer quotient of a value lying between `lo` and `hi` times the divisor lies between `lo` and `hi`. */
  lemma DivTruncBetween(a: int, n: int, lo: int, hi: int)
    requires 0 < n && lo * n <= a <= hi * n
    ensures lo <= DivTrunc(a, n) <= hi
  {
    var q := DivTrunc(a, n);
    ScaleCancels(q, hi, n);
    ScaleCancels(lo, q, n);
  }

  lemma ScaleCancels(x: int, y: int, n: int)
    requires 0 < n && x * n < y * n + n
    ensures x <= y
  {
    assert (x - y) * n == x * n - y * n;
    ProductBelow(x - y, n);
  }

  lemma ProductBelow(d: int, n: int)
    requires 0 < n && d * n < n
    ensures d <= 0
  {
    if 1 <= d {
      MulAtLeast(d, n);
    }
  }

  lemma {:induction false} MulAtLeast(d: int, n: int)
    requires 1 <= d && 0 < n
    ensures n <= d * n
  {
    if d > 1 {
      MulAtLeast(d - 1, n);
      assert d * n == (d - 1) * n + n;
    }
  }
}
