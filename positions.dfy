/**
 * `ShiftPosition`: a gaze position in N dimensions (screen X and Y, then the
 * optional eye and head pose axes), its coarse 500-unit density sectors, and
 * the weighted squared distance between two positions.
 */
module Positions {
  import opened Numeric

  /** `ShiftPosition.coordinates`; doubles are modelled as reals. */
  type Position = seq<real>

  /** `System.Drawing.Point`: an integer pixel shift. */
  datatype Point = Point(x: int, y: int)

  /** Width of a density sector on each screen axis. */
  const SectorWidth: real := 500.0

  /** `SectorX`: `(int)(X / 500.0)`, so a non-negative X lands in the sector that contains it. */
  function SectorX(p: Position): (s: int)
    requires |p| >= 1
    ensures 0.0 <= p[0] ==> 0 <= s && s as real * SectorWidth <= p[0] < (s + 1) as real * SectorWidth
    ensures p[0] < 0.0 ==> s <= 0
  {
    Trunc(p[0] / SectorWidth)
  }

  /** `SectorY`: `(int)(Y / 500.0)`. */
  function SectorY(p: Position): (s: int)
    requires |p| >= 2
    ensures 0.0 <= p[1] ==> 0 <= s && s as real * SectorWidth <= p[1] < (s + 1) as real * SectorWidth
    ensures p[1] < 0.0 ==> s <= 0
  {
    Trunc(p[1] / SectorWidth)
  }

  /** The weight of axis `i` in the distance: 1 on screen X and Y, `(detalization / 10)^2` beyond. */
  function AxisFactor(i: nat, detalization: real): real
  {
    if i < 2 then 1.0 else (detalization / 10.0) * (detalization / 10.0)
  }

  /** The weighted sum of squared coordinate differences over the first `n` axes. */
  function WeightedSquaredSum(a: Position, b: Position, detalization: real, n: nat): real
    requires n <= |a| && n <= |b|
  {
    if n == 0 then 0.0
    else
      WeightedSquaredSum(a, b, detalization, n - 1)
      + (a[n - 1] - b[n - 1]) * (a[n - 1] - b[n - 1]) * AxisFactor(n - 1, detalization)
  }

  /**
   * The loop of `GetDistance` before its final square root: every axis of
   * `a` is compared with the same axis of `b` and weighted by its factor.
   */
  method SquaredDistance(a: Position, b: Position, detalization: real) returns (squared: real)
    requires |a| <= |b|
    ensures squared == WeightedSquaredSum(a, b, detalization, |a|)
    ensures 0.0 <= squared
  {
    squared := 0.0;
    for i := 0 to |a|
      invariant squared == WeightedSquaredSum(a, b, detalization, i)
    {
      var factor := if i < 2 then 1.0 else (detalization / 10.0) * (detalization / 10.0);
      squared := squared + (a[i] - b[i]) * (a[i] - b[i]) * factor;
    }
    WeightedSquaredSumNonNegative(a, b, detalization, |a|);
  }

  lemma {:induction false} WeightedSquaredSumNonNegative(a: Position, b: Position, detalization: real, n: nat)
    requires n <= |a| && n <= |b|
    ensures 0.0 <= WeightedSquaredSum(a, b, detalization, n)
  {
    if n > 0 {
      WeightedSquaredSumNonNegative(a, b, detalization, n - 1);
      var d := a[n - 1] - b[n - 1];
      var f := AxisFactor(n - 1, detalization);
      assert 0.0 <= d * d;
      assert 0.0 <= f;
      assert 0.0 <= d * d * f;
    }
  }

  /** The distance is symmetric. */
  lemma {:induction false} WeightedSquaredSumSymmetric(a: Position, b: Position, detalization: real, n: nat)
    requires n <= |a| && n <= |b|
    ensures WeightedSquaredSum(a, b, detalization, n) == WeightedSquaredSum(b, a, detalization, n)
  {
    if n > 0 {
      WeightedSquaredSumSymmetric(a, b, detalization, n - 1);
      assert (a[n - 1] - b[n - 1]) * (a[n - 1] - b[n - 1]) == (b[n - 1] - a[n - 1]) * (b[n - 1] - a[n - 1]);
    }
  }

  /** A position is at distance zero from itself. */
  lemma {:induction false} WeightedSquaredSumToItself(a: Position, detalization: real, n: nat)
    requires n <= |a|
    ensures WeightedSquaredSum(a, a, detalization, n) == 0.0
  {
    if n > 0 {
      WeightedSquaredSumToItself(a, detalization, n - 1);
    }
  }
}
