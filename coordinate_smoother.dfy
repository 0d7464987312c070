/**
 * `CoordinateSmoother`: a window of the latest gaze samples, newest first,
 * cut to a maximum length and cleared of every sample that jumped too far
 * from the newest one; the smoothed sample is the window's average.
 */
module Smoothing {
  import opened Numeric
  import opened Results
  import opened Sequences
  import opened Positions

  /** `EyeTrackerErrorCorrection`: the coordinates of a gaze sample and the shift recorded with it. */
  datatype ErrorCorrection = ErrorCorrection(coordinates: seq<real>, shift: Point)

  /**
   * The predicate `AddPoint` hands to `RemoveAll`: `p` has another number
   * of coordinates than `c`, or differs from it by more than `jump` on one
   * of them.
   */
  ghost predicate FarFrom(p: ErrorCorrection, c: ErrorCorrection, jump: real)
  {
    |p.coordinates| != |c.coordinates|
    || exists i :: 0 <= i < |p.coordinates| && Abs(p.coordinates[i] - c.coordinates[i]) > jump
  }

  /** `p` has the coordinates of `c` and lies within `jump` of it on each. */
  ghost predicate Near(p: ErrorCorrection, c: ErrorCorrection, jump: real)
  {
    |p.coordinates| == |c.coordinates|
    && forall i :: 0 <= i < |p.coordinates| ==> Abs(p.coordinates[i] - c.coordinates[i]) <= jump
  }

  /** The samples of `ps` that are not far from `c`, in their order. */
  ghost function Kept(ps: seq<ErrorCorrection>, c: ErrorCorrection, jump: real): seq<ErrorCorrection>
  {
    if ps == [] then []
    else Kept(ps[..|ps| - 1], c, jump) + (if FarFrom(ps[|ps| - 1], c, jump) then [] else [ps[|ps| - 1]])
  }

  /** The newest `count` samples. */
  function Truncated(ps: seq<ErrorCorrection>, count: nat): (r: seq<ErrorCorrection>)
    ensures |r| == Min(|ps|, count) && r == ps[..|r|]
  {
    ps[..Min(|ps|, count)]
  }

  /** The window `AddPoint` leaves after adding `c` to `window`. */
  ghost function Window(window: seq<ErrorCorrection>, c: ErrorCorrection, count: nat, jump: real): seq<ErrorCorrection>
  {
    Kept(Truncated([c] + window, count), c, jump)
  }

  /** Keeping the samples near `c` leaves an ordered selection of them, each near `c`. */
  lemma {:induction false} KeptProperties(ps: seq<ErrorCorrection>, c: ErrorCorrection, jump: real)
    ensures IsSubsequence(Kept(ps, c, jump), ps)
    ensures forall k :: 0 <= k < |Kept(ps, c, jump)| ==> Near(Kept(ps, c, jump)[k], c, jump)
    decreases |ps|
  {
    if ps != [] {
      var init, last := ps[..|ps| - 1], ps[|ps| - 1];
      KeptProperties(init, c, jump);
      AppendKeepsSubsequence(Kept(init, c, jump), init, last, !FarFrom(last, c, jump));
      assert init + [last] == ps;
    }
  }

  /** A sample is never far from itself while the jump allowance is not negative. */
  lemma NotFarFromItself(c: ErrorCorrection, jump: real)
    requires 0.0 <= jump
    ensures !FarFrom(c, c, jump)
  {
    assert Abs(0.0) == 0.0;
  }

  /** The newest sample stays at the front of a kept list. */
  lemma {:induction false} KeptKeepsFront(ps: seq<ErrorCorrection>, c: ErrorCorrection, jump: real)
    requires ps != [] && ps[0] == c && 0.0 <= jump
    ensures Kept(ps, c, jump) != [] && Kept(ps, c, jump)[0] == c
    decreases |ps|
  {
    if |ps| == 1 {
      NotFarFromItself(c, jump);
      assert ps[..0] == [];
    } else {
      KeptKeepsFront(ps[..|ps| - 1], c, jump);
    }
  }

  /**
   * What `AddPoint` promises: the window never outgrows `count`; it is an
   * ordered selection of the new sample followed by the old window; every
   * sample in it has the new sample's number of coordinates and lies within
   * `jump` of it on each; and the new sample heads it whenever `count` is
   * positive and `jump` is not negative.
   */
  lemma WindowProperties(window: seq<ErrorCorrection>, c: ErrorCorrection, count: nat, jump: real)
    ensures |Window(window, c, count, jump)| <= count
    ensures IsSubsequence(Window(window, c, count, jump), [c] + window)
    ensures forall k :: 0 <= k < |Window(window, c, count, jump)| ==> Near(Window(window, c, count, jump)[k], c, jump)
    ensures 1 <= count && 0.0 <= jump ==> Window(window, c, count, jump) != [] && Window(window, c, count, jump)[0] == c
  {
    var t := Truncated([c] + window, count);
    KeptProperties(t, c, jump);
    SubsequenceIsShorter(Kept(t, c, jump), t);
    SuffixIsSubsequence([c] + window, 0);
    PrefixIsSubsequence([c] + window, |t|);
    SubsequenceTransitive(Kept(t, c, jump), t, [c] + window);
    if 1 <= count && 0.0 <= jump {
      KeptKeepsFront(t, c, jump);
    }
  }

  /** Cutting a list short leaves a subsequence. */
  lemma {:induction false} PrefixIsSubsequence(s: seq<ErrorCorrection>, n: nat)
    requires n <= |s|
    ensures IsSubsequence(s[..n], s)
    decreases |s|
  {
    if n == 0 {
    } else {
      PrefixIsSubsequence(s[1..], n - 1);
      assert s[..n][1..] == s[1..][..n - 1];
    }
  }

  // ---------------------------------------------------------------------
  // Averaging
  // ---------------------------------------------------------------------

  /** Every sample has `dims` coordinates. */
  ghost predicate AllOfDimension(ps: seq<ErrorCorrection>, dims: nat)
  {
    forall k :: 0 <= k < |ps| ==> |ps[k].coordinates| == dims
  }

  /** Σ of one shift axis over the samples. */
  function ShiftSum(ps: seq<ErrorCorrection>, onX: bool): int
  {
    if ps == [] then 0
    else ShiftSum(ps[..|ps| - 1], onX) + (if onX then ps[|ps| - 1].shift.x else ps[|ps| - 1].shift.y)
  }

  /** Σ of coordinate `i` over the samples. */
  function CoordinateSum(ps: seq<ErrorCorrection>, i: nat): real
    requires forall k :: 0 <= k < |ps| ==> i < |ps[k].coordinates|
  {
    if ps == [] then 0.0
    else CoordinateSum(ps[..|ps| - 1], i) + ps[|ps| - 1].coordinates[i]
  }

  /**
   * `Smoothen`'s result for a window: the mean of each coordinate and the
   * integer mean, truncated toward zero, of each shift axis; a failure, as
   * the source's integer division by zero, for an empty window.
   */
  function Smoothed(ps: seq<ErrorCorrection>, dims: nat): (r: Result<ErrorCorrection>)
    requires AllOfDimension(ps, dims)
    ensures r.Failure? <==> ps == []
    ensures r.Success? ==> |r.value.coordinates| == dims
  {
    if ps == [] then Failure("division by zero")
    else
      var n := |ps|;
      Success(ErrorCorrection(
        seq(dims, i requires 0 <= i < dims => CoordinateSum(ps, i) / n as real),
        Point(DivTrunc(ShiftSum(ps, true), n), DivTrunc(ShiftSum(ps, false), n))))
  }

  function Axis(p: Point, onX: bool): int
  {
    if onX then p.x else p.y
  }

  lemma {:induction false} ShiftSumBounds(ps: seq<ErrorCorrection>, onX: bool, lo: int, hi: int)
    requires forall k :: 0 <= k < |ps| ==> lo <= Axis(ps[k].shift, onX) <= hi
    ensures lo * |ps| <= ShiftSum(ps, onX) <= hi * |ps|
    decreases |ps|
  {
    if ps != [] {
      var n := |ps|;
      ShiftSumBounds(ps[..n - 1], onX, lo, hi);
      assert lo * (n - 1) + lo == lo * n;
      assert hi * (n - 1) + hi == hi * n;
    }
  }

  /** The smoothed shift stays within the range the window's shifts span, on each axis. */
  lemma SmoothedShiftWithin(ps: seq<ErrorCorrection>, dims: nat, onX: bool, lo: int, hi: int)
    requires AllOfDimension(ps, dims) && ps != []
    requires forall k :: 0 <= k < |ps| ==> lo <= Axis(ps[k].shift, onX) <= hi
    ensures lo <= Axis(Smoothed(ps, dims).value.shift, onX) <= hi
  {
    ShiftSumBounds(ps, onX, lo, hi);
    DivTruncBetween(ShiftSum(ps, onX), |ps|, lo, hi);
  }

  /** Each coordinate sum lies between `n` times the least and `n` times the largest summand. */
  lemma {:induction false} CoordinateSumBounds(ps: seq<ErrorCorrection>, i: nat, lo: real, hi: real)
    requires forall k :: 0 <= k < |ps| ==> i < |ps[k].coordinates| && lo <= ps[k].coordinates[i] <= hi
    ensures lo * |ps| as real <= CoordinateSum(ps, i) <= hi * |ps| as real
    decreases |ps|
  {
    if ps != [] {
      var n := |ps|;
      CoordinateSumBounds(ps[..n - 1], i, lo, hi);
      assert lo * (n - 1) as real + lo == lo * n as real;
      assert hi * (n - 1) as real + hi == hi * n as real;
    }
  }

  /** A quotient by a positive count of a value between `lo * n` and `hi * n` lies between `lo` and `hi`. */
  lemma MeanBetween(sum: real, n: nat, lo: real, hi: real)
    requires 0 < n && lo * n as real <= sum <= hi * n as real
    ensures lo <= sum / n as real <= hi
  {
    var q := sum / n as real;
    assert q * n as real == sum;
    assert (q - lo) * n as real == q * n as real - lo * n as real;
    assert (hi - q) * n as real == hi * n as real - q * n as real;
  }

  /** The mean of samples all within `jump` of `c` lies within `jump` of `c` on every coordinate. */
  lemma SmoothedWithin(ps: seq<ErrorCorrection>, c: ErrorCorrection, jump: real)
    requires ps != [] && forall k :: 0 <= k < |ps| ==> Near(ps[k], c, jump)
    ensures AllOfDimension(ps, |c.coordinates|)
    ensures forall i :: 0 <= i < |c.coordinates| ==>
      Abs(Smoothed(ps, |c.coordinates|).value.coordinates[i] - c.coordinates[i]) <= jump
  {
    var r := Smoothed(ps, |c.coordinates|).value;
    forall i | 0 <= i < |c.coordinates|
      ensures Abs(r.coordinates[i] - c.coordinates[i]) <= jump
    {
      MeanWithin(ps, i, c.coordinates[i] - jump, c.coordinates[i] + jump);
    }
  }

  lemma MeanWithin(ps: seq<ErrorCorrection>, i: nat, lo: real, hi: real)
    requires ps != []
    requires forall k :: 0 <= k < |ps| ==> i < |ps[k].coordinates| && lo <= ps[k].coordinates[i] <= hi
    ensures lo <= CoordinateSum(ps, i) / |ps| as real <= hi
  {
    CoordinateSumBounds(ps, i, lo, hi);
    MeanBetween(CoordinateSum(ps, i), |ps|, lo, hi);
  }

  /**
   * Smoothing never fails once `AddPoint` has run with a positive `count`
   * and a non-negative `jump`, and the smoothed sample then lies within
   * `jump` of the newest one on every coordinate.
   */
  lemma SmoothedNearNewest(window: seq<ErrorCorrection>, c: ErrorCorrection, count: nat, jump: real)
    requires 1 <= count && 0.0 <= jump
    ensures AllOfDimension(Window(window, c, count, jump), |c.coordinates|)
    ensures Smoothed(Window(window, c, count, jump), |c.coordinates|).Success?
    ensures forall i :: 0 <= i < |c.coordinates| ==>
      Abs(Smoothed(Window(window, c, count, jump), |c.coordinates|).value.coordinates[i] - c.coordinates[i]) <= jump
  {
    WindowProperties(window, c, count, jump);
    SmoothedWithin(Window(window, c, count, jump), c, jump);
  }

  /** A window of one sample smooths to that sample. */
  lemma SmoothedSingle(p: ErrorCorrection)
    ensures Smoothed([p], |p.coordinates|) == Success(p)
  {
    var ps := [p];
    assert ps[..0] == [];
    assert ShiftSum(ps, true) == ShiftSum([], true) + p.shift.x == p.shift.x;
    assert ShiftSum(ps, false) == ShiftSum([], false) + p.shift.y == p.shift.y;
    DivTruncBetween(p.shift.x, 1, p.shift.x, p.shift.x);
    DivTruncBetween(p.shift.y, 1, p.shift.y, p.shift.y);
    var r := Smoothed(ps, |p.coordinates|).value;
    assert r.shift == p.shift;
    forall i | 0 <= i < |p.coordinates|
      ensures r.coordinates[i] == p.coordinates[i]
    {
      assert CoordinateSum(ps, i) == CoordinateSum([], i) + p.coordinates[i];
    }
    assert r.coordinates == p.coordinates;
  }

  // ---------------------------------------------------------------------
  // The smoother
  // ---------------------------------------------------------------------

  /** The loop of `RemoveAll`'s predicate: whether `p` must leave the window. */
  method IsFarFrom(p: ErrorCorrection, c: ErrorCorrection, jump: real) returns (far: bool)
    ensures far == FarFrom(p, c, jump)
  {
    if |p.coordinates| != |c.coordinates| {
      return true;
    }
    for i := 0 to |p.coordinates|
      invariant forall j :: 0 <= j < i ==> Abs(p.coordinates[j] - c.coordinates[j]) <= jump
    {
      if Abs(p.coordinates[i] - c.coordinates[i]) > jump {
        return true;
      }
    }
    return false;
  }

  /**
   * `CoordinateSmoother`, a static class in the source: one window of
   * samples, newest first.
   */
  class CoordinateSmoother {
    /** `points`. */
    var points: seq<ErrorCorrection>

    constructor ()
      ensures points == []
    {
      points := [];
    }

    /**
     * `AddPoint`: puts `c` in front, drops the oldest samples beyond
     * `count` (`smothening_points_count`) and then every sample far from
     * `c` by `jump` (`instant_jump_distance`).
     */
    method AddPoint(c: ErrorCorrection, count: nat, jump: real)
      modifies this
      ensures points == Window(old(points), c, count, jump)
    {
      points := [c] + points;
      ghost var added := points;
      while |points| > count
        invariant points == added[..|points|] && Min(|added|, count) <= |points|
      {
        points := points[..|points| - 1];
      }
      assert points == Truncated(added, count);
      RemoveFar(c, jump);
    }

    /** `RemoveAll`: keeps, in order, the samples not far from `c`. */
    method RemoveFar(c: ErrorCorrection, jump: real)
      modifies this
      ensures points == Kept(old(points), c, jump)
    {
      var ps := points;
      var kept := [];
      for k := 0 to |ps|
        invariant kept == Kept(ps[..k], c, jump)
      {
        var far := IsFarFrom(ps[k], c, jump);
        assert ps[..k + 1][..k] == ps[..k];
        if !far {
          kept := kept + [ps[k]];
        }
      }
      assert ps[..|ps|] == ps;
      points := kept;
    }

    /**
     * `Smoothen`: adds `c` to the window and returns the window's average,
     * with as many coordinates as `c`; the source divides by the window's
     * size, which fails when nothing is left in it.
     */
    method Smoothen(c: ErrorCorrection, count: nat, jump: real) returns (r: Result<ErrorCorrection>)
      modifies this
      ensures points == Window(old(points), c, count, jump)
      ensures AllOfDimension(points, |c.coordinates|)
      ensures r == Smoothed(points, |c.coordinates|)
    {
      AddPoint(c, count, jump);
      WindowProperties(old(points), c, count, jump);
      r := Average(points, |c.coordinates|);
    }

    /** `Reset`: empties the window. */
    method Reset()
      modifies this
      ensures points == []
    {
      points := [];
    }
  }

  /** The summing and dividing loops of `Smoothen`, over the window `ps`. */
  method Average(ps: seq<ErrorCorrection>, dims: nat) returns (r: Result<ErrorCorrection>)
    requires AllOfDimension(ps, dims)
    ensures r == Smoothed(ps, dims)
  {
    var coordinates := new real[dims](_ => 0.0);
    var shift := Point(0, 0);
    for k := 0 to |ps|
      invariant shift == Point(ShiftSum(ps[..k], true), ShiftSum(ps[..k], false))
      invariant forall i :: 0 <= i < dims ==> coordinates[i] == CoordinateSum(ps[..k], i)
    {
      assert ps[..k + 1][..k] == ps[..k];
      shift := Point(shift.x + ps[k].shift.x, shift.y + ps[k].shift.y);
      AddCoordinates(coordinates, ps, k);
    }
    assert ps[..|ps|] == ps;
    if |ps| == 0 {
      return Failure("division by zero");
    }
    shift := Point(DivTrunc(shift.x, |ps|), DivTrunc(shift.y, |ps|));
    DivideCoordinates(coordinates, ps);
    r := Success(ErrorCorrection(coordinates[..], shift));
  }

  /** The dividing loop of `Smoothen`: each coordinate sum becomes a mean. */
  method DivideCoordinates(coordinates: array<real>, ps: seq<ErrorCorrection>)
    requires ps != [] && AllOfDimension(ps, coordinates.Length)
    requires forall i :: 0 <= i < coordinates.Length ==> coordinates[i] == CoordinateSum(ps, i)
    modifies coordinates
    ensures coordinates[..] == seq(coordinates.Length, i requires 0 <= i < coordinates.Length => CoordinateSum(ps, i) / |ps| as real)
  {
    for i := 0 to coordinates.Length
      invariant forall j :: 0 <= j < i ==> coordinates[j] == CoordinateSum(ps, j) / |ps| as real
      invariant forall j :: i <= j < coordinates.Length ==> coordinates[j] == CoordinateSum(ps, j)
    {
      coordinates[i] := coordinates[i] / |ps| as real;
    }
  }

  /** The inner loop of `Smoothen`: adds sample `k`'s coordinates to the running sums. */
  method AddCoordinates(coordinates: array<real>, ps: seq<ErrorCorrection>, k: nat)
    requires k < |ps| && AllOfDimension(ps, coordinates.Length)
    requires forall i :: 0 <= i < coordinates.Length ==> coordinates[i] == CoordinateSum(ps[..k], i)
    modifies coordinates
    ensures forall i :: 0 <= i < coordinates.Length ==> coordinates[i] == CoordinateSum(ps[..k + 1], i)
  {
    assert ps[..k + 1][..k] == ps[..k];
    for i := 0 to coordinates.Length
      invariant forall j :: 0 <= j < i ==> coordinates[j] == CoordinateSum(ps[..k + 1], j)
      invariant forall j :: i <= j < coordinates.Length ==> coordinates[j] == CoordinateSum(ps[..k], j)
    {
      coordinates[i] := coordinates[i] + ps[k].coordinates[i];
    }
  }
}
