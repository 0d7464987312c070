/**
 * `CalibrationManagerV1`: inverse-distance weighting refined by directional
 * shading. Neighbours are visited nearest first; each starts with weight 1
 * and loses the shade every surviving nearer neighbour casts on it, and a
 * neighbour left with no more than 0.01 is dropped.
 */
module CalibrationV1 {
  import opened Numeric
  import opened Results
  import opened Sequences
  import opened Positions
  import opened InverseDistance
  import opened ShiftsStore

  /** The shading settings of the calibration mode, all whole numbers. */
  datatype ShadeMode = ShadeMode(opaqueSector: int, transparentSector: int, shadeThickness: int)

  /**
   * The angle, in percent of π, between the directions from the cursor to
   * two stored corrections, given by their store indices. It comes from
   * outside the model.
   */
  type Angles = (nat, nat) -> real

  /** The least weight a shaded neighbour must keep to stay in the list. */
  const DropThreshold: real := 0.01

  // ---------------------------------------------------------------------
  // Opacity
  // ---------------------------------------------------------------------

  /**
   * The opacity of a shade at `angle` exactly as the source computes it:
   * `None` stands for the NaN of the ramp's 0/0 when the opaque and
   * transparent sectors leave no room between them.
   */
  function BaseOpacityAsWritten(angle: real, mode: ShadeMode): (r: Option<real>)
    ensures r.None? <==> mode.opaqueSector + mode.transparentSector == 100 && angle == mode.opaqueSector as real
  {
    if angle < mode.opaqueSector as real then Some(1.0)
    else if angle > (100 - mode.transparentSector) as real then Some(0.0)
    else
      var ramp := (mode.opaqueSector + mode.transparentSector - 100) as real;
      if ramp == 0.0 then None
      else Some((angle + mode.transparentSector as real - 100.0) / ramp)
  }

  /** With a 40% opaque and a 60% transparent sector, an angle of 40% gets no opacity at all. */
  lemma AsWrittenOpacityUndefined()
    ensures BaseOpacityAsWritten(40.0, ShadeMode(40, 60, 10)).None?
  {
  }

  /**
   * The opacity of a shade at `angle`: 1 inside the opaque sector, 0 inside
   * the transparent one, a linear ramp between them, and 1 at the point
   * where a zero-width ramp would divide zero by zero.
   */
  function BaseOpacity(angle: real, mode: ShadeMode): (r: real)
    ensures 0.0 <= r <= 1.0
    ensures BaseOpacityAsWritten(angle, mode) == Some(r) || (BaseOpacityAsWritten(angle, mode).None? && r == 1.0)
  {
    if angle < mode.opaqueSector as real then 1.0
    else if angle > (100 - mode.transparentSector) as real then 0.0
    else
      var ramp := (mode.opaqueSector + mode.transparentSector - 100) as real;
      if ramp == 0.0 then 1.0
      else
        var n := angle + mode.transparentSector as real - 100.0;
        assert 0.0 <= n / ramp <= 1.0 by {
          RampWithinUnit(n, ramp);
        }
        n / ramp
  }

  /** A ramp value `n / ramp` with `ramp <= n <= 0` lies in [0, 1]. */
  lemma RampWithinUnit(n: real, ramp: real)
    requires ramp < 0.0 && ramp <= n <= 0.0
    ensures 0.0 <= n / ramp <= 1.0
  {
    var q := n / ramp;
    assert q * (-ramp) == -n;
    assert q == (-n) / (-ramp);
    if n < 0.0 {
      QuotientAtMostOne(-n, -ramp);
    }
  }

  /** When the sectors leave a ramp, it starts at opacity 1 and ends at opacity 0. */
  lemma RampEnds(mode: ShadeMode)
    requires mode.opaqueSector + mode.transparentSector < 100
    ensures BaseOpacity(mode.opaqueSector as real, mode) == 1.0
    ensures BaseOpacity((100 - mode.transparentSector) as real, mode) == 0.0
  {
    var ramp := (mode.opaqueSector + mode.transparentSector - 100) as real;
    assert (mode.opaqueSector as real + mode.transparentSector as real - 100.0) / ramp == 1.0;
  }

  /** A wider angle never casts a darker shade. */
  lemma OpacityNonIncreasing(a: real, b: real, mode: ShadeMode)
    requires a <= b
    ensures BaseOpacity(b, mode) <= BaseOpacity(a, mode)
  {
    var lo, hi := mode.opaqueSector as real, (100 - mode.transparentSector) as real;
    var ramp := (mode.opaqueSector + mode.transparentSector - 100) as real;
    if lo <= a && b <= hi && ramp != 0.0 {
      var na, nb := a + mode.transparentSector as real - 100.0, b + mode.transparentSector as real - 100.0;
      assert nb / ramp <= na / ramp by {
        assert nb / ramp == -(nb / -ramp) && na / ramp == -(na / -ramp);
      }
    }
  }

  /**
   * `GetShadeOpacity`: the shade `source` casts on the farther `shaded`:
   * the opacity for their angle, weakened in proportion when their radial
   * gap is below the shade thickness, times the source's weight.
   */
  function ShadeOpacity(source: Neighbour, shaded: Neighbour, angle: real, mode: ShadeMode): (r: real)
    requires source.distance <= shaded.distance
    ensures 0.0 <= source.weight ==> 0.0 <= r <= source.weight
  {
    var faded := Faded(BaseOpacity(angle, mode), shaded.distance - source.distance, mode.shadeThickness as real);
    assert 0.0 <= source.weight ==> 0.0 <= faded * source.weight <= source.weight by {
      if 0.0 <= source.weight {
        assert 1.0 * source.weight - faded * source.weight == (1.0 - faded) * source.weight;
      }
    }
    faded * source.weight
  }

  /** An opacity weakened in proportion to a radial gap below the shade thickness stays in [0, 1]. */
  function Faded(opacity: real, gap: real, thickness: real): (f: real)
    requires 0.0 <= opacity <= 1.0 && 0.0 <= gap
    ensures 0.0 <= f <= 1.0
  {
    if gap < thickness then
      FadedWithinUnit(opacity, gap, thickness);
      opacity * (gap / thickness)
    else opacity
  }

  lemma FadedWithinUnit(opacity: real, gap: real, thickness: real)
    requires 0.0 <= opacity <= 1.0 && 0.0 <= gap < thickness
    ensures 0.0 <= opacity * (gap / thickness) <= 1.0
  {
    var b := gap / thickness;
    assert b * thickness == gap;
    ProductWithinUnit(opacity, b);
  }

  lemma ProductWithinUnit(a: real, b: real)
    requires 0.0 <= a <= 1.0 && 0.0 <= b < 1.0
    ensures 0.0 <= a * b <= 1.0
  {
    FractionOf(b, a);
    assert a * b == b * a;
  }

  /** A fraction of a non-negative weight lies between 0 and the weight. */
  lemma FractionOf(f: real, w: real)
    requires 0.0 <= f <= 1.0 && 0.0 <= w
    ensures 0.0 <= f * w <= w
  {
    assert 1.0 * w - f * w == (1.0 - f) * w;
  }

  /** A source at the shaded neighbour's own distance casts no shade when the shade has a thickness. */
  lemma NoShadeAtEqualDistance(source: Neighbour, shaded: Neighbour, angle: real, mode: ShadeMode)
    requires source.distance == shaded.distance && 0 < mode.shadeThickness
    ensures ShadeOpacity(source, shaded, angle, mode) == 0.0
  {
  }

  /** Beyond the shade thickness the full opacity applies, scaled by the source's weight. */
  lemma FullShadeBeyondThickness(source: Neighbour, shaded: Neighbour, angle: real, mode: ShadeMode)
    requires 0 <= mode.shadeThickness
    requires source.distance + mode.shadeThickness as real <= shaded.distance
    ensures ShadeOpacity(source, shaded, angle, mode) == BaseOpacity(angle, mode) * source.weight
  {
  }

  // ---------------------------------------------------------------------
  // Shading a neighbour list
  // ---------------------------------------------------------------------

  /** Nearest first, as the store ranks its neighbours. */
  ghost predicate SortedByDistance(ns: seq<Neighbour>)
  {
    forall i, j :: 0 <= i < j < |ns| ==> ns[i].distance <= ns[j].distance
  }

  /** No neighbour of `survivors` is farther than `shaded`. */
  ghost predicate NotFartherThan(survivors: seq<Neighbour>, shaded: Neighbour)
  {
    forall k :: 0 <= k < |survivors| ==> survivors[k].distance <= shaded.distance
  }

  /** The total shade the `survivors` cast on `shaded`. */
  function ShadeSum(survivors: seq<Neighbour>, shaded: Neighbour, angles: Angles, mode: ShadeMode): real
    requires NotFartherThan(survivors, shaded)
  {
    if survivors == [] then 0.0
    else
      var last := survivors[|survivors| - 1];
      ShadeSum(survivors[..|survivors| - 1], shaded, angles, mode)
      + ShadeOpacity(last, shaded, angles(last.index, shaded.index), mode)
  }

  /** Sorting carries over when the next neighbour is dropped. */
  lemma SortedWithoutNext(s: seq<Neighbour>, rest: seq<Neighbour>)
    requires rest != [] && SortedByDistance(s + rest)
    ensures SortedByDistance(s + rest[1..])
    ensures NotFartherThan(s, rest[0])
  {
    var a, b := s + rest, s + rest[1..];
    forall i, j | 0 <= i < j < |b|
      ensures b[i].distance <= b[j].distance
    {
      var i', j' := if i < |s| then i else i + 1, if j < |s| then j else j + 1;
      assert b[i] == a[i'] && b[j] == a[j'];
    }
    forall k | 0 <= k < |s|
      ensures s[k].distance <= rest[0].distance
    {
      assert a[k] == s[k] && a[|s|] == rest[0];
    }
  }

  /** Sorting carries over when the next neighbour is kept with a new weight. */
  lemma SortedKeepingNext(s: seq<Neighbour>, rest: seq<Neighbour>, w: real)
    requires rest != [] && SortedByDistance(s + rest)
    ensures SortedByDistance(s + [rest[0].(weight := w)] + rest[1..])
  {
    var a, b := s + rest, s + [rest[0].(weight := w)] + rest[1..];
    assert |a| == |b|;
    assert forall k :: 0 <= k < |a| ==> b[k].distance == a[k].distance;
  }

  /**
   * The list `ApplyShades` leaves, for the `survivors` already visited and
   * the neighbours still to visit.
   */
  function Shade(survivors: seq<Neighbour>, rest: seq<Neighbour>, angles: Angles, mode: ShadeMode): seq<Neighbour>
    requires SortedByDistance(survivors + rest)
    decreases |rest|
  {
    if rest == [] then survivors
    else
      SortedWithoutNext(survivors, rest);
      var w := 1.0 - ShadeSum(survivors, rest[0], angles, mode);
      if w <= DropThreshold then Shade(survivors, rest[1..], angles, mode)
      else
        SortedKeepingNext(survivors, rest, w);
        assert survivors + [rest[0].(weight := w)] + rest[1..] == (survivors + [rest[0].(weight := w)]) + rest[1..];
        Shade(survivors + [rest[0].(weight := w)], rest[1..], angles, mode)
  }

  /** The shade weight the next neighbour gets when `survivors` have been visited. */
  function NextWeight(survivors: seq<Neighbour>, rest: seq<Neighbour>, angles: Angles, mode: ShadeMode): real
    requires rest != [] && SortedByDistance(survivors + rest)
  {
    SortedWithoutNext(survivors, rest);
    1.0 - ShadeSum(survivors, rest[0], angles, mode)
  }

  /** A neighbour left with too little weight is dropped. */
  lemma ShadeDropsNext(survivors: seq<Neighbour>, rest: seq<Neighbour>, angles: Angles, mode: ShadeMode)
    requires rest != [] && SortedByDistance(survivors + rest)
    requires NextWeight(survivors, rest, angles, mode) <= DropThreshold
    ensures SortedByDistance(survivors + rest[1..])
    ensures Shade(survivors, rest, angles, mode) == Shade(survivors, rest[1..], angles, mode)
  {
    SortedWithoutNext(survivors, rest);
  }

  /** A neighbour that keeps enough weight joins the survivors with that weight. */
  lemma ShadeKeepsNext(survivors: seq<Neighbour>, rest: seq<Neighbour>, angles: Angles, mode: ShadeMode)
    requires rest != [] && SortedByDistance(survivors + rest)
    requires DropThreshold < NextWeight(survivors, rest, angles, mode)
    ensures var c := rest[0].(weight := NextWeight(survivors, rest, angles, mode));
      SortedByDistance(survivors + [c] + rest[1..])
      && SortedByDistance((survivors + [c]) + rest[1..])
      && Shade(survivors, rest, angles, mode) == Shade(survivors + [c], rest[1..], angles, mode)
  {
    var w := NextWeight(survivors, rest, angles, mode);
    SortedKeepingNext(survivors, rest, w);
    assert survivors + [rest[0].(weight := w)] + rest[1..] == (survivors + [rest[0].(weight := w)]) + rest[1..];
  }

  /** A neighbour without its weight: its store index and distance. */
  function Placement(n: Neighbour): (nat, real)
  {
    (n.index, n.distance)
  }

  function Placements(ns: seq<Neighbour>): (ps: seq<(nat, real)>)
    ensures |ps| == |ns| && forall k :: 0 <= k < |ns| ==> ps[k] == Placement(ns[k])
  {
    seq(|ns|, k requires 0 <= k < |ns| => Placement(ns[k]))
  }

  /** Every survivor keeps more than the drop threshold, and the visited ones stay in front. */
  lemma {:induction false} ShadeKeepsSurvivors(survivors: seq<Neighbour>, rest: seq<Neighbour>, angles: Angles, mode: ShadeMode)
    requires SortedByDistance(survivors + rest)
    ensures |survivors| <= |Shade(survivors, rest, angles, mode)|
    ensures Shade(survivors, rest, angles, mode)[..|survivors|] == survivors
    ensures (forall k :: 0 <= k < |survivors| ==> DropThreshold < survivors[k].weight) ==>
      forall k :: 0 <= k < |Shade(survivors, rest, angles, mode)| ==> DropThreshold < Shade(survivors, rest, angles, mode)[k].weight
    decreases |rest|
  {
    if rest != [] {
      var w := NextWeight(survivors, rest, angles, mode);
      if w <= DropThreshold {
        ShadeDropsNext(survivors, rest, angles, mode);
        ShadeKeepsSurvivors(survivors, rest[1..], angles, mode);
      } else {
        var s' := survivors + [rest[0].(weight := w)];
        ShadeKeepsNext(survivors, rest, angles, mode);
        ShadeKeepsSurvivors(s', rest[1..], angles, mode);
        assert Shade(s', rest[1..], angles, mode)[..|survivors|] == s'[..|survivors|];
        assert s'[..|survivors|] == survivors;
      }
    }
  }

  /** The survivors, without their weights, are the input neighbours with some left out, in their order. */
  lemma {:induction false} ShadeIsSubsequence(survivors: seq<Neighbour>, rest: seq<Neighbour>, angles: Angles, mode: ShadeMode)
    requires SortedByDistance(survivors + rest)
    ensures IsSubsequence(Placements(Shade(survivors, rest, angles, mode)), Placements(survivors + rest))
    decreases |rest|
  {
    if rest == [] {
      assert survivors + rest == survivors;
      SubsequenceOfItself(Placements(survivors));
    } else {
      var w := NextWeight(survivors, rest, angles, mode);
      var whole := Placements(survivors + rest);
      if w <= DropThreshold {
        ShadeDropsNext(survivors, rest, angles, mode);
        ShadeIsSubsequence(survivors, rest[1..], angles, mode);
        assert Placements(survivors + rest[1..]) == RemoveAt(whole, |survivors|);
        RemoveAtIsSubsequence(whole, |survivors|);
        SubsequenceTransitive(Placements(Shade(survivors, rest[1..], angles, mode)), RemoveAt(whole, |survivors|), whole);
      } else {
        var s' := survivors + [rest[0].(weight := w)];
        ShadeKeepsNext(survivors, rest, angles, mode);
        ShadeIsSubsequence(s', rest[1..], angles, mode);
        assert Placements(s' + rest[1..]) == whole;
      }
    }
  }

  /** Each survivor's weight is 1 less the shade of the survivors before it. */
  ghost predicate ShadedBySurvivors(r: seq<Neighbour>, angles: Angles, mode: ShadeMode)
  {
    SortedByDistance(r)
    && forall k :: 0 <= k < |r| ==>
      NotFartherThan(r[..k], r[k]) && r[k].weight == 1.0 - ShadeSum(r[..k], r[k], angles, mode)
  }

  /** Appending the next neighbour with its shade weight keeps every survivor's weight accounted for. */
  lemma ShadedBySurvivorsStep(survivors: seq<Neighbour>, rest: seq<Neighbour>, angles: Angles, mode: ShadeMode)
    requires rest != [] && SortedByDistance(survivors + rest) && ShadedBySurvivors(survivors, angles, mode)
    ensures ShadedBySurvivors(survivors + [rest[0].(weight := NextWeight(survivors, rest, angles, mode))], angles, mode)
  {
    SortedWithoutNext(survivors, rest);
    var c := rest[0].(weight := NextWeight(survivors, rest, angles, mode));
    var s' := survivors + [c];
    SortedKeepingNext(survivors, rest, c.weight);
    assert SortedByDistance(s') by {
      var whole := survivors + [c] + rest[1..];
      assert forall i :: 0 <= i < |s'| ==> s'[i] == whole[i];
    }
    forall k | 0 <= k < |s'|
      ensures NotFartherThan(s'[..k], s'[k]) && s'[k].weight == 1.0 - ShadeSum(s'[..k], s'[k], angles, mode)
    {
      if k < |survivors| {
        assert s'[..k] == survivors[..k] && s'[k] == survivors[k];
      } else {
        assert s'[..k] == survivors && s'[k] == c;
        ShadeSumIgnoresWeight(survivors, rest[0], c, angles, mode);
      }
    }
  }

  lemma {:induction false} ShadeIsConsistent(survivors: seq<Neighbour>, rest: seq<Neighbour>, angles: Angles, mode: ShadeMode)
    requires SortedByDistance(survivors + rest) && ShadedBySurvivors(survivors, angles, mode)
    ensures ShadedBySurvivors(Shade(survivors, rest, angles, mode), angles, mode)
    decreases |rest|
  {
    if rest != [] {
      var w := NextWeight(survivors, rest, angles, mode);
      if w <= DropThreshold {
        ShadeDropsNext(survivors, rest, angles, mode);
        ShadeIsConsistent(survivors, rest[1..], angles, mode);
      } else {
        ShadeKeepsNext(survivors, rest, angles, mode);
        ShadedBySurvivorsStep(survivors, rest, angles, mode);
        ShadeIsConsistent(survivors + [rest[0].(weight := w)], rest[1..], angles, mode);
      }
    }
  }

  /** The shade on a neighbour does not depend on that neighbour's own weight. */
  lemma {:induction false} ShadeSumIgnoresWeight(survivors: seq<Neighbour>, a: Neighbour, b: Neighbour, angles: Angles, mode: ShadeMode)
    requires Placement(a) == Placement(b) && NotFartherThan(survivors, a)
    ensures NotFartherThan(survivors, b)
    ensures ShadeSum(survivors, a, angles, mode) == ShadeSum(survivors, b, angles, mode)
    decreases |survivors|
  {
    if survivors != [] {
      ShadeSumIgnoresWeight(survivors[..|survivors| - 1], a, b, angles, mode);
    }
  }

  /** The shade of survivors with non-negative weights is never negative. */
  lemma {:induction false} ShadeSumNonNegative(survivors: seq<Neighbour>, shaded: Neighbour, angles: Angles, mode: ShadeMode)
    requires NotFartherThan(survivors, shaded)
    requires forall k :: 0 <= k < |survivors| ==> 0.0 <= survivors[k].weight
    ensures 0.0 <= ShadeSum(survivors, shaded, angles, mode)
    decreases |survivors|
  {
    if survivors != [] {
      ShadeSumNonNegative(survivors[..|survivors| - 1], shaded, angles, mode);
    }
  }

  /** The nearest neighbour always survives, with weight exactly 1. */
  lemma ShadeKeepsNearest(cs: seq<Neighbour>, angles: Angles, mode: ShadeMode)
    requires SortedByDistance(cs) && cs != []
    ensures Shade([], cs, angles, mode) != [] && Shade([], cs, angles, mode)[0] == cs[0].(weight := 1.0)
  {
    assert [] + cs == cs;
    assert NextWeight([], cs, angles, mode) == 1.0;
    ShadeKeepsNext([], cs, angles, mode);
    var c := cs[0].(weight := 1.0);
    assert [] + [c] == [c];
    ShadeKeepsSurvivors([c], cs[1..], angles, mode);
  }

  /** Every survivor keeps a weight in (0.01, 1]. */
  lemma ShadeWeightsWithin(cs: seq<Neighbour>, angles: Angles, mode: ShadeMode)
    requires SortedByDistance(cs)
    ensures forall k :: 0 <= k < |Shade([], cs, angles, mode)| ==>
      DropThreshold < Shade([], cs, angles, mode)[k].weight <= 1.0
  {
    assert [] + cs == cs;
    var r := Shade([], cs, angles, mode);
    ShadeKeepsSurvivors([], cs, angles, mode);
    ShadeIsConsistent([], cs, angles, mode);
    forall k | 0 <= k < |r|
      ensures r[k].weight <= 1.0
    {
      ShadeSumNonNegative(r[..k], r[k], angles, mode);
    }
  }

  /**
   * What `ApplyShades` promises: the nearest neighbour survives with weight
   * exactly 1; every survivor keeps a weight in (0.01, 1], equal to 1 less
   * the shade of the survivors before it; the survivors are input
   * neighbours, in their order.
   */
  lemma ShadeProperties(cs: seq<Neighbour>, angles: Angles, mode: ShadeMode)
    requires SortedByDistance(cs)
    ensures cs != [] ==> Shade([], cs, angles, mode) != [] && Shade([], cs, angles, mode)[0] == cs[0].(weight := 1.0)
    ensures forall k :: 0 <= k < |Shade([], cs, angles, mode)| ==>
      DropThreshold < Shade([], cs, angles, mode)[k].weight <= 1.0
    ensures ShadedBySurvivors(Shade([], cs, angles, mode), angles, mode)
    ensures IsSubsequence(Placements(Shade([], cs, angles, mode)), Placements(cs))
  {
    assert [] + cs == cs;
    if cs != [] {
      ShadeKeepsNearest(cs, angles, mode);
    }
    ShadeWeightsWithin(cs, angles, mode);
    ShadeIsConsistent([], cs, angles, mode);
    ShadeIsSubsequence([], cs, angles, mode);
  }

  /** The inner loop of `ApplyShades`: 1 less the shade of every survivor before neighbour `i`. */
  method ShadeWeight(list: seq<Neighbour>, i: nat, angles: Angles, mode: ShadeMode) returns (w: real)
    requires i < |list| && SortedByDistance(list) && list[..i] + list[i..] == list
    ensures w == NextWeight(list[..i], list[i..], angles, mode)
  {
    SortedWithoutNext(list[..i], list[i..]);
    w := 1.0;
    for j := 0 to i
      invariant w == 1.0 - ShadeSum(list[..j], list[i], angles, mode)
    {
      assert list[..j + 1][..j] == list[..j];
      w := w - ShadeOpacity(list[j], list[i], angles(list[j].index, list[i].index), mode);
    }
  }

  /**
   * `ApplyShades`: visits the list nearest first, rewriting each weight and
   * removing, in place, every neighbour left with no more than 0.01.
   */
  method ApplyShades(cs: seq<Neighbour>, angles: Angles, mode: ShadeMode) returns (list: seq<Neighbour>)
    requires SortedByDistance(cs)
    ensures list == Shade([], cs, angles, mode)
  {
    list := cs;
    var i := 0;
    assert list[..0] + list[0..] == cs;
    while i < |list|
      invariant i <= |list| && SortedByDistance(list)
      invariant Shade(list[..i], list[i..], angles, mode) == Shade([], cs, angles, mode)
      decreases |list| - i
    {
      assert list[..i] + list[i..] == list;
      var w := ShadeWeight(list, i, angles, mode);
      if w <= DropThreshold {
        DropStep(list, i, angles, mode);
        list := RemoveAt(list, i);
      } else {
        KeepStep(list, i, angles, mode);
        list := list[i := list[i].(weight := w)];
        i := i + 1;
      }
    }
    assert list[..i] + list[i..] == list;
  }

  /** Removing neighbour `i`, left with too little weight, is a step of `Shade`. */
  lemma DropStep(list: seq<Neighbour>, i: nat, angles: Angles, mode: ShadeMode)
    requires i < |list| && SortedByDistance(list)
    requires list[..i] + list[i..] == list
    requires NextWeight(list[..i], list[i..], angles, mode) <= DropThreshold
    ensures SortedByDistance(RemoveAt(list, i))
    ensures Shade(RemoveAt(list, i)[..i], RemoveAt(list, i)[i..], angles, mode) == Shade(list[..i], list[i..], angles, mode)
  {
    ShadeDropsNext(list[..i], list[i..], angles, mode);
    assert list[..i] + list[i..][1..] == RemoveAt(list, i);
    assert RemoveAt(list, i)[..i] == list[..i] && RemoveAt(list, i)[i..] == list[i..][1..];
  }

  /** Giving neighbour `i` its shade weight and moving past it is a step of `Shade`. */
  lemma KeepStep(list: seq<Neighbour>, i: nat, angles: Angles, mode: ShadeMode)
    requires i < |list| && SortedByDistance(list)
    requires list[..i] + list[i..] == list
    requires DropThreshold < NextWeight(list[..i], list[i..], angles, mode)
    ensures var next := list[i := list[i].(weight := NextWeight(list[..i], list[i..], angles, mode))];
      SortedByDistance(next)
      && Shade(next[..i + 1], next[i + 1..], angles, mode) == Shade(list[..i], list[i..], angles, mode)
  {
    var w := NextWeight(list[..i], list[i..], angles, mode);
    var next := list[i := list[i].(weight := w)];
    ShadeKeepsNext(list[..i], list[i..], angles, mode);
    assert list[..i] + [list[i].(weight := w)] + list[i..][1..] == next;
    assert next[..i + 1] == list[..i] + [list[i].(weight := w)] && next[i + 1..] == list[i..][1..];
  }

  // ---------------------------------------------------------------------
  // Weights of `GetShift`
  // ---------------------------------------------------------------------

  /** Each survivor's shade weight divided by its distance and by Σ 1/d over all neighbours. */
  function Rescaled(ns: seq<Neighbour>, s: real): (r: seq<Neighbour>)
    requires AllPositive(Distances(ns)) && 0.0 < s
    ensures |r| == |ns| && Placements(r) == Placements(ns)
  {
    var r := seq(|ns|, k requires 0 <= k < |ns| => ns[k].(weight := ns[k].weight / ns[k].distance / s));
    assert forall k :: 0 <= k < |ns| ==> Placements(r)[k] == Placements(ns)[k];
    r
  }

  /** The rewriting loop of `GetShift`: `weight = weight / distance / sum_of_reverse_distances`. */
  method RescaleWeights(ns: seq<Neighbour>, s: real) returns (r: seq<Neighbour>)
    requires AllPositive(Distances(ns)) && 0.0 < s
    ensures r == Rescaled(ns, s)
  {
    r := ns;
    for k := 0 to |ns|
      invariant |r| == |ns|
      invariant forall m :: 0 <= m < k ==> r[m] == Rescaled(ns, s)[m]
      invariant forall m :: k <= m < |ns| ==> r[m] == ns[m]
    {
      r := r[k := r[k].(weight := r[k].weight / r[k].distance / s)];
    }
  }

  /** Every survivor is one of the input neighbours, so its distance is positive. */
  lemma SurvivorsArePositive(cs: seq<Neighbour>, r: seq<Neighbour>)
    requires AllPositive(Distances(cs)) && IsSubsequence(Placements(r), Placements(cs))
    ensures AllPositive(Distances(r))
  {
    forall k | 0 <= k < |r|
      ensures 0.0 < Distances(r)[k]
    {
      SubsequenceElements(Placements(r), Placements(cs), k);
      var j :| 0 <= j < |cs| && Placements(cs)[j] == Placements(r)[k];
      assert Distances(cs)[j] == cs[j].distance;
    }
  }

  /** The weights `GetShift` hands to normalisation, for a sorted non-empty neighbour list. */
  function ShadedWeights(cs: seq<Neighbour>, angles: Angles, mode: ShadeMode): (r: seq<Neighbour>)
    requires AllPositive(Distances(cs)) && SortedByDistance(cs) && cs != []
    ensures IsSubsequence(Placements(r), Placements(cs))
  {
    ShadeProperties(cs, angles, mode);
    var shaded := Shade([], cs, angles, mode);
    SurvivorsArePositive(cs, shaded);
    Rescaled(shaded, ReverseDistanceSum(Distances(cs)))
  }

  /**
   * Shading only takes weight away: every survivor's weight before
   * normalisation is positive and at most its plain inverse-distance weight
   * (1/d) / Σ 1/d taken over all neighbours, dropped ones included.
   */
  lemma ShadedWeightsBounded(cs: seq<Neighbour>, angles: Angles, mode: ShadeMode, k: nat)
    requires AllPositive(Distances(cs)) && SortedByDistance(cs) && cs != []
    requires k < |ShadedWeights(cs, angles, mode)|
    ensures var r := ShadedWeights(cs, angles, mode);
      0.0 < r[k].distance && 0.0 < r[k].weight <= 1.0 / r[k].distance / ReverseDistanceSum(Distances(cs))
  {
    ShadeProperties(cs, angles, mode);
    var shaded := Shade([], cs, angles, mode);
    SurvivorsArePositive(cs, shaded);
    var s := ReverseDistanceSum(Distances(cs));
    var w, d := shaded[k].weight, shaded[k].distance;
    assert 0.0 < d && 0.0 < s;
    assert ShadedWeights(cs, angles, mode)[k].weight == w / d / s;
    WeightAtMostInverse(w, d, s);
  }

  lemma WeightAtMostInverse(w: real, d: real, s: real)
    requires 0.0 < w <= 1.0 && 0.0 < d && 0.0 < s
    ensures 0.0 < w / d / s <= 1.0 / d / s
  {
    assert w / d <= 1.0 / d;
  }

  class CalibrationManagerV1 {
    /** `shift_storage`. */
    const store: ShiftsStorage

    /** `new ShiftsStorage()`: the store starts from the corrections the loader hands it. */
    constructor (loaded: seq<ShiftItem>)
      requires HasScreenAxes(loaded)
      ensures fresh(store) && store.Valid() && store.shifts == loaded
    {
      store := new ShiftsStorage(loaded);
    }

    /**
     * The weight computation of `GetShift` up to the normalisation, which is
     * not part of this model: no neighbours means no correction; otherwise
     * Σ 1/d is taken over all neighbours, the list is shaded, and every
     * survivor's weight is divided by its distance and by that sum.
     */
    method GetShiftWeights(closest: Option<seq<Neighbour>>, angles: Angles, mode: ShadeMode)
      returns (weighted: Option<seq<Neighbour>>)
      requires closest.Some? ==> AllPositive(Distances(closest.value)) && SortedByDistance(closest.value)
      ensures closest.None? ==> weighted.None?
      ensures closest.Some? && closest.value == [] ==> weighted == Some([])
      ensures closest.Some? && closest.value != [] ==> weighted == Some(ShadedWeights(closest.value, angles, mode))
    {
      if closest.None? {
        return None;
      }
      var cs := closest.value;
      var sum := SumOfReverseDistances(cs);
      var shaded := ApplyShades(cs, angles, mode);
      if cs == [] {
        assert [] + cs == cs;
        return Some(shaded);
      }
      ShadeProperties(cs, angles, mode);
      SurvivorsArePositive(cs, shaded);
      var r := RescaleWeights(shaded, sum);
      return Some(r);
    }

    /** `AddShift`: hands the correction to the store. */
    method AddShift(position: Position, shift: Point, zoneSize: real, maxZones: int, dist: Metric)
      returns (ghost closest: Option<seq<Ranked>>)
      requires store.Valid() && 2 <= |position|
      requires store.shifts != [] || 0 < maxZones
      modifies store
      ensures store.Valid()
      ensures Recorded(old(store.shifts), store.shifts, ShiftItem(position, shift), zoneSize, maxZones, closest, dist)
    {
      closest := store.AddShift(position, shift, zoneSize, maxZones, dist);
    }

    /** `Reset`: empties the store. */
    method Reset()
      modifies store
      ensures store.Valid() && store.shifts == []
    {
      store.Reset();
    }
  }
}
