/**
 * Inverse-distance weighting shared by the correction store and both
 * calibration managers: a neighbour at distance d contributes
 * (1/d) / Σ_j (1/d_j), which is the share `sum_of_reverse_distances`
 * normalises to.
 */
module InverseDistance {
  import opened Numeric

  /**
   * `Helpers.CorrectionInfoRelatedToCursor`: the position of a correction in
   * the store, its distance from the cursor and a weight the managers rewrite.
   */
  datatype Neighbour = Neighbour(index: nat, distance: real, weight: real)

  ghost predicate AllPositive(ds: seq<real>)
  {
    forall k :: 0 <= k < |ds| ==> 0.0 < ds[k]
  }

  function Distances(ns: seq<Neighbour>): (ds: seq<real>)
    ensures |ds| == |ns| && forall k :: 0 <= k < |ns| ==> ds[k] == ns[k].distance
  {
    seq(|ns|, k requires 0 <= k < |ns| => ns[k].distance)
  }

  /** `sum_of_reverse_distances`: Σ 1/d over the neighbours. */
  function ReverseDistanceSum(ds: seq<real>): (s: real)
    requires AllPositive(ds)
    ensures 0.0 <= s
    ensures ds != [] ==> 0.0 < s
  {
    if ds == [] then 0.0 else 1.0 / ds[0] + ReverseDistanceSum(ds[1..])
  }

  /** Σ (1/d) / s: the weights the managers assign, summed. */
  function ScaledReverseSum(ds: seq<real>, s: real): real
    requires AllPositive(ds) && s != 0.0
  {
    if ds == [] then 0.0 else 1.0 / ds[0] / s + ScaledReverseSum(ds[1..], s)
  }

  /** The inverse-distance weight of neighbour `i`. */
  function InverseDistanceWeight(ds: seq<real>, i: nat): real
    requires AllPositive(ds) && i < |ds|
  {
    1.0 / ds[i] / ReverseDistanceSum(ds)
  }

  function TotalWeight(ns: seq<Neighbour>): real
  {
    if ns == [] then 0.0 else ns[0].weight + TotalWeight(ns[1..])
  }

  /** Dividing every term by `s` divides the sum by `s`. */
  lemma {:induction false} ScaledReverseSumIsQuotient(ds: seq<real>, s: real)
    requires AllPositive(ds) && s != 0.0
    ensures ScaledReverseSum(ds, s) == ReverseDistanceSum(ds) / s
  {
    if ds != [] {
      ScaledReverseSumIsQuotient(ds[1..], s);
      var a, b := 1.0 / ds[0], ReverseDistanceSum(ds[1..]);
      assert a / s + b / s == (a + b) / s;
    }
  }

  /** The inverse-distance weights of a non-empty neighbour set sum to 1. */
  lemma InverseDistanceWeightsSumToOne(ds: seq<real>)
    requires AllPositive(ds) && ds != []
    ensures ScaledReverseSum(ds, ReverseDistanceSum(ds)) == 1.0
  {
    ScaledReverseSumIsQuotient(ds, ReverseDistanceSum(ds));
  }

  /** One reverse distance never exceeds the sum of all of them. */
  lemma {:induction false} ReverseDistanceWithinSum(ds: seq<real>, i: nat)
    requires AllPositive(ds) && i < |ds|
    ensures 1.0 / ds[i] <= ReverseDistanceSum(ds)
  {
    if i > 0 {
      ReverseDistanceWithinSum(ds[1..], i - 1);
      assert 0.0 < 1.0 / ds[0];
    } else {
      assert 0.0 <= ReverseDistanceSum(ds[1..]);
    }
  }

  /** Every inverse-distance weight lies in (0, 1]. */
  lemma InverseDistanceWeightBounds(ds: seq<real>, i: nat)
    requires AllPositive(ds) && i < |ds|
    ensures 0.0 < InverseDistanceWeight(ds, i) <= 1.0
  {
    ReverseDistanceWithinSum(ds, i);
    var r, s := 1.0 / ds[i], ReverseDistanceSum(ds);
    QuotientAtMostOne(r, s);
    assert InverseDistanceWeight(ds, i) == r / s;
  }

  /** A positive part of a sum, divided by the sum, lies in (0, 1]. */
  lemma QuotientAtMostOne(r: real, s: real)
    requires 0.0 < r <= s
    ensures 0.0 < r / s <= 1.0
  {
    assert r / s * s == r;
  }

  /** A closer neighbour never gets a smaller weight. */
  lemma CloserWeighsMore(ds: seq<real>, i: nat, j: nat)
    requires AllPositive(ds) && i < |ds| && j < |ds|
    requires ds[i] <= ds[j]
    ensures InverseDistanceWeight(ds, j) <= InverseDistanceWeight(ds, i)
  {
    var s := ReverseDistanceSum(ds);
    assert 1.0 / ds[j] <= 1.0 / ds[i];
    assert 0.0 < s;
    assert (1.0 / ds[j]) / s <= (1.0 / ds[i]) / s;
  }

  /** A list whose weights are `(1/d_k) / s` has the total `ScaledReverseSum`. */
  lemma {:induction false} TotalOfScaledWeights(ns: seq<Neighbour>, s: real)
    requires AllPositive(Distances(ns)) && s != 0.0
    requires forall k :: 0 <= k < |ns| ==> ns[k].weight == 1.0 / ns[k].distance / s
    ensures TotalWeight(ns) == ScaledReverseSum(Distances(ns), s)
  {
    if ns != [] {
      TotalOfScaledWeights(ns[1..], s);
      assert Distances(ns)[1..] == Distances(ns[1..]);
    }
  }

  /** The first loop of both managers' `GetShift`: `sum_of_reverse_distances`. */
  method SumOfReverseDistances(ns: seq<Neighbour>) returns (sum: real)
    requires AllPositive(Distances(ns))
    ensures sum == ReverseDistanceSum(Distances(ns))
  {
    sum := 0.0;
    for k := 0 to |ns|
      invariant sum + ReverseDistanceSum(Distances(ns[k..])) == ReverseDistanceSum(Distances(ns))
    {
      assert Distances(ns[k..])[1..] == Distances(ns[k + 1..]);
      sum := sum + 1.0 / ns[k].distance;
    }
    assert ns[|ns|..] == [];
  }

  /** The diagnostic label of a weight: `(int)(weight * 100)` percent. */
  function LabelPercent(weight: real): (p: int)
    requires 0.0 <= weight <= 1.0
    ensures 0 <= p <= 100
    ensures p as real <= weight * 100.0 < p as real + 1.0
  {
    Trunc(weight * 100.0)
  }
}
