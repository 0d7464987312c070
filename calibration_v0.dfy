/**
 * `CalibrationManagerV0`: the correction at the cursor is the average of the
 * nearest stored corrections, each weighted by its inverse distance
 * normalised so that the weights sum to one.
 */
module CalibrationV0 {
  import opened Numeric
  import opened Results
  import opened Positions
  import opened InverseDistance
  import opened ShiftsStore

  /** The neighbours with the weights `GetShift` assigns: (1/d_k) / Σ_j (1/d_j). */
  function InverseDistanceWeighted(ns: seq<Neighbour>): (r: seq<Neighbour>)
    requires AllPositive(Distances(ns))
    ensures |r| == |ns|
  {
    var ds := Distances(ns);
    seq(|ns|, k requires 0 <= k < |ns| => ns[k].(weight := InverseDistanceWeight(ds, k)))
  }

  /** The weighted neighbours are the input ones, in the same order, with only their weights rewritten. */
  lemma WeightedKeepsNeighbours(ns: seq<Neighbour>)
    requires AllPositive(Distances(ns))
    ensures Distances(InverseDistanceWeighted(ns)) == Distances(ns)
    ensures forall k :: 0 <= k < |ns| ==> InverseDistanceWeighted(ns)[k].index == ns[k].index
  {
    assert forall k :: 0 <= k < |ns| ==> Distances(InverseDistanceWeighted(ns))[k] == Distances(ns)[k];
  }

  /** The weights of a non-empty neighbour set sum to one. */
  lemma WeightsSumToOne(ns: seq<Neighbour>)
    requires AllPositive(Distances(ns)) && ns != []
    ensures TotalWeight(InverseDistanceWeighted(ns)) == 1.0
  {
    var r := InverseDistanceWeighted(ns);
    var s := ReverseDistanceSum(Distances(ns));
    WeightedKeepsNeighbours(ns);
    TotalOfScaledWeights(r, s);
    InverseDistanceWeightsSumToOne(Distances(ns));
  }

  /** Every weight lies in (0, 1]. */
  lemma WeightsWithinUnit(ns: seq<Neighbour>, k: nat)
    requires AllPositive(Distances(ns)) && k < |ns|
    ensures 0.0 < InverseDistanceWeighted(ns)[k].weight <= 1.0
  {
    InverseDistanceWeightBounds(Distances(ns), k);
  }

  /** A closer neighbour never gets a smaller weight. */
  lemma CloserNeighbourWeighsMore(ns: seq<Neighbour>, i: nat, j: nat)
    requires AllPositive(Distances(ns)) && i < |ns| && j < |ns|
    requires ns[i].distance <= ns[j].distance
    ensures InverseDistanceWeighted(ns)[j].weight <= InverseDistanceWeighted(ns)[i].weight
  {
    CloserWeighsMore(Distances(ns), i, j);
  }

  /** The weighting loop: `correction.weight = 1 / correction.distance / sum_of_reverse_distances`. */
  method AssignWeights(ns: seq<Neighbour>, sum: real) returns (r: seq<Neighbour>)
    requires AllPositive(Distances(ns)) && sum == ReverseDistanceSum(Distances(ns))
    ensures r == InverseDistanceWeighted(ns)
  {
    r := ns;
    for k := 0 to |ns|
      invariant |r| == |ns|
      invariant forall m :: 0 <= m < k ==> r[m] == InverseDistanceWeighted(ns)[m]
      invariant forall m :: k <= m < |ns| ==> r[m] == ns[m]
    {
      r := r[k := r[k].(weight := 1.0 / r[k].distance / sum)];
    }
  }

  /** The diagnostic labels: each neighbour's weight as a whole percentage, with its store index. */
  function Labels(ns: seq<Neighbour>): (labels: seq<(int, nat)>)
    requires forall k :: 0 <= k < |ns| ==> 0.0 <= ns[k].weight <= 1.0
    ensures |labels| == |ns|
    ensures forall k :: 0 <= k < |ns| ==> 0 <= labels[k].0 <= 100 && labels[k].1 == ns[k].index
  {
    seq(|ns|, k requires 0 <= k < |ns| => (LabelPercent(ns[k].weight), ns[k].index))
  }

  /** Every label of the weighted neighbours is a percentage between 0 and 100. */
  lemma LabelsArePercentages(ns: seq<Neighbour>)
    requires AllPositive(Distances(ns))
    ensures forall k :: 0 <= k < |ns| ==> 0.0 <= InverseDistanceWeighted(ns)[k].weight <= 1.0
    ensures forall k :: 0 <= k < |ns| ==> 0 <= Labels(InverseDistanceWeighted(ns))[k].0 <= 100
  {
    forall k | 0 <= k < |ns|
      ensures 0.0 <= InverseDistanceWeighted(ns)[k].weight <= 1.0
    {
      WeightsWithinUnit(ns, k);
    }
  }

  class CalibrationManagerV0 {
    /** `shift_storage`. */
    const store: ShiftsStorage

    /** `new ShiftsStorage()`: the store starts from the corrections the loader hands it. */
    constructor (loaded: seq<ShiftItem>)
      requires HasScreenAxes(loaded)
      ensures fresh(store) && store.Valid() && store.shifts == loaded
    {
      store := new ShiftsStorage(loaded);
    }

    /**
     * The weight computation of `GetShift`: no neighbours (an empty store)
     * means no correction; otherwise the neighbours come back weighted.
     * The weighted average built from them is not part of this model.
     */
    method GetShiftWeights(closest: Option<seq<Neighbour>>) returns (weighted: Option<seq<Neighbour>>)
      requires closest.Some? ==> AllPositive(Distances(closest.value))
      ensures closest.None? ==> weighted.None?
      ensures closest.Some? ==> weighted == Some(InverseDistanceWeighted(closest.value))
    {
      if closest.None? {
        return None;
      }
      var sum := SumOfReverseDistances(closest.value);
      var r := AssignWeights(closest.value, sum);
      return Some(r);
    }

    /** `AddShift`: hands the correction to the store. */
    method AddShift(position: Position, shift: Point, zoneSize: real, maxZones: int, dist: Metric)
      returns (ghost closest: Option<seq<Ranked>>)
      requires store.Valid() && 2 <= |position|
      requires store.shifts != [] || 0 < maxZones
      modifies store
      ensures store.Valid()
      ensures Recorded(old(store.shifts), store.shifts, ShiftItem(position, shift), zoneSize, maxZones, closest, dist)
    {
      closest := store.AddShift(position, shift, zoneSize, maxZones, dist);
    }

    /** `Reset`: empties the store. */
    method Reset()
      modifies store
      ensures store.Valid() && store.shifts == []
    {
      store.Reset();
    }
  }
}
