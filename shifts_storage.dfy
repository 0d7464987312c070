/**
 * `ShiftsStorage`: the store of learned corrections. Every entry pairs a gaze
 * position with the pixel shift the user applied there; the store answers
 * "which entries are closest to this position", blends their shifts by
 * inverse distance, records new corrections (merging, appending or evicting
 * from the densest screen sector) and reconciles itself with changed
 * settings.
 *
 * The distance between two positions (`ShiftPosition.GetDistance`, a square
 * root of `Positions.WeightedSquaredSum`) is a parameter `dist`; the options
 * the source reads (`zone_size`, `max_zones_count`,
 * `considered_zones_count`) are parameters too.
 */
module ShiftsStore {
  import opened Numeric
  import opened Sequences
  import opened Results
  import opened Positions
  import opened InverseDistance

  /** `ShiftItem`: a correction learned at a position. */
  datatype ShiftItem = ShiftItem(position: Position, shift: Point)

  /** One entry of the neighbour list: `Tuple<int index, double distance>`. */
  datatype Ranked = Ranked(index: nat, distance: real)

  /** `ShiftPosition.GetDistance`, supplied by the caller. */
  type Metric = (Position, Position) -> real

  /** Distances below this are raised to it before they are ranked or inverted. */
  const MinDistance: real := 0.1

  function Floored(d: real): (r: real)
    ensures MinDistance <= r
    ensures d < MinDistance ==> r == MinDistance
    ensures MinDistance <= d ==> r == d
  {
    if d < MinDistance then MinDistance else d
  }

  /** The (floored) distance of entry `i` from the query position. */
  function DistanceTo(items: seq<ShiftItem>, i: nat, q: Position, dist: Metric): real
    requires i < |items|
  {
    Floored(dist(items[i].position, q))
  }

  /** Every entry has screen X and Y. */
  ghost predicate HasScreenAxes(items: seq<ShiftItem>)
  {
    forall k :: 0 <= k < |items| ==> 2 <= |items[k].position|
  }

  // ---------------------------------------------------------------------
  // Closest entries
  // ---------------------------------------------------------------------

  /** `a` is ranked before `b`: nearer, or as near and recorded earlier. */
  predicate Precedes(a: Ranked, b: Ranked)
  {
    a.distance < b.distance || (a.distance == b.distance && a.index < b.index)
  }

  /** Every entry of `r` names one of the first `bound` items with its true floored distance. */
  ghost predicate Measured(items: seq<ShiftItem>, q: Position, dist: Metric, r: seq<Ranked>, bound: nat)
    requires bound <= |items|
  {
    forall k :: 0 <= k < |r| ==> r[k].index < bound && r[k].distance == DistanceTo(items, r[k].index, q, dist)
  }

  /** `r` is strictly ordered by `Precedes` (so no item appears twice). */
  ghost predicate StrictlyRanked(r: seq<Ranked>)
  {
    forall k1, k2 :: 0 <= k1 < k2 < |r| ==> Precedes(r[k1], r[k2])
  }

  ghost predicate Picks(r: seq<Ranked>, j: nat)
  {
    exists k :: 0 <= k < |r| && r[k].index == j
  }

  /** Every one of the first `bound` items that `r` leaves out ranks after all of `r`. */
  ghost predicate OthersRankAfter(items: seq<ShiftItem>, q: Position, dist: Metric, r: seq<Ranked>, bound: nat)
    requires bound <= |items|
  {
    forall j :: 0 <= j < bound && !Picks(r, j) ==>
      forall k :: 0 <= k < |r| ==> Precedes(r[k], Ranked(j, DistanceTo(items, j, q, dist)))
  }

  /**
   * `r` lists the `number` items nearest to `q` (at least one, at most all),
   * nearest first, ties going to the earlier-recorded item.
   */
  ghost predicate IsClosest(items: seq<ShiftItem>, q: Position, number: int, dist: Metric, r: seq<Ranked>)
  {
    && |r| == Min(Max(number, 1), |items|)
    && Measured(items, q, dist, r, |items|)
    && StrictlyRanked(r)
    && OthersRankAfter(items, q, dist, r, |items|)
  }

  /** The first entry of a closest list is at least as near as every item. */
  lemma ClosestComesFirst(items: seq<ShiftItem>, q: Position, number: int, dist: Metric, r: seq<Ranked>, j: nat)
    requires IsClosest(items, q, number, dist, r) && j < |items|
    ensures r[0].distance <= DistanceTo(items, j, q, dist)
  {
    if !Picks(r, j) {
      assert Precedes(r[0], Ranked(j, DistanceTo(items, j, q, dist)));
    } else {
      var k :| 0 <= k < |r| && r[k].index == j;
      if k > 0 {
        assert Precedes(r[0], r[k]);
      }
    }
  }

  /** Inserting `x` at `j` keeps a ranked list ranked when `x` fits there. */
  lemma InsertKeepsRanked(r: seq<Ranked>, x: Ranked, j: nat)
    requires StrictlyRanked(r) && j <= |r|
    requires forall k :: 0 <= k < |r| ==> r[k].index < x.index
    requires forall k :: 0 <= k < j ==> r[k].distance <= x.distance
    requires j < |r| ==> x.distance < r[j].distance
    ensures StrictlyRanked(r[..j] + [x] + r[j..])
  {
    var s := r[..j] + [x] + r[j..];
    forall k1, k2 | 0 <= k1 < k2 < |s|
      ensures Precedes(s[k1], s[k2])
    {
      if k2 < j {
        assert s[k1] == r[k1] && s[k2] == r[k2];
      } else if k2 == j {
        assert s[k1] == r[k1];
      } else if k1 == j {
        assert s[k2] == r[k2 - 1];
        assert Precedes(r[j], r[k2 - 1]) || j == k2 - 1;
      } else if k1 < j {
        assert s[k1] == r[k1] && s[k2] == r[k2 - 1];
      } else {
        assert s[k1] == r[k1 - 1] && s[k2] == r[k2 - 1];
      }
    }
  }

  /** Where the entries of `r0` and the new `x` sit after inserting `x` at `j`. */
  lemma InsertedLayout(r0: seq<Ranked>, x: Ranked, j: nat, r1: seq<Ranked>)
    requires j <= |r0| && r1 == r0[..j] + [x] + r0[j..]
    ensures |r1| == |r0| + 1 && r1[j] == x
    ensures forall k :: 0 <= k < j ==> r1[k] == r0[k]
    ensures forall k :: j < k < |r1| ==> r1[k] == r0[k - 1]
  {
  }

  /** Whatever `r0` picks, `r1` still picks, and it picks `x.index` too. */
  lemma InsertedPicks(r0: seq<Ranked>, x: Ranked, j: nat, r1: seq<Ranked>, bound: nat)
    requires j <= |r0| && r1 == r0[..j] + [x] + r0[j..]
    ensures Picks(r1, x.index)
    ensures forall j' :: 0 <= j' < bound && Picks(r0, j') ==> Picks(r1, j')
  {
    InsertedLayout(r0, x, j, r1);
    forall j' | 0 <= j' < bound && Picks(r0, j')
      ensures Picks(r1, j')
    {
      var k :| 0 <= k < |r0| && r0[k].index == j';
      if k < j { assert r1[k] == r0[k]; } else { assert r1[k + 1] == r0[k]; }
    }
  }

  /** An index picked by `r + [z]` is picked by `r` or is `z`'s. */
  lemma PicksAppended(r: seq<Ranked>, z: Ranked, j: nat)
    requires Picks(r + [z], j)
    ensures Picks(r, j) || z.index == j
  {
    var k :| 0 <= k < |r + [z]| && (r + [z])[k].index == j;
    if k < |r| {
      assert r[k] == (r + [z])[k];
    }
  }

  /**
   * One step of the selection: the list `r0` over the first `i` items, with
   * item `i` inserted in order and the tail cut back to `number`, is the
   * list over the first `i + 1` items.
   */
  lemma SelectionStep(items: seq<ShiftItem>, q: Position, number: int, dist: Metric,
                      r0: seq<Ranked>, i: nat, j: nat, r1: seq<Ranked>, r2: seq<Ranked>)
    requires 1 <= i < |items| && j <= |r0|
    requires |r0| == Min(Max(number, 1), i)
    requires Measured(items, q, dist, r0, i) && StrictlyRanked(r0)
    requires OthersRankAfter(items, q, dist, r0, i)
    requires |r0| < Max(number, 1) ==> forall j' :: 0 <= j' < i ==> Picks(r0, j')
    requires forall k :: 0 <= k < j ==> r0[k].distance <= DistanceTo(items, i, q, dist)
    requires j < |r0| ==> DistanceTo(items, i, q, dist) < r0[j].distance
    requires r1 == r0[..j] + [Ranked(i, DistanceTo(items, i, q, dist))] + r0[j..]
    requires r2 == if |r1| > number then r1[..|r1| - 1] else r1
    ensures |r2| == Min(Max(number, 1), i + 1)
    ensures Measured(items, q, dist, r2, i + 1) && StrictlyRanked(r2)
    ensures OthersRankAfter(items, q, dist, r2, i + 1)
    ensures |r2| < Max(number, 1) ==> forall j' :: 0 <= j' < i + 1 ==> Picks(r2, j')
  {
    var x := Ranked(i, DistanceTo(items, i, q, dist));
    InsertKeepsRanked(r0, x, j);
    InsertedLayout(r0, x, j, r1);
    InsertedPicks(r0, x, j, r1, i);
    assert Measured(items, q, dist, r1, i + 1);
    if |r1| > number {
      TruncatedStep(items, q, dist, r0, x, j, r1, r2, i);
    } else {
      assert r2 == r1;
      forall j' | 0 <= j' < i + 1 ensures Picks(r2, j') {
        if j' < i {
          assert Picks(r0, j');
        }
      }
    }
  }

  /** The case of `SelectionStep` where the last entry is cut off. */
  lemma TruncatedStep(items: seq<ShiftItem>, q: Position, dist: Metric,
                      r0: seq<Ranked>, x: Ranked, j: nat, r1: seq<Ranked>, r2: seq<Ranked>, i: nat)
    requires i < |items| && j <= |r0| && x == Ranked(i, DistanceTo(items, i, q, dist))
    requires Measured(items, q, dist, r0, i) && OthersRankAfter(items, q, dist, r0, i)
    requires r1 == r0[..j] + [x] + r0[j..] && StrictlyRanked(r1) && Measured(items, q, dist, r1, i + 1)
    requires forall j' :: 0 <= j' < i && Picks(r0, j') ==> Picks(r1, j')
    requires r2 == r1[..|r1| - 1]
    ensures Measured(items, q, dist, r2, i + 1) && StrictlyRanked(r2)
    ensures OthersRankAfter(items, q, dist, r2, i + 1)
  {
    forall j' | 0 <= j' < i + 1 && !Picks(r2, j')
      ensures forall k :: 0 <= k < |r2| ==> Precedes(r2[k], Ranked(j', DistanceTo(items, j', q, dist)))
    {
      if Picks(r1, j') {
        CutWasLast(items, q, dist, r1, r2, i + 1, j');
      } else {
        LeftOutBefore(items, q, dist, r0, x, j, r1, r2, i, j');
      }
    }
  }

  /** An item the cut list no longer picks but the full one did was the cut-off last entry. */
  lemma CutWasLast(items: seq<ShiftItem>, q: Position, dist: Metric, r1: seq<Ranked>, r2: seq<Ranked>, bound: nat, j': nat)
    requires bound <= |items| && r1 != [] && r2 == r1[..|r1| - 1]
    requires Measured(items, q, dist, r1, bound) && StrictlyRanked(r1)
    requires Picks(r1, j') && !Picks(r2, j')
    ensures forall k :: 0 <= k < |r2| ==> Precedes(r2[k], Ranked(j', DistanceTo(items, j', q, dist)))
  {
    var last := |r1| - 1;
    assert r1 == r2 + [r1[last]];
    PicksAppended(r2, r1[last], j');
    forall k | 0 <= k < |r2| ensures Precedes(r2[k], r1[last]) {
      assert r2[k] == r1[k];
    }
  }

  /** An item neither list picks ranked after all of `r0`, so after all of the cut list. */
  lemma LeftOutBefore(items: seq<ShiftItem>, q: Position, dist: Metric,
                      r0: seq<Ranked>, x: Ranked, j: nat, r1: seq<Ranked>, r2: seq<Ranked>, i: nat, j': nat)
    requires i < |items| && j <= |r0| && x == Ranked(i, DistanceTo(items, i, q, dist))
    requires OthersRankAfter(items, q, dist, r0, i)
    requires r1 == r0[..j] + [x] + r0[j..] && StrictlyRanked(r1)
    requires r2 == r1[..|r1| - 1]
    requires j' < i + 1 && !Picks(r1, j')
    ensures forall k :: 0 <= k < |r2| ==> Precedes(r2[k], Ranked(j', DistanceTo(items, j', q, dist)))
  {
    InsertedLayout(r0, x, j, r1);
    InsertedPicks(r0, x, j, r1, i);
    var y := Ranked(j', DistanceTo(items, j', q, dist));
    var last := |r1| - 1;
    assert j' != i;
    assert !Picks(r0, j');
    forall k | 0 <= k < |r2| ensures Precedes(r2[k], y) {
      assert r2[k] == r1[k];
      if k == j {
        assert Precedes(r1[k], r1[last]);
        assert Precedes(r0[last - 1], y);
      }
    }
  }

  // ---------------------------------------------------------------------
  // Densest sector
  // ---------------------------------------------------------------------

  /** The largest `SectorX` over the items, and 0 when all are negative or none exist. */
  function MaxSectorX(items: seq<ShiftItem>): (m: int)
    requires HasScreenAxes(items)
    ensures 0 <= m
    ensures forall k :: 0 <= k < |items| ==> SectorX(items[k].position) <= m
    ensures m == 0 || exists k :: 0 <= k < |items| && SectorX(items[k].position) == m
  {
    if items == [] then 0
    else Max(MaxSectorX(items[..|items| - 1]), SectorX(items[|items| - 1].position))
  }

  /** `GetSectorNumber`: the sectors numbered row by row, `maxSectorX + 1` to a row. */
  function SectorNumber(item: ShiftItem, maxSectorX: int): int
    requires 2 <= |item.position|
  {
    SectorX(item.position) + SectorY(item.position) * (maxSectorX + 1)
  }

  /** Two sectors in the numbered rectangle share a number only if they are the same sector. */
  lemma SectorNumberInjective(a: ShiftItem, b: ShiftItem, maxSectorX: int)
    requires 2 <= |a.position| && 2 <= |b.position|
    requires 0.0 <= a.position[0] && 0.0 <= b.position[0]
    requires SectorX(a.position) <= maxSectorX && SectorX(b.position) <= maxSectorX
    requires SectorNumber(a, maxSectorX) == SectorNumber(b, maxSectorX)
    ensures SectorX(a.position) == SectorX(b.position) && SectorY(a.position) == SectorY(b.position)
  {
    RowNumberingInjective(SectorX(a.position), SectorY(a.position), SectorX(b.position), SectorY(b.position), maxSectorX + 1);
  }

  lemma RowNumberingInjective(x1: int, y1: int, x2: int, y2: int, width: int)
    requires 0 <= x1 < width && 0 <= x2 < width
    requires x1 + y1 * width == x2 + y2 * width
    ensures x1 == x2 && y1 == y2
  {
    if y1 != y2 {
      var lo, hi := if y1 < y2 then y1 else y2, if y1 < y2 then y2 else y1;
      RowsApart(lo, hi, width);
    }
  }

  /** Numbers in a later row are at least a full row beyond those of an earlier one. */
  lemma RowsApart(lo: int, hi: int, width: int)
    requires lo < hi && 0 <= width
    ensures lo * width + width <= hi * width
  {
    var d := hi - lo;
    assert hi * width == lo * width + d * width;
    assert d * width == width + (d - 1) * width;
    assert 0 <= (d - 1) * width;
  }

  function SectorNumbers(items: seq<ShiftItem>, maxSectorX: int): (ns: seq<int>)
    requires HasScreenAxes(items)
    ensures |ns| == |items|
    ensures forall k :: 0 <= k < |items| ==> ns[k] == SectorNumber(items[k], maxSectorX)
  {
    seq(|items|, k requires 0 <= k < |items| => SectorNumber(items[k], maxSectorX))
  }

  /** How many times `v` occurs in `s`. */
  function Occurrences(s: seq<int>, v: int): nat
  {
    if s == [] then 0 else Occurrences(s[..|s| - 1], v) + (if s[|s| - 1] == v then 1 else 0)
  }

  lemma {:induction false} OccurrencesOfMember(s: seq<int>, v: int)
    requires v in s
    ensures 1 <= Occurrences(s, v)
  {
    if s[|s| - 1] != v {
      assert s == s[..|s| - 1] + [s[|s| - 1]];
      OccurrencesOfMember(s[..|s| - 1], v);
    }
  }

  /** The number of items that share the sector of item `i`. */
  ghost function Density(items: seq<ShiftItem>, i: nat): nat
    requires HasScreenAxes(items) && i < |items|
  {
    var ns := SectorNumbers(items, MaxSectorX(items));
    Occurrences(ns, ns[i])
  }

  /**
   * `e` is the replacement target of a full store: its sector holds the most
   * items, and among the items of such sectors it is the nearest to `q`, the
   * earliest-recorded one on a tie.
   */
  ghost predicate IsDensestClosest(items: seq<ShiftItem>, q: Position, dist: Metric, e: nat)
    requires HasScreenAxes(items)
  {
    && e < |items|
    && (forall j :: 0 <= j < |items| ==> Density(items, j) <= Density(items, e))
    && (forall j :: 0 <= j < |items| && Density(items, j) == Density(items, e) ==>
          dist(items[e].position, q) <= dist(items[j].position, q))
    && (forall j :: 0 <= j < e && Density(items, j) == Density(items, e) ==>
          dist(items[e].position, q) < dist(items[j].position, q))
  }

  // ---------------------------------------------------------------------
  // Recording a correction
  // ---------------------------------------------------------------------

  /**
   * The store after `AddShift(item)`, given the two nearest entries
   * `closest` the source looks up first: when the nearest lies inside the
   * zone it is overwritten (and the second nearest, if also inside, removed);
   * otherwise the item is appended while the store has room, and replaces
   * the nearest item of the densest sector when it does not.
   */
  ghost predicate Recorded(before: seq<ShiftItem>, after: seq<ShiftItem>, item: ShiftItem,
                           zoneSize: real, maxZones: int, closest: Option<seq<Ranked>>, dist: Metric)
  {
    && (closest.None? <==> before == [])
    && (closest.Some? ==> IsClosest(before, item.position, 2, dist, closest.value))
    && if closest.Some? && closest.value[0].distance < zoneSize then
         var c := closest.value;
         var merged := before[c[0].index := item];
         after == if |c| > 1 && c[1].distance < zoneSize then RemoveAt(merged, c[1].index) else merged
       else if |before| < maxZones then
         after == before + [item]
       else
         HasScreenAxes(before) && exists e: nat :: IsDensestClosest(before, item.position, dist, e) && after == before[e := item]
  }

  /** Recording never grows a store that was at or below capacity past it. */
  lemma RecordedWithinCapacity(before: seq<ShiftItem>, after: seq<ShiftItem>, item: ShiftItem,
                               zoneSize: real, maxZones: int, closest: Option<seq<Ranked>>, dist: Metric)
    requires Recorded(before, after, item, zoneSize, maxZones, closest, dist)
    requires |before| <= maxZones
    ensures |after| <= maxZones
    ensures item in after
  {
    if closest.Some? && closest.value[0].distance < zoneSize {
      var c := closest.value;
      var merged := before[c[0].index := item];
      if |c| > 1 && c[1].distance < zoneSize {
        assert c[1].index != c[0].index by { assert Precedes(c[0], c[1]); }
        var k := c[0].index;
        if k < c[1].index {
          assert after[k] == item;
        } else {
          assert after[k - 1] == item;
        }
      } else {
        assert after[c[0].index] == item;
      }
    } else if |before| < maxZones {
      assert after[|before|] == item;
    } else {
      var e: nat :| IsDensestClosest(before, item.position, dist, e) && after == before[e := item];
      assert after[e] == item;
    }
  }

  /**
   * A correction recorded within the zone of an existing one replaces it
   * instead of adding an entry: the store does not grow.
   */
  lemma RecordedInsideZoneDoesNotGrow(before: seq<ShiftItem>, after: seq<ShiftItem>, item: ShiftItem,
                                      zoneSize: real, maxZones: int, closest: Option<seq<Ranked>>, dist: Metric, j: nat)
    requires Recorded(before, after, item, zoneSize, maxZones, closest, dist)
    requires j < |before| && DistanceTo(before, j, item.position, dist) < zoneSize
    ensures |after| <= |before|
    ensures closest.Some? && closest.value[0].distance < zoneSize
  {
    ClosestComesFirst(before, item.position, 2, dist, closest.value, j);
  }

  // ---------------------------------------------------------------------
  // Reconciling with new settings
  // ---------------------------------------------------------------------

  /** Some later item lies within the zone of the first (measured from the later one). */
  ghost predicate CloseToLater(s: seq<ShiftItem>, zoneSize: real, dist: Metric)
    requires s != []
  {
    exists j :: 0 < j < |s| && dist(s[j].position, s[0].position) < zoneSize
  }

  /** The first pass of `OnSettingsChanged`: of every close pair the earlier item goes. */
  ghost function WithoutClosePairs(s: seq<ShiftItem>, zoneSize: real, dist: Metric): seq<ShiftItem>
    decreases |s|
  {
    if s == [] then []
    else if CloseToLater(s, zoneSize, dist) then WithoutClosePairs(s[1..], zoneSize, dist)
    else [s[0]] + WithoutClosePairs(s[1..], zoneSize, dist)
  }

  /** The second pass: only the `maxZones` most recently recorded items stay. */
  function KeepNewest(s: seq<ShiftItem>, maxZones: int): (r: seq<ShiftItem>)
    requires 0 <= maxZones
    ensures |r| == Min(|s|, maxZones)
    ensures r == s[|s| - |r|..]
  {
    if |s| > maxZones then s[|s| - maxZones..] else s
  }

  /** Entries kept from a store of two-dimensional entries are two-dimensional. */
  lemma SubsequenceKeepsScreenAxes(a: seq<ShiftItem>, b: seq<ShiftItem>)
    requires IsSubsequence(a, b) && HasScreenAxes(b)
    ensures HasScreenAxes(a)
  {
    forall k | 0 <= k < |a|
      ensures 2 <= |a[k].position|
    {
      SubsequenceElements(a, b, k);
    }
  }

  /** The store `OnSettingsChanged` leaves. */
  ghost function Reconciled(s: seq<ShiftItem>, zoneSize: real, maxZones: int, dist: Metric): seq<ShiftItem>
    requires 0 <= maxZones
  {
    KeepNewest(WithoutClosePairs(s, zoneSize, dist), maxZones)
  }

  /** No item lies within the zone of an earlier one. */
  ghost predicate PairwiseSeparated(s: seq<ShiftItem>, zoneSize: real, dist: Metric)
  {
    forall a, b :: 0 <= a < b < |s| ==> zoneSize <= dist(s[b].position, s[a].position)
  }

  lemma {:induction false} WithoutClosePairsIsSubsequence(s: seq<ShiftItem>, zoneSize: real, dist: Metric)
    ensures IsSubsequence(WithoutClosePairs(s, zoneSize, dist), s)
    decreases |s|
  {
    if s != [] {
      WithoutClosePairsIsSubsequence(s[1..], zoneSize, dist);
      var rest := WithoutClosePairs(s[1..], zoneSize, dist);
      if !CloseToLater(s, zoneSize, dist) {
        assert ([s[0]] + rest)[1..] == rest;
      } else if rest != [] {
        SubsequenceIsShorter(rest, s[1..]);
      }
    }
  }

  lemma {:induction false} WithoutClosePairsSeparated(s: seq<ShiftItem>, zoneSize: real, dist: Metric)
    ensures PairwiseSeparated(WithoutClosePairs(s, zoneSize, dist), zoneSize, dist)
    decreases |s|
  {
    if s != [] {
      WithoutClosePairsSeparated(s[1..], zoneSize, dist);
      var rest := WithoutClosePairs(s[1..], zoneSize, dist);
      if !CloseToLater(s, zoneSize, dist) {
        var r := [s[0]] + rest;
        WithoutClosePairsIsSubsequence(s[1..], zoneSize, dist);
        forall a, b | 0 <= a < b < |r|
          ensures zoneSize <= dist(r[b].position, r[a].position)
        {
          if a == 0 {
            SubsequenceElements(rest, s[1..], b - 1);
            var j :| 0 <= j < |s[1..]| && s[1..][j] == rest[b - 1];
            assert s[j + 1] == r[b];
          } else {
            assert r[a] == rest[a - 1] && r[b] == rest[b - 1];
          }
        }
      }
    }
  }

  /** A store with no close pair passes the first pass unchanged. */
  lemma {:induction false} SeparatedHasNoClosePairs(s: seq<ShiftItem>, zoneSize: real, dist: Metric)
    requires PairwiseSeparated(s, zoneSize, dist)
    ensures WithoutClosePairs(s, zoneSize, dist) == s
    decreases |s|
  {
    if s != [] {
      assert PairwiseSeparated(s[1..], zoneSize, dist) by {
        forall a, b | 0 <= a < b < |s[1..]|
          ensures zoneSize <= dist(s[1..][b].position, s[1..][a].position)
        {
          assert s[1..][a] == s[a + 1] && s[1..][b] == s[b + 1];
        }
      }
      SeparatedHasNoClosePairs(s[1..], zoneSize, dist);
      assert !CloseToLater(s, zoneSize, dist);
      assert s == [s[0]] + s[1..];
    }
  }

  /** Dropping a prefix keeps a store separated. */
  lemma SuffixSeparated(s: seq<ShiftItem>, d: nat, zoneSize: real, dist: Metric)
    requires d <= |s| && PairwiseSeparated(s, zoneSize, dist)
    ensures PairwiseSeparated(s[d..], zoneSize, dist)
  {
    forall a, b | 0 <= a < b < |s| - d
      ensures zoneSize <= dist(s[d..][b].position, s[d..][a].position)
    {
      assert s[d..][a] == s[a + d];
      assert s[d..][b] == s[b + d];
    }
  }

  /**
   * After reconciling, the store holds at most `maxZones` entries, no two of
   * them within a zone of each other, all taken in order from the old store.
   */
  lemma ReconciledProperties(s: seq<ShiftItem>, zoneSize: real, maxZones: int, dist: Metric)
    requires 0 <= maxZones
    ensures |Reconciled(s, zoneSize, maxZones, dist)| <= maxZones
    ensures PairwiseSeparated(Reconciled(s, zoneSize, maxZones, dist), zoneSize, dist)
    ensures IsSubsequence(Reconciled(s, zoneSize, maxZones, dist), s)
  {
    var w := WithoutClosePairs(s, zoneSize, dist);
    var k := KeepNewest(w, maxZones);
    var d := |w| - |k|;
    assert k == w[d..];
    WithoutClosePairsSeparated(s, zoneSize, dist);
    SuffixSeparated(w, d, zoneSize, dist);
    WithoutClosePairsIsSubsequence(s, zoneSize, dist);
    SuffixIsSubsequence(w, d);
    SubsequenceTransitive(k, w, s);
  }

  /** Reconciling twice with the same settings changes nothing more. */
  lemma ReconciledIdempotent(s: seq<ShiftItem>, zoneSize: real, maxZones: int, dist: Metric)
    requires 0 <= maxZones
    ensures Reconciled(Reconciled(s, zoneSize, maxZones, dist), zoneSize, maxZones, dist)
         == Reconciled(s, zoneSize, maxZones, dist)
  {
    var r := Reconciled(s, zoneSize, maxZones, dist);
    ReconciledProperties(s, zoneSize, maxZones, dist);
    SeparatedHasNoClosePairs(r, zoneSize, dist);
  }

  // ---------------------------------------------------------------------
  // Blending
  // ---------------------------------------------------------------------

  function RankedDistances(c: seq<Ranked>): (ds: seq<real>)
    ensures |ds| == |c| && forall k :: 0 <= k < |c| ==> ds[k] == c[k].distance
  {
    seq(|c|, k requires 0 <= k < |c| => c[k].distance)
  }

  ghost predicate ValidNeighbours(items: seq<ShiftItem>, c: seq<Ranked>)
  {
    forall k :: 0 <= k < |c| ==> c[k].index < |items| && 0.0 < c[k].distance
  }

  function ShiftAxis(p: Point, onX: bool): int
  {
    if onX then p.x else p.y
  }

  /** Σ (int)(shift / d / s) over the neighbours, on one axis. */
  function BlendAxis(items: seq<ShiftItem>, c: seq<Ranked>, s: real, onX: bool): int
    requires ValidNeighbours(items, c) && 0.0 < s
  {
    if c == [] then 0
    else Trunc(ShiftAxis(items[c[0].index].shift, onX) as real / c[0].distance / s)
         + BlendAxis(items, c[1..], s, onX)
  }

  /** The shift `GetShift` returns for the neighbours `c`. */
  function Blend(items: seq<ShiftItem>, c: seq<Ranked>): Point
    requires ValidNeighbours(items, c) && c != []
  {
    var s := ReverseDistanceSum(RankedDistances(c));
    Point(BlendAxis(items, c, s, true), BlendAxis(items, c, s, false))
  }

  /** `m * x`, kept behind a function so that bounds can be rewritten without nonlinear arithmetic. */
  function Times(m: real, x: real): real
  {
    m * x
  }

  /** One term of the blend: a truncated weighted shift added to a bounded rest stays bounded. */
  lemma BlendTermBound(v: real, d: real, s: real, m: real, rest: int, t: real)
    requires Abs(v) <= m && 0.0 < d && 0.0 < s && Abs(rest as real) <= Times(m, t)
    ensures Abs((Trunc(v / d / s) + rest) as real) <= Times(m, 1.0 / d / s + t)
  {
    var w := 1.0 / d / s;
    QuotientAsProduct(v, d, s);
    ScaledWithin(v, w, m);
    TruncTowardZero(v / d / s);
    var a := Trunc(v / d / s);
    assert Abs((a + rest) as real) <= Abs(a as real) + Abs(rest as real);
    DistributeTimes(m, w, t);
  }

  lemma QuotientAsProduct(v: real, d: real, s: real)
    requires 0.0 < d && 0.0 < s
    ensures 0.0 < 1.0 / d / s && v / d / s == v * (1.0 / d / s)
  {
  }

  lemma ScaledWithin(v: real, w: real, m: real)
    requires Abs(v) <= m && 0.0 < w
    ensures Abs(v * w) <= Times(m, w)
  {
    assert Abs(v * w) == Abs(v) * w;
  }

  lemma DistributeTimes(m: real, w: real, t: real)
    ensures Times(m, w) + Times(m, t) == Times(m, w + t)
  {
  }

  /** No blended axis exceeds, in magnitude, `m` times the summed weights, for `m` bounding the shifts. */
  lemma {:induction false} BlendAxisBound(items: seq<ShiftItem>, c: seq<Ranked>, s: real, onX: bool, m: real)
    requires ValidNeighbours(items, c) && 0.0 < s
    requires forall k :: 0 <= k < |c| ==> Abs(ShiftAxis(items[c[k].index].shift, onX) as real) <= m
    ensures Abs(BlendAxis(items, c, s, onX) as real) <= Times(m, ScaledReverseSum(RankedDistances(c), s))
  {
    if c != [] {
      assert RankedDistances(c)[1..] == RankedDistances(c[1..]);
      BlendAxisBound(items, c[1..], s, onX, m);
      BlendTermBound(ShiftAxis(items[c[0].index].shift, onX) as real, c[0].distance, s, m,
                     BlendAxis(items, c[1..], s, onX), ScaledReverseSum(RankedDistances(c[1..]), s));
    }
  }

  /**
   * The blended correction never exceeds, on either axis, the largest
   * magnitude among the neighbours' shifts: it is a weighted average whose
   * weights sum to one, each term truncated toward zero.
   */
  lemma BlendWithinShifts(items: seq<ShiftItem>, c: seq<Ranked>, mx: real, my: real)
    requires ValidNeighbours(items, c) && c != []
    requires forall k :: 0 <= k < |c| ==> Abs(items[c[k].index].shift.x as real) <= mx
    requires forall k :: 0 <= k < |c| ==> Abs(items[c[k].index].shift.y as real) <= my
    ensures Abs(Blend(items, c).x as real) <= mx
    ensures Abs(Blend(items, c).y as real) <= my
  {
    var ds := RankedDistances(c);
    var s := ReverseDistanceSum(ds);
    InverseDistanceWeightsSumToOne(ds);
    BlendAxisBound(items, c, s, true, mx);
    BlendAxisBound(items, c, s, false, my);
  }

  // ---------------------------------------------------------------------
  // Loop steps of the store's methods
  // ---------------------------------------------------------------------

  /** The inner loop of the first pass of `OnSettingsChanged`: the first later item within the zone of item `i`. */
  method FindCloseLater(s: seq<ShiftItem>, i: nat, zoneSize: real, dist: Metric) returns (found: bool, j: nat)
    requires i < |s|
    ensures found ==> i < j < |s| && dist(s[j].position, s[i].position) < zoneSize
    ensures !found ==> forall k :: i < k < |s| ==> zoneSize <= dist(s[k].position, s[i].position)
  {
    found := false;
    j := i + 1;
    while j < |s|
      invariant i + 1 <= j <= |s|
      invariant forall k :: i < k < j ==> zoneSize <= dist(s[k].position, s[i].position)
    {
      if dist(s[j].position, s[i].position) < zoneSize {
        found := true;
        return;
      }
      j := j + 1;
    }
  }

  /** Removing item `i`, which has a later item within its zone, is a step of the first reconciling pass. */
  lemma DropStep(s: seq<ShiftItem>, i: nat, j: nat, zoneSize: real, dist: Metric)
    requires i < j < |s| && dist(s[j].position, s[i].position) < zoneSize
    ensures s[..i] + WithoutClosePairs(s[i..], zoneSize, dist)
         == RemoveAt(s, i)[..i] + WithoutClosePairs(RemoveAt(s, i)[i..], zoneSize, dist)
  {
    assert s[i..][j - i] == s[j];
    assert CloseToLater(s[i..], zoneSize, dist);
    assert s[i..][1..] == RemoveAt(s, i)[i..];
    assert s[..i] == RemoveAt(s, i)[..i];
  }

  /** Keeping item `i`, which no later item is close to, is a step of the first reconciling pass. */
  lemma KeepStep(s: seq<ShiftItem>, i: nat, zoneSize: real, dist: Metric)
    requires i < |s|
    requires forall k :: i < k < |s| ==> zoneSize <= dist(s[k].position, s[i].position)
    ensures s[..i] + WithoutClosePairs(s[i..], zoneSize, dist)
         == s[..i + 1] + WithoutClosePairs(s[i + 1..], zoneSize, dist)
  {
    assert !CloseToLater(s[i..], zoneSize, dist) by {
      forall j | 0 < j < |s[i..]|
        ensures zoneSize <= dist(s[i..][j].position, s[i..][0].position)
      {
        assert s[i..][j] == s[i + j];
      }
    }
    assert s[i..][1..] == s[i + 1..];
    assert s[..i + 1] == s[..i] + [s[i]];
  }

  /** The last item has nothing after it to be close to. */
  lemma LastStep(s: seq<ShiftItem>, i: nat, zoneSize: real, dist: Metric)
    requires |s| <= i + 1 && i <= |s|
    ensures s[..i] + WithoutClosePairs(s[i..], zoneSize, dist) == s
  {
    if i < |s| {
      assert s[i..][1..] == [];
      assert s[..i] + [s[i]] == s;
    }
  }

  /** `MaxSectorX` computed by a loop over the items. */
  method ComputeMaxSectorX(items: seq<ShiftItem>) returns (m: int)
    requires HasScreenAxes(items)
    ensures m == MaxSectorX(items)
  {
    m := 0;
    for i := 0 to |items|
      invariant m == MaxSectorX(items[..i])
    {
      assert items[..i + 1][..i] == items[..i];
      if SectorX(items[i].position) > m {
        m := SectorX(items[i].position);
      }
    }
    assert items[..|items|] == items;
  }

  /** The tally of sector numbers `GetClosestPointOfHihestDensity` builds, one number at a time. */
  function Tally(s: seq<int>): map<int, nat>
  {
    if s == [] then map[]
    else
      var m := Tally(s[..|s| - 1]);
      var x := s[|s| - 1];
      m[x := (if x in m then m[x] else 0) + 1]
  }

  /** The tally holds exactly the numbers of `s`, each with its number of occurrences. */
  lemma {:induction false} TallyCounts(s: seq<int>)
    ensures forall v :: v in Tally(s) <==> v in s
    ensures forall v :: v in Tally(s) ==> Tally(s)[v] == Occurrences(s, v)
  {
    if s != [] {
      var init, x := s[..|s| - 1], s[|s| - 1];
      assert s == init + [x];
      TallyCounts(init);
      if x !in init {
        OccurrencesOfNonMember(init, x);
      }
    }
  }

  lemma {:induction false} OccurrencesOfNonMember(s: seq<int>, v: int)
    requires v !in s
    ensures Occurrences(s, v) == 0
  {
    if s != [] {
      assert s[..|s| - 1] + [s[|s| - 1]] == s;
      OccurrencesOfNonMember(s[..|s| - 1], v);
    }
  }

  /** Tallying one more number bumps its count. */
  lemma TallyStep(s: seq<int>, i: nat)
    requires i < |s|
    ensures Tally(s[..i + 1]) == Tally(s[..i])[s[i] := (if s[i] in Tally(s[..i]) then Tally(s[..i])[s[i]] else 0) + 1]
  {
    assert s[..i + 1][..i] == s[..i];
  }

  /** `order` lists exactly the keys of `sectors`: the enumeration order of a `Dictionary`. */
  ghost predicate KeysListed(sectors: map<int, nat>, order: seq<int>)
  {
    (forall v :: v in sectors ==> v in order)
    && (forall k :: 0 <= k < |order| ==> order[k] in sectors)
  }

  /** Counting one more occurrence of `n` keeps `order` listing the keys, appending `n` when it is new. */
  lemma KeysListedStep(sectors: map<int, nat>, order: seq<int>, n: int, count: nat)
    requires KeysListed(sectors, order)
    ensures n in sectors ==> KeysListed(sectors[n := count], order)
    ensures n !in sectors ==> KeysListed(sectors[n := count], order + [n])
  {
  }

  /**
   * The number of items in every occupied sector, with the occupied sectors
   * in the order a `Dictionary` enumerates them: the order of first insertion.
   */
  method CountSectors(items: seq<ShiftItem>, maxSectorX: int) returns (sectors: map<int, nat>, order: seq<int>)
    requires HasScreenAxes(items)
    ensures sectors == Tally(SectorNumbers(items, maxSectorX))
    ensures KeysListed(sectors, order)
  {
    ghost var ns := SectorNumbers(items, maxSectorX);
    sectors := map[];
    order := [];
    for i := 0 to |items|
      invariant sectors == Tally(ns[..i])
      invariant KeysListed(sectors, order)
    {
      var n := SectorNumber(items[i], maxSectorX);
      TallyStep(ns, i);
      var count := 0;
      KeysListedStep(sectors, order, n, (if n in sectors then sectors[n] else 0) + 1);
      if n !in sectors {
        order := order + [n];
      } else {
        count := sectors[n];
      }
      sectors := sectors[n := count + 1];
    }
    assert ns[..|items|] == ns;
  }

  /** The largest count among the occupied sectors, 0 when there are none. */
  method LargestCount(sectors: map<int, nat>, order: seq<int>) returns (maxCount: nat)
    requires KeysListed(sectors, order)
    ensures forall v :: v in sectors ==> sectors[v] <= maxCount
    ensures maxCount == 0 || exists i :: 0 <= i < |order| && sectors[order[i]] == maxCount
  {
    maxCount := 0;
    for i := 0 to |order|
      invariant forall k :: 0 <= k < i ==> sectors[order[k]] <= maxCount
      invariant maxCount == 0 || exists k :: 0 <= k < i && sectors[order[k]] == maxCount
    {
      var count := sectors[order[i]];
      if count > maxCount {
        maxCount := count;
      }
    }
  }

  /** The sector counts give every item's density. */
  lemma DensityFromCounts(items: seq<ShiftItem>, sectors: map<int, nat>)
    requires HasScreenAxes(items)
    requires sectors == Tally(SectorNumbers(items, MaxSectorX(items)))
    ensures forall j :: 0 <= j < |items| ==>
      SectorNumber(items[j], MaxSectorX(items)) in sectors
      && Density(items, j) == sectors[SectorNumber(items[j], MaxSectorX(items))]
  {
    var ns := SectorNumbers(items, MaxSectorX(items));
    TallyCounts(ns);
    forall j | 0 <= j < |items|
      ensures ns[j] in sectors && Density(items, j) == sectors[ns[j]]
    {
    }
  }

  /** Item `j` lies in a sector holding `maxCount` items. */
  ghost predicate InDensest(items: seq<ShiftItem>, sectors: map<int, nat>, maxSectorX: int, maxCount: nat, j: nat)
    requires HasScreenAxes(items) && j < |items|
  {
    var n := SectorNumber(items[j], maxSectorX);
    n in sectors && sectors[n] == maxCount
  }

  /** With the tally and its largest count, `InDensest` means having the largest density. */
  lemma DensestFromCounts(items: seq<ShiftItem>, sectors: map<int, nat>, maxCount: nat)
    requires HasScreenAxes(items)
    requires sectors == Tally(SectorNumbers(items, MaxSectorX(items)))
    requires forall v :: v in sectors ==> sectors[v] <= maxCount
    ensures forall j :: 0 <= j < |items| ==> Density(items, j) <= maxCount
    ensures forall j :: 0 <= j < |items| ==>
      (InDensest(items, sectors, MaxSectorX(items), maxCount, j) <==> Density(items, j) == maxCount)
    ensures forall j :: 0 <= j < |items| ==> SectorNumber(items[j], MaxSectorX(items)) in sectors
  {
    DensityFromCounts(items, sectors);
  }

  /** The largest count of a non-empty tally belongs to some item. */
  lemma DensestExists(items: seq<ShiftItem>, sectors: map<int, nat>, order: seq<int>, maxCount: nat)
    requires HasScreenAxes(items) && items != []
    requires sectors == Tally(SectorNumbers(items, MaxSectorX(items)))
    requires forall k :: 0 <= k < |order| ==> order[k] in sectors
    requires forall v :: v in sectors ==> sectors[v] <= maxCount
    requires maxCount == 0 || exists k :: 0 <= k < |order| && sectors[order[k]] == maxCount
    ensures exists j :: 0 <= j < |items| && InDensest(items, sectors, MaxSectorX(items), maxCount, j)
  {
    var ns := SectorNumbers(items, MaxSectorX(items));
    TallyCounts(ns);
    OccurrencesOfMember(ns, ns[0]);
    ListedCountHeld(items, ns, sectors, order, maxCount);
  }

  /** A count listed in `order` that is not zero is the count of some item's sector. */
  lemma ListedCountHeld(items: seq<ShiftItem>, ns: seq<int>, sectors: map<int, nat>, order: seq<int>, maxCount: nat)
    requires HasScreenAxes(items) && items != []
    requires ns == SectorNumbers(items, MaxSectorX(items))
    requires forall v :: v in sectors <==> v in ns
    requires ns[0] in sectors && 1 <= sectors[ns[0]]
    requires forall k :: 0 <= k < |order| ==> order[k] in sectors
    requires forall v :: v in sectors ==> sectors[v] <= maxCount
    requires maxCount == 0 || exists k :: 0 <= k < |order| && sectors[order[k]] == maxCount
    ensures exists j :: 0 <= j < |items| && InDensest(items, sectors, MaxSectorX(items), maxCount, j)
  {
    var k :| 0 <= k < |order| && sectors[order[k]] == maxCount;
    var j :| 0 <= j < |ns| && ns[j] == order[k];
    assert InDensest(items, sectors, MaxSectorX(items), maxCount, j);
  }

  /** The final loop of `GetClosestPointOfHihestDensity`: the nearest item of a densest sector. */
  method NearestInDensest(items: seq<ShiftItem>, q: Position, dist: Metric,
                          sectors: map<int, nat>, maxSectorX: int, maxCount: nat) returns (e: nat, found: bool)
    requires HasScreenAxes(items)
    requires forall j :: 0 <= j < |items| ==> SectorNumber(items[j], maxSectorX) in sectors
    ensures (exists j :: 0 <= j < |items| && InDensest(items, sectors, maxSectorX, maxCount, j)) ==> found
    ensures found ==> e < |items| && InDensest(items, sectors, maxSectorX, maxCount, e)
    ensures found ==> forall j :: 0 <= j < |items| && InDensest(items, sectors, maxSectorX, maxCount, j) ==>
      dist(items[e].position, q) <= dist(items[j].position, q)
    ensures found ==> forall j :: 0 <= j < e && InDensest(items, sectors, maxSectorX, maxCount, j) ==>
      dist(items[e].position, q) < dist(items[j].position, q)
  {
    e := 0;
    found := false;
    var minDistance := 0.0;
    for i := 0 to |items|
      invariant found ==> e < i && InDensest(items, sectors, maxSectorX, maxCount, e)
      invariant found ==> minDistance == dist(items[e].position, q)
      invariant forall j :: 0 <= j < i && InDensest(items, sectors, maxSectorX, maxCount, j) ==>
        found && minDistance <= dist(items[j].position, q)
      invariant found ==> forall j :: 0 <= j < e && InDensest(items, sectors, maxSectorX, maxCount, j) ==>
        minDistance < dist(items[j].position, q)
    {
      if sectors[SectorNumber(items[i], maxSectorX)] == maxCount {
        var distance := dist(items[i].position, q);
        if !found || minDistance > distance {
          minDistance := distance;
          e := i;
          found := true;
        }
      }
    }
  }

  /** The search result over `InDensest` is the densest closest item. */
  lemma DensestClosestFound(items: seq<ShiftItem>, q: Position, dist: Metric, sectors: map<int, nat>, maxCount: nat, e: nat)
    requires HasScreenAxes(items) && e < |items|
    requires forall j :: 0 <= j < |items| ==> Density(items, j) <= maxCount
    requires forall j :: 0 <= j < |items| ==>
      (InDensest(items, sectors, MaxSectorX(items), maxCount, j) <==> Density(items, j) == maxCount)
    requires InDensest(items, sectors, MaxSectorX(items), maxCount, e)
    requires forall j :: 0 <= j < |items| && InDensest(items, sectors, MaxSectorX(items), maxCount, j) ==>
      dist(items[e].position, q) <= dist(items[j].position, q)
    requires forall j :: 0 <= j < e && InDensest(items, sectors, MaxSectorX(items), maxCount, j) ==>
      dist(items[e].position, q) < dist(items[j].position, q)
    ensures IsDensestClosest(items, q, dist, e)
  {
  }

  /** `sum_of_reverse_distances` of `GetShift`. */
  method SumReverseDistances(c: seq<Ranked>) returns (sum: real)
    requires forall k :: 0 <= k < |c| ==> 0.0 < c[k].distance
    ensures sum == ReverseDistanceSum(RankedDistances(c))
  {
    sum := 0.0;
    for k := 0 to |c|
      invariant sum + ReverseDistanceSum(RankedDistances(c[k..])) == ReverseDistanceSum(RankedDistances(c))
    {
      assert RankedDistances(c[k..])[1..] == RankedDistances(c[k + 1..]);
      sum := sum + 1.0 / c[k].distance;
    }
    assert c[|c|..] == [];
  }

  /** The blending loop of `GetShift`. */
  method BlendNeighbours(items: seq<ShiftItem>, c: seq<Ranked>, sum: real) returns (r: Point)
    requires ValidNeighbours(items, c) && 0.0 < sum
    ensures r == Point(BlendAxis(items, c, sum, true), BlendAxis(items, c, sum, false))
  {
    r := Point(0, 0);
    assert c[0..] == c;
    for k := 0 to |c|
      invariant r.x + BlendAxis(items, c[k..], sum, true) == BlendAxis(items, c, sum, true)
      invariant r.y + BlendAxis(items, c[k..], sum, false) == BlendAxis(items, c, sum, false)
    {
      assert c[k..][1..] == c[k + 1..];
      r := Point(r.x + Trunc(items[c[k].index].shift.x as real / c[k].distance / sum),
                 r.y + Trunc(items[c[k].index].shift.y as real / c[k].distance / sum));
    }
  }

  // ---------------------------------------------------------------------
  // The store
  // ---------------------------------------------------------------------

  class ShiftsStorage {
    /** `Shifts`, in the order the corrections were recorded. */
    var shifts: seq<ShiftItem>

    ghost predicate Valid()
      reads this
    {
      HasScreenAxes(shifts)
    }

    /** A store holding the entries the persistence layer loaded. */
    constructor (loaded: seq<ShiftItem>)
      requires HasScreenAxes(loaded)
      ensures Valid() && shifts == loaded
    {
      shifts := loaded;
    }

    /**
     * `GetClosestShiftIndexes`: no list for an empty store; otherwise the
     * `number` nearest entries (at least one), nearest first.
     */
    method GetClosestShiftIndexes(q: Position, number: int, dist: Metric) returns (r: Option<seq<Ranked>>)
      ensures r.None? <==> shifts == []
      ensures r.Some? ==> IsClosest(shifts, q, number, dist, r.value)
    {
      if |shifts| == 0 {
        return None;
      }
      var items := shifts;
      var retval: seq<Ranked> := [];
      for i := 0 to |items|
        invariant |retval| == if i == 0 then 0 else Min(Max(number, 1), i)
        invariant Measured(items, q, dist, retval, i) && StrictlyRanked(retval)
        invariant OthersRankAfter(items, q, dist, retval, i)
        invariant 0 < i && |retval| < Max(number, 1) ==> forall j :: 0 <= j < i ==> Picks(retval, j)
      {
        var distance := dist(items[i].position, q);
        if distance < 0.1 {
          distance := 0.1;
        }
        var x := Ranked(i, distance);
        if |retval| == 0 {
          retval := [x];
          assert Picks(retval, 0) by { assert retval[0] == x; }
        } else {
          ghost var r0 := retval;
          var j := 0;
          while j < |retval|
            invariant 0 <= j <= |retval| && retval == r0
            invariant forall k :: 0 <= k < j ==> retval[k].distance <= distance
          {
            if distance < retval[j].distance {
              retval := retval[..j] + [x] + retval[j..];
              break;
            }
            j := j + 1;
          }
          if j == |retval| {
            retval := retval + [x];
            assert retval == r0[..j] + [x] + r0[j..];
          }
          ghost var r1 := retval;
          if |retval| > number {
            retval := retval[..|retval| - 1];
          }
          SelectionStep(items, q, number, dist, r0, i, j, r1, retval);
        }
      }
      return Some(retval);
    }

    /**
     * `GetClosestPointOfHihestDensity`: the index of the entry nearest to `q`
     * among the entries of the most populated 500-unit sectors.
     */
    method GetClosestPointOfHighestDensity(q: Position, dist: Metric) returns (e: nat)
      requires Valid() && shifts != []
      ensures IsDensestClosest(shifts, q, dist, e)
    {
      var maxSectorX := ComputeMaxSectorX(shifts);
      var sectors, order := CountSectors(shifts, maxSectorX);
      var maxCount := LargestCount(sectors, order);
      DensestFromCounts(shifts, sectors, maxCount);
      DensestExists(shifts, sectors, order, maxCount);
      var found;
      e, found := NearestInDensest(shifts, q, dist, sectors, maxSectorX, maxCount);
      DensestClosestFound(shifts, q, dist, sectors, maxCount, e);
    }

    /**
     * `GetShift`: no correction for an empty store; otherwise the
     * inverse-distance blend of the `considered` nearest corrections.
     */
    method GetShift(q: Position, considered: int, dist: Metric) returns (r: Point, ghost closest: seq<Ranked>)
      ensures shifts == [] ==> r == Point(0, 0)
      ensures shifts != [] ==> (IsClosest(shifts, q, considered, dist, closest)
                                && ValidNeighbours(shifts, closest) && closest != []
                                && r == Blend(shifts, closest))
    {
      var indices := GetClosestShiftIndexes(q, considered, dist);
      if indices.None? {
        return Point(0, 0), [];
      }
      closest := indices.value;
      assert ValidNeighbours(shifts, closest);
      var sum := SumReverseDistances(indices.value);
      r := BlendNeighbours(shifts, indices.value, sum);
    }

    /**
     * `AddShift`: records `shift` at `position` as `Recorded` describes,
     * keeping every entry two-dimensional at least.
     */
    method AddShift(position: Position, shift: Point, zoneSize: real, maxZones: int, dist: Metric)
      returns (ghost closest: Option<seq<Ranked>>)
      requires Valid() && 2 <= |position|
      requires shifts != [] || 0 < maxZones
      modifies this
      ensures Valid()
      ensures Recorded(old(shifts), shifts, ShiftItem(position, shift), zoneSize, maxZones, closest, dist)
    {
      var item := ShiftItem(position, shift);
      var indices := GetClosestShiftIndexes(position, 2, dist);
      closest := indices;
      if indices.Some? && indices.value[0].distance < zoneSize {
        shifts := shifts[indices.value[0].index := item];
        if |indices.value| > 1 && indices.value[1].distance < zoneSize {
          shifts := RemoveAt(shifts, indices.value[1].index);
        }
      } else if |shifts| < maxZones {
        shifts := shifts + [item];
      } else {
        var e := GetClosestPointOfHighestDensity(position, dist);
        shifts := shifts[e := item];
      }
    }

    /**
     * `OnSettingsChanged`: drops close pairs, then all but the newest
     * `maxZones` entries. A negative `maxZones` empties the store and then
     * makes `RemoveAt(0)` throw on the empty list: `ok` is false and the
     * store is left empty.
     */
    method OnSettingsChanged(zoneSize: real, maxZones: int, dist: Metric) returns (ok: bool)
      requires Valid()
      modifies this
      ensures Valid()
      ensures ok <==> 0 <= maxZones
      ensures ok ==> shifts == Reconciled(old(shifts), zoneSize, maxZones, dist)
      ensures !ok ==> shifts == []
    {
      DropClosePairs(zoneSize, dist);
      ghost var deduped := shifts;
      ghost var dropped := 0;
      while |shifts| > maxZones
        invariant Valid()
        invariant 0 <= dropped <= |deduped| && shifts == deduped[dropped..]
        invariant dropped > 0 ==> maxZones <= |shifts|
        decreases |shifts|
      {
        if shifts == [] {
          return false;
        }
        assert deduped[dropped..][1..] == deduped[dropped + 1..];
        shifts := shifts[1..];
        dropped := dropped + 1;
      }
      assert dropped == 0 ==> shifts == deduped;
      return true;
    }

    /** The first loop of `OnSettingsChanged`. */
    method DropClosePairs(zoneSize: real, dist: Metric)
      requires Valid()
      modifies this
      ensures Valid()
      ensures shifts == WithoutClosePairs(old(shifts), zoneSize, dist)
    {
      var s := shifts;
      ghost var target := WithoutClosePairs(s, zoneSize, dist);
      WithoutClosePairsIsSubsequence(s, zoneSize, dist);
      SubsequenceKeepsScreenAxes(target, s);
      assert s[..0] + s[0..] == s;
      var i := 0;
      while i + 1 < |s|
        invariant i <= |s|
        invariant target == s[..i] + WithoutClosePairs(s[i..], zoneSize, dist)
        decreases |s| - i
      {
        var didRemove, j := FindCloseLater(s, i, zoneSize, dist);
        if didRemove {
          DropStep(s, i, j, zoneSize, dist);
          s := RemoveAt(s, i);
        } else {
          KeepStep(s, i, zoneSize, dist);
          i := i + 1;
        }
      }
      LastStep(s, i, zoneSize, dist);
      shifts := s;
    }

    /** `Reset`: forgets every correction. */
    method Reset()
      modifies this
      ensures Valid() && shifts == []
    {
      shifts := [];
    }
  }
}
