/**
 * `CalibrationModeIterator`: the blind configuration tester's walk over
 * calibration settings. Each `OptionsField` names one integer setting of a
 * calibration mode and the range of values it may take; the iterator keeps
 * the fields a mode actually has, steps a field along its range, and
 * enumerates the modes with every field at one end of its range.
 */
module ModeIterator {
  import opened Numeric
  import opened Sequences
  import opened Extensions
  import opened Results

  // ---------------------------------------------------------------------
  // Modes and fields
  // ---------------------------------------------------------------------

  /**
   * How a field is addressed: a named setting of the mode, or the scale of
   * extra coordinate `index` (the source's field names "coordinate 2" …
   * "coordinate 9", whose number it parses).
   */
  datatype FieldId = Named(name: string) | Coordinate(index: nat)

  /**
   * The settings of a calibration mode: the named integer settings, and
   * the scale in percent of each coordinate; the mode's coordinate count is
   * the number of scales.
   */
  datatype ModeValues = ModeValues(named: map<string, int>, scales: seq<int>)

  /** `IteartionRange` (linear or exponential) and `HardcodedIntRange`. */
  datatype IntRange =
    | Linear(min: int, max: int, step: int)
    | Exponential(min: int, max: int, factor: real)
    | Hardcoded(values: seq<int>)

  /** A calibration mode object, changed in place by `SetFieldValue`. */
  class CalibrationMode {
    var values: ModeValues

    constructor (values: ModeValues)
      ensures this.values == values
    {
      this.values := values;
    }

    /** `Clone`: a new mode with the same settings. */
    method Clone() returns (c: CalibrationMode)
      ensures fresh(c) && c.values == values
    {
      c := new CalibrationMode(values);
    }
  }

  /** The reflection lookup of a named field finds it: the mode has that setting. */
  predicate Readable(m: ModeValues, id: FieldId)
  {
    id.Named? ==> id.name in m.named
  }

  /** `OptionsField`: a field and its range. */
  datatype OptionsField = OptionsField(id: FieldId, range: IntRange)
  {
    /**
     * `GetFieldValue`: the named setting, or the coordinate's scale, which
     * reads as -1 when the mode has no such coordinate.
     */
    function GetFieldValue(m: ModeValues): int
      requires Readable(m, id)
    {
      match id
      case Named(name) => m.named[name]
      case Coordinate(k) => if k >= |m.scales| then -1 else m.scales[k]
    }

    /**
     * The settings after `SetFieldValue(m, value)`: this field reads
     * `value` afterwards, unless it is a coordinate the mode lacks, whose
     * write is ignored; every other field reads as before.
     */
    function WithFieldValue(m: ModeValues, value: int): (r: ModeValues)
      requires Readable(m, id)
      ensures Readable(r, id)
      ensures GetFieldValue(r) == (if id.Coordinate? && id.index >= |m.scales| then -1 else value)
      ensures |r.scales| == |m.scales| && r.named.Keys == m.named.Keys
    {
      match id
      case Named(name) => m.(named := m.named[name := value])
      case Coordinate(k) => if k >= |m.scales| then m else m.(scales := m.scales[k := value])
    }

    /** Writing this field leaves every other field reading as before. */
    lemma OtherFieldKept(g: OptionsField, m: ModeValues, value: int)
      requires Readable(m, id) && Readable(m, g.id) && g.id != id
      ensures Readable(WithFieldValue(m, value), g.id)
      ensures g.GetFieldValue(WithFieldValue(m, value)) == g.GetFieldValue(m)
    {
    }

    /** `SetFieldValue`. */
    method SetFieldValue(mode: CalibrationMode, value: int)
      requires Readable(mode.values, id)
      modifies mode
      ensures mode.values == WithFieldValue(old(mode.values), value)
    {
      match id
      case Named(name) =>
        mode.values := mode.values.(named := mode.values.named[name := value]);
      case Coordinate(k) =>
        if k >= |mode.values.scales| {
          return;
        }
        var scales := mode.values.scales;
        scales := scales[k := value];
        mode.values := mode.values.(scales := scales);
    }
  }

  /** The fields the constructor declares, in its order. */
  const AllFields: seq<OptionsField> := [
    OptionsField(Named("zone_size"), Hardcoded([10, 15, 25, 50, 75, 100, 150, 200, 250, 350, 500, 800])),
    OptionsField(Named("max_zones_count"), Exponential(8, 2048, 2.0)),
    OptionsField(Named("considered_zones_count"), Hardcoded([3, 6, 10, 20])),
    OptionsField(Named("size_of_opaque_sector_in_percents"), Linear(30, 70, 10)),
    OptionsField(Named("size_of_transparent_sector_in_percents"), Linear(0, 60, 10)),
    OptionsField(Named("correction_fade_out_distance"), Hardcoded([50, 75, 100, 150, 200, 250, 350, 500, 800])),
    OptionsField(Coordinate(2), CoordinateRange),
    OptionsField(Coordinate(3), CoordinateRange),
    OptionsField(Coordinate(4), CoordinateRange),
    OptionsField(Coordinate(5), CoordinateRange),
    OptionsField(Coordinate(6), CoordinateRange),
    OptionsField(Coordinate(7), CoordinateRange),
    OptionsField(Coordinate(8), CoordinateRange),
    OptionsField(Coordinate(9), CoordinateRange)
  ]

  /** The range of every coordinate scale: from 50 by a factor of 1.6 up to 30000. */
  const CoordinateRange: IntRange := Exponential(50, 30000, 1.6)

  // ---------------------------------------------------------------------
  // Ranges
  // ---------------------------------------------------------------------

  /** The value after `i` in a linear or exponential range. */
  function Next(r: IntRange, i: int): int
    requires !r.Hardcoded?
  {
    if r.Linear? then i + r.step else Trunc(Scale(i, r.factor))
  }

  /** `i * factor` in floating point, here exact; kept behind a function to keep products out of other proofs. */
  function Scale(i: int, factor: real): real
  {
    i as real * factor
  }

  /**
   * The step from `i` makes progress: a positive linear step, or an
   * exponential step that adds at least one to a positive value. Without
   * it the source's `while (true)` loop never ends.
   */
  predicate Grows(r: IntRange, i: int)
    requires !r.Hardcoded?
  {
    if r.Linear? then 0 < r.step else 1 <= i && 1.0 <= Scale(i, r.factor - 1.0)
  }

  lemma NextGrows(r: IntRange, i: int)
    requires !r.Hardcoded? && Grows(r, i)
    ensures i < Next(r, i) && Grows(r, Next(r, i))
  {
    if r.Exponential? {
      var g := r.factor - 1.0;
      assert i as real * r.factor == i as real + i as real * g;
      var j := Next(r, i);
      assert i < j;
      assert 0.0 < g by {
        if g <= 0.0 {
          ProductNotPositive(i as real, g);
        }
      }
      assert i as real * g <= j as real * g;
    }
  }

  /** A non-negative amount scaled by a non-positive factor is not positive. */
  lemma ProductNotPositive(a: real, b: real)
    requires 0.0 <= a && b <= 0.0
    ensures a * b <= 0.0
  {
  }

  /** The values the loop of `GetRange` adds from `i` on, while they do not pass the maximum. */
  function RangeFrom(r: IntRange, i: int): seq<int>
    requires !r.Hardcoded? && (i <= r.max ==> Grows(r, i))
    decreases r.max - i
  {
    if i > r.max then []
    else
      NextGrows(r, i);
      [i] + RangeFrom(r, Next(r, i))
  }

  /** The source's `GetRange` loop ends. */
  predicate Terminates(r: IntRange)
  {
    r.Hardcoded? || r.min > r.max || Grows(r, r.min)
  }

  /** `GetRange` of each kind of range, as a value. */
  function RangeValues(r: IntRange): seq<int>
    requires Terminates(r)
  {
    if r.Hardcoded? then r.values else RangeFrom(r, r.min)
  }

  /** Strictly increasing. */
  predicate Ascending(s: seq<int>)
  {
    forall a, b :: 0 <= a < b < |s| ==> s[a] < s[b]
  }

  /**
   * A linear or exponential range from `i` holds values from `i` to the
   * maximum, strictly increasing; it starts at `i` and is empty exactly
   * when `i` already passes the maximum; the step after its last value
   * passes the maximum.
   */
  lemma {:induction false} RangeFromProperties(r: IntRange, i: int)
    requires !r.Hardcoded? && (i <= r.max ==> Grows(r, i))
    ensures RangeFrom(r, i) == [] <==> i > r.max
    ensures RangeFrom(r, i) != [] ==> RangeFrom(r, i)[0] == i
    ensures forall k :: 0 <= k < |RangeFrom(r, i)| ==> i <= RangeFrom(r, i)[k] <= r.max
    ensures Ascending(RangeFrom(r, i))
    ensures RangeFrom(r, i) != [] ==> r.max < Next(r, RangeFrom(r, i)[|RangeFrom(r, i)| - 1])
    decreases r.max - i
  {
    if i <= r.max {
      NextGrows(r, i);
      var rest := RangeFrom(r, Next(r, i));
      RangeFromProperties(r, Next(r, i));
      assert RangeFrom(r, i) == [i] + rest;
      if rest != [] {
        assert RangeFrom(r, i)[|RangeFrom(r, i)| - 1] == rest[|rest| - 1];
      }
    }
  }

  /**
   * A linear range with a positive step is `min, min + step, …`: it starts
   * at `min`, each value is one step above the one before, all of them are
   * at most `max`, and one more step would pass `max`; it is empty exactly
   * when `min > max`.
   */
  lemma LinearRange(min: int, max: int, step: int)
    requires 0 < step
    ensures var s := RangeValues(Linear(min, max, step));
      && (s == [] <==> min > max)
      && (s != [] ==> s[0] == min && max < s[|s| - 1] + step)
      && (forall k :: 0 <= k < |s| ==> s[k] <= max)
      && (forall k :: 1 <= k < |s| ==> s[k] == s[k - 1] + step)
  {
    var r := Linear(min, max, step);
    var s := RangeFrom(r, min);
    assert RangeValues(r) == s;
    RangeFromProperties(r, min);
    RangeSteps(r, min);
    if s != [] {
      assert Next(r, s[|s| - 1]) == s[|s| - 1] + step;
    }
  }

  /** Each value of a range after the first is the step taken from the one before. */
  lemma {:induction false} RangeSteps(r: IntRange, i: int)
    requires !r.Hardcoded? && (i <= r.max ==> Grows(r, i))
    ensures forall k :: 1 <= k < |RangeFrom(r, i)| ==> RangeFrom(r, i)[k] == Next(r, RangeFrom(r, i)[k - 1])
    decreases r.max - i
  {
    if i <= r.max {
      NextGrows(r, i);
      var rest := RangeFrom(r, Next(r, i));
      RangeSteps(r, Next(r, i));
      RangeFromProperties(r, Next(r, i));
      assert RangeFrom(r, i) == [i] + rest;
    }
  }

  /** The range of `max_zones_count`: 8 doubling up to 2048. */
  lemma DoublingRange()
    ensures RangeValues(Exponential(8, 2048, 2.0)) == [8, 16, 32, 64, 128, 256, 512, 1024, 2048]
  {
    var r := Exponential(8, 2048, 2.0);
    assert RangeFrom(r, 4096) == [];
    assert Next(r, 2048) == 4096;
    assert RangeFrom(r, 2048) == [2048];
    assert Next(r, 1024) == 2048;
    assert RangeFrom(r, 1024) == [1024, 2048];
    assert Next(r, 512) == 1024;
    assert RangeFrom(r, 512) == [512, 1024, 2048];
    assert Next(r, 256) == 512;
    assert RangeFrom(r, 256) == [256, 512, 1024, 2048];
    assert Next(r, 128) == 256;
    assert RangeFrom(r, 128) == [128, 256, 512, 1024, 2048];
    assert Next(r, 64) == 128;
    assert RangeFrom(r, 64) == [64, 128, 256, 512, 1024, 2048];
    assert Next(r, 32) == 64;
    assert RangeFrom(r, 32) == [32, 64, 128, 256, 512, 1024, 2048];
    assert Next(r, 16) == 32;
    assert RangeFrom(r, 16) == [16, 32, 64, 128, 256, 512, 1024, 2048];
    assert Next(r, 8) == 16;
  }

  /** `GetRange`: the list of a hardcoded range, or the `while (true)` loop of `IteartionRange`. */
  method GetRange(r: IntRange) returns (range: seq<int>)
    requires Terminates(r)
    ensures range == RangeValues(r)
  {
    if r.Hardcoded? {
      return r.values;
    }
    range := [];
    var i := r.min;
    while true
      invariant i <= r.max ==> Grows(r, i)
      invariant range + RangeFrom(r, i) == RangeValues(r)
      decreases r.max - i
    {
      if i <= r.max {
        range := range + [i];
      } else {
        break;
      }
      NextGrows(r, i);
      assert RangeFrom(r, i) == [i] + RangeFrom(r, Next(r, i));
      i := Next(r, i);
    }
  }

  /** A field whose range the source can build and take the first and last value of. */
  predicate ValidField(f: OptionsField)
  {
    Terminates(f.range) && RangeValues(f.range) != []
  }

  /** A range whose loop ends and whose first value does not pass the maximum has a first and a last value. */
  lemma NonEmptyRange(r: IntRange)
    requires !r.Hardcoded? && r.min <= r.max && Grows(r, r.min)
    ensures Terminates(r) && RangeValues(r) != []
  {
    RangeFromProperties(r, r.min);
  }

  lemma AllFieldsValid()
    ensures forall k :: 0 <= k < |AllFields| ==> ValidField(AllFields[k])
  {
    NonEmptyRange(Exponential(8, 2048, 2.0));
    NonEmptyRange(Linear(30, 70, 10));
    NonEmptyRange(Linear(0, 60, 10));
    NonEmptyRange(CoordinateRange);
    forall k | 0 <= k < |AllFields|
      ensures ValidField(AllFields[k])
    {
      if k >= 6 {
        assert AllFields[k].range == CoordinateRange;
      }
    }
  }

  /** `Range.First()` or `Range.Last()`. */
  function Extreme(f: OptionsField, first: bool): int
    requires ValidField(f)
  {
    var values := RangeValues(f.range);
    if first then values[0] else values[|values| - 1]
  }

  // ---------------------------------------------------------------------
  // Increment
  // ---------------------------------------------------------------------

  /** The linear search of `Increment`: the first index whose value is at least `value`, or the length. */
  function FirstAtLeast(range: seq<int>, value: int): (i: nat)
    ensures i <= |range|
    ensures forall j :: 0 <= j < i ==> range[j] < value
    ensures i < |range| ==> value <= range[i]
  {
    if range == [] then 0
    else if range[0] >= value then 0
    else 1 + FirstAtLeast(range[1..], value)
  }

  /**
   * `Increment(mode, steps)`: `None` (the source's `false`, mode
   * untouched) when the field reads -1 or the target index
   * `FirstAtLeast + steps` leaves the range; otherwise the settings with
   * the field at the target value.
   */
  function Incremented(f: OptionsField, m: ModeValues, steps: int): (r: Option<ModeValues>)
    requires Readable(m, f.id) && Terminates(f.range)
    ensures r.Some? ==> r.value.named.Keys == m.named.Keys && |r.value.scales| == |m.scales|
    ensures r.Some? ==> f.GetFieldValue(m) != -1 && f.GetFieldValue(r.value) in RangeValues(f.range)
  {
    var value := f.GetFieldValue(m);
    if value == -1 then None
    else
      var range := RangeValues(f.range);
      var i := FirstAtLeast(range, value) + steps;
      if i < 0 || i >= |range| then None
      else Some(f.WithFieldValue(m, range[i]))
  }

  /** A successful increment changes no other field. */
  lemma IncrementLeavesOthers(f: OptionsField, g: OptionsField, m: ModeValues, steps: int)
    requires Readable(m, f.id) && Terminates(f.range) && Readable(m, g.id) && g.id != f.id
    requires Incremented(f, m, steps).Some?
    ensures Readable(Incremented(f, m, steps).value, g.id)
    ensures g.GetFieldValue(Incremented(f, m, steps).value) == g.GetFieldValue(m)
  {
    var range := RangeValues(f.range);
    var i := FirstAtLeast(range, f.GetFieldValue(m)) + steps;
    f.OtherFieldKept(g, m, range[i]);
  }

  /** In a strictly increasing range, searching for a value of the range finds its own index. */
  lemma FindsOwnIndex(range: seq<int>, j: nat)
    requires Ascending(range) && j < |range|
    ensures FirstAtLeast(range, range[j]) == j
  {
    FirstAtLeastUnique(range, range[j], j);
  }

  /** The search's answer is the one index before which every value is smaller and at which none is. */
  lemma {:induction false} FirstAtLeastUnique(range: seq<int>, value: int, i: nat)
    requires i <= |range| && forall j :: 0 <= j < i ==> range[j] < value
    requires i < |range| ==> value <= range[i]
    ensures FirstAtLeast(range, value) == i
    decreases i
  {
    if i > 0 {
      FirstAtLeastUnique(range[1..], value, i - 1);
    }
  }

  /** Incrementing by zero a field that holds a value of its range changes nothing. */
  lemma IncrementByZero(f: OptionsField, m: ModeValues)
    requires Readable(m, f.id) && Terminates(f.range) && Ascending(RangeValues(f.range))
    requires f.GetFieldValue(m) != -1 && f.GetFieldValue(m) in RangeValues(f.range)
    ensures Incremented(f, m, 0) == Some(m)
  {
    var range := RangeValues(f.range);
    var j :| 0 <= j < |range| && range[j] == f.GetFieldValue(m);
    FindsOwnIndex(range, j);
    WriteBack(f, m);
  }

  /** Writing a field's own value back leaves the settings as they were. */
  lemma WriteBack(f: OptionsField, m: ModeValues)
    requires Readable(m, f.id) && f.GetFieldValue(m) != -1
    ensures f.WithFieldValue(m, f.GetFieldValue(m)) == m
  {
    match f.id
    case Named(name) =>
      assert m.named[name := m.named[name]] == m.named;
    case Coordinate(k) =>
      assert m.scales[k := m.scales[k]] == m.scales;
  }

  /** From the value at index `j` of a strictly increasing range, a step of `steps` lands on index `j + steps`. */
  lemma IncrementedFrom(f: OptionsField, m: ModeValues, j: nat, steps: int)
    requires Readable(m, f.id) && Terminates(f.range) && Ascending(RangeValues(f.range))
    requires j < |RangeValues(f.range)| && f.GetFieldValue(m) == RangeValues(f.range)[j] != -1
    requires 0 <= j + steps < |RangeValues(f.range)|
    ensures Incremented(f, m, steps) == Some(f.WithFieldValue(m, RangeValues(f.range)[j + steps]))
  {
    FindsOwnIndex(RangeValues(f.range), j);
  }

  /** A second write to the same field overrides the first. */
  lemma WriteTwice(f: OptionsField, m: ModeValues, u: int, v: int)
    requires Readable(m, f.id)
    ensures f.WithFieldValue(f.WithFieldValue(m, u), v) == f.WithFieldValue(m, v)
  {
    match f.id
    case Named(name) =>
      assert m.named[name := u][name := v] == m.named[name := v];
    case Coordinate(k) =>
      if k < |m.scales| {
        assert m.scales[k := u][k := v] == m.scales[k := v];
      }
  }

  /**
   * Stepping back undoes a step: in a strictly increasing range, a field
   * moved `steps` places from a value of its range returns to the same
   * settings when moved `-steps` places.
   */
  lemma IncrementRoundTrip(f: OptionsField, m: ModeValues, j: nat, steps: int)
    requires Readable(m, f.id) && Terminates(f.range) && Ascending(RangeValues(f.range))
    requires j < |RangeValues(f.range)| && f.GetFieldValue(m) == RangeValues(f.range)[j]
    requires -1 !in RangeValues(f.range)
    requires Incremented(f, m, steps).Some?
    ensures Incremented(f, Incremented(f, m, steps).value, -steps) == Some(m)
  {
    var range := RangeValues(f.range);
    var i := j + steps;
    IncrementTarget(f, m, j, steps);
    IncrementedFrom(f, m, j, steps);
    var moved := f.WithFieldValue(m, range[i]);
    MovedReads(f, m, range[j], range[i]);
    IncrementedFrom(f, moved, i, -steps);
    WriteTwice(f, m, range[i], range[j]);
    WriteBack(f, m);
  }

  /** A successful increment from index `j` lands inside the range. */
  lemma IncrementTarget(f: OptionsField, m: ModeValues, j: nat, steps: int)
    requires Readable(m, f.id) && Terminates(f.range) && Ascending(RangeValues(f.range))
    requires j < |RangeValues(f.range)| && f.GetFieldValue(m) == RangeValues(f.range)[j]
    requires Incremented(f, m, steps).Some?
    ensures 0 <= j + steps < |RangeValues(f.range)|
  {
    FindsOwnIndex(RangeValues(f.range), j);
  }

  /** A field that reads a value other than -1 reads whatever is written to it. */
  lemma MovedReads(f: OptionsField, m: ModeValues, v: int, u: int)
    requires Readable(m, f.id) && f.GetFieldValue(m) == v != -1
    ensures Readable(f.WithFieldValue(m, u), f.id) && f.GetFieldValue(f.WithFieldValue(m, u)) == u
  {
  }

  /** `Increment`: the linear search, then the write. */
  method Increment(f: OptionsField, mode: CalibrationMode, steps: int) returns (ok: bool)
    requires Readable(mode.values, f.id) && Terminates(f.range)
    modifies mode
    ensures ok == Incremented(f, old(mode.values), steps).Some?
    ensures mode.values == if ok then Incremented(f, old(mode.values), steps).value else old(mode.values)
  {
    var value := f.GetFieldValue(mode.values);
    if value == -1 {
      return false;
    }
    var range := GetRange(f.range);
    var i := 0;
    while i < |range|
      invariant 0 <= i <= |range|
      invariant forall j :: 0 <= j < i ==> range[j] < value
    {
      if range[i] >= value {
        break;
      }
      i := i + 1;
    }
    FirstAtLeastUnique(range, value, i);
    i := i + steps;
    if i < 0 || i >= |range| {
      return false;
    }
    f.SetFieldValue(mode, range[i]);
    return true;
  }

  // ---------------------------------------------------------------------
  // The iterator
  // ---------------------------------------------------------------------

  /** The fields of `fs` that the mode has, in order: those not reading -1. */
  function Considered(m: ModeValues, fs: seq<OptionsField>): seq<OptionsField>
    requires forall k :: 0 <= k < |fs| ==> Readable(m, fs[k].id)
  {
    if fs == [] then []
    else
      var last := fs[|fs| - 1];
      Considered(m, fs[..|fs| - 1]) + (if last.GetFieldValue(m) != -1 then [last] else [])
  }

  /**
   * The constructor's filter keeps, in declaration order, exactly the
   * fields that do not read -1.
   */
  lemma {:induction false} ConsideredProperties(m: ModeValues, fs: seq<OptionsField>)
    requires forall k :: 0 <= k < |fs| ==> Readable(m, fs[k].id)
    ensures IsSubsequence(Considered(m, fs), fs)
    ensures forall k :: 0 <= k < |Considered(m, fs)| ==> Considered(m, fs)[k] in fs
    ensures forall k :: 0 <= k < |Considered(m, fs)| ==>
      Readable(m, Considered(m, fs)[k].id) && Considered(m, fs)[k].GetFieldValue(m) != -1
    ensures forall k :: 0 <= k < |fs| && fs[k].GetFieldValue(m) != -1 ==> fs[k] in Considered(m, fs)
    decreases |fs|
  {
    if fs != [] {
      var init, last := fs[..|fs| - 1], fs[|fs| - 1];
      ConsideredProperties(m, init);
      AppendKeepsSubsequence(Considered(m, init), init, last, last.GetFieldValue(m) != -1);
      assert init + [last] == fs;
      forall k | 0 <= k < |Considered(m, fs)|
        ensures Considered(m, fs)[k] in fs
      {
        SubsequenceElements(Considered(m, fs), fs, k);
      }
    }
  }

  /** Every field of `fs` is readable on `m`. */
  predicate AllReadable(m: ModeValues, fs: seq<OptionsField>)
  {
    forall k :: 0 <= k < |fs| ==> Readable(m, fs[k].id)
  }

  /**
   * The settings after the fields of `fs` are set, in order, each to the
   * first value of its range where `firsts` says so and to the last
   * otherwise.
   */
  function Assigned(m: ModeValues, fs: seq<OptionsField>, firsts: seq<bool>): (r: ModeValues)
    requires |firsts| == |fs| && AllReadable(m, fs)
    requires forall k :: 0 <= k < |fs| ==> ValidField(fs[k])
    ensures |r.scales| == |m.scales| && r.named.Keys == m.named.Keys
    decreases |fs|
  {
    if fs == [] then m
    else
      var n := |fs| - 1;
      var before := Assigned(m, fs[..n], firsts[..n]);
      assert Readable(before, fs[n].id);
      fs[n].WithFieldValue(before, Extreme(fs[n], firsts[n]))
  }

  /** No two fields address the same setting. */
  predicate DistinctIds(fs: seq<OptionsField>)
  {
    forall a, b :: 0 <= a < b < |fs| ==> fs[a].id != fs[b].id
  }

  /** A rank that tells the declared fields apart: a name's length, or 100 plus a coordinate's number. */
  function IdRank(id: FieldId): int
  {
    match id
    case Named(name) => |name|
    case Coordinate(index) => 100 + index
  }

  /** The constructor's list declares every setting once. */
  lemma AllFieldsDistinct()
    ensures DistinctIds(AllFields)
  {
    var ranks := seq(|AllFields|, k requires 0 <= k < |AllFields| => IdRank(AllFields[k].id));
    assert ranks == [9, 15, 22, 33, 38, 28, 102, 103, 104, 105, 106, 107, 108, 109];
    forall a, b | 0 <= a < b < |AllFields|
      ensures AllFields[a].id != AllFields[b].id
    {
      assert ranks[a] != ranks[b];
    }
  }

  /** Keeping some of the fields, in order, keeps their settings distinct. */
  lemma {:induction false} ConsideredDistinct(m: ModeValues, fs: seq<OptionsField>)
    requires AllReadable(m, fs) && DistinctIds(fs)
    ensures DistinctIds(Considered(m, fs))
    decreases |fs|
  {
    if fs != [] {
      var init, last := fs[..|fs| - 1], fs[|fs| - 1];
      assert AllReadable(m, init);
      ConsideredDistinct(m, init);
      if last.GetFieldValue(m) != -1 {
        var kept := Considered(m, init);
        ConsideredProperties(m, init);
        forall a | 0 <= a < |kept|
          ensures kept[a].id != last.id
        {
          var j :| 0 <= j < |init| && init[j] == kept[a];
          assert fs[j] == init[j];
        }
        assert Considered(m, fs) == kept + [last];
      }
    }
  }

  /**
   * After the assignment, each field of `fs` reads the end of its range
   * that `firsts` chose for it — or -1, for a coordinate the mode lacks.
   */
  lemma {:induction false} AssignedReads(m: ModeValues, fs: seq<OptionsField>, firsts: seq<bool>, k: nat)
    requires |firsts| == |fs| && AllReadable(m, fs) && DistinctIds(fs)
    requires forall j :: 0 <= j < |fs| ==> ValidField(fs[j])
    requires k < |fs|
    ensures Readable(Assigned(m, fs, firsts), fs[k].id)
    ensures fs[k].GetFieldValue(Assigned(m, fs, firsts))
      == if fs[k].id.Coordinate? && fs[k].id.index >= |m.scales| then -1 else Extreme(fs[k], firsts[k])
    decreases |fs|
  {
    var n := |fs| - 1;
    var init := fs[..n];
    var before := Assigned(m, init, firsts[..n]);
    assert Readable(before, fs[n].id);
    assert Assigned(m, fs, firsts) == fs[n].WithFieldValue(before, Extreme(fs[n], firsts[n]));
    if k < n {
      assert init[k] == fs[k];
      AssignedReads(m, init, firsts[..n], k);
      assert fs[n].id != fs[k].id;
      fs[n].OtherFieldKept(fs[k], before, Extreme(fs[n], firsts[n]));
    }
  }

  /** Every field of `fs` reads, on `r`, the end `firsts` chose for it, or -1 for a coordinate `m` lacks. */
  ghost predicate ReadsChosenEnds(m: ModeValues, fs: seq<OptionsField>, firsts: seq<bool>, r: ModeValues)
    requires |firsts| == |fs| && forall j :: 0 <= j < |fs| ==> ValidField(fs[j])
  {
    forall k :: 0 <= k < |fs| ==>
      Readable(r, fs[k].id)
      && fs[k].GetFieldValue(r) == if fs[k].id.Coordinate? && fs[k].id.index >= |m.scales| then -1 else Extreme(fs[k], firsts[k])
  }

  /** The assignment sets every field, not only each one alone. */
  lemma AssignedReadsAll(m: ModeValues, fs: seq<OptionsField>, firsts: seq<bool>)
    requires |firsts| == |fs| && AllReadable(m, fs) && DistinctIds(fs)
    requires forall j :: 0 <= j < |fs| ==> ValidField(fs[j])
    ensures ReadsChosenEnds(m, fs, firsts, Assigned(m, fs, firsts))
  {
    forall k | 0 <= k < |fs|
      ensures Readable(Assigned(m, fs, firsts), fs[k].id)
      ensures fs[k].GetFieldValue(Assigned(m, fs, firsts))
        == if fs[k].id.Coordinate? && fs[k].id.index >= |m.scales| then -1 else Extreme(fs[k], firsts[k])
    {
      AssignedReads(m, fs, firsts, k);
    }
  }

  /** The `permutations` list before shuffling: `count, count - 1, …, 1`. */
  function Countdown(count: nat): (r: seq<int>)
    ensures |r| == count && forall t :: 0 <= t < count ==> r[t] == count - t
  {
    seq(count, t => count - t)
  }

  function Pow2(n: nat): (p: nat)
    ensures 1 <= p
  {
    if n == 0 then 1 else 2 * Pow2(n - 1)
  }

  /** `(permutation & (1 << k)) != 0` for a non-negative `permutation`. */
  function BitSet(p: nat, k: nat): bool
  {
    (p / Pow2(k)) % 2 == 1
  }

  /** The first `n` bits of `p`: whether each field takes the first end of its range. */
  function Bits(p: nat, n: nat): (b: seq<bool>)
    ensures |b| == n
  {
    seq(n, k requires 0 <= k < n => BitSet(p, k))
  }

  class CalibrationModeIterator {
    /** The `CalibrationMode` property. */
    var mode: CalibrationMode
    /** `Fields`. */
    var fields: seq<OptionsField>

    /** The fields can all be built and have a first and last value. */
    ghost predicate Valid()
      reads this
    {
      DistinctIds(fields) && forall k :: 0 <= k < |fields| ==> ValidField(fields[k])
    }

    /** The constructor: keeps, in declaration order, the fields the mode has. */
    constructor (mode: CalibrationMode)
      requires AllReadable(mode.values, AllFields)
      ensures this.mode == mode && Valid()
      ensures fields == Considered(mode.values, AllFields)
    {
      this.mode := mode;
      var kept := FilterFields(mode.values, AllFields);
      fields := kept;
      IteratorFieldsValid(mode.values);
      AllFieldsDistinct();
      ConsideredDistinct(mode.values, AllFields);
    }

    /**
     * `ForModeAndItsVariations`: the modes handed to the callback, in
     * order, with their labels: the starting mode ("mid"), every field at
     * the last value of its range ("max"), every field at the first
     * ("min"). The starting mode itself is not changed.
     */
    method ForModeAndItsVariations(starting: CalibrationMode) returns (calls: seq<(ModeValues, string)>)
      requires Valid() && AllReadable(starting.values, fields)
      ensures |calls| == 3
      ensures calls[0] == (starting.values, "mid")
      ensures calls[1] == (Assigned(starting.values, fields, seq(|fields|, _ => false)), "max")
      ensures calls[2] == (Assigned(starting.values, fields, seq(|fields|, _ => true)), "min")
      ensures ReadsChosenEnds(starting.values, fields, seq(|fields|, _ => false), calls[1].0)
      ensures ReadsChosenEnds(starting.values, fields, seq(|fields|, _ => true), calls[2].0)
    {
      calls := [(starting.values, "mid")];
      for i := 0 to 2
        invariant |calls| == 1 + i && calls[0] == (starting.values, "mid")
        invariant i >= 1 ==> calls[1] == (Assigned(starting.values, fields, seq(|fields|, _ => false)), "max")
        invariant i >= 2 ==> calls[2] == (Assigned(starting.values, fields, seq(|fields|, _ => true)), "min")
      {
        var m := starting.Clone();
        var firsts := seq(|fields|, _ => i != 0);
        SetEnds(fields, m, firsts);
        calls := calls + [(m.values, if i == 0 then "max" else "min")];
      }
      AssignedReadsAll(starting.values, fields, seq(|fields|, _ => false));
      AssignedReadsAll(starting.values, fields, seq(|fields|, _ => true));
    }

    /**
     * `ForEachMinMaxPermutation`: the permutation values `2^n … 1`
     * shuffled with `draws`, and the modes handed to the callback: the
     * starting mode, then one per permutation value, with field `k` at the
     * first value of its range where bit `k` of the value is set and at
     * the last where it is clear.
     */
    method ForEachMinMaxPermutation(starting: CalibrationMode, draws: seq<int>)
      returns (permutations: seq<int>, calls: seq<ModeValues>)
      requires Valid() && AllReadable(starting.values, fields)
      requires ValidDraws(draws, Pow2(|fields|))
      ensures |calls| == Pow2(|fields|) + 1 && calls[0] == starting.values
      ensures multiset(permutations) == multiset(Countdown(Pow2(|fields|)))
      ensures |permutations| == Pow2(|fields|)
      ensures forall t :: 0 <= t < |permutations| ==> 1 <= permutations[t] <= Pow2(|fields|)
      ensures permutations == FisherYates(Countdown(Pow2(|fields|)), Pow2(|fields|), draws)
      ensures forall t :: 0 <= t < |permutations| ==>
        calls[t + 1] == Assigned(starting.values, fields, Bits(permutations[t], |fields|))
      ensures forall t :: 0 <= t < |permutations| ==>
        ReadsChosenEnds(starting.values, fields, Bits(permutations[t], |fields|), calls[t + 1])
    {
      calls := [starting.values];
      var fs := fields;
      var count := PowerOfTwo(fs);
      var values := PermutationList(count);
      var list := new int[|values|](t requires 0 <= t < |values| => values[t]);
      assert list[..] == values;
      Shuffle(list, draws);
      permutations := list[..];
      CountdownValues(permutations, count);
      calls := CallBacks(starting.values, fs, permutations);
      forall t | 0 <= t < |permutations|
        ensures ReadsChosenEnds(starting.values, fields, Bits(permutations[t], |fields|), calls[t + 1])
      {
        AssignedReadsAll(starting.values, fields, Bits(permutations[t], |fields|));
      }
    }
  }

  /** The doubling loop over the fields: `2^n` for `n` fields. */
  method PowerOfTwo(fs: seq<OptionsField>) returns (count: nat)
    ensures count == Pow2(|fs|)
  {
    count := 1;
    for k := 0 to |fs|
      invariant count == Pow2(k)
    {
      count := count * 2;
    }
  }

  /** The loop over the shuffled values: the starting mode, then one assigned copy per value. */
  method CallBacks(start: ModeValues, fs: seq<OptionsField>, permutations: seq<int>) returns (calls: seq<ModeValues>)
    requires AllReadable(start, fs) && forall k :: 0 <= k < |fs| ==> ValidField(fs[k])
    requires forall t :: 0 <= t < |permutations| ==> 0 <= permutations[t]
    ensures |calls| == |permutations| + 1 && calls[0] == start
    ensures forall t :: 0 <= t < |permutations| ==>
      calls[t + 1] == Assigned(start, fs, Bits(permutations[t], |fs|))
  {
    calls := [start];
    for t := 0 to |permutations|
      invariant |calls| == 1 + t && calls[0] == start
      invariant forall u :: 0 <= u < t ==> calls[u + 1] == Assigned(start, fs, Bits(permutations[u], |fs|))
    {
      var firsts := Bits(permutations[t], |fs|);
      var m := new CalibrationMode(start);
      assert AllReadable(m.values, fs);
      SetEnds(fs, m, firsts);
      calls := calls + [m.values];
    }
  }

  /** The constructor's loop: keeps, in order, the fields that do not read -1. */
  method FilterFields(m: ModeValues, fs: seq<OptionsField>) returns (kept: seq<OptionsField>)
    requires AllReadable(m, fs)
    ensures kept == Considered(m, fs)
  {
    kept := [];
    for k := 0 to |fs|
      invariant kept == Considered(m, fs[..k])
    {
      assert fs[..k + 1][..k] == fs[..k];
      if fs[k].GetFieldValue(m) != -1 {
        kept := kept + [fs[k]];
      }
    }
    assert fs[..|fs|] == fs;
  }

  /** The fields the constructor keeps can all be built and have both ends. */
  lemma IteratorFieldsValid(m: ModeValues)
    requires AllReadable(m, AllFields)
    ensures forall k :: 0 <= k < |Considered(m, AllFields)| ==> ValidField(Considered(m, AllFields)[k])
  {
    ConsideredProperties(m, AllFields);
    AllFieldsValid();
  }

  /** The countdown loop `while (iterator > 0) permutations.Add(iterator--)`. */
  method PermutationList(count: nat) returns (values: seq<int>)
    ensures values == Countdown(count)
  {
    values := [];
    var i := count;
    while i > 0
      invariant 0 <= i <= count
      invariant values == Countdown(count)[..count - i]
    {
      values := values + [i];
      i := i - 1;
    }
  }

  /** The inner loop of both enumerations: sets each field of `fs`, in order, to one end of its range. */
  method SetEnds(fs: seq<OptionsField>, mode: CalibrationMode, firsts: seq<bool>)
    requires |firsts| == |fs| && AllReadable(mode.values, fs)
    requires forall k :: 0 <= k < |fs| ==> ValidField(fs[k])
    modifies mode
    ensures mode.values == Assigned(old(mode.values), fs, firsts)
  {
    ghost var start := mode.values;
    for k := 0 to |fs|
      invariant mode.values == Assigned(start, fs[..k], firsts[..k])
    {
      assert fs[..k + 1][..k] == fs[..k] && firsts[..k + 1][..k] == firsts[..k];
      var range := GetRange(fs[k].range);
      fs[k].SetFieldValue(mode, if firsts[k] then range[0] else range[|range| - 1]);
    }
    assert fs[..|fs|] == fs && firsts[..|firsts|] == firsts;
  }

  /** A shuffled countdown holds the values `1 .. count`. */
  lemma CountdownValues(s: seq<int>, count: nat)
    requires multiset(s) == multiset(Countdown(count))
    ensures |s| == count && forall t :: 0 <= t < |s| ==> 1 <= s[t] <= count
  {
    assert |s| == |multiset(s)| == |multiset(Countdown(count))| == count;
    forall t | 0 <= t < |s|
      ensures 1 <= s[t] <= count
    {
      assert s[t] in multiset(s);
      assert s[t] in Countdown(count);
    }
  }

  // ---------------------------------------------------------------------
  // The bits of a permutation value
  // ---------------------------------------------------------------------

  /** The number whose bit `k` is `b[k]`. */
  function Encode(b: seq<bool>): nat
  {
    if b == [] then 0 else (if b[0] then 1 else 0) + 2 * Encode(b[1..])
  }

  /** Quotient and remainder are the unique decomposition. */
  lemma DivModUnique(p: int, m: int, q: int, c: int)
    requires 0 < m && p == m * q + c && 0 <= c < m
    ensures p / m == q && p % m == c
  {
    var d := p / m - q;
    assert m * (p / m) + p % m == p;
    assert d * m == c - p % m;
    assert (-d) * m == p % m - c;
    ProductBelow(d, m);
    ProductBelow(-d, m);
  }

  lemma HalfDivision(p: nat, m: nat)
    requires 0 < m
    ensures p / (2 * m) == (p / 2) / m
    ensures p % (2 * m) == 2 * ((p / 2) % m) + p % 2
  {
    var a, r := p / 2, p % 2;
    var b, c := a / m, a % m;
    assert p == (2 * m) * b + (2 * c + r);
    DivModUnique(p, 2 * m, b, 2 * c + r);
  }

  /** Bit `k + 1` of `p` is bit `k` of `p / 2`. */
  lemma BitOfHalf(p: nat, k: nat)
    ensures BitSet(p, k + 1) == BitSet(p / 2, k)
  {
    HalfDivision(p, Pow2(k));
  }

  lemma {:induction false} BitsOfEncode(b: seq<bool>)
    ensures Bits(Encode(b), |b|) == b
    decreases |b|
  {
    if b != [] {
      var e := Encode(b);
      var rest := Encode(b[1..]);
      BitsOfEncode(b[1..]);
      assert e / 2 == rest && e % 2 == (if b[0] then 1 else 0);
      forall k | 0 <= k < |b|
        ensures BitSet(e, k) == b[k]
      {
        if k > 0 {
          BitOfHalf(e, k - 1);
          assert BitSet(rest, k - 1) == Bits(rest, |b| - 1)[k - 1] == b[1..][k - 1];
        }
      }
    }
  }

  lemma {:induction false} EncodeOfBits(p: nat, n: nat)
    ensures Encode(Bits(p, n)) == p % Pow2(n)
    decreases n
  {
    if n > 0 {
      var b := Bits(p, n);
      EncodeOfBits(p / 2, n - 1);
      assert b[1..] == Bits(p / 2, n - 1) by {
        forall k | 0 <= k < n - 1
          ensures b[1..][k] == Bits(p / 2, n - 1)[k]
        {
          BitOfHalf(p, k);
        }
      }
      HalfDivision(p, Pow2(n - 1));
    }
  }

  /**
   * The permutation values `1 .. 2^n` give every one of the `2^n` choices
   * of ends, each exactly once; `2^n` gives the choice of all last values.
   */
  lemma MasksAreAll(n: nat, b: seq<bool>)
    requires |b| == n
    ensures exists p :: 1 <= p <= Pow2(n) && Bits(p, n) == b
  {
    var e := Encode(b);
    BitsOfEncode(b);
    EncodeOfBits(e, n);
    assert e < Pow2(n) by {
      EncodeOfBits(e, n);
      assert e == Encode(Bits(e, n));
    }
    if e == 0 {
      var p := Pow2(n);
      EncodeOfBits(p, n);
      DivModUnique(p, p, 1, 0);
      BitsOfEncode(Bits(p, n));
      assert Bits(p, n) == b by {
        assert Encode(Bits(p, n)) == 0 == Encode(b);
        BitsOfEncode(b);
      }
    }
  }

  lemma MasksDistinct(n: nat, p: nat, q: nat)
    requires 1 <= p <= Pow2(n) && 1 <= q <= Pow2(n) && Bits(p, n) == Bits(q, n)
    ensures p == q
  {
    EncodeOfBits(p, n);
    EncodeOfBits(q, n);
    ModuloInRange(p, Pow2(n));
    ModuloInRange(q, Pow2(n));
  }

  lemma ModuloInRange(p: nat, m: nat)
    requires 1 <= p <= m
    ensures p % m == if p == m then 0 else p
  {
    if p == m {
      DivModUnique(p, m, 1, 0);
    } else {
      DivModUnique(p, m, 0, p);
    }
  }

  /**
   * The callbacks after the first cover every choice of ends exactly once:
   * a shuffled countdown from `2^n` has one value for each choice, and no
   * two of its values make the same choice.
   */
  lemma EachChoiceOnce(permutations: seq<int>, n: nat, b: seq<bool>)
    requires multiset(permutations) == multiset(Countdown(Pow2(n))) && |b| == n
    ensures forall t :: 0 <= t < |permutations| ==> 1 <= permutations[t] <= Pow2(n)
    ensures exists t :: 0 <= t < |permutations| && Bits(permutations[t], n) == b
    ensures forall t, u :: 0 <= t < u < |permutations| ==> Bits(permutations[t], n) != Bits(permutations[u], n)
  {
    CountdownValues(permutations, Pow2(n));
    MasksAreAll(n, b);
    var p :| 1 <= p <= Pow2(n) && Bits(p, n) == b;
    assert p in Countdown(Pow2(n)) by {
      assert Countdown(Pow2(n))[Pow2(n) - p] == p;
    }
    assert p in multiset(permutations);
    var t :| 0 <= t < |permutations| && permutations[t] == p;
    forall t, u | 0 <= t < u < |permutations|
      ensures Bits(permutations[t], n) != Bits(permutations[u], n)
    {
      if Bits(permutations[t], n) == Bits(permutations[u], n) {
        MasksDistinct(n, permutations[t], permutations[u]);
        Repeated(permutations, t, u);
        CountdownOnce(Pow2(n), permutations[t]);
      }
    }
  }

  lemma Repeated(s: seq<int>, t: nat, u: nat)
    requires t < u < |s| && s[t] == s[u]
    ensures multiset(s)[s[t]] >= 2
  {
    assert s == s[..u] + [s[u]] + s[u + 1..];
    assert s[t] in s[..u];
    assert multiset(s) == multiset(s[..u]) + multiset{s[u]} + multiset(s[u + 1..]);
  }

  lemma {:induction false} CountdownOnce(count: nat, v: int)
    requires 1 <= v <= count
    ensures multiset(Countdown(count))[v] == 1
    decreases count
  {
    assert Countdown(count) == [count] + Countdown(count - 1);
    if v < count {
      CountdownOnce(count - 1, v);
    } else {
      assert v !in Countdown(count - 1);
    }
  }
}
