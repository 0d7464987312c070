# EyeTrackingMouse calibration core, modelled in Dafny

EyeTrackingMouse moves the mouse pointer where the user looks. Eye trackers
are imprecise, so the program learns corrections: each time the user nudges
the pointer after a gaze jump, the pixel shift is stored together with the
gaze position (screen X and Y, optionally eye and head pose axes). Later
gaze positions are corrected by blending the shifts stored nearby.

This project models that core and proves what it promises:

- `ShiftsStorage` (module `ShiftsStore`, file `shifts_storage.dfy`): the store of
  corrections. It finds the entries nearest to a position, blends their shifts
  by inverse distance, and records a new correction. A new correction overwrites
  a near entry, is appended, or evicts the nearest entry of the most crowded
  500-pixel sector. The store is also reconciled after the settings change.
  `Positions` (`positions.dfy`) holds the position type, its density sectors and
  its weighted squared distance.
- `CalibrationManagerV0` (module `CalibrationV0`): plain inverse-distance
  weights. Its shared arithmetic is in `InverseDistance`.
- `CalibrationManagerV1` (module `CalibrationV1`): inverse-distance weights
  refined by directional shading. Nearer corrections shade farther ones in the
  same direction, and heavily shaded ones are dropped.
- `CoordinateSmoother` (module `Smoothing`): a window of recent gaze samples,
  newest first. The window is cut to a length and cleared of samples that jumped
  away, then averaged.
- `CalibrationModeIterator` (module `ModeIterator`): the blind configuration
  tester's walk over calibration settings. It covers value ranges, stepping a
  setting along its range, and every choice of extreme values.
- `Study` and `Extensions.Shuffle` (modules `Studies` and `Extensions`): a
  blind study session runs every configuration once, in shuffled order.
  `GetInfo` is the study's text report.

Doubles and floats are exact reals. The C# `(int)` cast and the integer `/`
both truncate toward zero (`Numeric.Trunc`, `Numeric.DivTrunc`). The distance
between positions is a function parameter `dist`. `Positions` models the loop
that computes it, up to the square root. The random generator is replaced by
the sequence of values it draws. The shading angle between two corrections
comes in as an input.

## Model

| member | source | states |
|---|---|---|
| Numeric.Trunc | eye_tracking_mouse/ShiftsStorage.cs:42 | the `(int)` cast of a double keeps the integer part, rounding toward zero, on both signs |
| Numeric.DivTrunc | eye_tracking_mouse/CoordinateSmoother.cs:34-35 | C# integer division: the remainder has the dividend's sign and is smaller than the divisor in magnitude |
| Numeric.TruncTowardZero | eye_tracking_mouse/ShiftsStorage.cs:232-233 | truncation never moves a value away from zero |
| Numeric.DivTruncBetween | eye_tracking_mouse/CoordinateSmoother.cs:34-35 | the integer mean of a sum between `lo*n` and `hi*n` lies between `lo` and `hi` |
| Positions.SectorX | eye_tracking_mouse/ShiftsStorage.cs:36-44 | a non-negative X lies in sector `s` when `500s <= X < 500(s+1)`; a negative X gives a sector of at most 0 |
| Positions.SectorY | eye_tracking_mouse/ShiftsStorage.cs:46-53 | the same for Y |
| Positions.SquaredDistance | eye_tracking_mouse/ShiftsStorage.cs:55-64 | the loop sums every axis's squared difference, with weight 1 on X and Y and `(detalization/10)^2` beyond; the sum is non-negative |
| Positions.WeightedSquaredSumNonNegative | eye_tracking_mouse/ShiftsStorage.cs:57-62 | the weighted squared sum is never negative |
| Positions.WeightedSquaredSumSymmetric | eye_tracking_mouse/ShiftsStorage.cs:57-62 | the distance from a to b equals the distance from b to a |
| Positions.WeightedSquaredSumToItself | eye_tracking_mouse/ShiftsStorage.cs:57-62 | a position is at distance 0 from itself |
| InverseDistance.ReverseDistanceSum | eye_tracking_mouse/CalibrationManagerV0.cs:28-32 | `sum_of_reverse_distances` is non-negative, and positive when there is a neighbour |
| InverseDistance.SumOfReverseDistances | eye_tracking_mouse/CalibrationManagerV0.cs:28-32 | the summing loop computes Σ 1/d over the neighbours |
| InverseDistance.ScaledReverseSumIsQuotient | eye_tracking_mouse/CalibrationManagerV0.cs:34-37 | dividing every 1/d by `s` divides their sum by `s` |
| InverseDistance.InverseDistanceWeightsSumToOne | eye_tracking_mouse/CalibrationManagerV0.cs:34-37 | the weights `(1/d)/Σ(1/d)` of a non-empty set sum to 1 |
| InverseDistance.ReverseDistanceWithinSum | eye_tracking_mouse/CalibrationManagerV0.cs:28-32 | no single 1/d exceeds the sum |
| InverseDistance.InverseDistanceWeightBounds | eye_tracking_mouse/CalibrationManagerV0.cs:34-37 | every weight lies in (0, 1] |
| InverseDistance.CloserWeighsMore | eye_tracking_mouse/CalibrationManagerV0.cs:34-37 | a nearer neighbour never gets a smaller weight |
| InverseDistance.TotalOfScaledWeights | eye_tracking_mouse/CalibrationManagerV0.cs:34-37 | a list whose weights are `(1/d)/s` has total weight Σ(1/d)/s |
| InverseDistance.LabelPercent | eye_tracking_mouse/CalibrationManagerV0.cs:43 | the label `(int)(weight*100)` of a weight in [0,1] is a whole percentage in [0,100], the floor of 100·weight |
| ShiftsStore.Floored | eye_tracking_mouse/ShiftsStorage.cs:372-374 | distances below 0.1 become 0.1; others are unchanged |
| ShiftsStore.ShiftsStorage.GetClosestShiftIndexes | eye_tracking_mouse/ShiftsStorage.cs:364-398 | `null` exactly for an empty store; otherwise the `max(number,1)` entries nearest to the position (all of them if fewer), nearest first, ties to the earlier entry, each with its floored distance; every entry left out ranks after all listed ones |
| ShiftsStore.ClosestComesFirst | eye_tracking_mouse/ShiftsStorage.cs:376-392 | the head of a closest list is at least as near as every entry of the store |
| ShiftsStore.InsertKeepsRanked | eye_tracking_mouse/ShiftsStorage.cs:382-392 | inserting a new entry before the first farther one keeps the list strictly ranked |
| ShiftsStore.InsertedLayout | eye_tracking_mouse/ShiftsStorage.cs:387 | `Insert(j, x)` puts `x` at `j`, keeps the entries before and shifts those after by one |
| ShiftsStore.InsertedPicks | eye_tracking_mouse/ShiftsStorage.cs:387 | after the insertion every entry listed before is still listed, and so is the new one |
| ShiftsStore.PicksAppended | eye_tracking_mouse/ShiftsStorage.cs:391-392 | an index listed after `Add(z)` was listed before or is `z`'s |
| ShiftsStore.SelectionStep | eye_tracking_mouse/ShiftsStorage.cs:370-396 | one pass of the outer loop (insert in order, cut back to `number`) turns the closest list of the first `i` entries into that of the first `i+1` |
| ShiftsStore.TruncatedStep | eye_tracking_mouse/ShiftsStorage.cs:394-395 | cutting off the last entry keeps the list measured, ranked and ahead of every entry left out |
| ShiftsStore.CutWasLast | eye_tracking_mouse/ShiftsStorage.cs:394-395 | an entry lost by the cut was the last, so it ranks after every remaining one |
| ShiftsStore.LeftOutBefore | eye_tracking_mouse/ShiftsStorage.cs:382-395 | an entry left out before the insertion still ranks after every listed entry once the last is cut |
| ShiftsStore.SumReverseDistances | eye_tracking_mouse/ShiftsStorage.cs:223-227 | the loop computes Σ 1/d over the closest entries |
| ShiftsStore.BlendNeighbours | eye_tracking_mouse/ShiftsStorage.cs:229-236 | the loop adds, per axis, each shift divided by its distance and by the sum, each term truncated toward zero |
| ShiftsStore.ShiftsStorage.GetShift | eye_tracking_mouse/ShiftsStorage.cs:210-238 | `(0,0)` for an empty store; otherwise the blend over the `considered` closest entries |
| ShiftsStore.BlendTermBound | eye_tracking_mouse/ShiftsStorage.cs:232-233 | one truncated weighted term added to a bounded partial sum stays within the bound plus its weight |
| ShiftsStore.BlendAxisBound | eye_tracking_mouse/ShiftsStorage.cs:229-234 | a blended axis is bounded by the largest shift magnitude times the summed weights |
| ShiftsStore.BlendWithinShifts | eye_tracking_mouse/ShiftsStorage.cs:223-236 | the returned correction never exceeds, on either axis, the largest shift magnitude among the neighbours |
| ShiftsStore.MaxSectorX | eye_tracking_mouse/ShiftsStorage.cs:323-326 | `max_sector_x` is non-negative, at least every entry's sector X, and 0 or some entry's sector X |
| ShiftsStore.ComputeMaxSectorX | eye_tracking_mouse/ShiftsStorage.cs:323-326 | the loop computes that maximum |
| ShiftsStore.SectorNumberInjective | eye_tracking_mouse/ShiftsStorage.cs:314-317 | within the numbered rectangle two entries share a sector number only when they share both sector coordinates |
| ShiftsStore.OccurrencesOfMember | eye_tracking_mouse/ShiftsStorage.cs:329-336 | a number present in the list is counted at least once |
| ShiftsStore.OccurrencesOfNonMember | eye_tracking_mouse/ShiftsStorage.cs:329-336 | a number absent from the list is counted zero times |
| ShiftsStore.TallyCounts | eye_tracking_mouse/ShiftsStorage.cs:328-336 | the dictionary holds exactly the sector numbers that occur, each with its number of entries |
| ShiftsStore.TallyStep | eye_tracking_mouse/ShiftsStorage.cs:331-335 | one pass adds the sector with count 0 if new, then increments it |
| ShiftsStore.KeysListedStep | eye_tracking_mouse/ShiftsStorage.cs:332-333 | the dictionary's enumeration order gains a key exactly when the key is first added |
| ShiftsStore.CountSectors | eye_tracking_mouse/ShiftsStorage.cs:328-336 | the counting loop builds that tally and its key order |
| ShiftsStore.LargestCount | eye_tracking_mouse/ShiftsStorage.cs:338-344 | the loop over `ElementAt(i)` finds a count at least every sector's, and 0 or one of them |
| ShiftsStore.DensityFromCounts | eye_tracking_mouse/ShiftsStorage.cs:328-336 | an entry's sector count is the number of entries sharing its sector |
| ShiftsStore.DensestFromCounts | eye_tracking_mouse/ShiftsStorage.cs:338-350 | with the largest count, an entry is in a fullest sector exactly when its density equals that count |
| ShiftsStore.DensestExists | eye_tracking_mouse/ShiftsStorage.cs:338-350 | a non-empty store has an entry in a fullest sector |
| ShiftsStore.ListedCountHeld | eye_tracking_mouse/ShiftsStorage.cs:338-344 | the largest count belongs to the sector of some entry |
| ShiftsStore.NearestInDensest | eye_tracking_mouse/ShiftsStorage.cs:346-361 | the final loop finds, among entries of fullest sectors, one nearest to the position, the first on a tie, whenever there is one |
| ShiftsStore.DensestClosestFound | eye_tracking_mouse/ShiftsStorage.cs:346-361 | that search result is the nearest entry of a densest sector |
| ShiftsStore.ShiftsStorage.GetClosestPointOfHighestDensity | eye_tracking_mouse/ShiftsStorage.cs:319-362 | for a non-empty store, the index of the entry nearest to the position among those in the most populated sectors, the earliest on a tie |
| ShiftsStore.ShiftsStorage.AddShift | eye_tracking_mouse/ShiftsStorage.cs:284-303 | the new store: the nearest entry inside the zone is overwritten (and the second nearest removed if also inside); otherwise the item is appended while below `max_zones_count`, else it replaces the densest-closest entry |
| ShiftsStore.RecordedWithinCapacity | eye_tracking_mouse/ShiftsStorage.cs:284-303 | a store at or below capacity stays at or below it, and the new item is in it |
| ShiftsStore.RecordedInsideZoneDoesNotGrow | eye_tracking_mouse/ShiftsStorage.cs:286-292 | a correction within the zone of an existing entry overwrites instead of adding: the store does not grow |
| ShiftsStore.FindCloseLater | eye_tracking_mouse/ShiftsStorage.cs:255-263 | the inner loop finds a later entry within the zone of entry `i`, or proves there is none |
| ShiftsStore.DropStep | eye_tracking_mouse/ShiftsStorage.cs:257-261 | removing entry `i`, which has a later close entry, is a step of the first pass |
| ShiftsStore.KeepStep | eye_tracking_mouse/ShiftsStorage.cs:265-266 | moving past entry `i`, which no later entry is close to, is a step of the first pass |
| ShiftsStore.LastStep | eye_tracking_mouse/ShiftsStorage.cs:252 | the loop stops before the last entry, which has nothing after it |
| ShiftsStore.ShiftsStorage.DropClosePairs | eye_tracking_mouse/ShiftsStorage.cs:251-267 | the first loop leaves the store without close pairs, as `WithoutClosePairs` defines, and keeps it valid |
| ShiftsStore.SubsequenceKeepsScreenAxes | eye_tracking_mouse/ShiftsStorage.cs:251-271 | removing entries from a store whose entries all have screen X and Y leaves entries that have them |
| ShiftsStore.WithoutClosePairsIsSubsequence | eye_tracking_mouse/ShiftsStorage.cs:251-267 | the first pass only removes entries and keeps the order of the rest |
| ShiftsStore.WithoutClosePairsSeparated | eye_tracking_mouse/ShiftsStorage.cs:251-267 | after the first pass no entry lies within the zone of an earlier one |
| ShiftsStore.SeparatedHasNoClosePairs | eye_tracking_mouse/ShiftsStorage.cs:251-267 | a store without close pairs passes the first pass unchanged |
| ShiftsStore.KeepNewest | eye_tracking_mouse/ShiftsStorage.cs:269-271 | the second pass keeps the `min(count, max_zones_count)` most recent entries |
| ShiftsStore.SuffixSeparated | eye_tracking_mouse/ShiftsStorage.cs:269-271 | dropping the oldest entries keeps the store free of close pairs |
| ShiftsStore.ShiftsStorage.OnSettingsChanged | eye_tracking_mouse/ShiftsStorage.cs:249-274 | with a non-negative `max_zones_count` it succeeds: close pairs are dropped, then only the newest `max_zones_count` entries are kept; with a negative one the second loop empties the store and `RemoveAt(0)` throws, so it fails and leaves the store empty; either way every entry keeps screen X and Y, so `AddShift` may follow |
| ShiftsStore.ReconciledProperties | eye_tracking_mouse/ShiftsStorage.cs:249-274 | after reconciling: at most `max_zones_count` entries, no two within a zone of each other, all from the old store in their order |
| ShiftsStore.ReconciledIdempotent | eye_tracking_mouse/ShiftsStorage.cs:249-274 | reconciling again with the same settings changes nothing |
| ShiftsStore.ShiftsStorage.constructor | eye_tracking_mouse/ShiftsStorage.cs:118-122 | the store starts with the loaded entries |
| ShiftsStore.ShiftsStorage.Reset | eye_tracking_mouse/ShiftsStorage.cs:240-247 | the store is empty, and valid, afterwards |
| CalibrationV0.InverseDistanceWeighted | eye_tracking_mouse/CalibrationManagerV0.cs:34-37 | one weight per neighbour |
| CalibrationV0.AssignWeights | eye_tracking_mouse/CalibrationManagerV0.cs:34-37 | the loop gives each neighbour the weight `1/d/Σ(1/d)` |
| CalibrationV0.WeightedKeepsNeighbours | eye_tracking_mouse/CalibrationManagerV0.cs:34-37 | weighting keeps every neighbour's index and distance, in order |
| CalibrationV0.WeightsSumToOne | eye_tracking_mouse/CalibrationManagerV0.cs:28-37 | the weights of a non-empty neighbour list sum to 1 |
| CalibrationV0.WeightsWithinUnit | eye_tracking_mouse/CalibrationManagerV0.cs:34-37 | every weight lies in (0, 1] |
| CalibrationV0.CloserNeighbourWeighsMore | eye_tracking_mouse/CalibrationManagerV0.cs:34-37 | a nearer neighbour never weighs less |
| CalibrationV0.Labels | eye_tracking_mouse/CalibrationManagerV0.cs:39-45 | one label per neighbour, a percentage in [0,100] with the neighbour's index |
| CalibrationV0.LabelsArePercentages | eye_tracking_mouse/CalibrationManagerV0.cs:39-45 | the labels of the weighted neighbours are percentages in [0,100] |
| CalibrationV0.CalibrationManagerV0.GetShiftWeights | eye_tracking_mouse/CalibrationManagerV0.cs:15-37 | no neighbours (empty store) means no weights; otherwise the inverse-distance weights |
| CalibrationV0.CalibrationManagerV0.AddShift | eye_tracking_mouse/CalibrationManagerV0.cs:51-54 | the store records the correction as its own `AddShift` does |
| CalibrationV0.CalibrationManagerV0.Reset | eye_tracking_mouse/CalibrationManagerV0.cs:61-64 | the store is empty and valid afterwards |
| CalibrationV0.CalibrationManagerV0.constructor | eye_tracking_mouse/CalibrationManagerV0.cs:71 | the manager owns a new, valid store holding the corrections the loader hands it |
| CalibrationV1.BaseOpacityAsWritten | eye_tracking_mouse/CalibrationManagerV1.cs:65-77 | the opacity as the source computes it is undefined (0/0) exactly when the sectors fill 100% and the angle equals the opaque sector |
| CalibrationV1.AsWrittenOpacityUndefined | eye_tracking_mouse/CalibrationManagerV1.cs:76-77 | opaque 40, transparent 60 and angle 40 give 0/0 |
| CalibrationV1.BaseOpacity | eye_tracking_mouse/CalibrationManagerV1.cs:65-77 | the opacity lies in [0,1] and agrees with the source wherever the source's value is defined; it is 1 at the undefined point |
| CalibrationV1.RampEnds | eye_tracking_mouse/CalibrationManagerV1.cs:71-77 | a ramp starts at opacity 1 at the opaque edge and ends at 0 at the transparent edge |
| CalibrationV1.OpacityNonIncreasing | eye_tracking_mouse/CalibrationManagerV1.cs:71-77 | a wider angle never gives a larger opacity |
| CalibrationV1.ShadeOpacity | eye_tracking_mouse/CalibrationManagerV1.cs:57-84 | the shade a nearer source casts lies between 0 and the source's weight |
| CalibrationV1.Faded | eye_tracking_mouse/CalibrationManagerV1.cs:79-81 | an opacity faded in proportion to a gap below the shade thickness stays in [0,1] |
| CalibrationV1.NoShadeAtEqualDistance | eye_tracking_mouse/CalibrationManagerV1.cs:79-81 | a source at the shaded correction's own distance casts no shade |
| CalibrationV1.FullShadeBeyondThickness | eye_tracking_mouse/CalibrationManagerV1.cs:79-83 | beyond the shade thickness the full opacity applies, times the source's weight |
| CalibrationV1.SortedWithoutNext | eye_tracking_mouse/CalibrationManagerV1.cs:96-97 | removing the next neighbour keeps the list nearest first |
| CalibrationV1.SortedKeepingNext | eye_tracking_mouse/CalibrationManagerV1.cs:90-99 | rewriting the next neighbour's weight keeps the list nearest first |
| CalibrationV1.ShadeDropsNext | eye_tracking_mouse/CalibrationManagerV1.cs:96-97 | a neighbour left with at most 0.01 is removed |
| CalibrationV1.ShadeKeepsNext | eye_tracking_mouse/CalibrationManagerV1.cs:90-99 | a neighbour left with more joins the survivors with its new weight |
| CalibrationV1.ShadeKeepsSurvivors | eye_tracking_mouse/CalibrationManagerV1.cs:88-100 | survivors already visited stay in front, and every survivor keeps more than 0.01 |
| CalibrationV1.ShadeIsSubsequence | eye_tracking_mouse/CalibrationManagerV1.cs:88-100 | the survivors are input neighbours, in their order |
| CalibrationV1.ShadedBySurvivorsStep | eye_tracking_mouse/CalibrationManagerV1.cs:90-95 | appending the next neighbour with its shaded weight keeps every weight equal to 1 less the shade of the survivors before it |
| CalibrationV1.ShadeIsConsistent | eye_tracking_mouse/CalibrationManagerV1.cs:88-100 | every survivor's weight is 1 less the shade of the survivors before it |
| CalibrationV1.ShadeSumIgnoresWeight | eye_tracking_mouse/CalibrationManagerV1.cs:90-95 | the shade on a neighbour does not depend on its own old weight |
| CalibrationV1.ShadeSumNonNegative | eye_tracking_mouse/CalibrationManagerV1.cs:92-95 | survivors with non-negative weights cast a non-negative shade |
| CalibrationV1.ShadeKeepsNearest | eye_tracking_mouse/CalibrationManagerV1.cs:88-100 | the nearest neighbour always survives, with weight exactly 1 |
| CalibrationV1.ShadeWeightsWithin | eye_tracking_mouse/CalibrationManagerV1.cs:88-100 | every survivor's weight lies in (0.01, 1] |
| CalibrationV1.ShadeProperties | eye_tracking_mouse/CalibrationManagerV1.cs:86-101 | `ApplyShades`: the nearest survives with weight 1; every survivor keeps a weight in (0.01, 1] equal to 1 less the shade of the earlier survivors; the survivors are input neighbours in order |
| CalibrationV1.ShadeWeight | eye_tracking_mouse/CalibrationManagerV1.cs:90-95 | the inner loop computes 1 less the shade of every survivor before neighbour `i` |
| CalibrationV1.DropStep | eye_tracking_mouse/CalibrationManagerV1.cs:96-97 | `RemoveAt(i)` of a neighbour left with too little weight is a step of the shading |
| CalibrationV1.KeepStep | eye_tracking_mouse/CalibrationManagerV1.cs:98-99 | rewriting neighbour `i`'s weight and moving on is a step of the shading |
| CalibrationV1.ApplyShades | eye_tracking_mouse/CalibrationManagerV1.cs:86-101 | the in-place loop leaves exactly the shaded list |
| CalibrationV1.Rescaled | eye_tracking_mouse/CalibrationManagerV1.cs:38-41 | rescaling keeps every neighbour's index and distance |
| CalibrationV1.RescaleWeights | eye_tracking_mouse/CalibrationManagerV1.cs:38-41 | the loop divides every weight by its distance and by `sum_of_reverse_distances` |
| CalibrationV1.SurvivorsArePositive | eye_tracking_mouse/CalibrationManagerV1.cs:36-41 | the survivors keep positive distances, so the division is defined |
| CalibrationV1.ShadedWeights | eye_tracking_mouse/CalibrationManagerV1.cs:29-41 | the weighted survivors are input neighbours, in order |
| CalibrationV1.ShadedWeightsBounded | eye_tracking_mouse/CalibrationManagerV1.cs:29-41 | shading only takes weight away: each weight before normalisation is positive and at most the plain inverse-distance weight |
| CalibrationV1.CalibrationManagerV1.GetShiftWeights | eye_tracking_mouse/CalibrationManagerV1.cs:15-41 | no neighbours means no weights; otherwise Σ 1/d over all neighbours, shading, then division of each survivor's weight |
| CalibrationV1.CalibrationManagerV1.AddShift | eye_tracking_mouse/CalibrationManagerV1.cs:103-106 | the store records the correction as its own `AddShift` does |
| CalibrationV1.CalibrationManagerV1.Reset | eye_tracking_mouse/CalibrationManagerV1.cs:113-116 | the store is empty and valid afterwards |
| CalibrationV1.CalibrationManagerV1.constructor | eye_tracking_mouse/CalibrationManagerV1.cs:123 | the manager owns a new, valid store holding the corrections the loader hands it |
| Smoothing.IsFarFrom | eye_tracking_mouse/CoordinateSmoother.cs:57-69 | the predicate's loop: another number of coordinates, or a coordinate further than `jump` |
| Smoothing.CoordinateSmoother.RemoveFar | eye_tracking_mouse/CoordinateSmoother.cs:57-69 | `RemoveAll` keeps, in order, the samples not far from the new one |
| Smoothing.KeptProperties | eye_tracking_mouse/CoordinateSmoother.cs:57-69 | what `RemoveAll` keeps is an ordered selection, all near the new sample |
| Smoothing.NotFarFromItself | eye_tracking_mouse/CoordinateSmoother.cs:59-68 | a sample is never far from itself with a non-negative jump distance |
| Smoothing.KeptKeepsFront | eye_tracking_mouse/CoordinateSmoother.cs:53-69 | the new sample stays at the front after `RemoveAll` |
| Sequences.AppendKeepsSubsequence | eye_tracking_mouse/CoordinateSmoother.cs:57-69 | a filter that keeps or drops one more element keeps an ordered selection of its input |
| Smoothing.PrefixIsSubsequence | eye_tracking_mouse/CoordinateSmoother.cs:54-55 | cutting the oldest samples leaves an ordered selection |
| Smoothing.CoordinateSmoother.AddPoint | eye_tracking_mouse/CoordinateSmoother.cs:49-71 | the window becomes: the new sample in front, cut to `count`, then cleared of far samples |
| Smoothing.WindowProperties | eye_tracking_mouse/CoordinateSmoother.cs:49-71 | the window never outgrows `count`; it is an ordered selection of the new sample and the old window; every sample has the new sample's dimension and lies within `jump` of it; the new sample heads it when `count >= 1` |
| Smoothing.Smoothed | eye_tracking_mouse/CoordinateSmoother.cs:18-42 | a failure (division by zero) exactly for an empty window; otherwise a sample of the new sample's dimension |
| Smoothing.AddCoordinates | eye_tracking_mouse/CoordinateSmoother.cs:28-31 | the inner loop adds one sample's coordinates to the running sums |
| Smoothing.DivideCoordinates | eye_tracking_mouse/CoordinateSmoother.cs:36-40 | the loop turns every coordinate sum into the mean |
| Smoothing.Average | eye_tracking_mouse/CoordinateSmoother.cs:21-41 | the summing and dividing loops compute the window's mean |
| Smoothing.CoordinateSmoother.Smoothen | eye_tracking_mouse/CoordinateSmoother.cs:18-42 | adds the sample, then returns the mean of the new window, of the sample's dimension |
| Smoothing.ShiftSumBounds | eye_tracking_mouse/CoordinateSmoother.cs:24-27 | the summed shift lies between `n` times the least and `n` times the largest shift |
| Smoothing.SmoothedShiftWithin | eye_tracking_mouse/CoordinateSmoother.cs:34-35 | the smoothed shift lies within the range of the window's shifts, on each axis |
| Smoothing.CoordinateSumBounds | eye_tracking_mouse/CoordinateSmoother.cs:28-31 | each coordinate sum lies between `n` times the least and `n` times the largest value |
| Smoothing.MeanWithin | eye_tracking_mouse/CoordinateSmoother.cs:36-40 | each mean lies between the least and the largest value |
| Smoothing.SmoothedWithin | eye_tracking_mouse/CoordinateSmoother.cs:36-40 | the mean of samples within `jump` of a sample lies within `jump` of it on every coordinate |
| Smoothing.SmoothedNearNewest | eye_tracking_mouse/CoordinateSmoother.cs:18-71 | with `count >= 1` and `jump >= 0`, smoothing never fails and lands within `jump` of the newest sample on every coordinate |
| Smoothing.SmoothedSingle | eye_tracking_mouse/CoordinateSmoother.cs:18-42 | a window of one sample smooths to that sample |
| Smoothing.CoordinateSmoother.Reset | eye_tracking_mouse/CoordinateSmoother.cs:44-47 | the window is empty afterwards |
| Smoothing.CoordinateSmoother.constructor | eye_tracking_mouse/CoordinateSmoother.cs:16 | the window starts empty |
| Extensions.Swap | BlindConfigurationTester/Study.cs:24-26 | exchanges two elements and leaves every other one |
| Extensions.Exchange | BlindConfigurationTester/Study.cs:24-26 | the in-place exchange through `value` |
| Extensions.FisherYatesStep | BlindConfigurationTester/Study.cs:20-27 | one step: the draw lies in `[0, n-1]`, and the rest shuffles the exchanged list from one lower |
| Extensions.Shuffle | BlindConfigurationTester/Study.cs:17-28 | the array ends as the countdown of exchanges defines, a permutation of what it held |
| Extensions.FisherYatesPermutes | BlindConfigurationTester/Study.cs:17-28 | the shuffle keeps the length and the multiset of elements, leaves positions the countdown passed, and leaves lists of at most one element alone |
| Extensions.SwapPermutes | BlindConfigurationTester/Study.cs:24-26 | an exchange keeps the multiset |
| Extensions.FisherYatesPicks | BlindConfigurationTester/Study.cs:22-26 | position `n-1` ends holding the element the draw picked |
| Studies.EachIndexOnce | BlindConfigurationTester/Study.cs:81-102 | a permutation of the indices runs every configuration exactly once and nothing else |
| Studies.IndicesCountOnce | BlindConfigurationTester/Study.cs:81-83 | each index occurs once in the index list |
| Studies.Study.constructor | BlindConfigurationTester/Study.cs:38-63 | a new study: the given name, no completed sessions, the user's data (saving changes) as the only configuration, one session |
| Studies.Study.StartSession | BlindConfigurationTester/Study.cs:65-108 | nothing runs and the counter stays when the results exist or all sessions are done; otherwise every configuration runs once in the shuffled order and the counter goes up by one |
| Studies.NatToString | BlindConfigurationTester/Study.cs:145 | a count written in decimal: at least one digit, only digits |
| Studies.Digit | BlindConfigurationTester/Study.cs:145 | the character of a decimal digit |
| Studies.DigitsRoundTrip | BlindConfigurationTester/Study.cs:145 | reading back the written count gives the count |
| Studies.LinesStep | BlindConfigurationTester/Study.cs:148-153 | one more configuration appends its line |
| Studies.AppendLines | BlindConfigurationTester/Study.cs:148-153 | the loop appends every configuration's line to the header, in order |
| Studies.Study.GetInfo | BlindConfigurationTester/Study.cs:141-155 | the header (name, completed sessions, "Configurations:") then one line per configuration |
| Studies.LineBreaksAppend | BlindConfigurationTester/Study.cs:143-153 | line breaks of a concatenation add up |
| Studies.NoLineBreaks | BlindConfigurationTester/Study.cs:151-152 | a string without `\n` has no line break |
| Studies.OneLine | BlindConfigurationTester/Study.cs:150-152 | a configuration's line ends in its only line break |
| Studies.HeaderLineCount | BlindConfigurationTester/Study.cs:143-146 | the header has three lines |
| Studies.LinesCount | BlindConfigurationTester/Study.cs:148-153 | one line per configuration |
| Studies.ReportLineCount | BlindConfigurationTester/Study.cs:141-155 | the report has `3 + number of configurations` lines when no name breaks a line |
| ModeIterator.CalibrationMode.constructor | BlindConfigurationTester/CalibrationModeIterator.cs:11-15 | a mode holding the given settings |
| ModeIterator.CalibrationMode.Clone | BlindConfigurationTester/CalibrationModeIterator.cs:233 | a new mode object with the same settings |
| ModeIterator.OptionsField.WithFieldValue | BlindConfigurationTester/CalibrationModeIterator.cs:132-151 | after the write the field reads the value, or -1 for a coordinate the mode lacks (write ignored); the settings keep their names and coordinate count |
| ModeIterator.OptionsField.OtherFieldKept | BlindConfigurationTester/CalibrationModeIterator.cs:132-151 | writing one field leaves every other field reading as before |
| ModeIterator.OptionsField.SetFieldValue | BlindConfigurationTester/CalibrationModeIterator.cs:132-151 | the mode's settings become those of the write |
| ModeIterator.WriteBack | BlindConfigurationTester/CalibrationModeIterator.cs:113-151 | writing back the value a field reads changes nothing |
| ModeIterator.WriteTwice | BlindConfigurationTester/CalibrationModeIterator.cs:132-151 | a second write to a field overrides the first |
| ModeIterator.MovedReads | BlindConfigurationTester/CalibrationModeIterator.cs:113-151 | a field that reads other than -1 reads back what is written to it |
| ModeIterator.NextGrows | BlindConfigurationTester/CalibrationModeIterator.cs:202-209 | a growing step strictly increases the value and keeps growing |
| ModeIterator.RangeFromProperties | BlindConfigurationTester/CalibrationModeIterator.cs:189-213 | the range from `i`: empty exactly when `i > max`, starts at `i`, values in `[i, max]`, strictly increasing, one more step passes `max` |
| ModeIterator.RangeSteps | BlindConfigurationTester/CalibrationModeIterator.cs:202-209 | every value after the first is the step from the one before |
| ModeIterator.LinearRange | BlindConfigurationTester/CalibrationModeIterator.cs:189-213 | a linear range is `min, min+step, …` up to `max`, empty exactly when `min > max`, one more step passing `max` |
| ModeIterator.DoublingRange | BlindConfigurationTester/CalibrationModeIterator.cs:30 | the `max_zones_count` range is 8, 16, …, 2048 |
| ModeIterator.GetRange | BlindConfigurationTester/CalibrationModeIterator.cs:189-223 | the loop, or the hardcoded list, gives the range's values |
| ModeIterator.NonEmptyRange | BlindConfigurationTester/CalibrationModeIterator.cs:189-213 | a growing range whose minimum does not pass its maximum is not empty |
| ModeIterator.AllFieldsValid | BlindConfigurationTester/CalibrationModeIterator.cs:27-51 | every declared field's range terminates and has a first and last value |
| ModeIterator.AllFieldsDistinct | BlindConfigurationTester/CalibrationModeIterator.cs:27-51 | the declared fields address fourteen different settings |
| ModeIterator.FirstAtLeast | BlindConfigurationTester/CalibrationModeIterator.cs:164-171 | the search stops at the first value at least the field's, or at the end |
| ModeIterator.FirstAtLeastUnique | BlindConfigurationTester/CalibrationModeIterator.cs:164-171 | that stopping index is the only one with that property |
| ModeIterator.FindsOwnIndex | BlindConfigurationTester/CalibrationModeIterator.cs:164-171 | in a strictly increasing range the search for a range value finds its own index |
| ModeIterator.Incremented | BlindConfigurationTester/CalibrationModeIterator.cs:153-179 | on success the field read something other than -1 and now reads a value of its range; the names and coordinate count are kept |
| ModeIterator.IncrementLeavesOthers | BlindConfigurationTester/CalibrationModeIterator.cs:153-179 | a successful increment changes no other field |
| ModeIterator.IncrementByZero | BlindConfigurationTester/CalibrationModeIterator.cs:153-179 | incrementing by zero a field holding a range value changes nothing |
| ModeIterator.IncrementedFrom | BlindConfigurationTester/CalibrationModeIterator.cs:153-179 | from the value at index `j`, `steps` lands on index `j + steps` while it is inside the range |
| ModeIterator.IncrementTarget | BlindConfigurationTester/CalibrationModeIterator.cs:173-175 | a successful increment from index `j` targets an index inside the range |
| ModeIterator.IncrementRoundTrip | BlindConfigurationTester/CalibrationModeIterator.cs:153-179 | stepping back `-steps` after a successful step of `steps` restores the settings |
| ModeIterator.Increment | BlindConfigurationTester/CalibrationModeIterator.cs:153-179 | returns whether the increment succeeds; the mode changes to the incremented settings exactly then |
| ModeIterator.ConsideredProperties | BlindConfigurationTester/CalibrationModeIterator.cs:53-59 | the kept fields are, in declaration order, exactly those not reading -1 |
| ModeIterator.ConsideredDistinct | BlindConfigurationTester/CalibrationModeIterator.cs:53-59 | filtering fields with distinct settings keeps them distinct |
| ModeIterator.FilterFields | BlindConfigurationTester/CalibrationModeIterator.cs:53-59 | the loop keeps those fields |
| ModeIterator.IteratorFieldsValid | BlindConfigurationTester/CalibrationModeIterator.cs:27-59 | every kept field has a range with both ends |
| ModeIterator.CalibrationModeIterator.constructor | BlindConfigurationTester/CalibrationModeIterator.cs:23-60 | the iterator holds the mode and the fields the mode has, in declaration order; no two of them address the same setting |
| ModeIterator.Assigned | BlindConfigurationTester/CalibrationModeIterator.cs:234-244 | setting fields to range ends keeps the names and coordinate count |
| ModeIterator.AssignedReads | BlindConfigurationTester/CalibrationModeIterator.cs:234-244 | afterwards each of distinct fields reads the end chosen for it, or -1 for a coordinate the mode lacks |
| ModeIterator.AssignedReadsAll | BlindConfigurationTester/CalibrationModeIterator.cs:234-244 | after setting fields with distinct settings to chosen ends, every one of them reads its chosen end, or -1 for a coordinate the mode lacks |
| ModeIterator.SetEnds | BlindConfigurationTester/CalibrationModeIterator.cs:276-286 | the inner loop sets each field to its chosen end, in order |
| ModeIterator.CalibrationModeIterator.ForModeAndItsVariations | BlindConfigurationTester/CalibrationModeIterator.cs:225-248 | three callbacks: the starting mode as "mid", then "max" and "min"; in "max" every field reads the last value of its range and in "min" the first (a coordinate the mode lacks reads -1) |
| ModeIterator.Pow2 | BlindConfigurationTester/CalibrationModeIterator.cs:256-262 | powers of two are positive |
| ModeIterator.PowerOfTwo | BlindConfigurationTester/CalibrationModeIterator.cs:256-262 | the doubling loop gives `2^n` for `n` fields |
| ModeIterator.PermutationList | BlindConfigurationTester/CalibrationModeIterator.cs:264-269 | the loop builds that list |
| ModeIterator.CountdownValues | BlindConfigurationTester/CalibrationModeIterator.cs:264-270 | a shuffled countdown holds `count` values, each in `1 .. count` |
| ModeIterator.CountdownOnce | BlindConfigurationTester/CalibrationModeIterator.cs:264-269 | each value of `1 .. count` occurs once |
| ModeIterator.Bits | BlindConfigurationTester/CalibrationModeIterator.cs:278 | one choice of end per field |
| ModeIterator.BitOfHalf | BlindConfigurationTester/CalibrationModeIterator.cs:278 | bit `k+1` of `p` is bit `k` of `p/2` |
| ModeIterator.BitsOfEncode | BlindConfigurationTester/CalibrationModeIterator.cs:278 | decoding the number built from a choice of ends gives that choice back |
| ModeIterator.EncodeOfBits | BlindConfigurationTester/CalibrationModeIterator.cs:278 | the number built from the first `n` bits of `p` is `p mod 2^n` |
| ModeIterator.MasksAreAll | BlindConfigurationTester/CalibrationModeIterator.cs:264-286 | every choice of ends is made by some value in `1 .. 2^n` |
| ModeIterator.MasksDistinct | BlindConfigurationTester/CalibrationModeIterator.cs:264-286 | two values in `1 .. 2^n` that make the same choice are equal |
| ModeIterator.EachChoiceOnce | BlindConfigurationTester/CalibrationModeIterator.cs:264-286 | the shuffled values cover every choice of ends, and no two make the same choice |
| ModeIterator.CallBacks | BlindConfigurationTester/CalibrationModeIterator.cs:272-289 | one mode per shuffled value, each field set to its first value where the value's bit is set and to its last where it is clear |
| ModeIterator.CalibrationModeIterator.ForEachMinMaxPermutation | BlindConfigurationTester/CalibrationModeIterator.cs:250-290 | the values `2^n … 1` shuffled by the draws; the starting mode, then one mode per shuffled value, in which field `k` reads the first value of its range where bit `k` is set and the last where it is clear (a coordinate the mode lacks reads -1) |

## Left out

- Locking, the debug window and its labels' display, JSON persistence (`LoadFromFile`, `SaveToFile`, `FilesSavingQueue`), message boxes and `Dispose` are I/O or concurrency and are not modelled. `ShiftsStorage` starts from the entries the loader hands it.
- `Helpers.CalculateClosestCorrectionsInfo`, `Helpers.NormalizeWeights`, `Helpers.GetWeightedAverage` and `Helpers.GetAngleBetweenVectors` are not part of this model. The managers' `GetShift` is modelled up to the weights handed to normalisation, and the shading angle is an input.
- `ShiftPosition.GetDistance`: the final square root is not modelled. The store and the managers take the distance as a function parameter `dist`; `Positions.SquaredDistance` models the loop before the root.
- Floating point is modelled as exact reals: rounding of doubles, the single-precision `1.6f` of the coordinate ranges, and NaN or infinity other than the one division in the findings are not captured.
- The random generator and the clock seeding it are replaced by the sequence of draws `rng.Next(n + 1)` returns.
- `CoordinateSmoother` is a static class in the source; it is modelled as one instance. The jump distance and the window length are parameters.
- `Smoothing.CoordinateSmoother.AddPoint`: a negative `smothening_points_count` makes the source call `RemoveAt(-1)` and throw; the model takes the count as a natural number.
- The V0/V1 neighbour records, whose weights the source rewrites in place, are modelled as values; the loops return the rewritten list.
- `CalibrationMode` fields found by reflection are modelled as a map from names to integers. The "coordinate N" names become a `Coordinate(N)` field id, so the name parsing is not modelled. The coordinate count is the number of scales.
- `SetFieldValue` writes into a scales array that `Clone` may share between modes; that aliasing is not modelled.
- `1 << field_number` is a 32-bit shift; with at most 14 fields it never wraps, and the model uses powers of two. `long iterator` never overflows for the same reason.
- `ModeIterator.GetRange`: a range whose step does not grow the value loops forever in the source; the model requires `Terminates`. Every declared range meets it.
- `OptionsField.Min` and `Range` are not modelled separately; `Extreme` takes the first or last value of the range.
- The callbacks of the two enumerations are modelled as the list of mode values they receive, in order.
- `Studies.Study.StartSession`: the `Directory.Exists` check is the parameter `resultsExist`. Running the configurations (`Utils.RunApp`), snapshots, sessions' contents and `UpdateResultsJson` are I/O. The session list is modelled by its length, and a negative completed-session count is not modelled.
- `ShiftsStore.ShiftsStorage.AddShift`: an empty store with `max_zones_count <= 0` makes the source index an empty list and throw; the model requires a non-empty store or a positive capacity.
- `ShiftsStore.NearestInDensest`: `double.MaxValue` as the initial minimum is replaced by a found flag. The two agree for every finite distance.
- `CalibrationV1.ShadeOpacity`: the source asserts that the source of a shade is strictly nearer; the model requires only "not farther". Equal distances are allowed because the store's ranking admits ties.
- `ShiftsStore.KeepNewest`: defined only for a non-negative `max_zones_count`. A negative one makes the source throw; `ShiftsStore.ShiftsStorage.OnSettingsChanged` models that as its failure result with an empty store.
- `ShiftsStore.ShiftsStorage.OnSettingsChanged`: the code removes the earlier entry of a close pair (`RemoveAt(i)` with `j > i`). The model follows the code.

## Findings

| source | as written | input that shows it | evidently intended | confidence | as-written member | corrected member |
|---|---|---|---|---|---|---|
| eye_tracking_mouse/CalibrationManagerV1.cs:76-77 | the opacity ramp divides `angle + transparent - 100` by `opaque + transparent - 100`; when the two sectors fill 100% and the angle equals the opaque sector, this is 0/0 (NaN), and NaN then propagates into every weight of the shaded correction | opaque sector 40, transparent sector 60, angle 40 | the opacity at the edge of the opaque sector is 1, as for every angle below it | not executed | CalibrationV1.AsWrittenOpacityUndefined | CalibrationV1.BaseOpacity |
