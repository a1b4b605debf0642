# Verification of parts of the SaC compiler and its runtime system

The project models six components of sac2c and libsac and proves what they are there for.

1. **With-loop folding** (`SSAWLF.c`, `SSAWithloopFolding.c`, `SSAWLI.c`). A with-loop computes an array by generators,
   n-dimensional grids `{ x | l <= x < u, (x - l) % step < width }` that carry a code block each. Folding replaces the
   selection `A[f(iv)]` in a target loop by the code of the loop that computes `A`, the subst loop. `WithloopInfo` models
   how the history of `f` is inferred; `AxisTransform`, `GeneratorSweep` and `LinearTransformations` how the subst
   loop's generators are pulled back through it, and `PullExactness` when that is exact; `DoubleIndexVectors` and
   `FinalTransformations` how they become generators over the target's index scalars, and `DoubleExactness` when the
   former is exact; `RangeCheck` the check that no target generator selects outside `A`; `GridRegions`, `CodePairs` and
   `WithloopFolding` how both lists are intersected; `Folding` puts it together. Generator lists are chains of heap
   records that are updated and relinked in place, as in the source; their meaning is `Generators.Hits`, the multiset of
   code blocks that select a vector. The main theorem is `Folding.FoldPreservesMeaning`.
2. **The mutex barrier** (`mt_barriers.h`): three locks and a counter, for n threads, any number of rounds and every
   interleaving of atomic steps. Loads and stores of the counter are separate steps, so the unprotected read is one as well.
3. **Starting the worker threads** (`mt_pth.c`, `mt_beehive.c`): the tree in which workers create each other.
4. **The cache simulator** (`cachesim/access.c`, `cachesim/basic.c`): sets as LRU queues in one flat array, shadow arrays
   with two entries to a byte, counters, and several levels.
5. **The hash table of the specialization registry** (`uthash.h`): bucket chains and the list in application order with
   all their links, doubling of the buckets.
6. **The sort of that table** (`HASH_SRT`): an in-place bottom-up merge sort of a doubly linked list.

Where the source works in place, so does the model, in methods that are proved against specification functions; the
properties are lemmas about these functions and about the states that are reachable.

## Findings

The model follows the code where the code differs from what its comments or its purpose suggest. Where a property fails,
a lemma shows it at an input, and another one says exactly when it holds.

- A selected element is taken for the index it was selected with. A foldable `x = A[iv]` carries the history of its index,
  and `y = x + 1` continues it, so that y is said to be `iv[0] + 1`; the history of y is a scalar one that goes on in that
  of a vector, which `LinearTransformationsScalar` asserts against (`WithloopInfo.ElementTakenForIndex`). Whatever the
  elements are, all histories of a body are sound if and only if none of them goes on from that of a selected element
  (`WithloopInfo.SoundExactlyIfClean`).
- `constant / index` is given a history, but `LinearTransformationsHelp` asserts that it does not get one
  (`WithloopInfo.ConstantOverIndex`). In a body in which no history goes on from that of a selected element, all histories
  can be pulled back through if and only if none is attached to such an operation or to a division by zero
  (`WithloopInfo.InferFits`).
- Generators are pulled back through a history as if quotients were rounded down, while the program truncates them, and as
  if a product with zero were the other factor. For an index and a history of any length, this is right for every list
  without grids if and only if no factor or divisor is negative and rounding down gives the same vector there
  (`PullExactness.PullExactIff`). For single steps: `index * constant` is pulled back exactly if and only if the constant
  is positive (`AxisTransform.MulExactIffPositive`), since for a negative one the upper bound is computed from the lower
  bound already overwritten; `index / constant` for nonnegative indices if and only if the constant is positive
  (`AxisTransform.DivExactIffPositive`), and for a positive constant at an index if and only if that is nonnegative or
  divides evenly (`AxisTransform.DivExactIffNonNegative`, `LinearTransformations.NegativeQuotientLost`).
- So the range check can be silent on a fault: `A[[(i - 5) / 2 + 3]]` with A of shape [2] and 0 <= i < 3 passes, but selects
  `A[[2]]` at i = 2 (`RangeCheck.SilentFault`). Without negative factors and divisors it is sound at an index, whatever the
  shape is, if and only if, where the vector rounded down is nonnegative, the one that the program computes is nonnegative
  and no larger (`RangeCheck.SoundIff`); it is right there, neither silent nor in alarm wrongly, if and only if the two are
  the same or both have negative components (`RangeCheck.AccurateIff`). The folded loop computes the right element,
  whatever the code blocks do, if and only if both vectors belong to the same block (`Folding.FoldRightIff`).
- `constant - index` can give an empty axis with a grid a negative width; normalising the final generator then
  fails, which `FinalTransformations` asserts against (`AxisTransform.ReverseLosesWidth`). The width stays positive if and
  only if the upper bound is not below the lower one, or they differ by a multiple of the step
  (`AxisTransform.ReverseProperIff`).
- `RemoveDoubleIndexVectors` shifts the history once for each generator of the chain, and merges bounds only. For any
  number of generators with given steps and widths it is exact for all bounds if and only if there is at most one
  generator or all components behind the first repeated one are the same, and the axes that are merged have no gaps
  (`DoubleExactness.MergeExactIff`). The diagonal `A[[i, i]]` without grids is always right
  (`DoubleExactness.DiagonalIsExact`); `A[[i, i, j, 7]]` with two generators is not
  (`DoubleExactness.TwoGeneratorsShiftTwice`), nor is `A[[i, i]]` with steps 2 and 3 (`DoubleExactness.GridsAreLost`).
- When a constant of the selection vector is out of range, and only then, no generator is left of the box of all indices
  (`RangeCheck.WholeLostIff`), and the range check reads the bounds of a null record (`RangeUndefined`). The error
  "Constants of index vector out of range" that `Fold` reports itself is reached by target loops of dimension 0, and by
  ones that select nothing at all (`FoldingExamples.NothingLeftReached`). Where merging repeated scalars is exact and no
  factor or divisor is negative there are no others (`Folding.NothingLeft`); where it is not, the error can be reported
  although all constants are in range (`FoldingExamples.NothingLeftWrongly`).
- The range check compares upper bounds, so for a generator with a grid it can raise a false alarm
  (`RangeCheck.FalseAlarm`): an error is justified if and only if the first value of an axis lies before the box or its
  last selected value behind it (`RangeCheck.AlarmIff`).
- `Fold` reads the shape of the first target generator; the empty target list is not one it can be called with.
- The queen class is found if and only if there are at most 2^31 bees: for more the loop does not end
  (`WorkerTree.QueenClass`, `WorkerTree.TooManyBees`).
- With cache lines of one byte, no odd address ever hits, since the lowest bit of an entry is the invalid bit
  (`CacheSets.OddAddressNeverHits`); block 0 hits in an empty cache (`CacheSets.BlockZeroHitsEmpty`). For even addresses
  hits are exactly those of an LRU cache, but that block 0 also hits as long as a place has not been used
  (`CacheSets.HitByDistance`).
- The direct-mapped access functions count an invalidation also when the invalid entry is that of another block; in
  everything else they do what the associative ones do (`CacheSets.DirectIsAssociative`).
- A write around that misses above the first level leaves `SAC_CS_level` there: with two new levels, the second one with
  write-around, any write leaves it at 2 (`CacheHierarchy.LeftAtTheSecond`). An access that starts at level 1 ends at
  another one if and only if it is a write that goes around a level above the first
  (`CacheHierarchy.Simulator.LeftAboveIff`); none does, if and only if no level goes around writes or the first one does
  (`CacheHierarchy.AlwaysEndsAtFirstIff`).
- The search for a free shadow slot in `RegisterArray` goes on where it ended at the level before; a slot is found at every
  level because all levels hold the same number of arrays (`start` in `ShadowTables.ShadowTable.RegisterArray`).
- The line TOTAL of the cache simulator's results adds the invalidations of writes twice; printing is not modelled.

## Model

| member | source | states |
|---|---|---|
| `Folding.FoldPreservesMeaning` | src/libsac2c/arrayopt/SSAWLF.c:1204-1281 | whatever the code blocks mean, if the subst loop's generators partition its shape, the range check has found nothing, and rounding quotients down leads to the same block of the subst loop: where the target loop computes an element once, the folded loop computes one too and it is equal; where it computes none, neither does the folded loop; no factor or divisor is negative, and repeated scalars are allowed wherever merging them is exact |
| `Folding.FoldRightIff` | src/libsac2c/arrayopt/SSAWLF.c:1204-1281 | the condition on quotients is exact: the element at an index vector is right whatever the blocks compute if and only if the selection vector with quotients rounded down belongs to the block that the one computed belongs to |
| `Folding.OnePair` | src/libsac2c/arrayopt/SSAWLF.c:898-1036 | where one target and one subst generator select v, exactly one generator of the result does, and it carries the block memoised for their two codes; where one of the lists does not select v, nothing does |
| `Folding.TargetInShape` | src/libsac2c/arrayopt/SSAWLF.c:1128-1192 | after a range check without fault, every index vector the target loop selects is mapped into the shape of the array selected from when quotients are rounded down, if no factor or divisor is negative; whether the program's vector is in the shape is what RangeCheck.SoundIff says |
| `Folding.ScalarInShape` | src/libsac2c/arrayopt/SSAWLF.c:1128-1281 | a target loop of dimension 0, which the range check does not look at, is folded only if its constant selection vector lies within the shape |
| `Folding.NothingLeft` | src/libsac2c/arrayopt/SSAWLF.c:1245-1249 | if no generator of the subst loop is left although the range check has found nothing, a target loop of dimension above 0 selects nothing, if merging repeated scalars is exact and no factor or divisor is negative |
| `FoldingExamples.NothingLeftReached` | src/libsac2c/arrayopt/SSAWLF.c:1245-1249 | a selection A[[i, 3]] with an empty target generator for which that happens |
| `FoldingExamples.NothingLeftWrongly` | src/libsac2c/arrayopt/SSAWLF.c:1072-1249 | a selection A[[i, i, j, 7]] with two subst generators for which the error is reported although the target loop selects something and every constant is in range |
| `Folding.Fold` | src/libsac2c/arrayopt/SSAWLF.c:1204-1281 | all outcomes: range check undefined, first fault of the range check, constants out of range, or a chain of memoised generators that selects every vector under exactly the pairs of codes under which both lists select it |
| `AxisTransform.ReverseExact` | src/libsac2c/arrayopt/SSAWLF.c:381-419 | constant - index: for 1 <= width <= step the rewritten axis and the one split off together select x exactly once when the original selects constant - x, and never otherwise, in all cases of the cut against the width, for empty axes too |
| `AxisTransform.ReverseProperIff` | src/libsac2c/arrayopt/SSAWLF.c:381-419 | for 1 <= width <= step the results of constant - index have a positive width if and only if the upper bound is not below the lower one or they differ by a multiple of the step |
| `AxisTransform.ReverseLosesWidth` | src/libsac2c/arrayopt/SSAWLF.c:394-413 | 5 <= x < 3 with step 4 and width 2, whose width becomes -2 |
| `AxisTransform.ReverseShifts` | src/libsac2c/arrayopt/SSAWLF.c:394-398 | the case without a split: leaving out the wrapped residues at the front is exact |
| `AxisTransform.ReverseSplits` | src/libsac2c/arrayopt/SSAWLF.c:399-413 | the case with a split: the residues below the cut and the wrapped ones are disjoint and together complete |
| `AxisTransform.StepExact` | src/libsac2c/arrayopt/SSAWLF.c:360-525 | a step +, -, *, / with a constant that is no negative factor or divisor is pulled back, at every index, to the preimage under the step with the quotient rounded down, and with a product with zero taken for the index |
| `AxisTransform.StepExactIff` | src/libsac2c/arrayopt/SSAWLF.c:360-525 | a step is exact at an index for every axis without a grid if and only if its constant is no negative factor or divisor and rounding down makes no difference |
| `AxisTransform.StepProper` | src/libsac2c/arrayopt/SSAWLF.c:360-525 | every step keeps 1 <= width <= step, whatever the constant, and that no axis with a grid is empty; constant - index keeps the former because of the latter |
| `AxisTransform.MulBoundIsCeiling` | src/libsac2c/arrayopt/SSAWLF.c:452-459 | for a positive constant the new bound is the exact ceiling, for bounds of either sign |
| `AxisTransform.MulExactIffPositive` | src/libsac2c/arrayopt/SSAWLF.c:422-467 | multiplication is exact for all generators without grids and all indices from any bound on if and only if the constant is positive |
| `AxisTransform.DivExactIffNonNegative` | src/libsac2c/arrayopt/SSAWLF.c:475-508 | division by a positive constant is exact at x for every generator without a grid if and only if x is nonnegative or divides evenly |
| `AxisTransform.DivExactIffPositive` | src/libsac2c/arrayopt/SSAWLF.c:475-512 | division is exact for all generators without grids and all nonnegative indices if and only if the constant is positive |
| `AxisTransform.MulByNegativeNotExact` | src/libsac2c/arrayopt/SSAWLF.c:460-467 | for every negative constant the box [1, 2) is a counterexample |
| `AxisTransform.DivByNegativeNotExact` | src/libsac2c/arrayopt/SSAWLF.c:509-512 | for every negative constant the box [-1, 0) is a counterexample |
| `AxisTransform.MulByZeroNotExact` | src/libsac2c/arrayopt/SSAWLF.c:452-467 | for 0 the box [1, 2) is a counterexample |
| `InternGens.NormalizedSame` | src/libsac2c/arrayopt/SSAWithloopFolding.c:494-524 | normalisation never changes which vectors a generator denotes |
| `InternGens.NormalizedIsNormal` | src/libsac2c/arrayopt/SSAWithloopFolding.c:494-524 | the result is normal: no axis with a step above one has a full width, axes with a smaller width and all bounds stay, and the generator has a grid exactly if a width was below its step |
| `InternGens.InternGen.Normalize` | src/libsac2c/arrayopt/SSAWithloopFolding.c:494-524 | both error codes exactly when a width exceeds its step or is below one; otherwise the record is normal and denotes the same, and it has a grid exactly if a width was below its step |
| `InternGens.InternGen.Copy` | src/libsac2c/arrayopt/SSAWithloopFolding.c:388-423 | a new record of the same value that is not linked to anything |
| `InternGens.PushFront` | src/libsac2c/arrayopt/SSAWLF.c:558-561 | a record put in front of a segment makes a segment with its value in front |
| `InternGens.JoinChains` | src/libsac2c/arrayopt/SSAWLF.c:553-563 | a segment of proper generators linked to a chain makes one chain of both |
| `GeneratorSweep.LinearTransformationsHelp` | src/libsac2c/arrayopt/SSAWLF.c:360-525 | the record is overwritten by the pulled-back generator, and exactly the split-off one, if any, is returned in a new record |
| `GeneratorSweep.StepListPreimage` | src/libsac2c/arrayopt/SSAWLF.c:553-563 | such a step on one axis turns a list into the preimage of what it denotes when quotients are rounded down, with the same codes and multiplicities |
| `GeneratorSweep.StepListProper` | src/libsac2c/arrayopt/SSAWLF.c:553-563 | all generators of that list are proper, also those split off |
| `GeneratorSweep.TransformAxis` | src/libsac2c/arrayopt/SSAWLF.c:553-563 | walking a chain while split-off records are put in front of it transforms every original record exactly once and no split-off one |
| `LinearTransformations.LinearTransformationsScalar` | src/libsac2c/arrayopt/SSAWLF.c:539-570 | in place, the chain becomes the one pulled back through a scalar history along one axis |
| `LinearTransformations.PullScalarExact` | src/libsac2c/arrayopt/SSAWLF.c:539-570 | without negative factors and divisors, that list selects every w exactly as the original selects w with the component replaced by the value of the history with quotients rounded down |
| `LinearTransformations.LinearTransformationsVector` | src/libsac2c/arrayopt/SSAWLF.c:584-628 | in place, the chain becomes the one pulled back through all operations of a vector history and the scalar histories behind it |
| `LinearTransformations.PullVectorExact` | src/libsac2c/arrayopt/SSAWLF.c:539-628 | without negative factors and divisors, that list denotes the preimage under the whole history with quotients rounded down: it selects every w with exactly the codes with which the original selects the vector this makes of w |
| `LinearTransformations.PullVectorKeeps` | src/libsac2c/arrayopt/SSAWLF.c:584-628 | proper generators stay proper and of the same dimension, lists without grids stay without and of the same length |
| `PullExactness.PullExactIff` | src/libsac2c/arrayopt/SSAWLF.c:539-628 | for a whole history and a vector w: pulling back is exact at w for every list without grids if and only if no factor or divisor is negative and rounding quotients down gives the vector the program computes |
| `PullExactness.VectorForgets` | src/libsac2c/arrayopt/SSAWLF.c:460-512 | behind a negative factor or divisor, lists that differ in one bound, and denote different sets, are pulled back to the same list |
| `LinearTransformations.PullConstant` | src/libsac2c/arrayopt/SSAWLF.c:596-626 | the axes of constant components stay as they are |
| `LinearTransformations.NegativeQuotientLost` | src/libsac2c/arrayopt/SSAWLF.c:505-508 | a selection A[[(i - 5) / 2 + 3]] whose element at i = 0 the pulled-back generator does not contain |
| `DoubleIndexVectors.RemoveDoublesDistinct` | src/libsac2c/arrayopt/SSAWLF.c:1050-1098 | where no index scalar is used twice nothing changes |
| `DoubleExactness.RemoveDoublesExact` | src/libsac2c/arrayopt/SSAWLF.c:1050-1098 | for one generator, or the same component all over behind the first repeated one, and merged axes without gaps: afterwards no scalar is used twice, the same scalars are used, the same constants fit, and the same index vectors are selected under the same codes |
| `DoubleExactness.MergeExactIff` | src/libsac2c/arrayopt/SSAWLF.c:1050-1098 | for a history and the steps and widths of any number of generators: removal is exact for all bounds and every index vector if and only if there is at most one generator or behind the first repeated component one component all over, and no generator has gaps on an axis that is merged |
| `DoubleExactness.PlainExactIff` | src/libsac2c/arrayopt/SSAWLF.c:1050-1098 | the case without grids: exact for every such list of a given length if and only if there is at most one generator, or behind the first repeated component there is one component all over |
| `DoubleExactness.SkewedFails` | src/libsac2c/arrayopt/SSAWLF.c:1080-1090 | once the components are those of axes further on, no later merge makes up for it |
| `DoubleExactness.DiagonalIsExact` | src/libsac2c/arrayopt/SSAWLF.c:1050-1098 | A[[i, i]] is exact for any number of generators without grids |
| `DoubleExactness.GridsAreLost` | src/libsac2c/arrayopt/SSAWLF.c:1072-1091 | A[[i, i]] with steps 2 and 3 is not exact for all bounds |
| `DoubleExactness.TwoGeneratorsShiftTwice` | src/libsac2c/arrayopt/SSAWLF.c:1072-1091 | A[[i, i, j, 7]] with two generators is not exact |
| `DoubleIndexVectors.RemoveDoubleIndexVectors` | src/libsac2c/arrayopt/SSAWLF.c:1050-1098 | in place, the chain and the history become what the specification function makes of any list, with any doubles |
| `FinalTransformation.FinalListExact` | src/libsac2c/arrayopt/SSAWLF.c:643-724 | for distinct index scalars the result selects an index vector with exactly the codes with which the input selects the vector of the permuted components and the constants, grid membership of the constants included; unused scalars are unconstrained ints |
| `FinalTransformation.FinalGenExact` | src/libsac2c/arrayopt/SSAWLF.c:643-724 | the same for one generator: its constants fit and its final form selects iv, if and only if it selects the vector made from iv |
| `FinalTransformation.FinalListProper` | src/libsac2c/arrayopt/SSAWLF.c:688-708 | the generators left are proper and have the target's dimension |
| `FinalTransformation.ConstantsQualify` | src/libsac2c/arrayopt/SSAWLF.c:677-686 | the loop over the constants finds out whether all of them lie in the generator's bounds and grid |
| `FinalTransformation.FinalTransformations` | src/libsac2c/arrayopt/SSAWLF.c:643-724 | a new chain holding exactly the final forms of the generators whose constants qualify |
| `RangeCheck.SubstListExact` | src/libsac2c/arrayopt/SSAWLF.c:1237-1245 | all three transformations in a row: the list selects iv with exactly the codes with which the subst loop selects the selection vector computed from iv with quotients rounded down, if no factor or divisor is negative and merging is exact |
| `RangeCheck.WholeExact` | src/libsac2c/arrayopt/SSAWLF.c:1140-1172 | without negative factors and divisors, the box of all indices pulled back contains iv if and only if the selection vector computed from iv with quotients rounded down is in the shape and iv is a vector of ints |
| `RangeCheck.WholeLostIff` | src/libsac2c/arrayopt/SSAWLF.c:1140-1172 | nothing is left of the box if and only if a constant component of the selection vector is out of range |
| `RangeCheck.CoveredInShape` | src/libsac2c/arrayopt/SSAWLF.c:1174-1189 | a covered target generator selects only vectors mapped into the shape when quotients are rounded down, if no factor or divisor is negative |
| `RangeCheck.SilentIff` | src/libsac2c/arrayopt/SSAWLF.c:1174-1189 | the check has nothing against the generator of a single vector if and only if this is mapped into the shape when quotients are rounded down |
| `RangeCheck.SoundIff` | src/libsac2c/arrayopt/SSAWLF.c:1128-1192 | exactly when the check is sound at an index vector, for all shapes and target generators: where the selection vector rounded down is nonnegative, the one the program computes is nonnegative and no larger |
| `RangeCheck.AccurateIff` | src/libsac2c/arrayopt/SSAWLF.c:1128-1192 | exactly when it is right at an index vector for all shapes: the two vectors are the same, or both have negative components |
| `RangeCheck.SilentFault` | src/libsac2c/arrayopt/SSAWLF.c:1174-1189 | a selection A[[(i - 5) / 2 + 3]] on which the check is silent although an element outside the shape is selected |
| `RangeCheck.ExceedsOutOfShape` | src/libsac2c/arrayopt/SSAWLF.c:1174-1189 | for a non-empty target generator without a grid an error is no false alarm when quotients are rounded down: it selects a vector mapped outside, or one that is no vector of ints; no factor or divisor is negative |
| `RangeCheck.AlarmIff` | src/libsac2c/arrayopt/SSAWLF.c:1182-1186 | for any non-empty target generator, without negative factors and divisors: all it selects is mapped into the shape, when quotients are rounded down, if and only if on every axis the first and the last selected value lie in the box; the same for the vectors the program computes where rounding makes no difference |
| `RangeCheck.FalseAlarm` | src/libsac2c/arrayopt/SSAWLF.c:1182-1186 | a generator with a grid for which an error is reported although it selects nothing outside |
| `RangeCheck.TransformationRangeCheck` | src/libsac2c/arrayopt/SSAWLF.c:1128-1192 | 0 if all target generators are covered, otherwise the first dimension in which the first uncovered one exceeds the box; undefined if there is no box |
| `RangeCheck.FirstExceeded` | src/libsac2c/arrayopt/SSAWLF.c:1182-1186 | the lowest dimension, from one, in which a generator exceeds the box, or 0 |
| `MathUtils.Lcm` | src/libsac2c/support/math_utils.c:16-37 | the two counters meet, at the least positive common multiple |
| `GridRegions.ResidueInGrid` | src/libsac2c/arrayopt/SSAWLF.c:810-815 | counting residues from a common bound, modulo a multiple of the step, decides membership in a grid |
| `GridRegions.RunAxisExact` | src/libsac2c/arrayopt/SSAWLF.c:847-855 | the axis made for a run of residues selects exactly the values with these residues |
| `GridRegions.AddRun` | src/libsac2c/arrayopt/SSAWLF.c:831-873 | a run of common residues adds exactly the region in which this axis is fixed to the run |
| `GridRegions.SkipResidue` | src/libsac2c/arrayopt/SSAWLF.c:808-881 | a residue outside one of the two grids adds nothing |
| `GridRegions.BeyondBound` | src/libsac2c/arrayopt/SSAWLF.c:833-876 | stopping at a run that starts at or behind the upper bound loses nothing |
| `GridRegions.WholePeriod` | src/libsac2c/arrayopt/SSAWLF.c:808-881 | the residues of one common period are all there are |
| `GridRegions.RegionNoneFixed` | src/libsac2c/arrayopt/SSAWLF.c:960-997 | before any axis is fixed the region is the intersection of the two generators |
| `GridRegions.RegionAllFixed` | src/libsac2c/arrayopt/SSAWLF.c:842-855 | when every axis is fixed it is that of the new generator |
| `CodePairs.CrossCount` | src/libsac2c/arrayopt/SSAWLF.c:898-1036 | two codes meet at v as often as the product of how often either selects v; so disjoint lists have a disjoint intersection |
| `CodePairs.SamePairSameCode` | src/libsac2c/arrayopt/SSAWLF.c:284-297 | generators for equal pairs of codes carry the same block |
| `CodePairs.HitsFromTags` | src/libsac2c/arrayopt/SSAWLF.c:284-297 | a block is hit as often as the pair it was created for, and blocks that are not in the table never |
| `CodePairs.MemoGrows` | src/libsac2c/arrayopt/SSAWLF.c:256-271 | an entry for a new pair leaves all earlier answers as they were |
| `WithloopFolding.Folder.SearchCC` | src/libsac2c/arrayopt/SSAWLF.c:284-297 | the entry for the pair nearest to the front of the table, or none |
| `WithloopFolding.Folder.CodeFor` | src/libsac2c/arrayopt/SSAWLF.c:857-869 | the memoised block; or a new one that is entered into the table and into the list of new blocks |
| `WithloopFolding.Folder.RunEnd` | src/libsac2c/arrayopt/SSAWLF.c:816-829 | the first residue behind a run that is not common, or the period |
| `WithloopFolding.Folder.IntersectGrids` | src/libsac2c/arrayopt/SSAWLF.c:796-884 | the recursion adds exactly the vectors that both grids contain under the runs fixed so far, once each, under the pair of codes, and restores the shared base generator's bounds |
| `WithloopFolding.Folder.IntersectBounds` | src/libsac2c/arrayopt/SSAWLF.c:943-954 | the common bounds on every axis; false exactly with an empty overlap |
| `WithloopFolding.Folder.IntersectSteps` | src/libsac2c/arrayopt/SSAWLF.c:965-977 | the common period of the two grids on every axis |
| `WithloopFolding.Folder.Offsets` | src/libsac2c/arrayopt/SSAWLF.c:979-991 | how far the common lower bound lies behind that of a grid, modulo its step |
| `WithloopFolding.Folder.IntersectPair` | src/libsac2c/arrayopt/SSAWLF.c:928-1021 | one pair of generators adds exactly their overlap, whichever of the two reused buffers it takes |
| `WithloopFolding.Folder.IntersectInternGen` | src/libsac2c/arrayopt/SSAWLF.c:898-1036 | the result selects every v under exactly the pairs of codes under which both lists select v, with multiplicities |
| `WithloopInfo.InferSound` | src/libsac2c/arrayopt/SSAWLI.c:823-928 | after any prefix of a typed single-assignment body in which no history goes on from that of a selected element: every history has the shape that pulling back takes, and gives, at every index vector and whatever the elements of the arrays are, the value of its variable, or, at a selection, of its index; none exactly where that divides by zero |
| `WithloopInfo.InferComplete` | src/libsac2c/arrayopt/SSAWLI.c:441-928 | exactly which variables get a history, read off the body alone: an operation with a constant, in either order, on an index scalar or a variable with a history; a vector of constants, index scalars and variables with scalar histories; a copy or a foldable selection of known shape by an index variable or a variable with a history |
| `WithloopInfo.IndexAndConstant` | src/libsac2c/arrayopt/SSAWLI.c:309-352 | the vector [i, 3] gets the history with permutation [1, 0] and constant 3 |
| `WithloopInfo.SoundExactlyIfClean` | src/libsac2c/arrayopt/SSAWLI.c:467-489 | at an index vector at which the indices of the selections can be computed: all histories are sound for all elements if and only if none goes on from that of a selected element |
| `WithloopInfo.ElementTakenForIndex` | src/libsac2c/arrayopt/SSAWLI.c:471-489 | for x = A[iv]; y = x + 1 the history of y goes on in that of a vector and says 6 at index 5, where A holds 0 and y is 1 |
| `WithloopInfo.InferFits` | src/libsac2c/arrayopt/SSAWLI.c:441-500 | in a body in which no history goes on from that of a selected element: all histories are ones that generators can be pulled back through if and only if none is attached to a constant / index or to a division by zero |
| `WithloopInfo.ConstantOverIndex` | src/libsac2c/arrayopt/SSAWLI.c:441-500 | 5 / i gets a history that cannot be pulled back through |
| `WithloopInfo.SelectionIndexed` | src/libsac2c/arrayopt/SSAWLI.c:823-928 | in such a body the history of a selection, if generators can be pulled back through it, addresses the index scalars, and the vector it evaluates to is the index the body computes |
| `WithloopInfo.OneStep` | src/libsac2c/arrayopt/SSAWLI.c:441-500 | the history of one operation gives the operation applied to the value of its variable, on either side of it, and none if that divides by zero |
| `WithloopInfo.ArrayDescribes` | src/libsac2c/arrayopt/SSAWLI.c:291-367 | the history of a vector of constants, index scalars and transformed ones evaluates to that vector |
| `WithloopInfo.Traversal.LocateIndexVar` | src/libsac2c/arrayopt/SSAWithloopFolding.c:258-297 | -1 for the index vector, i for the i-th index scalar, 0 otherwise |
| `WithloopInfo.Traversal.Scalar2ArrayIndex` | src/libsac2c/arrayopt/SSAWLI.c:291-367 | the loop builds the vector's history, or nothing as soon as one element has none |
| `WithloopInfo.Traversal.CreateIndexInfoId` | src/libsac2c/arrayopt/SSAWLI.c:381-427 | an index vector or scalar gets the identity, a local variable its own history |
| `WithloopInfo.Traversal.CreateIndexInfoSxS` | src/libsac2c/arrayopt/SSAWLI.c:441-500 | an operation on a variable and a constant in either order continues the variable's history, whatever it is the history of |
| `WithloopInfo.Traversal.Traverse` | src/libsac2c/arrayopt/SSAWLI.c:823-928 | the histories of all assignments are attached: exactly those that InferComplete describes, and sound in bodies in which none goes on from that of a selected element |
| `MutexBarrier.Reachable` | src/libsac/mt/mt_barriers.h:92-122 | the invariant of the barrier holds in every state reachable with any number of threads and any schedule |
| `MutexBarrier.StepInv` | src/libsac/mt/mt_barriers.h:92-122 | every atomic step of every thread keeps it |
| `MutexBarrier.NobodyLeavesEarly` | src/libsac/mt/mt_barriers.h:92-122 | no thread has left more rounds than any other thread has entered |
| `MutexBarrier.NewRoundStartsFresh` | src/libsac/mt/mt_barriers.h:113-117 | when the gate is opened again the counter is 0, nobody waits any more, and the barrier is locked |
| `MutexBarrier.RacyRereadHarmless` | src/libsac/mt/mt_barriers.h:100-109 | whatever the last thread reads without protection, its trylock finds the barrier locked; only the first thread ever finds it open |
| `MutexBarrier.UnlocksAreLocked` | src/libsac/mt/mt_barriers.h:92-122 | no mutex is unlocked that is not locked |
| `MutexBarrier.NoLostUpdate` | src/libsac/mt/mt_barriers.h:99-115 | no increment or decrement of the counter is lost |
| `MutexBarrier.NoDeadlock` | src/libsac/mt/mt_barriers.h:92-122 | while all threads are inside the barrier one of them can go on |
| `MutexBarrier.Stuck` | src/libsac/mt/mt_barriers.h:92-122 | if nobody can go on, some thread has not entered, the others wait for it, and no round is half drained |
| `MutexBarrier.RoundCompletes` | src/libsac/mt/mt_barriers.h:92-122 | under any schedule the threads inside take a bounded number of steps, after which a round that all threads had entered has been completed |
| `MutexBarrier.EnteredIf` | src/libsac/mt/mt_barriers.h:92-122 | all have entered the round once the last one has arrived, or if nobody is outside or still finishing the round before |
| `WorkerTree.QueenClass` | src/libsac/mt/mt_beehive.c:167-172 | 0 for one bee, otherwise the largest power of two below the number of bees, for up to 2^31 bees |
| `WorkerTree.TooManyBees` | src/libsac/mt/mt_beehive.c:167-170 | for more bees the 32-bit class never reaches their number |
| `WorkerTree.UniqueOrigin` | src/libsac/mt/mt_pth.c:235-263 | every worker but the first is the target of exactly one creator and one bit |
| `WorkerTree.HasOrigin` | src/libsac/mt/mt_pth.c:235-263 | worker k > 1 is the target of k without its lowest bit, or of worker 1 if k is a power of two |
| `WorkerTree.StepInv` | src/libsac/mt/mt_pth.c:225-345 | every step of every bee keeps the invariant and satisfies the assertion before it |
| `WorkerTree.CreatedAtMostOnce` | src/libsac/mt/mt_pth.c:235-263 | no worker is created twice, and its creator is its parent in the tree |
| `WorkerTree.AllCreated` | src/libsac/mt/mt_pth.c:235-263 | when no bee has anything left to do, all workers are there |
| `WorkerTree.StartUp` | src/libsac/mt/mt_pth.c:316-332 | start-up as a whole, under every interleaving: a bounded number of steps, no failed assertion, and in the end workers 1 to n-1 have been created exactly once, each by its parent |
| `WorkerTree.AllocHive` | src/libsac/mt/mt_pth.c:600-629 | a new hive satisfies the invariant, for any number of bees up to 2^31 |
| `CacheSets.SetIsNewest` | src/libsac/cachesim/access.c:503-599 | after any trace a set lists the distinct blocks in the order of their last use, truncated to the associativity |
| `CacheSets.HitByDistance` | src/libsac/cachesim/access.c:503-599 | an access to any block after any trace hits if and only if the block has been used before and fewer other blocks than there are places have been used since, or it is block 0 and fewer blocks than there are places have been used at all |
| `CacheSets.SinceIsSuffix` | src/libsac/cachesim/access.c:71-76 | the blocks used since the last use of a are those behind it in that order |
| `CacheSets.Inclusion` | src/libsac/cachesim/access.c:503-599 | with more places every access that hit still hits |
| `CacheSets.AfterAccess` | src/libsac/cachesim/access.c:334-687 | for every policy: a block that hits or is fetched is there afterwards, a write around changes nothing, write-validate leaves the block in the set but invalid |
| `CacheSets.AccessOthers` | src/libsac/cachesim/access.c:334-687 | for every policy: no block comes to be in the set twice, the block accessed becomes the newest, and of the others only the oldest can leave, for a block that was not there; the rest keep their entries and their order |
| `CacheSets.DirectIsAssociative` | src/libsac/cachesim/access.c:334-501 | the direct-mapped functions hit and change the set as the associative ones with associativity 1, for every policy, invalid bits included |
| `CacheSets.OddAddressNeverHits` | src/libsac/cachesim/access.c:50-52 | an odd aligned address is never found, since the lowest bit is masked out |
| `CacheSets.BlockZeroHitsEmpty` | src/libsac/cachesim/access.c:239-252 | block 0 is found in an empty set |
| `CacheLevels.CacheLevel.GetPosWithinSet` | src/libsac/cachesim/access.c:239-252 | the last position of the block in its set or -1, and whether the entry was invalid |
| `CacheLevels.CacheLevel.UpdateLruQueue` | src/libsac/cachesim/access.c:71-76 | in the flat array, the set loses the entry removed and gets the new one at its end; other sets stay |
| `CacheLevels.CacheLevel.AssociativeAccess` | src/libsac/cachesim/access.c:503-687 | hit, invalid bit and new set for all three policies; other sets stay |
| `CacheLevels.CacheLevel.DirectMappedAccess` | src/libsac/cachesim/access.c:334-501 | the same hit and the same set as the associative access |
| `CacheLevels.CacheLevel.Lookup` | src/libsac/cachesim/basic.c:613-695 | whichever function is installed, only the set of the line accessed changes, and as its policy says |
| `Shadows.SetGet` | src/libsac/cachesim/access.c:130-142 | a packed entry that is written is read back, and no other entry changes |
| `Shadows.NrBlocksExact` | src/libsac/cachesim/basic.c:998-1011 | the number of blocks computed is the number of cache blocks the array touches, for any alignment and size |
| `Shadows.IndexFits` | src/libsac/cachesim/access.c:296-303 | the entry of every block of the array is inside the bytes allocated, and numbers the blocks from the first |
| `Shadows.MissBlock` | src/libsac/cachesim/access.c:304-324 | a miss leaves the missed block loaded and clean; on the other loaded blocks of its line it sets C if it was one of another array, S if one of their own, and nothing else; blocks that are not loaded and those of other lines stay |
| `Shadows.MarkOk` | src/libsac/cachesim/access.c:315-318 | on a loaded entry another array sets C and leaves L and S, the own array sets S and leaves L and C; an entry that is not loaded stays |
| `ShadowTables.LineResidue` | src/libsac/cachesim/access.c:294-299 | the entries of a line are exactly those with one residue modulo the number of lines |
| `ShadowTables.EntryFits` | src/libsac/cachesim/access.c:301-324 | an entry whose address does not exceed the array's end is inside the bytes allocated |
| `ShadowTables.AnalyseSlot` | src/libsac/cachesim/access.c:287-327 | the sweep from the first entry of a line in steps of the number of lines updates exactly the entries of that line and counts the missed block's own one before it is overwritten |
| `ShadowTables.NewSlotOk` | src/libsac/cachesim/basic.c:998-1021 | enough bytes are allocated for an entry for every block, and every block is unloaded |
| `ShadowTables.NewSlotCovers` | src/libsac/cachesim/basic.c:990-1011 | a new shadow array has an entry exactly for the blocks in which an element of the array lies |
| `ShadowTables.RemovedIs` | src/libsac/cachesim/basic.c:1045-1072 | exactly the slot of the array leaves, the others stay, all but the last one where they were; with different addresses the array is not found any more, and all others are |
| `ShadowTables.ShadowTable.DetailedAnalysis` | src/libsac/cachesim/access.c:277-332 | all registered arrays are updated as by the miss, and the tally is that of the entries found |
| `ShadowTables.ShadowTable.RegisterArray` | src/libsac/cachesim/basic.c:978-1033 | the array is put behind the used slots, or nothing changes if all are taken |
| `ShadowTables.ShadowTable.UnregisterArray` | src/libsac/cachesim/basic.c:1035-1078 | exactly the slot of the first array with that address leaves, and the last used one fills the gap, so the used slots stay a prefix; an unknown array changes nothing |
| `MissClassification.MissClassified` | src/libsac/cachesim/access.c:304-318 | with nonzero blocks and arrays that share none, every miss is exactly one of cold, cross, self, or cross and self |
| `MissClassification.StepKept` | src/libsac/cachesim/access.c:277-332 | every access, registration and removal keeps: a clean entry denotes a block still in its set, and only loaded blocks are marked |
| `MissClassification.ClassificationComplete` | src/libsac/cachesim/basic.c:1120-1127 | over any trace with registrations, removals and restarts of the counters, for reads, for writes and in total: self + cross + cold - miss is the number of misses counted as both; and all entries are sound |
| `MissCauses.EntriesExplained` | src/libsac/cachesim/access.c:277-332 | after any trace the bits of every block of every registered array say whether it has been loaded since the registration, and whether misses of other arrays and of its own have fallen in its line since it was last loaded |
| `MissCauses.MissesExplained` | src/libsac/cachesim/access.c:304-318 | after any trace a miss is counted as cold exactly if its block has not been loaded since its array was registered, as cross interference exactly if since it was last loaded a miss of another array has fallen in its line, as self interference exactly if one of its own has; of its kind of access only, and a hit counts as nothing |
| `MissCauses.RegisteredLegal` | src/libsac/cachesim/basic.c:978-1033 | a registration makes exactly the accesses to elements of the array ones that are classified |
| `MissCauses.UnregisteredIllegal` | src/libsac/cachesim/basic.c:1035-1078 | a removal ends that for exactly the accesses to this array |
| `MissClassification.SetsFollowTraces` | src/libsac/cachesim/access.c:503-599 | every set of a level is what the accesses to its own line make of it |
| `MissClassification.HitsByDistance` | src/libsac/cachesim/access.c:503-599 | the LRU characterisation of hits for a whole level |
| `MissClassification.MorePlacesMoreHits` | src/libsac/cachesim/access.c:503-599 | two levels with the same lines on the same trace: the one with more places hits whenever the other does, and has no fewer hits, for reads and for writes |
| `CacheHierarchy.SimulatedLevel.Access` | src/libsac/cachesim/access.c:334-687 | the whole state of the level after an access: sets, shadow arrays, and hits, misses and tallies of reads and of writes; after a read the block is there whatever the write policy is, a write that misses leaves the sets alone, the block invalid, or the block there |
| `CacheHierarchy.SimulatedLevel.Register` | src/libsac/cachesim/basic.c:978-1033 | the whole state of the level after a registration, which is refused exactly if no shadow array is free |
| `CacheHierarchy.SimulatedLevel.Unregister` | src/libsac/cachesim/basic.c:1035-1078 | the whole state of the level after the removal of an array, as RemovedIs and UnregisteredIllegal say |
| `CacheHierarchy.Replay` | src/libsac/cachesim/basic.c:1120-1127 | any trace of registrations, removals, accesses and restarts on a new level leaves it in the state that Run says, unless more arrays are registered than there are shadow arrays; so the figure computed as both is right for reads and for writes |
| `CacheHierarchy.Simulator.Access` | src/libsac/cachesim/access.c:334-687 | a whole access: every level up to the one where it stops does its access and counts it, the others do nothing, and SAC_CS_level ends as it should |
| `CacheHierarchy.Simulator.ReadLoads` | src/libsac/cachesim/access.c:362-372 | after a read that starts at the first of any number of levels, every level before which no level held the block holds it, whatever the write policies are, and the others are as they were |
| `CacheHierarchy.Simulator.AccessMM` | src/libsac/cachesim/basic.c:1081-1084 | an access that has come to the main memory ends at level 1 |
| `CacheHierarchy.Simulator.Start` | src/libsac/cachesim/basic.c:1244-1280 | all counters of all levels are 0; what is in the levels stays |
| `CacheHierarchy.PassedOn` | src/libsac/cachesim/access.c:370-372 | passing a miss on and accessing from the next level is the same as the whole access |
| `CacheHierarchy.Simulator.Simulate` | src/libsac/cachesim/basic.c:1205-1240 | any trace of reads and writes after Start: with no write-around level SAC_CS_level is 1, the first level has counted every reference, hits and misses of every other level sum up to the misses of the one before, separately for reads and writes, and the ALL misses are those of the last level |
| `CacheHierarchy.Simulator.LeftAboveIff` | src/libsac/cachesim/access.c:467-501 | in any state of any number of levels: an access from level 1 ends at another level if and only if it is a write, some level above the first goes around writes and does not hold the block, and no level before that holds it or goes around writes |
| `CacheHierarchy.AlwaysEndsAtFirstIff` | src/libsac/cachesim/access.c:650-687 | whatever hits and misses, accesses from the first level end there if and only if no level goes around misses or the first one does |
| `CacheHierarchy.LeftAtTheSecond` | src/libsac/cachesim/access.c:467-501 | a simulator of two new levels of any sizes, the second one with write-around, after one write: SAC_CS_level is 2 |
| `CacheHierarchy.AllMisses` | src/libsac/cachesim/basic.c:1226-1240 | accesses less all hits are the misses of the last level |
| `MergeSort.SortElements` | src/include/uthash.h:894-976 | the sort neither loses nor invents elements, whatever the comparison function |
| `MergeSort.SortSorted` | src/include/uthash.h:894-976 | the result is sorted |
| `MergeSort.SortStable` | src/include/uthash.h:894-976 | equal elements keep their order |
| `MergeSort.PassRuns` | src/include/uthash.h:903-963 | a pass turns sorted runs into sorted runs of twice the size |
| `MergeSort.MergeStable` | src/include/uthash.h:921-961 | a merge keeps the order of equal elements, those of the first run first |
| `HashSort.MergeStep` | src/include/uthash.h:921-961 | one element goes from the front of one of the two runs to the end of the list, in place |
| `HashSort.MergeRuns` | src/include/uthash.h:920-962 | in place, the merge of a run and as many elements behind it goes to the end of the list; all elements stay |
| `HashSort.PassOnce` | src/include/uthash.h:903-966 | in place, one pass merges neighbouring runs, with as many merges as there are pairs of runs |
| `HashSort.OneMerge` | src/include/uthash.h:967-972 | at most one merge means that the list was no longer than one pair of runs, so the loop ends with a sorted list, and ends |
| `HashSort.Srt` | src/include/uthash.h:894-976 | the list is sorted in place with next, prev, head and tail consistent; it terminates for every comparison function; links within buckets are not touched |
| `HashSort.SortedStably` | src/include/uthash.h:894-976 | for a comparison function that is a total preorder the result is a sorted permutation in which equal items keep their order |
| `HashBuckets.AddToBucket` | src/include/uthash.h:771-790 | the element is the first of the chain, all links consistent |
| `HashBuckets.DelInBucket` | src/include/uthash.h:793-806 | exactly this element leaves the chain, all links consistent |
| `HashBuckets.FindInBucket` | src/include/uthash.h:749-768 | an element of the chain with that hash value and key, or null only if there is none |
| `HashBuckets.AppendList` | src/include/uthash.h:284-290 | the element is the last of the list |
| `HashBuckets.RemoveFromList` | src/include/uthash.h:456-483 | exactly this element leaves the list, head and tail follow |
| `HashExpand.ExcessUpdate` | src/include/uthash.h:860-865 | what a change of one chain does to the number of elements beyond the ideal length |
| `HashExpand.MultiplierIs` | src/include/uthash.h:858-865 | the expansion multiplier in closed form: 0 up to the ideal length, 1 for one element more, then the ideal lengths a chain takes up, rounded up, or with ideal length 1 one less than its elements |
| `HashExpand.NextLimitIs` | src/include/uthash.h:781-789 | the length at which a chain asks for the next doubling: the capacity if it was not beyond the ideal length after the last one, twice the capacity for one element more; for ideal lengths below the capacity always longer than it was |
| `HashExpand.ExcessIs` | src/include/uthash.h:858-862 | the nonideal items are the elements on places beyond the ideal length of their chains |
| `HashExpand.MoveElement` | src/include/uthash.h:857-873 | one element is put to the front of its new bucket, counted, and beyond the ideal length counted as nonideal; the multipliers stay those MultiplierIs gives for the chain lengths |
| `HashExpand.MoveBucket` | src/include/uthash.h:855-874 | walking an old chain while its elements are relinked moves each of them exactly once |
| `HashExpand.Rehash` | src/include/uthash.h:837-887 | all elements are in bucket hashv mod 2b, none is lost, and nonideal is the sum of what exceeds the ideal length |
| `HashTables.AllLengths` | src/include/uthash.h:522-569 | the lengths of the chains sum up to the number of elements |
| `HashTables.Table.Fsck` | src/include/uthash.h:522-569 | for any table whose links lead to an end, valid or not: the check passes exactly if every element links back to the one before it in both lists, all bucket counts are right, and both totals are the number of items |
| `HashTables.Table.ValidPasses` | src/include/uthash.h:522-569 | so it passes on every table that the operations have built |
| `HashTables.Table.Find` | src/include/uthash.h:749-769 | the element stored under the key, or null if and only if there is none, for any hash function |
| `HashTables.Table.Add` | src/include/uthash.h:402-421 | an element with a fresh key is put at the end of the contents; everything else stays, through automatic doubling; the table's objects are the old ones, the element, or new |
| `HashTables.Table.Delete` | src/include/uthash.h:456-483 | exactly this element leaves the contents, the order of the others stays |
| `HashTables.Table.Srt` | src/include/uthash.h:894-976 | the contents are sorted; the buckets and their chains are untouched |
| `HashRefinement.PerformAll` | src/include/uthash.h:159-483 | any sequence of adds of fresh keys, finds and deletes, with any hash function and automatic doubling, gives the answers and leaves the contents of the simple form |
| `HashRefinement.ApplyIsMap` | src/include/uthash.h:402-483 | the simple form is a finite map: adding, deleting and looking up are what they are for maps, keys stay unique |
| `HashRefinement.ApplyKeepsOrder` | src/include/uthash.h:402-483 | the items that stay keep their order, and a new one comes last |
| `HashTables.Table.AddToTable` | src/include/uthash.h:342-352 | the buckets are doubled exactly when the chain has reached the limit that follows from its length after the last doubling, and doubling is not switched off; otherwise lengths and limits stay |
| `HashTables.Table.ExpandBuckets` | src/include/uthash.h:837-887 | twice the buckets with the same elements; the ideal length is the mean chain length rounded up, the multipliers are those of the new chain lengths, and two ineffective doublings in a row switch doubling off |

## Left out

- Integers are unbounded: overflow of bounds, steps, addresses and counters is not modelled, only the 32-bit queen class is.
- A generator's four arrays l, u, step and width are one sequence of axes; freeing of records and failing allocation are left out.
- Code blocks are opaque: CreateCode's renaming of index variables, variable declarations and the insertion of the new codes into the tree.
- Tree traversal: which with-loops are candidates, FoldDecision, CheckForSuperfluousCodes, Modarray2Genarray and the import and export of generators to tree nodes.
- CreateIndexInfoA, which builds vector operations with constant vectors; histories of vectors are those Scalar2ArrayIndex and CreateIndexInfoId build. LinearTransformationsVector is modelled for vector operations as well.
- A history for a vector of length zero, which the source leaves with unset fields; WithloopInfo demands non-empty vectors.
- Constant operands are literals or variables assigned a literal; the pattern matcher's other ways to find a constant are left out, and loops have one partition.
- WithloopInfo.SoundExactlyIfClean: is stated for index vectors at which the indices of the selections do not divide by zero; where they do, the selection is not reached.
- Folding.FoldPreservesMeaning: demands what DoubleExactness.MergeExactIff, PullExactness.PullExactIff and Folding.FoldRightIff show to be necessary for all lists, steps and blocks; a list for which a merge or a negative factor happens to do no harm is not covered.
- LinearTransformations.PullVectorExact: grids are supported for + and - only, as the source demands, and empty ones not under constant - index, see AxisTransform.ReverseProperIff.
- Fold's abort on a failing range check is an outcome, not a message.
- MutexBarrier.Reachable: a barrier for one thread is left out, it is never opened again; so are the cond, futex, pthread and spin barriers and the stop barrier.
- hwloc, thread-local storage, failing thread creation, and what workers do once they serve.
- Masks and shifts of the cache simulator are divisions and remainders by powers of two; the tables that compute them and the checks of sizes on initialisation are left out.
- The bytes of shadow arrays are values in an array of sequences, not raw memory; shadowmaxindices and unused fields are left out.
- Counters are fields of a level, not global arrays; invalidation counters, printing, percentages, the simple profiling functions, piped and file modes, tags of nested Starts and Stop are left out.
- MissClassification.MissClassified: reads and fetching writes only; for write-validate and write-around the sets and figures are modelled, the meaning of the classes is not claimed.
- CacheHierarchy.Simulator.Simulate: claims no sums with write-around levels, where misses are not passed on; and which arrays are registered does not change on the way.
- uthash: Bloom filters, non-fatal out-of-memory mode, hash functions (an arbitrary function), keys are ints, insertion in order, replace, select and clear; the table header is merged with the head.
- HashTables.Table.Fsck: demands that the links lead to an end, since on others the check may not end.
- WorkerTree.ParentLowBit: the lowest bit is the largest power of two that divides the number, no bitwise operation is modelled.
