/**
 The history of an index: which index scalar every component of a selection vector is based on, and
 the chain of operations with constants applied to it (index_info).
 */
module IndexInfos {
  import opened Wrappers
  import opened Generators
  import opened AxisTransform

  /** `vector` is 0 for the history of a scalar and the number of components otherwise; a component
      with permutation 0 is the constant in constArg; argNo 0 means that no operation is applied. */
  datatype IndexInfo = IndexInfo(
    vector: nat,
    permutation: seq<nat>,
    last: seq<Option<IndexInfo>>,
    mprf: Prf,
    constArg: seq<int>,
    argNo: nat)

  function Slot(info: IndexInfo, d: nat): nat {
    if info.vector > 0 then d else 0
  }

  /** Component d of a history is based on an index scalar, and every step of it is defined. */
  predicate Component(info: IndexInfo, d: nat)
    decreases info
  {
    var k := Slot(info, d);
    && k < |info.permutation| == |info.last| == |info.constArg|
    && info.permutation[k] > 0
    && info.argNo <= 2
    && (info.argNo > 0 && info.mprf == Div ==> info.argNo == 2 && info.constArg[k] != 0)
    && (info.last[k].Some? ==> Component(info.last[k].value, d))
  }

  predicate ScalarHistory(info: IndexInfo)
    decreases info
  {
    && info.vector == 0
    && |info.last| == 1
    && (info.last[0].Some? ==> ScalarHistory(info.last[0].value))
  }

  predicate HasVectorPredecessor(info: IndexInfo) {
    |info.last| > 0 && info.last[0].Some? && info.last[0].value.vector > 0
  }

  /** The shape of a history LinearTransformationsVector accepts: either all components continue in
      one common vector history, or each continues in a scalar one. */
  predicate VectorHistory(info: IndexInfo)
    decreases info
  {
    && 0 < info.vector == |info.permutation| == |info.last| == |info.constArg|
    && (forall d :: 0 <= d < info.vector ==>
         if info.permutation[d] > 0 then Component(info, d) else info.last[d].None?)
    && (if HasVectorPredecessor(info) then
          && var prev := info.last[0].value;
          && VectorHistory(prev)
          && prev.permutation == info.permutation
          && forall d :: 0 <= d < info.vector && info.permutation[d] > 0 ==> info.last[d] == info.last[0]
        else
          forall d :: 0 <= d < info.vector && info.last[d].Some? ==> ScalarHistory(info.last[d].value))
  }

  function Step(info: IndexInfo, k: nat, x: int): int
    requires k < |info.constArg|
    requires info.argNo > 0 && info.mprf == Div ==> info.argNo == 2 && info.constArg[k] != 0
  {
    if info.argNo == 0 then x else Apply(info.mprf, info.argNo, info.constArg[k], x)
  }

  /** The value the history gives component d when its index scalar is x. */
  function Evaluate(info: IndexInfo, d: nat, x: int): int
    requires Component(info, d)
    decreases info
  {
    var k := Slot(info, d);
    Step(info, k, if info.last[k].Some? then Evaluate(info.last[k].value, d, x) else x)
  }

  /** No step on the way to component d has a negative factor or divisor. */
  predicate NonNegativeSteps(info: IndexInfo, d: nat)
    requires Component(info, d)
    decreases info
  {
    var k := Slot(info, d);
    && (info.argNo > 0 ==> NonNegative(info.mprf, info.constArg[k]))
    && (info.last[k].Some? ==> NonNegativeSteps(info.last[k].value, d))
  }

  function FlooredStep(info: IndexInfo, k: nat, x: int): int
    requires k < |info.constArg|
    requires info.argNo > 0 && info.mprf == Div ==> info.argNo == 2 && info.constArg[k] != 0
  {
    if info.argNo == 0 then x else Floored(info.mprf, info.argNo, info.constArg[k], x)
  }

  /** What pulling back takes the value of component d for when its index scalar is x. */
  function FlooredValue(info: IndexInfo, d: nat, x: int): int
    requires Component(info, d)
    decreases info
  {
    var k := Slot(info, d);
    FlooredStep(info, k, if info.last[k].Some? then FlooredValue(info.last[k].value, d, x) else x)
  }

  /** No step of component d multiplies or divides: the only histories grids are supported for.  Where they are not
      reversible, there is no `constant - index` either. */
  predicate Unscaled(info: IndexInfo, d: nat, reversible: bool)
    requires Component(info, d)
    decreases info
  {
    var k := Slot(info, d);
    && (info.argNo > 0 ==> info.mprf == Add || (info.mprf == Sub && (info.argNo == 2 || reversible)))
    && (info.last[k].Some? ==> Unscaled(info.last[k].value, d, reversible))
  }

  // ---- the same on whole vectors ----

  /** The vector whose d-th component is the base value of component d: an index scalar or the constant. */
  function Gather(info: IndexInfo, iv: seq<int>): (w: seq<int>)
    requires Addresses(info, |iv|)
  {
    seq(info.vector, d requires 0 <= d < info.vector =>
      if info.permutation[d] == 0 then info.constArg[d] else iv[info.permutation[d] - 1])
  }

  /** Every component is a constant or names one of n index scalars. */
  predicate Addresses(info: IndexInfo, n: nat) {
    && info.vector == |info.permutation| == |info.constArg|
    && forall d :: 0 <= d < info.vector ==> info.permutation[d] <= n
  }

  predicate DistinctScalars(info: IndexInfo) {
    forall i, j :: 0 <= i < j < |info.permutation| && info.permutation[i] > 0 ==>
      info.permutation[i] != info.permutation[j]
  }

  /** The histories of all non-constant components applied to w; constants stay. */
  function Transform(info: IndexInfo, w: seq<int>): (r: seq<int>)
    requires VectorHistory(info) && |w| == info.vector
  {
    seq(info.vector, d requires 0 <= d < info.vector =>
      if info.permutation[d] == 0 then w[d] else Evaluate(info, d, w[d]))
  }

  /** The selection vector computed for index vector iv. */
  function Index(info: IndexInfo, iv: seq<int>): (r: seq<int>)
    requires VectorHistory(info) && Addresses(info, |iv|)
  {
    Transform(info, Gather(info, iv))
  }

  predicate NonNegativeVector(info: IndexInfo)
    requires VectorHistory(info)
  {
    forall d :: 0 <= d < info.vector && info.permutation[d] > 0 ==> NonNegativeSteps(info, d)
  }

  /** What pulling back takes Transform for. */
  function FlooredTransform(info: IndexInfo, w: seq<int>): (r: seq<int>)
    requires VectorHistory(info) && |w| == info.vector
  {
    seq(info.vector, d requires 0 <= d < info.vector =>
      if info.permutation[d] == 0 then w[d] else FlooredValue(info, d, w[d]))
  }

  /** What the transformed generators take the selection vector computed for iv for. */
  function FlooredIndex(info: IndexInfo, iv: seq<int>): (r: seq<int>)
    requires VectorHistory(info) && Addresses(info, |iv|)
  {
    FlooredTransform(info, Gather(info, iv))
  }

  predicate UnscaledVector(info: IndexInfo, reversible: bool)
    requires VectorHistory(info)
  {
    forall d :: 0 <= d < info.vector && info.permutation[d] > 0 ==> Unscaled(info, d, reversible)
  }
}
