/**
 Pulling a list of generators back through the history of a selection vector
 (LinearTransformationsScalar, LinearTransformationsVector).
 */
module LinearTransformations {
  import opened Wrappers
  import opened Generators
  import opened AxisTransform
  import opened IndexInfos
  import opened InternGens
  import opened GeneratorSweep

  // ---- the same on values ----

  function PullStep(V: seq<Gen>, n: nat, info: IndexInfo, k: nat, d: nat): seq<Gen>
    requires d < n && k < |info.constArg|
  {
    if info.argNo > 0 then StepList(V, Stepper(n, d, info.mprf, info.argNo, info.constArg[k])) else V
  }

  function PullScalar(V: seq<Gen>, n: nat, info: IndexInfo, d: nat): seq<Gen>
    requires d < n && Component(info, d) && ScalarHistory(info)
    decreases info
  {
    var V1 := PullStep(V, n, info, 0, d);
    if info.last[0].Some? then PullScalar(V1, n, info.last[0].value, d) else V1
  }

  /** The operation of a vector history on the first k axes. */
  function PullOperation(V: seq<Gen>, info: IndexInfo, k: nat): seq<Gen>
    requires VectorHistory(info) && k <= info.vector
  {
    if k == 0 then V else
      var V1 := PullOperation(V, info, k - 1);
      if info.permutation[k - 1] > 0 then PullStep(V1, info.vector, info, k - 1, k - 1) else V1
  }

  /** The scalar histories that the first k components continue in. */
  function PullScalars(V: seq<Gen>, info: IndexInfo, k: nat): seq<Gen>
    requires VectorHistory(info) && !HasVectorPredecessor(info) && k <= info.vector
  {
    if k == 0 then V else
      var V1 := PullScalars(V, info, k - 1);
      if info.last[k - 1].Some? then PullScalar(V1, info.vector, info.last[k - 1].value, k - 1) else V1
  }

  function PullVector(V: seq<Gen>, info: IndexInfo): seq<Gen>
    requires VectorHistory(info)
    decreases info
  {
    var V1 := PullOperation(V, info, info.vector);
    if HasVectorPredecessor(info) then PullVector(V1, info.last[0].value) else PullScalars(V1, info, info.vector)
  }

  // ---- what the pulled-back list denotes ----

  /** Grids are only supported where nothing is multiplied or divided, and empty ones only where no index is
      subtracted from a constant. */
  predicate Supported(V: seq<Gen>, info: IndexInfo, d: nat)
    requires Component(info, d)
  {
    Gridless(V) || Unscaled(info, d, false) || (FilledGens(V) && Unscaled(info, d, true))
  }

  predicate KeepsShape(W: seq<Gen>, V: seq<Gen>, n: nat) {
    && ProperGens(W, n) && (FilledGens(V) ==> FilledGens(W))
    && (Gridless(V) ==> Gridless(W) && |W| == |V|)
  }

  lemma GridlessFilled(V: seq<Gen>, n: nat)
    requires ProperGens(V, n)
    ensures Gridless(V) ==> FilledGens(V)
  {
  }

  lemma PullStepKeeps(V: seq<Gen>, n: nat, info: IndexInfo, k: nat, d: nat)
    requires d < n && Component(info, d) && k == Slot(info, d) && ProperGens(V, n) && Supported(V, info, d)
    ensures KeepsShape(PullStep(V, n, info, k, d), V, n)
  {
    if info.argNo > 0 {
      GridlessFilled(V, n);
      StepperKeepsProper(V, n, d, info.mprf, info.argNo, info.constArg[k]);
      StepListProper(V, n, Stepper(n, d, info.mprf, info.argNo, info.constArg[k]));
    }
  }

  lemma PullStepExact(V: seq<Gen>, n: nat, info: IndexInfo, k: nat, d: nat, w: seq<int>)
    requires d < n && Component(info, d) && k == Slot(info, d) && ProperGens(V, n) && Supported(V, info, d)
    requires |w| == n && NonNegativeSteps(info, d)
    ensures Hits(PullStep(V, n, info, k, d), w) == Hits(V, w[d := FlooredStep(info, k, w[d])])
  {
    if info.argNo > 0 {
      StepListPreimage(V, d, info.mprf, info.argNo, info.constArg[k], w);
    } else {
      assert w[d := w[d]] == w;
    }
  }

  lemma SupportedKept(W: seq<Gen>, V: seq<Gen>, n: nat, info: IndexInfo, d: nat)
    requires KeepsShape(W, V, n) && Component(info, d) && Supported(V, info, d)
    ensures ProperGens(W, n) && Supported(W, info, d)
    ensures info.last[Slot(info, d)].Some? ==>
      Component(info.last[Slot(info, d)].value, d) && Supported(W, info.last[Slot(info, d)].value, d)
  {
  }

  lemma {:induction false} PullScalarKeeps(V: seq<Gen>, n: nat, info: IndexInfo, d: nat)
    requires d < n && Component(info, d) && ScalarHistory(info) && ProperGens(V, n) && Supported(V, info, d)
    ensures KeepsShape(PullScalar(V, n, info, d), V, n)
    decreases info
  {
    hide ProperGens, FilledGens, Gridless, Unscaled, PullStep;
    PullStepKeeps(V, n, info, 0, d);
    var V1 := PullStep(V, n, info, 0, d);
    SupportedKept(V1, V, n, info, d);
    if info.last[0].Some? {
      PullScalarKeeps(V1, n, info.last[0].value, d);
    }
  }

  /** A scalar history pulls the list back along one axis, at every vector. */
  lemma {:induction false} PullScalarExact(V: seq<Gen>, n: nat, info: IndexInfo, d: nat, w: seq<int>)
    requires d < n && Component(info, d) && ScalarHistory(info) && ProperGens(V, n) && Supported(V, info, d)
    requires |w| == n && NonNegativeSteps(info, d)
    ensures Hits(PullScalar(V, n, info, d), w) == Hits(V, w[d := FlooredValue(info, d, w[d])])
    decreases info
  {
    hide ProperGens, FilledGens, Gridless, Unscaled, PullStep;
    PullStepKeeps(V, n, info, 0, d);
    var V1 := PullStep(V, n, info, 0, d);
    SupportedKept(V1, V, n, info, d);
    if info.last[0].Some? {
      var prev := info.last[0].value;
      PullScalarExact(V1, n, prev, d, w);
      var w' := w[d := FlooredValue(prev, d, w[d])];
      PullStepExact(V, n, info, 0, d, w');
      assert w'[d := FlooredValue(info, d, w[d])] == w[d := FlooredValue(info, d, w[d])];
    } else {
      PullStepExact(V, n, info, 0, d, w);
    }
  }

  /** What the operation of a vector history on the first k components is taken for. */
  function Operate(info: IndexInfo, w: seq<int>, k: nat): (r: seq<int>)
    requires VectorHistory(info) && k <= info.vector == |w|
  {
    seq(|w|, d requires 0 <= d < |w| =>
      if d < k && info.permutation[d] > 0 then FlooredStep(info, d, w[d]) else w[d])
  }

  predicate SupportedVector(V: seq<Gen>, info: IndexInfo)
    requires VectorHistory(info)
  {
    Gridless(V) || UnscaledVector(info, false) || (FilledGens(V) && UnscaledVector(info, true))
  }

  lemma {:induction false} PullOperationKeeps(V: seq<Gen>, info: IndexInfo, k: nat)
    requires VectorHistory(info) && k <= info.vector
    requires ProperGens(V, info.vector) && SupportedVector(V, info)
    ensures KeepsShape(PullOperation(V, info, k), V, info.vector)
  {
    if k > 0 {
      PullOperationKeeps(V, info, k - 1);
      if info.permutation[k - 1] > 0 {
        PullStepKeeps(PullOperation(V, info, k - 1), info.vector, info, k - 1, k - 1);
      }
    }
  }

  lemma OperationSupported(V: seq<Gen>, info: IndexInfo, d: nat)
    requires VectorHistory(info) && d < info.vector
    requires ProperGens(V, info.vector) && SupportedVector(V, info)
    ensures ProperGens(PullOperation(V, info, d), info.vector)
    ensures info.permutation[d] > 0 ==> Component(info, d) && Supported(PullOperation(V, info, d), info, d)
  {
    PullOperationKeeps(V, info, d);
  }

  lemma {:induction false} PullOperationExact(V: seq<Gen>, info: IndexInfo, k: nat, w: seq<int>)
    requires VectorHistory(info) && k <= info.vector == |w|
    requires ProperGens(V, info.vector) && SupportedVector(V, info)
    requires NonNegativeVector(info)
    ensures Hits(PullOperation(V, info, k), w) == Hits(V, Operate(info, w, k))
  {
    hide ProperGens, FilledGens, Gridless, Unscaled, UnscaledVector, SupportedVector, Supported, KeepsShape, PullStep;
    if k == 0 {
      assert Operate(info, w, 0) == w;
    } else {
      var n, d := info.vector, k - 1;
      OperationSupported(V, info, d);
      if info.permutation[d] == 0 {
        PullOperationExact(V, info, d, w);
        assert Operate(info, w, k) == Operate(info, w, d);
      } else {
        PullStepExact(PullOperation(V, info, d), n, info, d, d, w);
        OperateLast(info, w, k);
        PullOperationExact(V, info, d, w[d := FlooredStep(info, d, w[d])]);
      }
    }
  }

  lemma OperateLast(info: IndexInfo, w: seq<int>, k: nat)
    requires VectorHistory(info) && 0 < k <= info.vector == |w| && info.permutation[k - 1] > 0
    ensures Operate(info, w[k - 1 := FlooredStep(info, k - 1, w[k - 1])], k - 1) == Operate(info, w, k)
  {
  }

  /** What the scalar histories of the first k components are taken for. */
  function EvaluateScalars(info: IndexInfo, w: seq<int>, k: nat): (r: seq<int>)
    requires VectorHistory(info) && !HasVectorPredecessor(info) && k <= info.vector == |w|
  {
    seq(|w|, d requires 0 <= d < |w| =>
      if d < k && info.last[d].Some? then FlooredValue(info.last[d].value, d, w[d]) else w[d])
  }

  lemma {:induction false} PullScalarsKeeps(V: seq<Gen>, info: IndexInfo, k: nat)
    requires VectorHistory(info) && !HasVectorPredecessor(info) && k <= info.vector
    requires ProperGens(V, info.vector) && SupportedVector(V, info)
    ensures KeepsShape(PullScalars(V, info, k), V, info.vector)
  {
    if k > 0 {
      PullScalarsKeeps(V, info, k - 1);
      if info.last[k - 1].Some? {
        PullScalarKeeps(PullScalars(V, info, k - 1), info.vector, info.last[k - 1].value, k - 1);
      }
    }
  }

  lemma {:induction false} PullScalarsExact(V: seq<Gen>, info: IndexInfo, k: nat, w: seq<int>)
    requires VectorHistory(info) && !HasVectorPredecessor(info) && k <= info.vector == |w|
    requires ProperGens(V, info.vector) && SupportedVector(V, info)
    requires NonNegativeVector(info)
    ensures Hits(PullScalars(V, info, k), w) == Hits(V, EvaluateScalars(info, w, k))
  {
    if k == 0 {
      assert EvaluateScalars(info, w, 0) == w;
    } else {
      var n, d := info.vector, k - 1;
      PullScalarsKeeps(V, info, d);
      if info.last[d].None? {
        PullScalarsExact(V, info, d, w);
        assert EvaluateScalars(info, w, k) == EvaluateScalars(info, w, d);
      } else {
        PullScalarExact(PullScalars(V, info, d), n, info.last[d].value, d, w);
        EvaluateLast(info, w, k);
        PullScalarsExact(V, info, d, w[d := FlooredValue(info.last[d].value, d, w[d])]);
      }
    }
  }

  lemma EvaluateLast(info: IndexInfo, w: seq<int>, k: nat)
    requires VectorHistory(info) && !HasVectorPredecessor(info) && 0 < k <= info.vector == |w| && info.last[k - 1].Some?
    ensures var w' := w[k - 1 := FlooredValue(info.last[k - 1].value, k - 1, w[k - 1])];
            EvaluateScalars(info, w', k - 1) == EvaluateScalars(info, w, k)
  {
  }

  lemma {:induction false} PullVectorKeeps(V: seq<Gen>, info: IndexInfo)
    requires VectorHistory(info) && ProperGens(V, info.vector) && SupportedVector(V, info)
    ensures KeepsShape(PullVector(V, info), V, info.vector)
    decreases info
  {
    PullOperationKeeps(V, info, info.vector);
    var V1 := PullOperation(V, info, info.vector);
    if HasVectorPredecessor(info) {
      PullVectorKeeps(V1, info.last[0].value);
    } else {
      PullScalarsKeeps(V1, info, info.vector);
    }
  }

  /** The list pulled back through a whole history without negative factors and divisors denotes a preimage of the
      original list, at every vector: that under the history with quotients rounded down. */
  lemma {:induction false} PullVectorExact(V: seq<Gen>, info: IndexInfo, w: seq<int>)
    requires VectorHistory(info) && |w| == info.vector
    requires ProperGens(V, info.vector) && SupportedVector(V, info)
    requires NonNegativeVector(info)
    ensures Hits(PullVector(V, info), w) == Hits(V, FlooredTransform(info, w))
    decreases info
  {
    var n := info.vector;
    PullOperationKeeps(V, info, n);
    var V1, y := PullOperation(V, info, n), Inner(info, w);
    InnerThenOperate(info, w);
    if HasVectorPredecessor(info) {
      PullVectorExact(V1, info.last[0].value, w);
    } else {
      PullScalarsExact(V1, info, n, w);
    }
    PullOperationExact(V, info, n, y);
  }

  /** What the last operation of a history is applied to. */
  function Inner(info: IndexInfo, w: seq<int>): (y: seq<int>)
    requires VectorHistory(info) && |w| == info.vector
    ensures |y| == |w|
  {
    if HasVectorPredecessor(info) then FlooredTransform(info.last[0].value, w)
    else EvaluateScalars(info, w, info.vector)
  }

  lemma InnerThenOperate(info: IndexInfo, w: seq<int>)
    requires VectorHistory(info) && |w| == info.vector
    ensures Operate(info, Inner(info, w), info.vector) == FlooredTransform(info, w)
    ensures NonNegativeVector(info) && HasVectorPredecessor(info) ==> NonNegativeVector(info.last[0].value)
  {
    var y := Inner(info, w);
    forall d | 0 <= d < info.vector && info.permutation[d] > 0
      ensures y[d] == if info.last[d].Some? then FlooredValue(info.last[d].value, d, w[d]) else w[d]
      ensures Component(info, d)
    {
    }
  }

  // ---- constant components ----

  /** Axis d of every generator is a. */
  predicate AllAt(V: seq<Gen>, n: nat, d: nat, a: Axis)
    requires d < n
  {
    forall k :: 0 <= k < |V| ==> |V[k].axes| == n && V[k].axes[d] == a
  }

  lemma StepElsewhere(V: seq<Gen>, n: nat, info: IndexInfo, k: nat, dim: nat, d: nat, a: Axis)
    requires dim < n && k < |info.constArg| && d < n && d != dim && AllAt(V, n, d, a)
    ensures AllAt(PullStep(V, n, info, k, dim), n, d, a)
  {
    if info.argNo > 0 {
      var f := Stepper(n, dim, info.mprf, info.argNo, info.constArg[k]);
      SplitElsewhere(V, |V|, n, dim, info.mprf, info.argNo, info.constArg[k], d, a);
      var W := StepList(V, f);
      forall j | 0 <= j < |W| ensures |W[j].axes| == n && W[j].axes[d] == a {
        if j >= |Split(V, |V|, f)| {
          var i := j - |Split(V, |V|, f)|;
          assert W[j] == f(V[i]).0;
        }
      }
    }
  }

  lemma {:induction false} SplitElsewhere(V: seq<Gen>, i: nat, n: nat, dim: nat, prf: Prf, argNo: nat, c: int, d: nat,
                                          a: Axis)
    requires i <= |V| && dim < n && d < n && d != dim && AllAt(V, n, d, a)
    ensures AllAt(Split(V, i, Stepper(n, dim, prf, argNo, c)), n, d, a)
  {
    if i > 0 {
      SplitElsewhere(V, i - 1, n, dim, prf, argNo, c, d, a);
    }
  }

  lemma {:induction false} ScalarElsewhere(V: seq<Gen>, n: nat, info: IndexInfo, dim: nat, d: nat, a: Axis)
    requires dim < n && Component(info, dim) && ScalarHistory(info) && d < n && d != dim && AllAt(V, n, d, a)
    ensures AllAt(PullScalar(V, n, info, dim), n, d, a)
    decreases info
  {
    StepElsewhere(V, n, info, 0, dim, d, a);
    if info.last[0].Some? {
      ScalarElsewhere(PullStep(V, n, info, 0, dim), n, info.last[0].value, dim, d, a);
    }
  }

  lemma {:induction false} OperationConstant(V: seq<Gen>, info: IndexInfo, k: nat, d: nat, a: Axis)
    requires VectorHistory(info) && k <= info.vector && d < info.vector && info.permutation[d] == 0
    requires AllAt(V, info.vector, d, a)
    ensures AllAt(PullOperation(V, info, k), info.vector, d, a)
  {
    hide PullStep, AllAt, Component;
    if k > 0 {
      OperationConstant(V, info, k - 1, d, a);
      if info.permutation[k - 1] > 0 {
        StepElsewhere(PullOperation(V, info, k - 1), info.vector, info, k - 1, k - 1, d, a);
      }
    }
  }

  lemma {:induction false} ScalarsConstant(V: seq<Gen>, info: IndexInfo, k: nat, d: nat, a: Axis)
    requires VectorHistory(info) && !HasVectorPredecessor(info) && k <= info.vector
    requires d < info.vector && info.permutation[d] == 0 && AllAt(V, info.vector, d, a)
    ensures AllAt(PullScalars(V, info, k), info.vector, d, a)
  {
    if k > 0 {
      ScalarsConstant(V, info, k - 1, d, a);
      if info.last[k - 1].Some? {
        ScalarElsewhere(PullScalars(V, info, k - 1), info.vector, info.last[k - 1].value, k - 1, d, a);
      }
    }
  }

  /** Constant components stay as they are. */
  lemma {:induction false} PullConstant(V: seq<Gen>, info: IndexInfo, d: nat, a: Axis)
    requires VectorHistory(info) && d < info.vector && info.permutation[d] == 0 && AllAt(V, info.vector, d, a)
    ensures AllAt(PullVector(V, info), info.vector, d, a)
    decreases info
  {
    OperationConstant(V, info, info.vector, d, a);
    var V1 := PullOperation(V, info, info.vector);
    if HasVectorPredecessor(info) {
      PullConstant(V1, info.last[0].value, d, a);
    } else {
      ScalarsConstant(V1, info, info.vector, d, a);
    }
  }

  // ---- the functions of the source ----

  method LinearTransformationsScalar(ig: InternGen, transformations: IndexInfo, dim: nat,
                                     ghost n: nat, ghost s: seq<InternGen>, ghost V: seq<Gen>)
    returns (root: InternGen, ghost s': seq<InternGen>)
    requires GenChain(ig, s, V, n) && dim < n
    requires Component(transformations, dim) && ScalarHistory(transformations) && Supported(V, transformations, dim)
    modifies s
    ensures GenChain(root, s', PullScalar(V, n, transformations, dim), n) && fresh(Records(s') - Records(s))
    decreases transformations
  {
    PullStepKeeps(V, n, transformations, 0, dim);
    root, s' := TransformComponent(ig, transformations, 0, dim, n, s, V);
    if transformations.last[0].Some? {
      ghost var s1, V1 := s', PullStep(V, n, transformations, 0, dim);
      root, s' := LinearTransformationsScalar(root, transformations.last[0].value, dim, n, s1, V1);
    }
  }

  /** The operation of a history, if it has one, on the axis of one component. */
  method TransformComponent(ig: InternGen, transformations: IndexInfo, k: nat, dim: nat,
                            ghost n: nat, ghost s: seq<InternGen>, ghost V: seq<Gen>)
    returns (root: InternGen, ghost s': seq<InternGen>)
    requires GenChain(ig, s, V, n) && dim < n
    requires Component(transformations, dim) && Supported(V, transformations, dim) && k == Slot(transformations, dim)
    modifies s
    ensures GenChain(root, s', PullStep(V, n, transformations, k, dim), n) && fresh(Records(s') - Records(s))
  {
    if transformations.argNo > 0 {
      var prf, argNo, c := transformations.mprf, transformations.argNo, transformations.constArg[k];
      ghost var f := Stepper(n, dim, prf, argNo, c);
      GridlessFilled(V, n);
      StepperKeepsProper(V, n, dim, prf, argNo, c);
      assert IsStep(f, n, dim, prf, argNo, c);
      root, s' := TransformAxis(ig, dim, prf, argNo, c, f, n, s, V);
    } else {
      root, s' := ig, s;
    }
  }

  method OperateOnAxis(ig: InternGen, transformations: IndexInfo, actDim: nat, ghost s: seq<InternGen>,
                       ghost V: seq<Gen>)
    returns (root: InternGen, ghost s': seq<InternGen>)
    requires VectorHistory(transformations) && actDim < transformations.vector
    requires ProperGens(V, transformations.vector) && SupportedVector(V, transformations)
    requires GenChain(ig, s, PullOperation(V, transformations, actDim), transformations.vector)
    modifies s
    ensures GenChain(root, s', PullOperation(V, transformations, actDim + 1), transformations.vector)
    ensures fresh(Records(s') - Records(s))
  {
    PullOperationKeeps(V, transformations, actDim);
    if transformations.permutation[actDim] > 0 {
      root, s' := TransformComponent(ig, transformations, actDim, actDim, transformations.vector, s,
        PullOperation(V, transformations, actDim));
    } else {
      root, s' := ig, s;
    }
  }

  lemma OperationStart(ig: InternGen, transformations: IndexInfo, s: seq<InternGen>, V: seq<Gen>)
    requires VectorHistory(transformations) && GenChain(ig, s, V, transformations.vector)
    ensures ProperGens(V, transformations.vector) && PullOperation(V, transformations, 0) == V
  {
  }

  /** The operation of a vector history on all dimensions. */
  method TransformOperation(ig: InternGen, transformations: IndexInfo, ghost s: seq<InternGen>, ghost V: seq<Gen>)
    returns (root: InternGen, ghost s': seq<InternGen>)
    requires VectorHistory(transformations)
    requires GenChain(ig, s, V, transformations.vector) && SupportedVector(V, transformations)
    modifies s
    ensures GenChain(root, s', PullOperation(V, transformations, transformations.vector), transformations.vector)
    ensures fresh(Records(s') - Records(s))
  {
    hide PullOperation, GenChain, ProperGens, SupportedVector, VectorHistory, HasVectorPredecessor, Component;
    OperationStart(ig, transformations, s, V);
    root, s' := ig, s;
    for actDim := 0 to transformations.vector
      invariant GenChain(root, s', PullOperation(V, transformations, actDim), transformations.vector)
      invariant fresh(Records(s') - Records(s))
    {
      root, s' := OperateOnAxis(root, transformations, actDim, s', V);
    }
  }

  method LinearTransformationsVector(ig: InternGen, transformations: IndexInfo,
                                     ghost s: seq<InternGen>, ghost V: seq<Gen>)
    returns (root: InternGen, ghost s': seq<InternGen>)
    requires VectorHistory(transformations)
    requires GenChain(ig, s, V, transformations.vector) && SupportedVector(V, transformations)
    modifies s
    ensures GenChain(root, s', PullVector(V, transformations), transformations.vector)
    ensures fresh(Records(s') - Records(s))
    decreases transformations
  {
    hide PullOperation, PullScalars, GenChain, ProperGens, SupportedVector, VectorHistory;
    OperationStart(ig, transformations, s, V);
    OperationDone(V, transformations);
    if transformations.argNo > 0 {
      root, s' := TransformOperation(ig, transformations, s, V);
    } else {
      root, s' := ig, s;
      NoOperation(V, transformations, transformations.vector);
    }
    ghost var W := PullOperation(V, transformations, transformations.vector);
    if HasVectorPredecessor(transformations) {
      root, s' := LinearTransformationsVector(root, transformations.last[0].value, s', W);
    } else {
      root, s' := TransformScalars(root, transformations, s', W);
    }
  }

  lemma OperationDone(V: seq<Gen>, info: IndexInfo)
    requires VectorHistory(info) && ProperGens(V, info.vector) && SupportedVector(V, info)
    ensures var W := PullOperation(V, info, info.vector);
            && ProperGens(W, info.vector) && SupportedVector(W, info)
            && (if HasVectorPredecessor(info) then
                  && VectorHistory(info.last[0].value) && info.last[0].value.vector == info.vector
                  && SupportedVector(W, info.last[0].value) && PullVector(V, info) == PullVector(W, info.last[0].value)
                else PullVector(V, info) == PullScalars(W, info, info.vector))
  {
    PullOperationKeeps(V, info, info.vector);
  }

  lemma ScalarsStart(ig: InternGen, transformations: IndexInfo, s: seq<InternGen>, V: seq<Gen>)
    requires VectorHistory(transformations) && !HasVectorPredecessor(transformations)
    requires GenChain(ig, s, V, transformations.vector)
    ensures ProperGens(V, transformations.vector) && PullScalars(V, transformations, 0) == V
  {
  }

  /** The additional scalar transformations of the components of a vector. */
  method TransformScalars(ig: InternGen, transformations: IndexInfo, ghost s: seq<InternGen>, ghost V: seq<Gen>)
    returns (root: InternGen, ghost s': seq<InternGen>)
    requires VectorHistory(transformations) && !HasVectorPredecessor(transformations)
    requires GenChain(ig, s, V, transformations.vector) && SupportedVector(V, transformations)
    modifies s
    ensures GenChain(root, s', PullScalars(V, transformations, transformations.vector), transformations.vector)
    ensures fresh(Records(s') - Records(s))
  {
    hide PullScalars, GenChain, ProperGens, SupportedVector, VectorHistory, HasVectorPredecessor, Component;
    ScalarsStart(ig, transformations, s, V);
    root, s' := ig, s;
    for actDim := 0 to transformations.vector
      invariant GenChain(root, s', PullScalars(V, transformations, actDim), transformations.vector)
      invariant fresh(Records(s') - Records(s))
    {
      root, s' := ScalarOnAxis(root, transformations, actDim, s', V);
    }
  }

  method ScalarOnAxis(ig: InternGen, transformations: IndexInfo, actDim: nat, ghost s: seq<InternGen>,
                      ghost V: seq<Gen>)
    returns (root: InternGen, ghost s': seq<InternGen>)
    requires VectorHistory(transformations) && !HasVectorPredecessor(transformations) && actDim < transformations.vector
    requires ProperGens(V, transformations.vector) && SupportedVector(V, transformations)
    requires GenChain(ig, s, PullScalars(V, transformations, actDim), transformations.vector)
    modifies s
    ensures GenChain(root, s', PullScalars(V, transformations, actDim + 1), transformations.vector)
    ensures fresh(Records(s') - Records(s))
  {
    PullScalarsKeeps(V, transformations, actDim);
    if transformations.last[actDim].Some? {
      root, s' := LinearTransformationsScalar(ig, transformations.last[actDim].value, actDim,
        transformations.vector, s, PullScalars(V, transformations, actDim));
    } else {
      root, s' := ig, s;
    }
  }

  lemma {:induction false} NoOperation(V: seq<Gen>, info: IndexInfo, k: nat)
    requires VectorHistory(info) && k <= info.vector && info.argNo == 0
    ensures PullOperation(V, info, k) == V
  {
    if k > 0 {
      NoOperation(V, info, k - 1);
    }
  }

  lemma {:induction false} NoScalars(V: seq<Gen>, info: IndexInfo, k: nat)
    requires VectorHistory(info) && !HasVectorPredecessor(info) && k <= info.vector
    requires forall d :: 0 <= d < info.vector ==> info.last[d].None?
    ensures PullScalars(V, info, k) == V
  {
    if k > 0 {
      NoScalars(V, info, k - 1);
    }
  }

  /** A selection vector of index scalars and constants. */
  lemma PullNothing(V: seq<Gen>, info: IndexInfo)
    requires VectorHistory(info) && info.argNo == 0 && forall d :: 0 <= d < info.vector ==> info.last[d].None?
    ensures PullVector(V, info) == V
  {
    NoOperation(V, info, info.vector);
    NoScalars(V, info, info.vector);
  }

  // ---- what goes wrong without the hypothesis ----

  lemma PlainStep(a: Axis, info: IndexInfo)
    requires Plain(a) && |info.constArg| > 0 && info.argNo > 0
    ensures var r := PullBack(info.mprf, info.argNo, info.constArg[0], false, a).0;
            PullStep([Gen([a], false, Block(0))], 1, info, 0, 0) == [Gen([r], false, Block(0))]
  {
    var r := PullBack(info.mprf, info.argNo, info.constArg[0], false, a).0;
    var g, f := Gen([a], false, Block(0)), Stepper(1, 0, info.mprf, info.argNo, info.constArg[0]);
    assert ProperGen(g, 1);
    assert Split([g], 0, f) == [] && f(g).1 == [];
    assert Split([g], 1, f) == f([g][0]).1 + Split([g], 0, f);
    assert Kept([g], f) == [f(g).0];
    assert g.axes[0 := r] == [r];
    assert StepList([g], f) == [f(g).0];
  }

  /** (i - 5) / 2 + 3 as the history of a scalar. */
  function HalfHistory(): (add: IndexInfo)
    ensures Component(add, 0) && ScalarHistory(add)
  {
    var sub := IndexInfo(0, [1], [None], Sub, [5], 2);
    var div := IndexInfo(0, [1], [Some(sub)], Div, [2], 2);
    var add := IndexInfo(0, [1], [Some(div)], Add, [3], 2);
    assert Component(sub, 0) && Component(div, 0) && ScalarHistory(sub) && ScalarHistory(div);
    add
  }

  lemma QuotientValue(x: int)
    ensures Evaluate(HalfHistory(), 0, x) == TruncDiv(x - 5, 2) + 3
  {
    var sub := IndexInfo(0, [1], [None], Sub, [5], 2);
    var div := IndexInfo(0, [1], [Some(sub)], Div, [2], 2);
    assert Component(sub, 0) && Component(div, 0);
    assert Evaluate(sub, 0, x) == x - 5 && Evaluate(div, 0, x) == TruncDiv(x - 5, 2);
  }

  lemma QuotientPulledBack(l: int, u: int)
    ensures PullScalar([Gen([Axis(l, u, 1, 1)], false, Block(0))], 1, HalfHistory(), 0) ==
      [Gen([Axis((l - 3) * 2 + 5, (u - 3) * 2 + 5, 1, 1)], false, Block(0))]
  {
    var sub := IndexInfo(0, [1], [None], Sub, [5], 2);
    var div := IndexInfo(0, [1], [Some(sub)], Div, [2], 2);
    assert Component(sub, 0) && Component(div, 0);
    assert ScalarHistory(sub) && ScalarHistory(div);
    PlainStep(Axis(l, u, 1, 1), HalfHistory());
    PlainStep(Axis(l - 3, u - 3, 1, 1), div);
    PlainStep(Axis((l - 3) * 2, (u - 3) * 2, 1, 1), sub);
    hide PullStep, Component, ScalarHistory;
    var V1 := [Gen([Axis(l - 3, u - 3, 1, 1)], false, Block(0))];
    var V2 := [Gen([Axis((l - 3) * 2, (u - 3) * 2, 1, 1)], false, Block(0))];
    assert PullScalar(V2, 1, sub, 0) == PullStep(V2, 1, sub, 0, 0);
    assert PullScalar(V1, 1, div, 0) == PullScalar(V2, 1, sub, 0);
  }

  /** A vector history of one component that continues in a scalar history, without an operation of its own. */
  lemma WrappedScalar(info: IndexInfo, add: IndexInfo, S: seq<Gen>, x: int)
    requires info == IndexInfo(1, [1], [Some(add)], Add, [0], 0) && Component(add, 0) && ScalarHistory(add)
    ensures VectorHistory(info) && !HasVectorPredecessor(info)
    ensures Transform(info, [x]) == [Evaluate(add, 0, x)]
    ensures PullVector(S, info) == PullScalar(S, 1, add, 0)
  {
    hide Evaluate, PullScalar;
    assert Component(info, 0) && Evaluate(info, 0, x) == Evaluate(add, 0, x) by {
      assert Slot(info, 0) == 0;
      EvaluateStep(info, x);
    }
    assert PullOperation(S, info, 0) == S && PullOperation(S, info, 1) == S;
    assert PullScalars(S, info, 0) == S && PullScalars(S, info, 1) == PullScalar(S, 1, add, 0);
  }

  lemma EvaluateStep(info: IndexInfo, x: int)
    requires Component(info, 0) && info.last[Slot(info, 0)].Some? && info.argNo == 0
    ensures Evaluate(info, 0, x) == Evaluate(info.last[Slot(info, 0)].value, 0, x)
  {
  }

  /** For A[[(i - 5) / 2 + 3]] the quotient at i == 0 is truncated towards zero and the element selected is A[[1]], but
      the generator [1] <= iv < [10] pulled back does not contain [0]. */
  lemma NegativeQuotientLost()
    ensures var info := IndexInfo(1, [1], [Some(HalfHistory())], Add, [0], 0);
            var S := [Gen([Axis(1, 10, 1, 1)], false, Block(0))];
            && VectorHistory(info) && ProperGens(S, 1) && SupportedVector(S, info)
            && Transform(info, [0]) == [1] && Hits(S, [1]) == multiset{Block(0)}
            && Hits(PullVector(S, info), [0]) == multiset{}
  {
    var info := IndexInfo(1, [1], [Some(HalfHistory())], Add, [0], 0);
    var S, r := [Gen([Axis(1, 10, 1, 1)], false, Block(0))], Gen([Axis(1, 19, 1, 1)], false, Block(0));
    QuotientValue(0);
    QuotientPulledBack(1, 10);
    WrappedScalar(info, HalfHistory(), S, 0);
    hide Evaluate, PullScalar, PullVector, Component, ScalarHistory, VectorHistory, Transform;
    HitsOne(S[0], [1]);
    HitsOne(r, [0]);
    assert !In(r.axes[0], [0][0]);
  }
}
