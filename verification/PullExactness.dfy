/**
 When pulling a list of generators back through a history is exact: for lists without grids, if and only if no factor
 or divisor on the way is negative and rounding quotients down makes no difference.
 */
module PullExactness {
  import opened Wrappers
  import opened Generators
  import opened AxisTransform
  import opened IndexInfos
  import opened GeneratorSweep
  import opened LinearTransformations

  /** Two lists of one generator each, with the same axes but for one bound of axis d: the lower one may differ if low,
      the upper one otherwise. */
  predicate Alike(V: seq<Gen>, W: seq<Gen>, n: nat, d: nat, low: bool)
    requires d < n
  {
    && |V| == |W| == 1 && V[0].code == W[0].code && !V[0].hasGrid && !W[0].hasGrid
    && ProperGen(V[0], n) && ProperGen(W[0], n)
    && (forall i :: 0 <= i < n && i != d ==> V[0].axes[i] == W[0].axes[i])
    && (if low then V[0].axes[d].u == W[0].axes[d].u else V[0].axes[d].l == W[0].axes[d].l)
  }

  lemma AlikeItself(V: seq<Gen>, n: nat, d: nat, low: bool)
    requires d < n && |V| == 1 && !V[0].hasGrid && ProperGen(V[0], n)
    ensures Alike(V, V, n, d, low)
  {
  }

  /** The operation of info exchanges the bounds. */
  predicate Flips(info: IndexInfo) {
    info.argNo > 0 && info.argNo != 2 && info.mprf == Sub
  }

  predicate Negative(info: IndexInfo, k: nat)
    requires k < |info.constArg|
  {
    info.argNo > 0 && !NonNegative(info.mprf, info.constArg[k])
  }

  lemma SingleStep(V: seq<Gen>, n: nat, info: IndexInfo, k: nat, e: nat)
    requires |V| == 1 && !V[0].hasGrid && ProperGen(V[0], n) && e < n && k < |info.constArg| && info.argNo > 0
    ensures var r := PullBack(info.mprf, info.argNo, info.constArg[k], false, V[0].axes[e]).0;
            PullStep(V, n, info, k, e) == [V[0].(axes := V[0].axes[e := r])] && Plain(r)
  {
    var g, f := V[0], Stepper(n, e, info.mprf, info.argNo, info.constArg[k]);
    assert Split(V, 0, f) == [] && f(g).1 == [];
    assert Split(V, 1, f) == f(V[0]).1 + Split(V, 0, f);
    assert Kept(V, f) == [f(g).0];
    assert StepList(V, f) == [f(g).0];
  }

  /** One axis replaced in both. */
  lemma AxisAlike(g: Gen, h: Gen, n: nat, e: nat, d: nat, low: bool, a: Axis, b: Axis, low': bool)
    requires d < n && e < n && Alike([g], [h], n, d, low) && Plain(a) && Plain(b)
    requires if e != d then a == b && low' == low else if low' then a.u == b.u else a.l == b.l
    ensures Alike([g.(axes := g.axes[e := a])], [h.(axes := h.axes[e := b])], n, d, low')
  {
  }

  lemma BoundKept(prf: Prf, argNo: nat, c: int, a: Axis, b: Axis, low: bool)
    requires if low then a.u == b.u else a.l == b.l
    ensures var r, s := PullBack(prf, argNo, c, false, a).0, PullBack(prf, argNo, c, false, b).0;
            NonNegative(prf, c) ==> if low != (prf == Sub && argNo != 2) then r.u == s.u else r.l == s.l
  {
  }

  /** Steps on other axes do not matter, and one on axis d keeps one bound, unless it has a negative constant: then it
      forgets the lower bound. */
  lemma StepAlike(V: seq<Gen>, W: seq<Gen>, n: nat, info: IndexInfo, k: nat, e: nat, d: nat, low: bool)
    requires d < n && e < n && Alike(V, W, n, d, low) && Component(info, e) && k == Slot(info, e)
    ensures k < |info.constArg|
    ensures var V', W' := PullStep(V, n, info, k, e), PullStep(W, n, info, k, e);
            && (e != d ==> Alike(V', W', n, d, low))
            && (e == d && !Negative(info, k) ==> Alike(V', W', n, d, low != Flips(info)))
            && (e == d && Negative(info, k) && low ==> V' == W' && Alike(V', W', n, d, low))
  {
    if info.argNo > 0 {
      var prf, argNo, c := info.mprf, info.argNo, info.constArg[k];
      var g, h := V[0], W[0];
      assert V == [g] && W == [h];
      SingleStep(V, n, info, k, e);
      SingleStep(W, n, info, k, e);
      hide PullStep, PullBack, Component;
      var r, s := PullBack(prf, argNo, c, false, g.axes[e]).0, PullBack(prf, argNo, c, false, h.axes[e]).0;
      if e != d {
        AxisAlike(g, h, n, e, d, low, r, s, low);
      } else if NonNegative(prf, c) {
        BoundKept(prf, argNo, c, g.axes[d], h.axes[d], low);
        AxisAlike(g, h, n, e, d, low, r, s, low != Flips(info));
      } else if low {
        LowerIgnored(prf, argNo, c, g.axes[d], h.axes[d].l);
        assert h.axes[d] == g.axes[d].(l := h.axes[d].l);
        assert g.axes[d := r] == h.axes[d := r];
        AxisAlike(g, h, n, e, d, low, r, s, low);
      }
    }
  }

  lemma {:induction false} ScalarElsewhereAlike(V: seq<Gen>, W: seq<Gen>, n: nat, info: IndexInfo, e: nat, d: nat,
                                                low: bool)
    requires d < n && e < n && e != d && Alike(V, W, n, d, low) && Component(info, e) && ScalarHistory(info)
    ensures Alike(PullScalar(V, n, info, e), PullScalar(W, n, info, e), n, d, low)
    decreases info
  {
    StepAlike(V, W, n, info, 0, e, d, low);
    hide Alike, PullStep;
    if info.last[0].Some? {
      ScalarElsewhereAlike(PullStep(V, n, info, 0, e), PullStep(W, n, info, 0, e), n, info.last[0].value, e, d, low);
    }
  }

  /** Whether it is the lower bound of axis d that the negative step nearest to the end forgets, or the upper one. */
  function ForgetsLower(info: IndexInfo, d: nat): bool
    requires Component(info, d) && !NonNegativeSteps(info, d)
    decreases info
  {
    var k := Slot(info, d);
    if Negative(info, k) then true else ForgetsLower(info.last[k].value, d) != Flips(info)
  }

  lemma {:induction false} ScalarForgets(V: seq<Gen>, W: seq<Gen>, n: nat, info: IndexInfo, d: nat)
    requires d < n && Component(info, d) && ScalarHistory(info) && !NonNegativeSteps(info, d)
    requires Alike(V, W, n, d, ForgetsLower(info, d))
    ensures PullScalar(V, n, info, d) == PullScalar(W, n, info, d)
    decreases info
  {
    StepAlike(V, W, n, info, 0, d, d, ForgetsLower(info, d));
    hide Alike, PullStep;
    if !Negative(info, 0) {
      ScalarForgets(PullStep(V, n, info, 0, d), PullStep(W, n, info, 0, d), n, info.last[0].value, d);
    }
  }

  lemma OperationUnfolded(V: seq<Gen>, info: IndexInfo, k: nat)
    requires VectorHistory(info) && k <= info.vector
    ensures k == 0 ==> PullOperation(V, info, k) == V
    ensures k > 0 ==> |info.permutation| == |info.constArg| == info.vector
    ensures k > 0 && info.permutation[k - 1] == 0 ==> PullOperation(V, info, k) == PullOperation(V, info, k - 1)
    ensures k > 0 && info.permutation[k - 1] > 0 ==>
      && Component(info, k - 1) && k - 1 == Slot(info, k - 1)
      && PullOperation(V, info, k) == PullStep(PullOperation(V, info, k - 1), info.vector, info, k - 1, k - 1)
  {
  }

  lemma Lengths(info: IndexInfo)
    requires VectorHistory(info)
    ensures |info.permutation| == |info.last| == |info.constArg| == info.vector
  {
  }

  /** The operation of a vector history on the first k axes: up to d nothing happens to the bound that is kept. */
  lemma {:induction false} OperationAlike(V: seq<Gen>, W: seq<Gen>, info: IndexInfo, k: nat, d: nat, low: bool)
    requires VectorHistory(info) && k <= info.vector && d < info.vector == |info.permutation| == |info.constArg|
    requires info.permutation[d] > 0 && Alike(V, W, info.vector, d, low) && (Negative(info, d) ==> low)
    ensures var V', W' := PullOperation(V, info, k), PullOperation(W, info, k);
            && Alike(V', W', info.vector, d, if k <= d || Negative(info, d) then low else low != Flips(info))
            && (k > d && Negative(info, d) ==> V' == W')
  {
    hide *;
    OperationUnfolded(V, info, k);
    OperationUnfolded(W, info, k);
    if k > 0 {
      OperationAlike(V, W, info, k - 1, d, low);
      if info.permutation[k - 1] > 0 {
        var V1, W1 := PullOperation(V, info, k - 1), PullOperation(W, info, k - 1);
        StepAlike(V1, W1, info.vector, info, k - 1, k - 1, d,
          if k - 1 <= d || Negative(info, d) then low else low != Flips(info));
      }
    }
  }

  lemma ScalarsUnfolded(V: seq<Gen>, info: IndexInfo, k: nat)
    requires VectorHistory(info) && !HasVectorPredecessor(info) && k <= info.vector
    ensures k == 0 ==> PullScalars(V, info, k) == V
    ensures k > 0 ==> |info.permutation| == |info.last| == info.vector
    ensures k > 0 && info.last[k - 1].None? ==> PullScalars(V, info, k) == PullScalars(V, info, k - 1)
    ensures k > 0 && info.last[k - 1].Some? ==>
      var prev := info.last[k - 1].value;
      && Component(prev, k - 1) && ScalarHistory(prev)
      && PullScalars(V, info, k) == PullScalar(PullScalars(V, info, k - 1), info.vector, prev, k - 1)
  {
  }

  lemma {:induction false} ScalarsForget(V: seq<Gen>, W: seq<Gen>, info: IndexInfo, k: nat, d: nat)
    requires VectorHistory(info) && !HasVectorPredecessor(info) && k <= info.vector
    requires d < info.vector == |info.last| && info.last[d].Some? && Component(info.last[d].value, d)
    requires !NonNegativeSteps(info.last[d].value, d)
    requires Alike(V, W, info.vector, d, ForgetsLower(info.last[d].value, d))
    ensures var V', W' := PullScalars(V, info, k), PullScalars(W, info, k);
            if k <= d then Alike(V', W', info.vector, d, ForgetsLower(info.last[d].value, d)) else V' == W'
  {
    hide *;
    ScalarsUnfolded(V, info, k);
    ScalarsUnfolded(W, info, k);
    if k > 0 {
      ScalarsForget(V, W, info, k - 1, d);
      if info.last[k - 1].Some? {
        var V1, W1 := PullScalars(V, info, k - 1), PullScalars(W, info, k - 1);
        if k - 1 == d {
          ScalarForgets(V1, W1, info.vector, info.last[d].value, d);
        } else if k - 1 < d {
          ScalarElsewhereAlike(V1, W1, info.vector, info.last[k - 1].value, k - 1, d,
            ForgetsLower(info.last[d].value, d));
        }
      }
    }
  }

  /** A negative factor or divisor makes lists indistinguishable that denote different sets. */
  lemma {:induction false} VectorForgets(V: seq<Gen>, W: seq<Gen>, info: IndexInfo, d: nat)
    requires VectorHistory(info) && d < info.vector && info.permutation[d] > 0
    requires !NonNegativeSteps(info, d) && Alike(V, W, info.vector, d, ForgetsLower(info, d))
    ensures PullVector(V, info) == PullVector(W, info)
    decreases info
  {
    hide Alike, PullOperation, PullScalars;
    Lengths(info);
    OperationAlike(V, W, info, info.vector, d, ForgetsLower(info, d));
    if !Negative(info, d) {
      var V1, W1 := PullOperation(V, info, info.vector), PullOperation(W, info, info.vector);
      if HasVectorPredecessor(info) {
        VectorForgets(V1, W1, info.last[0].value, d);
      } else {
        ScalarsForget(V1, W1, info, info.vector, d);
      }
    }
  }

  // ---- exactly when it is exact ----

  /** The list pulled back selects w as the list itself selects what the history makes of w, for every list without
      grids. */
  ghost predicate ExactFor(info: IndexInfo, w: seq<int>)
    requires VectorHistory(info) && |w| == info.vector
  {
    forall V {:trigger PullVector(V, info)} :: ProperGens(V, info.vector) && Gridless(V) ==>
      Hits(PullVector(V, info), w) == Hits(V, Transform(info, w))
  }

  /** No negative factor or divisor, and rounding quotients down gives the values that the program computes. */
  predicate Followed(info: IndexInfo, w: seq<int>)
    requires VectorHistory(info) && |w| == info.vector
  {
    NonNegativeVector(info) && FlooredTransform(info, w) == Transform(info, w)
  }

  lemma PointHits(y: seq<int>, z: seq<int>)
    requires |z| == |y|
    ensures Hits([PointBox(y)], z) == if z == y then multiset{Block(0)} else multiset{}
  {
    HitsOne(PointBox(y), z);
    if Member(PointBox(y).axes, z) {
      assert forall i :: 0 <= i < |y| ==> In(PointBox(y).axes[i], z[i]);
      assert z == y;
    }
  }

  /** An empty box that differs from the point box in one bound. */
  lemma EmptyBeside(y: seq<int>, d: nat, low: bool) returns (g: Gen)
    requires d < |y|
    ensures Alike([PointBox(y)], [g], |y|, d, low) && Hits([g], y) == multiset{}
  {
    var p := PointBox(y);
    var a := if low then Axis(y[d] + 1, y[d] + 1, 1, 1) else Axis(y[d], y[d], 1, 1);
    g := p.(axes := p.axes[d := a]);
    assert !In(g.axes[d], y[d]);
    HitsOne(g, y);
  }

  lemma SingleProper(g: Gen, n: nat)
    requires ProperGen(g, n) && !g.hasGrid
    ensures ProperGens([g], n) && Gridless([g])
  {
  }

  lemma PullExactIff(info: IndexInfo, w: seq<int>)
    requires VectorHistory(info) && |w| == info.vector
    ensures ExactFor(info, w) <==> Followed(info, w)
  {
    if Followed(info, w) {
      forall V | ProperGens(V, info.vector) && Gridless(V)
        ensures Hits(PullVector(V, info), w) == Hits(V, Transform(info, w))
      {
        PullVectorExact(V, info, w);
      }
    } else {
      NotFollowedNotExact(info, w);
    }
  }

  lemma NotFollowedNotExact(info: IndexInfo, w: seq<int>)
    requires VectorHistory(info) && |w| == info.vector && !Followed(info, w)
    ensures !ExactFor(info, w)
  {
    var y := Transform(info, w);
    var P := [PointBox(y)];
    SingleProper(P[0], info.vector);
    PointHits(y, y);
    if NonNegativeVector(info) {
      PullVectorExact(P, info, w);
      PointHits(y, FlooredTransform(info, w));
    } else {
      var d :| 0 <= d < info.vector && info.permutation[d] > 0 && !NonNegativeSteps(info, d);
      var g := EmptyBeside(y, d, ForgetsLower(info, d));
      SingleProper(g, info.vector);
      VectorForgets(P, [g], info, d);
    }
  }
}
