/**
 Whether every vector the target loop selects is mapped into the shape of the loop folded into it: the box
 of all its indices is pulled back and compared with the target's bounds (TransformationRangeCheck).
 */
module RangeCheck {
  import opened Wrappers
  import opened Generators
  import opened AxisTransform
  import opened IndexInfos
  import opened InternGens
  import opened LinearTransformations
  import opened PullExactness
  import opened DoubleIndexVectors
  import opened DoubleExactness
  import opened FinalTransformation

  /** What the transformations take: histories and lists that fit. */
  predicate Transforming(S: seq<Gen>, info: IndexInfo, n: nat) {
    && VectorHistory(info) && Addresses(info, n)
    && ProperGens(S, info.vector) && SupportedVector(S, info)
  }

  /** The generators of the subst loop as generators over the n index scalars of the target loop. */
  function SubstList(S: seq<Gen>, info: IndexInfo, n: nat): seq<Gen>
    requires Transforming(S, info, n)
  {
    PullVectorKeeps(S, info);
    RemoveDoublesKeeps(PullVector(S, info), info, n);
    var (V, r) := RemoveDoubles(PullVector(S, info), info, n);
    FinalList(V, r, n, |V|)
  }

  lemma RemoveDoublesKeeps(V: seq<Gen>, info: IndexInfo, n: nat)
    requires Addresses(info, n) && |info.last| == info.vector && ProperGens(V, info.vector)
    ensures Removable(V, info, n)
    ensures var (W, r) := RemoveDoubles(V, info, n); ProperGens(W, r.vector) && |W| == |V|
  {
    assert forall k :: 0 <= k < |V| ==> ProperGen(V[k], info.vector);
    RemoveFromProper(Load(V, info), n, 0, seq(n, _ => 0));
  }

  /** Merging the components based on one scalar merges axes without gaps only, and shifts nothing too far. */
  predicate Tidy(V: seq<Gen>, info: IndexInfo, n: nat) {
    && Removable(V, info, n) && (|V| <= 1 || HistoryTailSame(info)) && DoubledDense(Load(V, info), n)
  }

  /** A history without doubles is always tidy. */
  lemma DistinctIsTidy(V: seq<Gen>, info: IndexInfo, n: nat)
    requires Removable(V, info, n) && DistinctScalars(info)
    ensures Tidy(V, info, n)
  {
    var st := Load([], info);
    assert forall d :: 0 <= d < info.vector ==> !Repeats(st, d) && !Doubled(Load(V, info), d);
  }

  /** Histories and lists for which the transformed list is the exact preimage: the axes that are merged have no gaps,
      and there is one generator, or behind the first component whose scalar has been used before there is one
      component all over. */
  predicate Transformable(S: seq<Gen>, info: IndexInfo, n: nat) {
    Transforming(S, info, n) && Tidy(PullVector(S, info), info, n)
  }

  /** The transformed list selects the index vector iv with exactly the codes with which the subst loop's own
      list selects the selection vector computed from iv with quotients rounded down. */
  lemma SubstListExact(S: seq<Gen>, info: IndexInfo, iv: seq<int>)
    requires Transformable(S, info, |iv|) && NonNegativeVector(info) && Unconstrained(info, iv)
    ensures Hits(SubstList(S, info, |iv|), iv) == Hits(S, FlooredIndex(info, iv))
  {
    var V, w := PullVector(S, info), Gather(info, iv);
    PullVectorKeeps(S, info);
    PullVectorExact(S, info, w);
    RemoveDoublesKeeps(V, info, |iv|);
    hide PullVector;
    var (W, r) := RemoveDoubles(V, info, |iv|);
    assert W[..|W|] == W;
    if V != [] {
      TailSameLoad(V, info);
      RemoveDoublesExact(V, info, iv);
      hide *;
      FinalListExact(W, r, iv, |W|);
    }
  }

  // ---- the box of the subst loop's shape ----

  function Box(shape: seq<int>, n: nat): (g: Gen)
    requires n <= |shape|
    ensures ProperGen(g, n) && !g.hasGrid
  {
    Gen(seq(n, i requires 0 <= i < n => Axis(0, shape[i], 1, 1)), false, Block(0))
  }

  predicate InShape(shape: seq<int>, w: seq<int>) {
    |w| <= |shape| && forall d :: 0 <= d < |w| ==> 0 <= w[d] < shape[d]
  }

  predicate Checkable(info: IndexInfo, shape: seq<int>, n: nat) {
    VectorHistory(info) && Addresses(info, n) && info.vector <= |shape|
  }

  function Whole(shape: seq<int>, info: IndexInfo, n: nat): seq<Gen>
    requires Checkable(info, shape, n)
  {
    SubstList([Box(shape, info.vector)], info, n)
  }

  /** The final form of one generator without a grid. */
  predicate FinalPlain(W: seq<Gen>, info: IndexInfo, n: nat)
    requires info.vector == |info.permutation|
  {
    && |W| <= 1
    && (W != [] ==>
         && |W[0].axes| == n && PlainAxes(W[0].axes)
         && forall i :: 0 <= i < n && Source(info, i, info.vector) == 0 ==> W[0].axes[i] == Axis(0, INT_MAX, 1, 1))
  }

  lemma FinalListPlain(g: Gen, info: IndexInfo, n: nat)
    requires Addresses(info, n) && ProperGen(g, info.vector) && !g.hasGrid
    ensures FinalPlain(FinalList([g], info, n, 1), info, n)
    ensures FinalList([g], info, n, 1) == [] <==> !ConstantsFit(g, info)
  {
    RawProper(g, info, n);
    assert FinalList([g], info, n, 0) == [];
  }

  /** The box pulled back and, where its components are merged, merged: one generator without a grid. */
  lemma WholeMerged(shape: seq<int>, info: IndexInfo, iv: seq<int>) returns (g: Gen, x: Gen, r: IndexInfo)
    requires Checkable(info, shape, |iv|)
    ensures PullVector([Box(shape, info.vector)], info) == [g] && ProperGen(g, info.vector) && !g.hasGrid
    ensures Addresses(r, |iv|) && ProperGen(x, r.vector) && !x.hasGrid
    ensures Whole(shape, info, |iv|) == FinalList([x], r, |iv|, 1)
    ensures Unconstrained(r, iv) <==> Unconstrained(info, iv)
    ensures ConstantsFit(x, r) <==> ConstantsFit(g, info)
  {
    var S := [Box(shape, info.vector)];
    PullVectorKeeps(S, info);
    var V := PullVector(S, info);
    assert V == [V[0]] && ProperGen(V[0], info.vector);
    RemoveDoublesKeeps(V, info, |iv|);
    PlainDense(V, info, |iv|);
    RemoveDoublesExact(V, info, iv);
    var (X, r') := RemoveDoubles(V, info, |iv|);
    assert X == [X[0]] && ProperGen(X[0], r'.vector);
    g, x, r := V[0], X[0], r';
  }

  lemma WholePlain(shape: seq<int>, info: IndexInfo, iv: seq<int>)
    requires Checkable(info, shape, |iv|)
    ensures var W := Whole(shape, info, |iv|);
            && |W| <= 1
            && (W != [] ==> |W[0].axes| == |iv| && PlainAxes(W[0].axes))
            && (W != [] && Member(W[0].axes, iv) ==> Unconstrained(info, iv))
  {
    var W := Whole(shape, info, |iv|);
    var g, x, r := WholeMerged(shape, info, iv);
    FinalListPlain(x, r, |iv|);
    hide Whole, FinalList;
    if W != [] && Member(W[0].axes, iv) {
      forall i | 0 <= i < |iv| && Source(r, i, r.vector) == 0 ensures 0 <= iv[i] < INT_MAX {
        assert In(W[0].axes[i], iv[i]);
      }
    }
  }

  /** The box is lost if and only if a constant component of the selection vector is out of range. */
  lemma WholeLostIff(shape: seq<int>, info: IndexInfo, n: nat)
    requires Checkable(info, shape, n)
    ensures Whole(shape, info, n) == [] <==>
      exists d :: 0 <= d < info.vector && info.permutation[d] == 0 && !(0 <= info.constArg[d] < shape[d])
  {
    var g, x, r := WholeMerged(shape, info, seq(n, _ => 0));
    FinalListPlain(x, r, n);
    var box := Box(shape, info.vector);
    hide Whole, FinalList, RemoveDoubles;
    forall d | 0 <= d < info.vector && info.permutation[d] == 0
      ensures In(g.axes[d], info.constArg[d]) <==> 0 <= info.constArg[d] < shape[d]
    {
      assert AllAt([box], info.vector, d, box.axes[d]);
      PullConstant([box], info, d, box.axes[d]);
      assert [g][0].axes[d] == box.axes[d];
    }
  }

  lemma BoxHits(shape: seq<int>, w: seq<int>)
    requires |w| <= |shape|
    ensures Hits([Box(shape, |w|)], w) == if InShape(shape, w) then multiset{Block(0)} else multiset{}
  {
    var g := Box(shape, |w|);
    HitsOne(g, w);
    assert Member(g.axes, w) <==> InShape(shape, w) by {
      forall d | 0 <= d < |w| ensures In(g.axes[d], w[d]) <==> 0 <= w[d] < shape[d] {
      }
    }
  }

  lemma Box1(shape: seq<int>, info: IndexInfo, n: nat)
    requires Checkable(info, shape, n)
    ensures Transformable([Box(shape, info.vector)], info, n)
    ensures Whole(shape, info, n) == SubstList([Box(shape, info.vector)], info, n)
  {
    PullVectorKeeps([Box(shape, info.vector)], info);
    PlainDense(PullVector([Box(shape, info.vector)], info), info, n);
  }

  /** The pulled-back box is one plain generator, or nothing; it contains iv exactly when the selection vector
      computed from iv with quotients rounded down lies within the shape (and iv is a vector of ints). */
  lemma WholeExact(shape: seq<int>, info: IndexInfo, iv: seq<int>)
    requires Checkable(info, shape, |iv|) && NonNegativeVector(info)
    ensures var W := Whole(shape, info, |iv|);
            W != [] && Member(W[0].axes, iv) <==> InShape(shape, FlooredIndex(info, iv)) && Unconstrained(info, iv)
  {
    var W := Whole(shape, info, |iv|);
    WholePlain(shape, info, iv);
    Box1(shape, info, |iv|);
    hide Whole, SubstList, FlooredIndex, NonNegativeVector, VectorHistory, Addresses, Box, Member, Gather;
    if Unconstrained(info, iv) {
      SubstListExact([Box(shape, info.vector)], info, iv);
      BoxHits(shape, FlooredIndex(info, iv));
      if W != [] {
        assert W == [W[0]];
        HitsOne(W[0], iv);
      }
    }
  }

  // ---- the comparison ----

  /** Target axis i reaches beyond the pulled-back box. */
  predicate Exceeds(t: Gen, w: Gen, i: nat)
    requires i < |t.axes| && i < |w.axes|
  {
    t.axes[i].l < w.axes[i].l || t.axes[i].u > w.axes[i].u
  }

  predicate Covered(t: Gen, w: Gen, n: nat)
    requires n <= |t.axes| && n <= |w.axes|
  {
    forall i :: 0 <= i < n ==> !Exceeds(t, w, i)
  }

  /** A covered target generator selects only vectors that are mapped into the shape when quotients are rounded down. */
  lemma CoveredInShape(shape: seq<int>, info: IndexInfo, t: Gen, iv: seq<int>)
    requires Checkable(info, shape, |iv|) && NonNegativeVector(info) && Member(t.axes, iv)
    requires var W := Whole(shape, info, |iv|); W != [] && |W[0].axes| == |iv| && Covered(t, W[0], |iv|)
    ensures InShape(shape, FlooredIndex(info, iv)) && Unconstrained(info, iv)
  {
    var w := Whole(shape, info, |iv|)[0];
    WholePlain(shape, info, iv);
    forall i | 0 <= i < |iv| ensures In(w.axes[i], iv[i]) {
      assert In(t.axes[i], iv[i]) && !Exceeds(t, w, i) && Plain(w.axes[i]);
    }
    WholeExact(shape, info, iv);
  }

  /** An error is no false alarm: a plain non-empty target generator that exceeds the box selects a vector that
      is mapped outside the shape, or that is no vector of ints. */
  lemma ExceedsOutOfShape(shape: seq<int>, info: IndexInfo, t: Gen, i: nat, n: nat) returns (iv: seq<int>)
    requires Checkable(info, shape, n) && i < |t.axes| == n && PlainAxes(t.axes)
    requires forall d :: 0 <= d < n ==> t.axes[d].l < t.axes[d].u
    requires NonNegativeVector(info)
    requires var W := Whole(shape, info, n); W != [] && |W[0].axes| == n && Exceeds(t, W[0], i)
    ensures Member(t.axes, iv) && !(InShape(shape, FlooredIndex(info, iv)) && Unconstrained(info, iv))
  {
    var w := Whole(shape, info, n)[0];
    iv := seq(n, d requires 0 <= d < n =>
      if d == i && t.axes[d].l >= w.axes[d].l then t.axes[d].u - 1 else t.axes[d].l);
    assert Member(t.axes, iv);
    WholeExact(shape, info, iv);
    hide Whole, NonNegativeVector, FlooredIndex;
    assert !In(w.axes[i], iv[i]);
  }

  /** The last value a non-empty axis selects. */
  function LastOf(a: Axis): (x: int)
    requires Proper(a) && a.l < a.u
    ensures In(a, x) && forall y {:trigger In(a, y)} :: In(a, y) ==> a.l <= y <= x
  {
    var z := a.u - 1 - a.l;
    var r := z % a.step;
    LastIn(a, z / a.step, r);
    if r < a.width then a.u - 1 else a.l + (z - r) + a.width - 1
  }

  lemma LastIn(a: Axis, q: int, r: int)
    requires Proper(a) && a.l < a.u && a.u - 1 - a.l == q * a.step + r && 0 <= r < a.step
    ensures q >= 0
    ensures r < a.width ==> In(a, a.u - 1)
    ensures r >= a.width ==> In(a, a.l + q * a.step + a.width - 1)
    ensures r >= a.width ==> forall y {:trigger In(a, y)} :: In(a, y) ==> y <= a.l + q * a.step + a.width - 1
  {
    var s, w := a.step, a.width;
    assert q >= 0 by {
      if q < 0 {
        MulMonotone(q, -1, s);
      }
    }
    DivModUnique(q * s + r, s, q, r);
    DivModUnique(q * s + (w - 1), s, q, w - 1);
    MulMonotone(0, q, s);
    forall y | In(a, y) && r >= w ensures y <= a.l + q * s + w - 1 {
      if y > a.l + q * s + w - 1 {
        DivModUnique(y - a.l, s, q, y - a.l - q * s);
      }
    }
  }

  lemma FirstIn(a: Axis)
    requires Proper(a) && a.l < a.u
    ensures In(a, a.l)
  {
  }

  /** The target axis selects a value that the box does not contain. */
  predicate Overruns(a: Axis, b: Axis)
    requires Proper(a) && a.l < a.u
  {
    a.l < b.l || LastOf(a) >= b.u
  }

  /** Everything the generator selects is mapped into the shape by the program, and is a vector of ints. */
  ghost predicate SelectsInto(t: Gen, shape: seq<int>, info: IndexInfo, n: nat)
    requires VectorHistory(info) && Addresses(info, n)
  {
    forall v: seq<int> {:trigger Member(t.axes, v)} :: Member(t.axes, v) ==>
      |v| == n && InShape(shape, Index(info, v)) && Unconstrained(info, v)
  }

  /** The same with quotients rounded down. */
  ghost predicate FlooredInto(t: Gen, shape: seq<int>, info: IndexInfo, n: nat)
    requires VectorHistory(info) && Addresses(info, n)
  {
    forall v: seq<int> {:trigger Member(t.axes, v)} :: Member(t.axes, v) ==>
      |v| == n && InShape(shape, FlooredIndex(info, v)) && Unconstrained(info, v)
  }

  /** On no axis the first selected value lies before the box or the last one behind it. */
  predicate NoOverrun(t: Gen, w: Gen, n: nat)
    requires n <= |t.axes| && n <= |w.axes|
    requires forall d :: 0 <= d < n ==> Proper(t.axes[d]) && t.axes[d].l < t.axes[d].u
  {
    forall i :: 0 <= i < n ==> !Overruns(t.axes[i], w.axes[i])
  }

  /** Exactly when an error is justified: all vectors that a non-empty target generator selects are mapped into the
      shape (and are vectors of ints) if and only if on no axis its first selected value lies before the box or its last
      one behind it.  The source compares the upper bound instead, so with a grid it can raise a false alarm. */
  lemma AlarmIff(shape: seq<int>, info: IndexInfo, t: Gen, n: nat)
    requires Checkable(info, shape, n) && ProperGen(t, n) && forall d :: 0 <= d < n ==> t.axes[d].l < t.axes[d].u
    requires NonNegativeVector(info)
    requires var W := Whole(shape, info, n); W != [] && |W[0].axes| == n
    ensures FlooredInto(t, shape, info, n) <==> NoOverrun(t, Whole(shape, info, n)[0], n)
    ensures (forall v: seq<int> {:trigger Member(t.axes, v)} ::
              Member(t.axes, v) ==> |v| == n && FlooredIndex(info, v) == Index(info, v)) ==>
            (SelectsInto(t, shape, info, n) <==> NoOverrun(t, Whole(shape, info, n)[0], n))
  {
    var w := Whole(shape, info, n)[0];
    if NoOverrun(t, w, n) {
      NoOverrunInto(shape, info, t, n);
    } else {
      OverrunOut(shape, info, t, n);
    }
  }

  lemma NoOverrunInto(shape: seq<int>, info: IndexInfo, t: Gen, n: nat)
    requires Checkable(info, shape, n) && ProperGen(t, n) && forall d :: 0 <= d < n ==> t.axes[d].l < t.axes[d].u
    requires NonNegativeVector(info)
    requires var W := Whole(shape, info, n); W != [] && |W[0].axes| == n && NoOverrun(t, W[0], n)
    ensures FlooredInto(t, shape, info, n)
  {
    hide Whole, FlooredIndex, Unconstrained, InShape, LastOf, NonNegativeVector;
    var w := Whole(shape, info, n)[0];
    WholePlain(shape, info, seq(n, _ => 0));
    forall v: seq<int> | Member(t.axes, v)
      ensures |v| == n && InShape(shape, FlooredIndex(info, v)) && Unconstrained(info, v)
    {
      forall i | 0 <= i < n ensures In(w.axes[i], v[i]) {
        assert In(t.axes[i], v[i]) && !Overruns(t.axes[i], w.axes[i]) && Plain(w.axes[i]);
      }
      WholeExact(shape, info, v);
    }
  }

  lemma OverrunOut(shape: seq<int>, info: IndexInfo, t: Gen, n: nat)
    requires Checkable(info, shape, n) && ProperGen(t, n) && forall d :: 0 <= d < n ==> t.axes[d].l < t.axes[d].u
    requires NonNegativeVector(info)
    requires var W := Whole(shape, info, n); W != [] && |W[0].axes| == n && !NoOverrun(t, W[0], n)
    ensures !FlooredInto(t, shape, info, n)
  {
    hide Whole, FlooredIndex, Unconstrained, InShape, LastOf, Checkable, NonNegativeVector;
    var w := Whole(shape, info, n)[0];
    var i :| 0 <= i < n && Overruns(t.axes[i], w.axes[i]);
    var v: seq<int> := seq(n, d requires 0 <= d < n =>
      if d == i && t.axes[d].l >= w.axes[d].l then LastOf(t.axes[d]) else t.axes[d].l);
    forall d | 0 <= d < n ensures In(t.axes[d], v[d]) {
      FirstIn(t.axes[d]);
    }
    assert Member(t.axes, v) && !In(w.axes[i], v[i]);
    WholeExact(shape, info, v);
  }

  /** A[[i]] with A of shape [8] and a target generator [0] <= iv < [10] step [5]: an error is reported, although only
      0 and 5 are selected. */
  lemma FalseAlarm()
    ensures var info, t := IndexInfo(1, [1], [None], Add, [0], 0), Gen([Axis(0, 10, 5, 1)], true, Block(0));
            && Checkable(info, [8], 1) && ProperGen(t, 1)
            && Whole([8], info, 1) == [Gen([Axis(0, 8, 1, 1)], false, Block(0))]
            && Exceeds(t, Whole([8], info, 1)[0], 0) && !Overruns(t.axes[0], Axis(0, 8, 1, 1))
  {
    hide *;
    var info, t := IndexInfo(1, [1], [None], Add, [0], 0), Gen([Axis(0, 10, 5, 1)], true, Block(0));
    var box := Box([8], 1);
    PlainIndex(info);
    PlainFinal(info, box);
    WholeDistinct([8], box, info, 1);
    LastIsFive(t);
  }

  lemma PlainIndex(info: IndexInfo)
    requires info == IndexInfo(1, [1], [None], Add, [0], 0)
    ensures Checkable(info, [8], 1) && DistinctScalars(info) && info.vector == 1
    ensures PullVector([Box([8], 1)], info) == [Box([8], 1)]
  {
    PullNothing([Box([8], 1)], info);
  }

  lemma PlainFinal(info: IndexInfo, box: Gen)
    requires info == IndexInfo(1, [1], [None], Add, [0], 0) && box == Box([8], 1)
    ensures box == Gen([Axis(0, 8, 1, 1)], false, Block(0)) && ConstantsFit(box, info) && FinalGen(box, info, 1) == box
  {
    assert Source(info, 0, 1) == 1 && RawGen(box, info, 1) == box;
  }

  lemma LastIsFive(t: Gen)
    requires t == Gen([Axis(0, 10, 5, 1)], true, Block(0))
    ensures ProperGen(t, 1) && !Overruns(t.axes[0], Axis(0, 8, 1, 1))
    ensures Exceeds(t, Gen([Axis(0, 8, 1, 1)], false, Block(0)), 0)
  {
    assert In(t.axes[0], 5);
    hide LastOf;
    assert In(t.axes[0], LastOf(t.axes[0])) && 5 <= LastOf(t.axes[0]) <= 9;
  }

  /** A history without doubles and one generator: all that is left to do is the final form. */
  lemma SubstDistinct(g: Gen, h: Gen, info: IndexInfo, n: nat)
    requires VectorHistory(info) && Addresses(info, n) && DistinctScalars(info)
    requires ProperGen(g, info.vector) && !g.hasGrid && PullVector([g], info) == [h]
    ensures Transformable([g], info, n) && ProperGen(h, info.vector)
    ensures SubstList([g], info, n) == if ConstantsFit(h, info) then [FinalGen(h, info, n)] else []
  {
    hide PullVector, RemoveDoubles, FinalGen, ConstantsFit, Tidy, UnscaledVector, FinalList, DistinctScalars;
    PullVectorKeeps([g], info);
    assert ProperGen([h][0], info.vector);
    OneFinal(h, info, n);
    DistinctIsTidy([h], info, n);
    RemoveDoublesDistinct([h], info, n);
  }

  lemma OneFinal(g: Gen, info: IndexInfo, n: nat)
    requires info.vector == |info.permutation| == |info.constArg| && ProperGen(g, info.vector)
    ensures FinalList([g], info, n, 1) == if ConstantsFit(g, info) then [FinalGen(g, info, n)] else []
  {
    assert FinalList([g], info, n, 0) == [];
  }

  lemma WholeDistinct(shape: seq<int>, h: Gen, info: IndexInfo, n: nat)
    requires Checkable(info, shape, n) && DistinctScalars(info)
    requires PullVector([Box(shape, info.vector)], info) == [h]
    ensures ProperGen(h, info.vector)
    ensures Whole(shape, info, n) == if ConstantsFit(h, info) then [FinalGen(h, info, n)] else []
  {
    SubstDistinct(Box(shape, info.vector), h, info, n);
    hide SubstList;
  }

  // ---- quotients of negative values ----

  /** The check has nothing against the target generator. */
  predicate Silent(t: Gen, shape: seq<int>, info: IndexInfo, n: nat)
    requires Checkable(info, shape, n)
  {
    var W := Whole(shape, info, n);
    W != [] && |W[0].axes| == n == |t.axes| && Covered(t, W[0], n)
  }

  /** The check is silent on a generator of the single vector iv if and only if the selection vector with quotients
      rounded down is in the shape. */
  lemma SilentIff(shape: seq<int>, info: IndexInfo, iv: seq<int>)
    requires Checkable(info, shape, |iv|) && NonNegativeVector(info)
    ensures Silent(PointBox(iv), shape, info, |iv|) <==>
      InShape(shape, FlooredIndex(info, iv)) && Unconstrained(info, iv)
  {
    var p, W := PointBox(iv), Whole(shape, info, |iv|);
    WholePlain(shape, info, iv);
    WholeExact(shape, info, iv);
    hide Whole, Checkable, NonNegativeVector, InShape, FlooredIndex, Unconstrained;
    if W != [] {
      assert Covered(p, W[0], |iv|) <==> Member(W[0].axes, iv) by {
        assert forall i :: 0 <= i < |iv| ==> (In(W[0].axes[i], iv[i]) <==> !Exceeds(p, W[0], i));
      }
    }
  }

  /** Whatever the shape is, a generator on which the check is silent and that selects iv selects an element of it. */
  ghost predicate NeverSilentOnFault(info: IndexInfo, iv: seq<int>)
    requires VectorHistory(info) && Addresses(info, |iv|)
  {
    forall shape: seq<int>, t: Gen {:trigger Silent(t, shape, info, |iv|)} ::
      Checkable(info, shape, |iv|) && Silent(t, shape, info, |iv|) && Member(t.axes, iv) ==>
        InShape(shape, Index(info, iv))
  }

  /** Whatever the shape is, the check reports the single vector iv if and only if it is mapped outside. */
  ghost predicate Accurate(info: IndexInfo, iv: seq<int>)
    requires VectorHistory(info) && Addresses(info, |iv|)
  {
    forall shape: seq<int> {:trigger Checkable(info, shape, |iv|)} :: Checkable(info, shape, |iv|) ==>
      (Silent(PointBox(iv), shape, info, |iv|) <==> InShape(shape, Index(info, iv)))
  }

  predicate AllNonNegative(x: seq<int>) {
    forall d :: 0 <= d < |x| ==> x[d] >= 0
  }

  predicate AtMost(x: seq<int>, y: seq<int>)
    requires |x| == |y|
  {
    forall d :: 0 <= d < |x| ==> x[d] <= y[d]
  }

  /** The least shape that contains x. */
  function ShapeOf(x: seq<int>): (s: seq<int>)
    ensures |s| == |x|
  {
    seq(|x|, d requires 0 <= d < |x| => x[d] + 1)
  }

  lemma InShapeOf(x: seq<int>, y: seq<int>)
    requires |x| == |y|
    ensures InShape(ShapeOf(y), x) <==> AllNonNegative(x) && AtMost(x, y)
  {
    assert forall d :: 0 <= d < |x| ==> ShapeOf(y)[d] == y[d] + 1;
    if InShape(ShapeOf(y), x) {
      assert forall d :: 0 <= d < |x| ==> 0 <= x[d] < ShapeOf(y)[d];
    }
  }

  /** The check is sound at iv if and only if rounding down does not hide that a component is negative or too large:
      where the vector rounded down is nonnegative, so is the one the program computes, and it is no larger. */
  lemma SoundIff(info: IndexInfo, iv: seq<int>)
    requires VectorHistory(info) && Addresses(info, |iv|) && NonNegativeVector(info) && Unconstrained(info, iv)
    ensures NeverSilentOnFault(info, iv) <==>
      var (x, y) := (Index(info, iv), FlooredIndex(info, iv)); AllNonNegative(y) ==> AllNonNegative(x) && AtMost(x, y)
  {
    var x, y := Index(info, iv), FlooredIndex(info, iv);
    InShapeOf(x, y);
    InShapeOf(y, y);
    hide Index, FlooredIndex, Whole, NonNegativeVector, Unconstrained;
    if AllNonNegative(y) ==> AllNonNegative(x) && AtMost(x, y) {
      forall shape: seq<int>, t: Gen |
        Checkable(info, shape, |iv|) && Silent(t, shape, info, |iv|) && Member(t.axes, iv)
        ensures InShape(shape, x)
      {
        CoveredInShape(shape, info, t, iv);
      }
    } else {
      assert Checkable(info, ShapeOf(y), |iv|);
      SilentIff(ShapeOf(y), info, iv);
    }
  }

  /** It is right at iv if and only if rounding down makes no difference, or both vectors have a negative component. */
  lemma AccurateIff(info: IndexInfo, iv: seq<int>)
    requires VectorHistory(info) && Addresses(info, |iv|) && NonNegativeVector(info) && Unconstrained(info, iv)
    ensures Accurate(info, iv) <==>
      var (x, y) := (Index(info, iv), FlooredIndex(info, iv)); x == y || (!AllNonNegative(x) && !AllNonNegative(y))
  {
    var x, y := Index(info, iv), FlooredIndex(info, iv);
    InShapeOf(x, x);
    InShapeOf(x, y);
    InShapeOf(y, x);
    InShapeOf(y, y);
    hide Index, FlooredIndex, Whole, NonNegativeVector, Unconstrained, Silent;
    assert Checkable(info, ShapeOf(x), |iv|) && Checkable(info, ShapeOf(y), |iv|);
    SilentIff(ShapeOf(x), info, iv);
    SilentIff(ShapeOf(y), info, iv);
    if x == y || (!AllNonNegative(x) && !AllNonNegative(y)) {
      forall shape: seq<int> | Checkable(info, shape, |iv|)
        ensures Silent(PointBox(iv), shape, info, |iv|) <==> InShape(shape, x)
      {
        SilentIff(shape, info, iv);
      }
    } else {
      SameIfAtMost(x, y);
    }
  }

  lemma SameIfAtMost(x: seq<int>, y: seq<int>)
    requires |x| == |y|
    ensures AtMost(x, y) && AtMost(y, x) ==> x == y
  {
    if AtMost(x, y) && AtMost(y, x) {
      assert forall d :: 0 <= d < |x| ==> x[d] <= y[d] && y[d] <= x[d];
    }
  }

  /** A[[(i - 5) / 2 + 3]] with A of shape [2] and the target generator [0] <= iv < [3]: the check is silent, but at
      i == 2 the element A[[2]] is selected. */
  lemma SilentFault()
    ensures var info := IndexInfo(1, [1], [Some(HalfHistory())], Add, [0], 0);
            var t := Gen([Axis(0, 3, 1, 1)], false, Block(0));
            && Checkable(info, [2], 1) && Whole([2], info, 1) == [Gen([Axis(-1, 3, 1, 1)], false, Block(0))]
            && Silent(t, [2], info, 1) && Member(t.axes, [2])
            && Index(info, [2]) == [2] && !InShape([2], [2])
  {
    hide *;
    var info, t := IndexInfo(1, [1], [Some(HalfHistory())], Add, [0], 0), Gen([Axis(0, 3, 1, 1)], false, Block(0));
    var h := Gen([Axis(-1, 3, 1, 1)], false, Block(0));
    HalfIndex(info);
    HalfFinal(info, h);
    WholeDistinct([2], h, info, 1);
    HalfCovered(t, h);
    SilentBy(t, h, [2], info, 1);
  }

  lemma SilentBy(t: Gen, w: Gen, shape: seq<int>, info: IndexInfo, n: nat)
    requires Checkable(info, shape, n) && Whole(shape, info, n) == [w]
    requires |w.axes| == n == |t.axes| && Covered(t, w, n)
    ensures Silent(t, shape, info, n)
  {
    hide Whole, Checkable;
  }

  lemma HalfIndex(info: IndexInfo)
    requires info == IndexInfo(1, [1], [Some(HalfHistory())], Add, [0], 0)
    ensures VectorHistory(info) && Addresses(info, 1) && info.vector == 1 && Index(info, [2]) == [2]
    ensures PullVector([Box([2], 1)], info) == [Gen([Axis(-1, 3, 1, 1)], false, Block(0))]
  {
    hide Evaluate, PullScalar, PullVector, HalfHistory, VectorHistory, Transform;
    QuotientValue(2);
    QuotientPulledBack(0, 2);
    WrappedScalar(info, HalfHistory(), [Box([2], 1)], 2);
    assert Box([2], 1).axes == [Axis(0, 2, 1, 1)];
    assert Gather(info, [2]) == [2];
  }

  lemma HalfFinal(info: IndexInfo, h: Gen)
    requires info.vector == 1 && info.permutation == [1] && info.constArg == [0]
    requires VectorHistory(info) && Addresses(info, 1) && h == Gen([Axis(-1, 3, 1, 1)], false, Block(0))
    ensures Checkable(info, [2], 1) && DistinctScalars(info) && ConstantsFit(h, info) && FinalGen(h, info, 1) == h
  {
    hide VectorHistory;
    assert Source(info, 0, 1) == 1 && RawGen(h, info, 1) == h;
  }

  lemma NotInItself(x: seq<int>)
    requires |x| > 0
    ensures !InShape(x, x)
  {
    assert !(0 <= x[0] < x[0]);
  }

  lemma HalfCovered(t: Gen, h: Gen)
    requires t.axes == [Axis(0, 3, 1, 1)] && h.axes == [Axis(-1, 3, 1, 1)]
    ensures Covered(t, h, 1) && Member(t.axes, [2]) && !InShape([2], [2])
  {
    NotInItself([2]);
  }

  // ---- the function of the source ----

  /** Undefined: no generator is left of the box because a constant is out of range, and the source
      dereferences the null pointer. */
  datatype CheckResult = Checked(dim: nat) | Undefined

  /** The lowest dimension, counted from one, in which a target generator exceeds the box, or 0. */
  method FirstExceeded(targetIg: InternGen, wholeIg: InternGen, dim: nat) returns (result: nat)
    requires targetIg.Valid() && wholeIg.Valid() && targetIg.shape == wholeIg.shape == dim
    ensures result <= dim
    ensures result == 0 <==> Covered(targetIg.Value(), wholeIg.Value(), dim)
    ensures result > 0 ==> Exceeds(targetIg.Value(), wholeIg.Value(), result - 1)
    ensures result > 0 ==> Covered(targetIg.Value(), wholeIg.Value(), result - 1)
  {
    result := 0;
    var i := dim - 1;
    while i >= 0
      invariant -1 <= i < dim && (result == 0 || i + 1 < result <= dim)
      invariant result > 0 ==> Exceeds(targetIg.Value(), wholeIg.Value(), result - 1)
      invariant forall d :: i < d < (if result == 0 then dim else result - 1) ==>
        !Exceeds(targetIg.Value(), wholeIg.Value(), d)
      decreases i
    {
      if targetIg.axes[i].l < wholeIg.axes[i].l || targetIg.axes[i].u > wholeIg.axes[i].u {
        result := i + 1;
      }
      i := i - 1;
    }
  }

  /** dim is 0 and all target generators are covered, or the first one that is not exceeds w first in
      dimension dim. */
  ghost predicate FirstFault(T: seq<Gen>, w: Gen, n: nat, dim: nat)
    requires |w.axes| == n
  {
    if dim == 0 then forall k :: 0 <= k < |T| ==> |T[k].axes| == n && Covered(T[k], w, n)
    else exists k :: FaultAt(T, w, n, k, dim)
  }

  ghost predicate FaultAt(T: seq<Gen>, w: Gen, n: nat, k: nat, dim: nat)
    requires |w.axes| == n && dim > 0
  {
    && k < |T| && |T[k].axes| == n && dim <= n && Exceeds(T[k], w, dim - 1) && Covered(T[k], w, dim - 1)
    && forall j :: 0 <= j < k ==> |T[j].axes| == n && Covered(T[j], w, n)
  }

  /** The three steps that turn a list over the subst loop's dimensions into one over the target's. */
  method TransformList(ig: InternGen, transformations: IndexInfo, n: nat, ghost s: seq<InternGen>, ghost S: seq<Gen>)
    returns (root: InternGen?, ghost s': seq<InternGen>)
    requires GenChain(ig, s, S, transformations.vector) && Transforming(S, transformations, n)
    modifies s
    ensures GenChain(root, s', SubstList(S, transformations, n), n) && fresh(s')
  {
    ghost var V := PullVector(S, transformations);
    PullVectorKeeps(S, transformations);
    RemoveDoublesKeeps(V, transformations, n);
    hide PullVector, GenChain, Segment, Show, RemoveDoubles, FinalList;
    var r;
    ghost var s1;
    r, s1 := LinearTransformationsVector(ig, transformations, s, S);
    ChainParts(r, s1, V, transformations.vector);
    var transformations' := RemoveDoubleIndexVectors(r, transformations, n, s1, V);
    ghost var W := RemoveDoubles(V, transformations, n).0;
    ChainMade(r, s1, W, transformations'.vector);
    root, s' := FinalTransformations(r, transformations', n, s1, W);
  }

  /** The box of all indices of the subst loop. */
  method WholeBox(shape: seq<int>, dim: nat) returns (wholeIg: InternGen)
    requires dim <= |shape|
    ensures fresh(wholeIg) && wholeIg.next == null
    ensures wholeIg.Valid() && wholeIg.shape == dim && wholeIg.Value() == Box(shape, dim)
  {
    wholeIg := new InternGen(dim, false);
    for i := 0 to dim
      invariant wholeIg.Valid() && wholeIg.shape == dim && !wholeIg.hasGrid && wholeIg.next == null
      invariant wholeIg.axes[..i] == Box(shape, dim).axes[..i] && wholeIg.code == Block(0)
    {
      wholeIg.axes := wholeIg.axes[i := Axis(0, shape[i], 1, 1)];
    }
  }

  lemma WholeAxes(head: InternGen?, s: seq<InternGen>, W: seq<Gen>, n: nat)
    requires GenChain(head, s, W, n)
    ensures head == null <==> W == []
    ensures W != [] ==> |W[0].axes| == n
  {
  }

  method TransformationRangeCheck(transformations: IndexInfo, shape: seq<int>, targetIg: InternGen,
                                  ghost n: nat, ghost ts: seq<InternGen>, ghost T: seq<Gen>)
    returns (result: CheckResult)
    requires Checkable(transformations, shape, n) && GenChain(targetIg, ts, T, n)
    ensures var W := Whole(shape, transformations, n);
            if n == 0 then result == Checked(0)
            else if W == [] then result == Undefined
            else |W[0].axes| == n && result.Checked? && FirstFault(T, W[0], n, result.dim)
  {
    hide Whole, SubstList, GenChain, FirstFault, Transforming;
    ChainAt(targetIg, ts, T, n, 0);
    var dim := targetIg.shape;
    var box := WholeBox(shape, transformations.vector);
    ghost var B := [Box(shape, transformations.vector)];
    OneBox(box, B[0], transformations.vector);
    Box1(shape, transformations, n);
    ghost var ws;
    var wholeIg;
    wholeIg, ws := TransformList(box, transformations, dim, [box], B);
    result := CompareBounds(targetIg, wholeIg, dim, ts, T, ws, Whole(shape, transformations, n));
  }

  lemma OneBox(ig: InternGen, g: Gen, n: nat)
    requires ig.Valid() && ig.shape == n && ig.Value() == g && ig.next == null && ProperGen(g, n)
    ensures GenChain(ig, [ig], [g], n)
  {
  }

  /** The comparison of the pulled-back box with all target generators. */
  method CompareBounds(targetIg: InternGen, wholeIg: InternGen?, dim: nat,
                       ghost ts: seq<InternGen>, ghost T: seq<Gen>, ghost ws: seq<InternGen>, ghost W: seq<Gen>)
    returns (result: CheckResult)
    requires GenChain(targetIg, ts, T, dim) && GenChain(wholeIg, ws, W, dim)
    ensures if dim == 0 then result == Checked(0)
            else if W == [] then result == Undefined
            else |W[0].axes| == dim && result.Checked? && FirstFault(T, W[0], dim, result.dim)
  {
    result := Checked(0);
    var tig: InternGen? := targetIg;
    ghost var k := 0;
    hide GenChain, Covered, Exceeds;
    WholeAxes(wholeIg, ws, W, dim);
    ChainAt(targetIg, ts, T, dim, 0);
    while tig != null && result == Checked(0)
      invariant 0 <= k <= |ts| == |T|
      invariant GenChain(targetIg, ts, T, dim) && GenChain(wholeIg, ws, W, dim)
      invariant result == Checked(0) ==>
        && tig == Link(ts, k) && (dim > 0 && k > 0 ==> W != [])
        && (dim > 0 && W != [] ==> forall j :: 0 <= j < k ==> |T[j].axes| == dim && Covered(T[j], W[0], dim))
      invariant result == Undefined ==> dim > 0 && k > 0 && W == []
      invariant result.Checked? && result.dim > 0 ==>
        dim > 0 && k > 0 && W != [] && FaultAt(T, W[0], dim, k - 1, result.dim)
      decreases |ts| - k
    {
      ChainAt(targetIg, ts, T, dim, k);
      if dim > 0 {
        if wholeIg == null {
          result := Undefined;
        } else {
          ChainAt(wholeIg, ws, W, dim, 0);
          var exceeded := FirstExceeded(tig, wholeIg, dim);
          result := Checked(exceeded);
        }
      }
      tig := tig.next;
      k := k + 1;
    }
  }
}
