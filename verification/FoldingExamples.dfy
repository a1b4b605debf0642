/**
 Selections for which no generator of the subst loop is left although no constant is out of range, so that Fold reports
 an error that there is none of.
 */
module FoldingExamples {
  import opened Wrappers
  import opened Generators
  import opened AxisTransform
  import opened IndexInfos
  import opened LinearTransformations
  import opened PullExactness
  import opened DoubleIndexVectors
  import opened DoubleExactness
  import opened FinalTransformation
  import opened RangeCheck
  import opened Folding

  /** A[[i, 3]] with A of shape [0, 5] and an empty target generator [0] <= iv < [0]: that error is reported. */
  lemma NothingLeftReached()
    ensures var info := IndexInfo(2, [1, 0], [None, None], Add, [0, 3], 0);
            var T, S := [Gen([Axis(0, 0, 1, 1)], false, Block(1))],
                        [Gen([Axis(0, 0, 1, 1), Axis(0, 2, 1, 1)], false, Block(0))];
            && Foldable(T, S, [0, 5], info, 1) && Transformable(S, info, 1) && Partitions(S, [0, 5], 2)
            && InRange(T, [0, 5], info, 1) && SubstList(S, info, 1) == []
  {
    hide *;
    var info := IndexInfo(2, [1, 0], [None, None], Add, [0, 3], 0);
    var t, s := Gen([Axis(0, 0, 1, 1)], false, Block(1)), Gen([Axis(0, 0, 1, 1), Axis(0, 2, 1, 1)], false, Block(0));
    EmptyPartition(s);
    NothingOf(info, s);
    EmptyInRange(info, t);
    AllFits(info, t, s);
  }

  lemma NothingOf(info: IndexInfo, s: Gen)
    requires info == IndexInfo(2, [1, 0], [None, None], Add, [0, 3], 0)
    requires s == Gen([Axis(0, 0, 1, 1), Axis(0, 2, 1, 1)], false, Block(0))
    ensures Transformable([s], info, 1) && SubstList([s], info, 1) == []
  {
    PullNothing([s], info);
    SubstDistinct(s, s, info, 1);
    assert !In(s.axes[1], 3) && !ConstantsFit(s, info);
  }

  lemma EmptyInRange(info: IndexInfo, t: Gen)
    requires info == IndexInfo(2, [1, 0], [None, None], Add, [0, 3], 0) && t.axes == [Axis(0, 0, 1, 1)]
    ensures Checkable(info, [0, 5], 1) && InRange([t], [0, 5], info, 1)
  {
    hide *;
    PickChecked(info);
    PickFinal(info, Box([0, 5], 2));
    WholeDistinct([0, 5], Box([0, 5], 2), info, 1);
    EmptyCovered(t, Gen([Axis(0, 0, 1, 1)], false, Block(0)));
    OneInRange([t], [0, 5], info, 1, Gen([Axis(0, 0, 1, 1)], false, Block(0)));
  }

  lemma PickChecked(info: IndexInfo)
    requires info == IndexInfo(2, [1, 0], [None, None], Add, [0, 3], 0)
    ensures info.vector == 2 && Checkable(info, [0, 5], 1) && DistinctScalars(info)
    ensures PullVector([Box([0, 5], 2)], info) == [Box([0, 5], 2)]
  {
    PullNothing([Box([0, 5], 2)], info);
  }

  lemma PickFinal(info: IndexInfo, box: Gen)
    requires info == IndexInfo(2, [1, 0], [None, None], Add, [0, 3], 0) && box == Box([0, 5], 2)
    ensures ConstantsFit(box, info) && FinalGen(box, info, 1) == Gen([Axis(0, 0, 1, 1)], false, Block(0))
  {
    assert In(box.axes[1], 3);
    assert Source(info, 0, 2) == 1;
    assert RawGen(box, info, 1) == Gen([Axis(0, 0, 1, 1)], false, Block(0));
  }

  lemma EmptyCovered(t: Gen, w: Gen)
    requires t.axes == w.axes == [Axis(0, 0, 1, 1)]
    ensures Covered(t, w, 1)
  {
  }

  /** Target generators that the box w covers. */
  lemma OneInRange(T: seq<Gen>, shape: seq<int>, info: IndexInfo, n: nat, w: Gen)
    requires Checkable(info, shape, n) && Whole(shape, info, n) == [w] && |w.axes| == n
    requires forall k :: 0 <= k < |T| ==> |T[k].axes| == n && Covered(T[k], w, n)
    ensures InRange(T, shape, info, n)
  {
    hide Whole, Checkable;
  }

  lemma AllFits(info: IndexInfo, t: Gen, s: Gen)
    requires info == IndexInfo(2, [1, 0], [None, None], Add, [0, 3], 0)
    requires !t.hasGrid && Checkable(info, [0, 5], 1) && Transformable([s], info, 1)
    ensures Foldable([t], [s], [0, 5], info, 1)
  {
  }

  lemma EmptyPartition(s: Gen)
    requires s.axes == [Axis(0, 0, 1, 1), Axis(0, 2, 1, 1)]
    ensures Partitions([s], [0, 5], 2)
  {
    forall w {:trigger Hits([s], w)} | |w| == 2 ensures |Hits([s], w)| == 0 && !InShape([0, 5], w) {
      HitsOne(s, w);
      assert !In(s.axes[0], w[0]);
      assert !(0 <= w[0] < [0, 5][0]);
    }
  }
  // ---- A[[i, i, j, 7]] ----

  function Shape(): seq<int> {
    [1, 1, 5, 8]
  }

  function Diagonal(): IndexInfo {
    IndexInfo(4, [1, 1, 2, 0], [None, None, None, None], Add, [0, 0, 0, 7], 0)
  }

  /** The subst generator for l <= j < u. */
  function Slab(l: int, u: int, id: nat): Gen {
    Gen([Axis(0, 1, 1, 1), Axis(0, 1, 1, 1), Axis(l, u, 1, 1), Axis(0, 8, 1, 1)], false, Block(id))
  }

  function Slabs(): (S: seq<Gen>)
    ensures |S| == 2
  {
    [Slab(0, 2, 0), Slab(2, 5, 1)]
  }

  function Target(): Gen {
    Gen([Axis(0, 1, 1, 1), Axis(0, 5, 1, 1)], false, Block(2))
  }

  lemma DiagonalHistory()
    ensures VectorHistory(Diagonal()) && Addresses(Diagonal(), 2) && NonNegativeVector(Diagonal())
  {
  }

  lemma DiagonalPulls()
    ensures VectorHistory(Diagonal()) && forall V: seq<Gen> :: PullVector(V, Diagonal()) == V
  {
    hide VectorHistory, PullVector;
    DiagonalHistory();
    forall V: seq<Gen> ensures PullVector(V, Diagonal()) == V {
      PullNothing(V, Diagonal());
    }
  }

  lemma SlabsProper()
    ensures ProperGens(Slabs(), 4) && Gridless(Slabs()) && Gridless([Target()])
  {
    forall k | 0 <= k < 2 ensures ProperGen(Slabs()[k], 4) && !Slabs()[k].hasGrid {
      assert Slabs()[k] == Slab(0, 2, 0) || Slabs()[k] == Slab(2, 5, 1);
    }
  }

  lemma DiagonalFits()
    ensures VectorHistory(Diagonal()) && Addresses(Diagonal(), 2) && NonNegativeVector(Diagonal())
    ensures Checkable(Diagonal(), Shape(), 2) && Foldable([Target()], Slabs(), Shape(), Diagonal(), 2)
    ensures forall V: seq<Gen> :: PullVector(V, Diagonal()) == V
  {
    hide VectorHistory, Addresses, NonNegativeVector, ProperGens, Gridless, Slabs, Target, UnscaledVector;
    DiagonalHistory();
    DiagonalPulls();
    SlabsProper();
  }

  lemma SlabHits(l: int, u: int, id: nat, w: seq<int>)
    requires |w| == 4
    ensures Member(Slab(l, u, id).axes, w) <==> w[0] == 0 && w[1] == 0 && l <= w[2] < u && 0 <= w[3] < 8
  {
    var g := Slab(l, u, id);
    if w[0] == 0 && w[1] == 0 && l <= w[2] < u && 0 <= w[3] < 8 {
      assert forall i :: 0 <= i < 4 ==> In(g.axes[i], w[i]);
    }
  }

  lemma SlabsPartition()
    ensures Partitions(Slabs(), Shape(), 4)
  {
    forall w {:trigger Hits(Slabs(), w)} | |w| == 4
      ensures |Hits(Slabs(), w)| == if InShape(Shape(), w) then 1 else 0
    {
      SlabHits(0, 2, 0, w);
      SlabHits(2, 5, 1, w);
      assert Slabs() == [Slab(0, 2, 0)] + [Slab(2, 5, 1)];
      HitsConcat([Slab(0, 2, 0)], [Slab(2, 5, 1)], w);
      HitsOne(Slab(0, 2, 0), w);
      HitsOne(Slab(2, 5, 1), w);
      ShapeMember(w);
    }
  }

  lemma ShapeMember(w: seq<int>)
    requires |w| == 4
    ensures InShape(Shape(), w) <==> w[0] == 0 && w[1] == 0 && 0 <= w[2] < 5 && 0 <= w[3] < 8
  {
    if InShape(Shape(), w) {
      assert 0 <= w[0] < Shape()[0] && 0 <= w[1] < Shape()[1] && 0 <= w[2] < Shape()[2] && 0 <= w[3] < Shape()[3];
    }
  }

  /** After the first merge nothing is merged any more; but the history has been shifted once for each generator. */
  lemma MergedOnce(V: seq<Gen>)
    requires 1 <= |V| <= 2 && forall k :: 0 <= k < |V| ==> |V[k].axes| == 4
    ensures Removable(V, Diagonal(), 2) && |MergedGens(V, 0, 1)| == |V|
    ensures RemoveDoubles(V, Diagonal(), 2) == (MergedGens(V, 0, 1),
      if |V| == 1 then IndexInfo(3, [1, 2, 0], [None, None, None], Add, [0, 0, 7], 0)
      else IndexInfo(3, [1, 0, 0], [None, None, None], Add, [0, 7, 7], 0))
  {
    var st := Load(V, Diagonal());
    MergedHistory(V);
    hide Merge, RemoveFrom;
    MergesOnce(st, Merge(st, 2, 0, 1), |V|);
    hide Store;
    Stored(Merge(st, 2, 0, 1), |V|);
  }

  lemma Stored(m: Doubles, count: nat)
    requires Regular(m, 2) && m.vector == 3 && 1 <= count <= 2 && m.last == [None, None, None, None]
    requires m.permutation == if count == 1 then [1, 2, 0, 0] else [1, 0, 0, 0]
    requires m.constArg == if count == 1 then [0, 0, 7, 7] else [0, 7, 7, 7]
    ensures Store(m, 2, Diagonal()) ==
      if count == 1 then IndexInfo(3, [1, 2, 0], [None, None, None], Add, [0, 0, 7], 0)
      else IndexInfo(3, [1, 0, 0], [None, None, None], Add, [0, 7, 7], 0)
  {
  }

  lemma MergesOnce(st: Doubles, m: Doubles, count: nat)
    requires Regular(st, 2) && st.vector == 4 && st.permutation == [1, 1, 2, 0] && m == Merge(st, 2, 0, 1)
    requires m.vector == 3 && 1 <= count <= 2 && m.permutation == if count == 1 then [1, 2, 0, 0] else [1, 0, 0, 0]
    ensures RemoveDoublesFrom(st, 2) == m
  {
    hide Merge;
    assert seq(2, _ => 0) == [0, 0] && [0, 0][0 := 1] == [1, 0];
    RemoveFromKeeps(st, 2, 0, [0, 0]);
    RemoveFromMerges(st, 2, 1, [1, 0]);
    hide RemoveFrom;
    NothingMore(m, count);
  }

  lemma MergedHistory(V: seq<Gen>)
    requires 1 <= |V| <= 2 && forall k :: 0 <= k < |V| ==> |V[k].axes| == 4
    ensures Regular(Load(V, Diagonal()), 2)
    ensures var m := Merge(Load(V, Diagonal()), 2, 0, 1);
            && m.gens == MergedGens(V, 0, 1) && m.vector == 3 && m.last == [None, None, None, None]
            && m.permutation == (if |V| == 1 then [1, 2, 0, 0] else [1, 0, 0, 0])
            && m.constArg == if |V| == 1 then [0, 0, 7, 7] else [0, 7, 7, 7]
  {
    ShiftedTwice(1, 1, 2, 0);
    ShiftedTwice(0, 0, 0, 7);
    ShiftedTwice<Option<IndexInfo>>(None, None, None, None);
  }

  lemma ShiftedTwice<T>(a: T, b: T, c: T, d: T)
    ensures ShiftTimes([a, b, c, d], 1, 3, 1) == [a, c, d, d] && ShiftTimes([a, b, c, d], 1, 3, 2) == [a, d, d, d]
  {
    ShiftFour(a, b, c, d);
    ShiftFour(a, c, d, d);
    hide Shift;
    assert ShiftTimes([a, b, c, d], 1, 3, 0) == [a, b, c, d];
    assert ShiftTimes([a, b, c, d], 1, 3, 1) == Shift([a, b, c, d], 1, 3);
  }

  lemma ShiftFour<T>(a: T, b: T, c: T, d: T)
    ensures Shift([a, b, c, d], 1, 3) == [a, c, d, d]
  {
  }

  lemma NothingMore(m: Doubles, count: nat)
    requires Regular(m, 2) && m.vector == 3 && 1 <= count <= 2
    requires m.permutation == if count == 1 then [1, 2, 0, 0] else [1, 0, 0, 0]
    ensures RemoveFrom(m, 2, 1, [1, 0]) == m
  {
    var found := if count == 1 then [1, 2] else [1, 0];
    RemoveFromKeeps(m, 2, 1, [1, 0]);
    RemoveFromKeeps(m, 2, 2, found);
    RemoveFromDone(m, 2, 3, found);
  }

  lemma SlabsLost()
    ensures Transforming(Slabs(), Diagonal(), 2) && SubstList(Slabs(), Diagonal(), 2) == []
  {
    var r := IndexInfo(3, [1, 0, 0], [None, None, None], Add, [0, 7, 7], 0);
    DiagonalFits();
    hide PullVector, RemoveDoubles, FinalList, ProperGens;
    SlabsMerged(r);
  }

  lemma SlabsMerged(r: IndexInfo)
    requires r == IndexInfo(3, [1, 0, 0], [None, None, None], Add, [0, 7, 7], 0)
    ensures Removable(Slabs(), Diagonal(), 2) && RemoveDoubles(Slabs(), Diagonal(), 2).1 == r
    ensures var W := RemoveDoubles(Slabs(), Diagonal(), 2).0; ProperGens(W, 3) && FinalList(W, r, 2, |W|) == []
  {
    var S := Slabs();
    DiagonalFits();
    RemoveDoublesKeeps(S, Diagonal(), 2);
    MergedOnce(S);
    hide RemoveDoubles, PullVector, FinalList;
    var W := MergedGens(S, 0, 1);
    SlabAxes(W);
    NothingFits(W, r, 2, 2);
  }

  lemma SlabAxes(W: seq<Gen>)
    requires W == MergedGens(Slabs(), 0, 1)
    ensures |W| == 2 && forall k :: 0 <= k < 2 ==> |W[k].axes| == 3 && !In(W[k].axes[1], 7)
  {
    assert W[0] == MergedGen(Slab(0, 2, 0), 0, 1) && W[1] == MergedGen(Slab(2, 5, 1), 0, 1);
    assert W[0].axes[1] == Axis(0, 2, 1, 1) && W[1].axes[1] == Axis(2, 5, 1, 1);
  }

  lemma {:induction false} NothingFits(V: seq<Gen>, info: IndexInfo, n: nat, k: nat)
    requires info.vector == |info.permutation| == |info.constArg| && ProperGens(V, info.vector) && k <= |V|
    requires forall i :: 0 <= i < |V| ==> |V[i].axes| == info.vector && !ConstantsFit(V[i], info)
    ensures FinalList(V, info, n, k) == []
  {
    if k > 0 {
      NothingFits(V, info, n, k - 1);
    }
  }

  lemma BoxMerged()
    ensures Checkable(Diagonal(), Shape(), 2)
    ensures Whole(Shape(), Diagonal(), 2) == [Gen([Axis(0, 1, 1, 1), Axis(0, 5, 1, 1)], false, Block(0))]
  {
    var box, info := Box(Shape(), 4), Diagonal();
    var g := Gen([Axis(0, 1, 1, 1), Axis(0, 5, 1, 1), Axis(0, 8, 1, 1)], false, Block(0));
    DiagonalFits();
    BoxPulled(box, g);
    hide PullVector, RemoveDoubles, MergedGens;
    var r := IndexInfo(3, [1, 2, 0], [None, None, None], Add, [0, 0, 7], 0);
    BoxFinal(g, r);
  }

  lemma BoxPulled(box: Gen, g: Gen)
    requires box == Box(Shape(), 4)
    requires g == Gen([Axis(0, 1, 1, 1), Axis(0, 5, 1, 1), Axis(0, 8, 1, 1)], false, Block(0))
    ensures Removable([box], Diagonal(), 2) && VectorHistory(Diagonal()) && PullVector([box], Diagonal()) == [box]
    ensures RemoveDoubles([box], Diagonal(), 2) ==
      ([g], IndexInfo(3, [1, 2, 0], [None, None, None], Add, [0, 0, 7], 0))
  {
    DiagonalFits();
    MergedOnce([box]);
    hide RemoveDoubles, PullVector;
    assert box.axes == [Axis(0, 1, 1, 1), Axis(0, 1, 1, 1), Axis(0, 5, 1, 1), Axis(0, 8, 1, 1)];
    assert MergedGen(box, 0, 1).axes == g.axes;
    assert MergedGens([box], 0, 1) == [g];
  }

  lemma BoxFinal(g: Gen, r: IndexInfo)
    requires g == Gen([Axis(0, 1, 1, 1), Axis(0, 5, 1, 1), Axis(0, 8, 1, 1)], false, Block(0))
    requires r == IndexInfo(3, [1, 2, 0], [None, None, None], Add, [0, 0, 7], 0)
    ensures ProperGens([g], 3)
    ensures FinalList([g], r, 2, 1) == [Gen([Axis(0, 1, 1, 1), Axis(0, 5, 1, 1)], false, Block(0))]
  {
    var f := Gen([Axis(0, 1, 1, 1), Axis(0, 5, 1, 1)], false, Block(0));
    assert ProperGen(g, 3);
    OneFinal(g, r, 2);
    assert In(g.axes[2], 7) && ConstantsFit(g, r);
    assert Source(r, 0, 3) == 1 && Source(r, 1, 3) == 2;
    assert RawGen(g, r, 2) == f && FinalGen(g, r, 2) == f;
  }

  /** A[[i, i, j, 7]] with A of shape [1, 1, 5, 8], computed by two generators: the check is silent, the target loop
      selects [0, 0], and 7 is in range; but the history is shifted twice, and neither generator is left. */
  lemma NothingLeftWrongly()
    ensures var info, S, T := Diagonal(), Slabs(), [Target()];
            && Foldable(T, S, Shape(), info, 2) && NonNegativeVector(info) && Partitions(S, Shape(), 4)
            && InRange(T, Shape(), info, 2) && Hits(T, [0, 0]) == multiset{Block(2)}
            && SubstList(S, info, 2) == []
  {
    hide *;
    DiagonalFits();
    SlabsPartition();
    BoxMerged();
    TargetCovered();
    OneInRange([Target()], Shape(), Diagonal(), 2, Gen([Axis(0, 1, 1, 1), Axis(0, 5, 1, 1)], false, Block(0)));
    SlabsLost();
  }

  lemma TargetCovered()
    ensures |Target().axes| == 2
    ensures Covered(Target(), Gen([Axis(0, 1, 1, 1), Axis(0, 5, 1, 1)], false, Block(0)), 2)
    ensures Hits([Target()], [0, 0]) == multiset{Block(2)}
  {
    HitsOne(Target(), [0, 0]);
    assert In(Target().axes[0], 0) && In(Target().axes[1], 0);
  }
}
