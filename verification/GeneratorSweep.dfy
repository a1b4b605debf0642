/**
 One transformation step applied in place to every generator of a chain (LinearTransformationsHelp and
 the loop its two callers run).
 */
module GeneratorSweep {
  import opened Wrappers
  import opened Generators
  import opened AxisTransform
  import opened InternGens

  /** One step on one axis of one generator, in place; the split-off generator is returned. */
  method LinearTransformationsHelp(ig: InternGen, dim: nat, prf: Prf, argNo: nat, constval: int)
    returns (newig: InternGen?)
    requires ig.Valid() && dim < ig.shape && Proper(ig.axes[dim])
    requires argNo == 1 || argNo == 2
    requires prf == Div ==> argNo == 2
    requires prf == Mul || prf == Div ==> !ig.hasGrid
    modifies ig`axes
    ensures var r := PullBack(prf, argNo, constval, ig.hasGrid, old(ig.axes[dim]));
            && ig.axes == old(ig.axes)[dim := r.0]
            && (newig == null <==> r.1.None?)
            && (newig != null ==>
                 fresh(newig) && newig.Valid() && newig.shape == ig.shape && newig.hasGrid && newig.next == null &&
                 newig.code == ig.code && newig.axes == old(ig.axes)[dim := r.1.value])
  {
    newig := null;
    var a := ig.axes[dim];
    match prf {
      case Add =>
        a := a.(l := a.l - constval);
        a := a.(u := a.u - constval);
      case Sub =>
        if argNo == 2 {
          a := a.(l := a.l + constval);
          a := a.(u := a.u + constval);
        } else {
          var lbuf := constval - a.u + 1;
          var ubuf := constval - a.l + 1;
          if ig.hasGrid {
            var cut := TruncMod(a.u - a.l, a.step);
            if cut == 0 {
              lbuf := lbuf + a.step - a.width;
            } else if cut > a.width {
              lbuf := lbuf + cut - a.width;
            } else if cut < a.width {
              newig := ig.Copy();
              var b := newig.axes[dim];
              b := b.(l := a.l + cut, width := a.width - cut);
              a := a.(width := cut);
              if b.u <= b.l {
                newig := null;
              } else {
                var buf := constval - b.u + 1 + b.step - b.width;
                b := b.(u := constval - b.l + 1);
                b := b.(l := buf);
                newig.axes := newig.axes[dim := b];
              }
            }
          }
          a := a.(l := lbuf, u := ubuf);
        }
      case Mul =>
        if constval > 0 {
          a := a.(l := MulBound(a.l, constval));
          a := a.(u := MulBound(a.u, constval));
        }
        if constval < 0 {
          a := a.(l := MulBound(a.u, constval));
          a := a.(u := MulBound(a.l, constval));
        }
      case Div =>
        if constval > 0 {
          a := a.(l := a.l * constval);
          a := a.(u := a.u * constval);
        }
        if constval < 0 {
          a := a.(l := a.u * constval + 1);
          a := a.(u := a.l * constval + 1);
        }
    }
    ig.axes := ig.axes[dim := a];
  }

  // ---- the same on values ----

  /** A generator after a step on one axis, and the split-off generators (at most one). */
  function StepGen(g: Gen, dim: nat, prf: Prf, argNo: nat, c: int): (r: (Gen, seq<Gen>))
    requires dim < |g.axes| && (g.hasGrid ==> g.axes[dim].step > 0)
    ensures |r.1| <= 1 && (!g.hasGrid ==> r.1 == [])
  {
    var r := PullBack(prf, argNo, c, g.hasGrid, g.axes[dim]);
    (g.(axes := g.axes[dim := r.0]), if r.1.Some? then [g.(axes := g.axes[dim := r.1.value])] else [])
  }

  /** The step as a function on generators; it is only applied to proper ones. */
  function Stepper(n: nat, dim: nat, prf: Prf, argNo: nat, c: int): Gen -> (Gen, seq<Gen>)
    requires dim < n
  {
    g => if ProperGen(g, n) then StepGen(g, dim, prf, argNo, c) else (g, [])
  }

  /** Every generator after a step, in place. */
  function Kept(V: seq<Gen>, f: Gen -> (Gen, seq<Gen>)): (r: seq<Gen>)
  {
    seq(|V|, i requires 0 <= i < |V| => f(V[i]).0)
  }

  /** The generators split off the first k, the last one in front. */
  function Split(V: seq<Gen>, k: nat, f: Gen -> (Gen, seq<Gen>)): (r: seq<Gen>)
    requires k <= |V|
  {
    if k == 0 then [] else f(V[k - 1]).1 + Split(V, k - 1, f)
  }

  /** The list after a step on every generator: split-off generators are put in front. */
  function StepList(V: seq<Gen>, f: Gen -> (Gen, seq<Gen>)): (r: seq<Gen>)
  {
    Split(V, |V|, f) + Kept(V, f)
  }

  /** One generator under one step: what it and its split-off select at w is what the generator
      selected at the transformed w. */
  lemma StepHits(g: Gen, dim: nat, prf: Prf, argNo: nat, c: int, w: seq<int>)
    requires dim < |w| && ProperGen(g, |w|)
    requires prf == Mul || prf == Div ==> !g.hasGrid
    requires NonNegative(prf, c) && (prf == Div ==> argNo == 2)
    ensures var r := StepGen(g, dim, prf, argNo, c);
            Hits(r.1, w) + Hit(r.0, w) == Hit(g, w[dim := Floored(prf, argNo, c, w[dim])])
  {
    var a, y := g.axes[dim], Floored(prf, argNo, c, w[dim]);
    StepExact(prf, argNo, c, g.hasGrid, a, w[dim]);
    var r := PullBack(prf, argNo, c, g.hasGrid, a);
    SplitHits(g, dim, r.0, r.1, w, y);
  }

  lemma SplitHits(g: Gen, dim: nat, a: Axis, b: Option<Axis>, w: seq<int>, y: int)
    requires dim < |w| == |g.axes|
    requires Selects(Some(a), w[dim]) + Selects(b, w[dim]) == Selects(Some(g.axes[dim]), y)
    ensures Hits(if b.Some? then [g.(axes := g.axes[dim := b.value])] else [], w) + Hit(g.(axes := g.axes[dim := a]), w)
            == Hit(g, w[dim := y])
  {
    assert g.axes[dim := g.axes[dim]] == g.axes;
    MemberAt(g.axes, dim, w[dim := y], g.axes[dim], y);
    MemberAt(g.axes, dim, w, a, w[dim]);
    OtherAxesIrrelevant(g.axes, dim, w, y);
    if b.Some? {
      MemberAt(g.axes, dim, w, b.value, w[dim]);
      HitsOne(g.(axes := g.axes[dim := b.value]), w);
    }
  }

  predicate OtherAxes(axes: seq<Axis>, dim: nat, v: seq<int>) {
    |v| == |axes| && forall d :: 0 <= d < |axes| && d != dim ==> In(axes[d], v[d])
  }

  lemma OtherAxesIrrelevant(axes: seq<Axis>, dim: nat, v: seq<int>, x: int)
    requires dim < |v| == |axes|
    ensures OtherAxes(axes, dim, v) <==> OtherAxes(axes, dim, v[dim := x])
  {
    assert forall d :: 0 <= d < |axes| && d != dim ==> v[dim := x][d] == v[d];
  }

  lemma MemberAt(axes: seq<Axis>, dim: nat, v: seq<int>, a: Axis, x: int)
    requires dim < |v| == |axes| && v[dim] == x
    ensures Member(axes[dim := a], v) <==> OtherAxes(axes, dim, v) && In(a, x)
  {
    if Member(axes[dim := a], v) {
      assert forall d :: 0 <= d < |axes| && d != dim ==> axes[dim := a][d] == axes[d];
      assert axes[dim := a][dim] == a;
    }
  }

  lemma {:induction false} SweptHits(V: seq<Gen>, k: nat, f: Gen -> (Gen, seq<Gen>), w: seq<int>, w': seq<int>)
    requires k <= |V|
    requires forall i {:trigger V[i]} :: 0 <= i < |V| ==> Hits(f(V[i]).1, w) + Hit(f(V[i]).0, w) == Hit(V[i], w')
    ensures Hits(Split(V, k, f), w) + Hits(Kept(V, f)[..k], w) == Hits(V[..k], w')
  {
    if k > 0 {
      SweptHits(V, k - 1, f, w, w');
      SweepOneMore(V, k - 1, Kept(V, f), Split(V, k - 1, f), f(V[k - 1]), w, w');
    }
  }

  lemma SweepOneMore(V: seq<Gen>, k: nat, kept: seq<Gen>, split: seq<Gen>, r: (Gen, seq<Gen>), w: seq<int>,
                     w': seq<int>)
    requires k < |V| == |kept| && kept[k] == r.0
    requires Hits(split, w) + Hits(kept[..k], w) == Hits(V[..k], w')
    requires Hits(r.1, w) + Hit(r.0, w) == Hit(V[k], w')
    ensures Hits(r.1 + split, w) + Hits(kept[..k + 1], w) == Hits(V[..k + 1], w')
  {
    HitsConcat(r.1, split, w);
    HitsSnoc(kept, k, w);
    HitsSnoc(V, k, w');
  }

  /** A step on one axis turns a list into the preimage of what it denotes, with the same codes and
      multiplicities, under what the step is taken for. */
  lemma StepListPreimage(V: seq<Gen>, dim: nat, prf: Prf, argNo: nat, c: int, w: seq<int>)
    requires dim < |w| && ProperGens(V, |w|)
    requires prf == Mul || prf == Div ==> Gridless(V)
    requires NonNegative(prf, c) && (prf == Div ==> argNo == 2)
    ensures Hits(StepList(V, Stepper(|w|, dim, prf, argNo, c)), w) == Hits(V, w[dim := Floored(prf, argNo, c, w[dim])])
  {
    var f, w' := Stepper(|w|, dim, prf, argNo, c), w[dim := Floored(prf, argNo, c, w[dim])];
    forall i | 0 <= i < |V| ensures Hits(f(V[i]).1, w) + Hit(f(V[i]).0, w) == Hit(V[i], w') {
      assert ProperGen(V[i], |w|);
      StepHits(V[i], dim, prf, argNo, c, w);
    }
    StepListHits(V, f, w, w');
  }

  lemma StepListHits(V: seq<Gen>, f: Gen -> (Gen, seq<Gen>), w: seq<int>, w': seq<int>)
    requires forall i {:trigger V[i]} :: 0 <= i < |V| ==> Hits(f(V[i]).1, w) + Hit(f(V[i]).0, w) == Hit(V[i], w')
    ensures Hits(StepList(V, f), w) == Hits(V, w')
  {
    SweptHits(V, |V|, f, w, w');
    assert V[..|V|] == V && Kept(V, f)[..|V|] == Kept(V, f);
    HitsConcat(Split(V, |V|, f), Kept(V, f), w);
  }

  /** What a step keeps, as a property of the function. */
  ghost predicate KeepsProper(V: seq<Gen>, n: nat, f: Gen -> (Gen, seq<Gen>)) {
    forall i {:trigger V[i]} :: 0 <= i < |V| ==>
      && ProperGen(f(V[i]).0, n) && ProperGens(f(V[i]).1, n)
      && (FilledGen(V[i]) ==> FilledGen(f(V[i]).0) && FilledGens(f(V[i]).1))
      && (V[i].hasGrid <==> f(V[i]).0.hasGrid) && (!V[i].hasGrid ==> f(V[i]).1 == [])
  }

  lemma StepperKeepsProper(V: seq<Gen>, n: nat, dim: nat, prf: Prf, argNo: nat, c: int)
    requires dim < n && ProperGens(V, n)
    requires prf == Mul || prf == Div ==> Gridless(V)
    requires prf == Sub && argNo != 2 ==> FilledGens(V)
    ensures KeepsProper(V, n, Stepper(n, dim, prf, argNo, c))
  {
    forall i | 0 <= i < |V| ensures
      var r := Stepper(n, dim, prf, argNo, c)(V[i]);
      && ProperGen(r.0, n) && ProperGens(r.1, n) && (FilledGen(V[i]) ==> FilledGen(r.0) && FilledGens(r.1))
      && (V[i].hasGrid <==> r.0.hasGrid) && (!V[i].hasGrid ==> r.1 == [])
    {
      assert ProperGen(V[i], n) && (prf == Sub && argNo != 2 ==> FilledGen(V[i]));
      StepProper(prf, argNo, c, V[i].hasGrid, V[i].axes[dim]);
    }
  }

  lemma {:induction false} SplitProper(V: seq<Gen>, k: nat, n: nat, f: Gen -> (Gen, seq<Gen>))
    requires k <= |V| && KeepsProper(V, n, f)
    ensures ProperGens(Split(V, k, f), n) && (FilledGens(V) ==> FilledGens(Split(V, k, f)))
    ensures Gridless(V) ==> Split(V, k, f) == []
  {
    if k > 0 {
      SplitProper(V, k - 1, n, f);
      assert ProperGens(f(V[k - 1]).1, n) && (FilledGen(V[k - 1]) ==> FilledGens(f(V[k - 1]).1));
    }
  }

  lemma StepListProper(V: seq<Gen>, n: nat, f: Gen -> (Gen, seq<Gen>))
    requires KeepsProper(V, n, f)
    ensures ProperGens(StepList(V, f), n) && ProperGens(Kept(V, f), n) && ProperGens(Split(V, |V|, f), n)
    ensures FilledGens(V) ==> FilledGens(StepList(V, f))
    ensures Gridless(V) ==> Gridless(StepList(V, f)) && |StepList(V, f)| == |V|
  {
    SplitProper(V, |V|, n, f);
    var split, kept := Split(V, |V|, f), Kept(V, f);
    forall i | 0 <= i < |V|
      ensures ProperGen(kept[i], n) && (V[i].hasGrid <==> kept[i].hasGrid) && (FilledGens(V) ==> FilledGen(kept[i]))
    {
      assert FilledGens(V) ==> FilledGen(V[i]);
      assert kept[i] == f(V[i]).0;
    }
    forall i | 0 <= i < |split + kept|
      ensures ProperGen((split + kept)[i], n) && (FilledGens(V) ==> FilledGen((split + kept)[i]))
    {
      if i >= |split| { assert (split + kept)[i] == kept[i - |split|]; }
    }
  }

  // ---- the walk over a chain ----

  /** f says what the step does to generators.  The trigger keeps the definition of the step out of the
      proofs that only move its results around. */
  ghost predicate IsStep(f: Gen -> (Gen, seq<Gen>), n: nat, dim: nat, prf: Prf, argNo: nat, c: int)
    requires dim < n
  {
    forall g {:trigger StepGen(g, dim, prf, argNo, c)} :: ProperGen(g, n) ==> f(g) == StepGen(g, dim, prf, argNo, c)
  }

  /** The body of the loop below: one record is transformed, a split-off goes to the front. */
  method TransformOne(actig: InternGen, root: InternGen, dim: nat, prf: Prf, argNo: nat, c: int, ghost f: Gen -> (Gen,
                      seq<Gen>),
                      ghost n: nat, ghost front: seq<InternGen>, ghost end: InternGen?, ghost W: seq<Gen>)
    returns (root': InternGen, ghost front': seq<InternGen>)
    requires dim < n && actig.Valid() && actig.shape == n && ProperGen(actig.Value(), n)
    requires Segment(root, front, end) && Show(front, W, n) && actig !in front
    requires argNo == 1 || argNo == 2
    requires prf == Div ==> argNo == 2
    requires prf == Mul || prf == Div ==> !actig.hasGrid
    requires IsStep(f, n, dim, prf, argNo, c)
    modifies actig`axes
    ensures actig.Valid() && actig.Value() == f(old(actig.Value())).0
    ensures Segment(root', front', end) && Show(front', f(old(actig.Value())).1 + W, n)
    ensures front' == front || (front' != [] && front'[1..] == front && fresh(front'[0]))
  {
    root', front' := root, front;
    ghost var r := StepGen(actig.Value(), dim, prf, argNo, c);
    var newig := LinearTransformationsHelp(actig, dim, prf, argNo, c);
    if newig != null {
      PushFront(newig, root, front, end, W, n);
      root', front' := newig, [newig as InternGen] + front;
    }
  }

  /** The walk has transformed the first i records of s and put `front` before them. */
  ghost predicate Sweeping(ig: InternGen?, s: seq<InternGen>, root: InternGen?, front: seq<InternGen>,
                           V: seq<Gen>, f: Gen -> (Gen, seq<Gen>), n: nat, i: nat)
    requires i <= |s| == |V|
    reads s, front
  {
    && (forall k :: 0 <= k < |front| ==> front[k] !in s)
    && Segment(ig, s, null) && Segment(root, front, ig)
    && (forall k :: 0 <= k < |s| ==>
         s[k].Valid() && s[k].shape == n && s[k].Value() == if k < i then f(V[k]).0 else V[k])
    && Show(front, Split(V, i, f), n)
  }

  method SweepNext(actig: InternGen, root: InternGen, dim: nat, prf: Prf, argNo: nat, c: int, ghost f: Gen -> (Gen,
                   seq<Gen>),
                   ghost ig: InternGen?, ghost n: nat, ghost s: seq<InternGen>, ghost V: seq<Gen>,
                   ghost front: seq<InternGen>, ghost i: nat)
    returns (root': InternGen, ghost front': seq<InternGen>)
    requires dim < n && i < |s| == |V| && s[i] == actig && ProperGen(V[i], n)
    requires Sweeping(ig, s, root, front, V, f, n, i)
    requires argNo == 1 || argNo == 2
    requires prf == Div ==> argNo == 2
    requires prf == Mul || prf == Div ==> !V[i].hasGrid
    requires IsStep(f, n, dim, prf, argNo, c)
    modifies actig`axes
    ensures Sweeping(ig, s, root', front', V, f, n, i + 1)
    ensures front' == front || (front' != [] && front'[1..] == front && fresh(front'[0]))
  {
    hide IsStep, StepGen, Split, Show, ProperGen;
    SplitNext(V, i, f);
    assert Show(front, Split(V, i, f), n);
    root', front' := TransformOne(actig, root, dim, prf, argNo, c, f, n, front, ig, Split(V, i, f));
  }

  lemma SplitNext(V: seq<Gen>, i: nat, f: Gen -> (Gen, seq<Gen>))
    requires i < |V|
    ensures Split(V, i + 1, f) == f(V[i]).1 + Split(V, i, f)
  {
  }

  /** The loop both transformation functions run: one step on one axis of every generator of the
      chain.  Split-off generators go to the front of the chain while it is walked, and the walk does
      not come back to them. */
  method TransformAxis(ig: InternGen, dim: nat, prf: Prf, argNo: nat, c: int, ghost f: Gen -> (Gen, seq<Gen>),
                       ghost n: nat, ghost s: seq<InternGen>, ghost V: seq<Gen>)
    returns (root: InternGen, ghost s': seq<InternGen>)
    requires GenChain(ig, s, V, n) && dim < n
    requires argNo == 1 || argNo == 2
    requires prf == Div ==> argNo == 2
    requires prf == Mul || prf == Div ==> Gridless(V)
    requires IsStep(f, n, dim, prf, argNo, c) && KeepsProper(V, n, f)
    modifies s
    ensures GenChain(root, s', StepList(V, f), n) && fresh(Records(s') - Records(s))
  {
    var actig: InternGen? := ig;
    root := ig;
    ghost var front, i := [], 0;
    SweepStart(ig, s, V, f, n);
    while actig != null
      invariant 0 <= i <= |s| && actig == if i < |s| then s[i] else null
      invariant fresh(front) && Sweeping(ig, s, root, front, V, f, n, i)
      decreases |s| - i
    {
      assert ProperGen(V[i], n);
      root, front := SweepNext(actig, root, dim, prf, argNo, c, f, ig, n, s, V, front, i);
      actig := actig.next;
      i := i + 1;
    }
    SweepDone(ig, s, root, front, V, f, n);
    s' := front + s;
  }

  lemma SweepStart(ig: InternGen, s: seq<InternGen>, V: seq<Gen>, f: Gen -> (Gen, seq<Gen>), n: nat)
    requires GenChain(ig, s, V, n)
    ensures Sweeping(ig, s, ig, [], V, f, n, 0)
  {
  }

  lemma SweepDone(ig: InternGen, s: seq<InternGen>, root: InternGen, front: seq<InternGen>,
                  V: seq<Gen>, f: Gen -> (Gen, seq<Gen>), n: nat)
    requires |V| == |s| && KeepsProper(V, n, f)
    requires Sweeping(ig, s, root, front, V, f, n, |V|)
    ensures GenChain(root, front + s, StepList(V, f), n)
  {
    StepListProper(V, n, f);
    JoinChains(root, front, Split(V, |V|, f), ig, s, Kept(V, f), n);
  }
}
