/**
 The intern_gen record and its basic operations.  The bounds are updated in place and the records
 are chained through `next`; a ghost sequence of records stands for a chain.

 The record's four arrays l, u, step and width are one sequence of axes here; a record whose step
 and width are NULL in the source has hasGrid false and ones in their place.
 */
module InternGens {
  import opened Generators

  function NormalizedAxis(a: Axis): Axis {
    if a.width == a.step then Axis(a.l, a.u, 1, 1) else a
  }

  function Normalized(g: Gen): (r: Gen) {
    Gen(seq(|g.axes|, d requires 0 <= d < |g.axes| => NormalizedAxis(g.axes[d])),
        exists d :: 0 <= d < |g.axes| && NormalizedAxis(g.axes[d]).step != 1,
        g.code)
  }

  /** Replacing full widths by ones, and dropping a grid of ones, denotes the same vectors. */
  lemma NormalizedSame(g: Gen, n: nat, v: seq<int>)
    requires ProperGen(g, n)
    ensures ProperGen(Normalized(g), n) && Hit(Normalized(g), v) == Hit(g, v)
  {
    var r := Normalized(g);
    forall d | 0 <= d < n ensures Proper(r.axes[d]) && (|v| == n ==> (In(r.axes[d], v[d]) <==> In(g.axes[d], v[d]))) {
      assert Proper(g.axes[d]);
    }
  }

  /** The result is normal: no axis with a step above one has a full width, and a generator has a grid exactly if an
      axis had a width below its step; what is not full stays as it was. */
  lemma NormalizedIsNormal(g: Gen)
    requires forall d :: 0 <= d < |g.axes| ==> 1 <= g.axes[d].width <= g.axes[d].step
    ensures var r := Normalized(g);
            && |r.axes| == |g.axes| && r.code == g.code && Normal(r)
            && (r.hasGrid <==> exists d :: 0 <= d < |g.axes| && g.axes[d].width < g.axes[d].step)
            && forall d :: 0 <= d < |g.axes| ==>
                 && r.axes[d].l == g.axes[d].l && r.axes[d].u == g.axes[d].u
                 && (g.axes[d].width < g.axes[d].step ==> r.axes[d] == g.axes[d])
  {
    var r := Normalized(g);
    assert forall d :: 0 <= d < |g.axes| ==> r.axes[d] == NormalizedAxis(g.axes[d]);
    if d :| 0 <= d < |g.axes| && g.axes[d].width < g.axes[d].step {
      assert NormalizedAxis(g.axes[d]).step != 1;
    }
  }

  /** Full widths are ones, and a grid of ones is none. */
  predicate Normal(g: Gen) {
    && (forall d :: 0 <= d < |g.axes| && g.axes[d].step > 1 ==> g.axes[d].width < g.axes[d].step)
    && (g.hasGrid ==> exists d :: 0 <= d < |g.axes| && g.axes[d].step > 1)
  }

  class InternGen {
    var shape: nat
    var axes: seq<Axis>
    var hasGrid: bool
    var code: Code
    var next: InternGen?

    predicate Valid()
      reads this
    {
      |axes| == shape && (!hasGrid ==> PlainAxes(axes))
    }

    function Value(): (g: Gen)
      reads this
    {
      Gen(axes, hasGrid, code)
    }

    /** WLFcreateInternGen; the bounds are still to be filled in. */
    constructor (shape: nat, stepwidth: bool)
      ensures Valid() && this.shape == shape && hasGrid == stepwidth && code == Block(0) && next == null
    {
      this.shape := shape;
      axes := seq(shape, _ => Axis(0, 0, 1, 1));
      hasGrid := stepwidth;
      code := Block(0);
      next := null;
    }

    /** WLFcopyInternGen: `next` is not copied. */
    method Copy() returns (ig: InternGen)
      requires Valid()
      ensures fresh(ig) && ig.Valid() && ig.next == null
      ensures ig.Value() == Value() && ig.shape == shape && ig.hasGrid == hasGrid
    {
      ig := new InternGen(shape, hasGrid);
      ig.code := code;
      for i := 0 to shape
        invariant ig.Valid() && ig.shape == shape && ig.hasGrid == hasGrid && ig.next == null && ig.code == code
        invariant ig.axes[..i] == axes[..i]
      {
        ig.axes := ig.axes[i := axes[i]];
      }
      assert ig.axes == axes;
    }

    /** WLFnormalizeInternGen: 1 for a width above its step, 2 for a width below one; otherwise a full
        width becomes step and width one, and a grid of ones is dropped. */
    method Normalize() returns (error: nat)
      requires Valid()
      modifies this`axes, this`hasGrid
      ensures Valid()
      ensures error == 0 <==> forall d :: 0 <= d < shape ==> 1 <= old(axes)[d].width <= old(axes)[d].step
      ensures error == 0 ==> Value() == Normalized(old(Value())) && Normal(Value())
      ensures error == 0 ==> (hasGrid <==> exists d :: 0 <= d < shape && old(axes)[d].width < old(axes)[d].step)
      ensures error != 0 ==> exists d :: 0 <= d < shape && FirstBad(old(axes), d) && error == ErrorAt(old(axes)[d])
    {
      error := 0;
      var is1 := true;
      if hasGrid {
        var i := 0;
        while i < shape && error == 0
          invariant 0 <= i <= shape == |axes| && hasGrid
          invariant error == 0 ==> forall d :: 0 <= d < i ==> 1 <= old(axes)[d].width <= old(axes)[d].step
          invariant error != 0 ==> 0 < i && FirstBad(old(axes), i - 1) && error == ErrorAt(old(axes)[i - 1])
          invariant error == 0 ==> forall d :: 0 <= d < i ==>
            if old(axes)[d].width == old(axes)[d].step then axes[d] == Axis(old(axes)[d].l, old(axes)[d].u, 1, 1)
            else axes[d] == old(axes)[d]
          invariant forall d :: i <= d < shape ==> axes[d] == old(axes)[d]
          invariant is1 <==> forall d :: 0 <= d < i ==> axes[d].step == 1
        {
          if axes[i].width > axes[i].step {
            error := 1;
          } else if 1 > axes[i].width {
            error := 2;
          } else if axes[i].width == axes[i].step && axes[i].step != 1 {
            axes := axes[i := axes[i].(step := 1, width := 1)];
          }
          is1 := is1 && 1 == axes[i].step;
          i := i + 1;
        }
        if error == 0 && is1 {
          hasGrid := false;
        }
      }
      if error == 0 {
        NormalizedIsNormal(old(Value()));
      }
    }
  }

  /** Dimension d is the first one whose width is not between one and the step. */
  ghost predicate FirstBad(axes: seq<Axis>, d: nat)
    requires d < |axes|
  {
    && !(1 <= axes[d].width <= axes[d].step)
    && forall k :: 0 <= k < d ==> 1 <= axes[k].width <= axes[k].step
  }

  function ErrorAt(a: Axis): nat {
    if a.width > a.step then 1 else 2
  }

  ghost function Records(s: seq<InternGen>): set<InternGen> {
    set ig | ig in s
  }

  /** The records of s, in order, linked through `next`; the last one points to `end`. */
  ghost predicate Segment(head: InternGen?, s: seq<InternGen>, end: InternGen?)
    reads s
  {
    && head == (if s == [] then end else s[0])
    && (forall i {:trigger s[i].next} :: 0 <= i < |s| ==> s[i].next == if i < |s| - 1 then s[i + 1] else end)
    && (forall i, j :: 0 <= i < j < |s| ==> s[i] != s[j])
  }

  /** The records of s have dimension n and the values V. */
  ghost predicate Show(s: seq<InternGen>, V: seq<Gen>, n: nat)
    reads s
  {
    && |V| == |s|
    && (forall i :: 0 <= i < |s| ==> s[i].Valid() && s[i].shape == n && s[i].Value() == V[i])
  }

  /** A well-formed chain of records of dimension n whose values are V, all proper generators. */
  ghost predicate GenChain(head: InternGen?, s: seq<InternGen>, V: seq<Gen>, n: nat)
    reads s
  {
    Segment(head, s, null) && Show(s, V, n) && ProperGens(V, n)
  }

  ghost function Link(s: seq<InternGen>, k: nat): InternGen?
    requires k <= |s|
  {
    if k < |s| then s[k] else null
  }

  /** What a chain says about its k-th record. */
  lemma ChainAt(head: InternGen?, s: seq<InternGen>, V: seq<Gen>, n: nat, k: nat)
    requires GenChain(head, s, V, n) && k <= |s|
    ensures |V| == |s| && head == Link(s, 0)
    ensures k < |s| ==>
      s[k].Valid() && s[k].shape == n && s[k].Value() == V[k] && ProperGen(V[k], n) && s[k].next == Link(s, k + 1)
  {
  }

  lemma ChainParts(head: InternGen?, s: seq<InternGen>, V: seq<Gen>, n: nat)
    requires GenChain(head, s, V, n)
    ensures Segment(head, s, null) && Show(s, V, n) && ProperGens(V, n)
  {
  }

  lemma ChainMade(head: InternGen?, s: seq<InternGen>, V: seq<Gen>, n: nat)
    requires Segment(head, s, null) && Show(s, V, n) && ProperGens(V, n)
    ensures GenChain(head, s, V, n)
  {
  }

  /** A segment in front of another one makes a longer segment. */
  lemma JoinSegments(head: InternGen?, f: seq<InternGen>, mid: InternGen?, s: seq<InternGen>, end: InternGen?)
    requires Segment(head, f, mid) && Segment(mid, s, end)
    requires forall i :: 0 <= i < |f| ==> f[i] !in s
    ensures Segment(head, f + s, end)
  {
    var t := f + s;
    forall i | 0 <= i < |t| ensures t[i].next == if i < |t| - 1 then t[i + 1] else end {
      if i >= |f| {
        assert t[i] == s[i - |f|] && (i < |t| - 1 ==> t[i + 1] == s[i + 1 - |f|]);
        assert s[i - |f|].next == if i < |t| - 1 then t[i + 1] else end;
      } else {
        assert t[i] == f[i] && (i < |f| - 1 ==> t[i + 1] == f[i + 1]);
        assert i == |f| - 1 && i < |t| - 1 ==> t[i + 1] == s[0];
      }
    }
  }

  lemma JoinChains(head: InternGen?, f: seq<InternGen>, W: seq<Gen>, mid: InternGen?, s: seq<InternGen>, V: seq<Gen>,
                   n: nat)
    requires Segment(head, f, mid) && Show(f, W, n) && ProperGens(W, n)
    requires GenChain(mid, s, V, n)
    requires forall i :: 0 <= i < |f| ==> f[i] !in s
    ensures GenChain(head, f + s, W + V, n)
  {
    JoinSegments(head, f, mid, s, null);
    var U := W + V;
    forall i | 0 <= i < |U| ensures ProperGen(U[i], n) {
      if i >= |W| { assert U[i] == V[i - |W|]; }
    }
  }

  /** Relinking: a new record is put in front of a segment. */
  method PushFront(ig: InternGen, root: InternGen?, ghost f: seq<InternGen>, ghost end: InternGen?,
                   ghost W: seq<Gen>, ghost n: nat)
    requires Segment(root, f, end) && Show(f, W, n) && ig.Valid() && ig.shape == n
    requires ig !in f
    modifies ig`next
    ensures ig.Valid() && Segment(ig, [ig] + f, end) && Show([ig] + f, [ig.Value()] + W, n)
  {
    ig.next := root;
    ghost var t := [ig] + f;
    assert forall i :: 0 < i < |t| ==> t[i] == f[i - 1];
    forall i | 0 <= i < |t| ensures t[i].next == if i < |t| - 1 then t[i + 1] else end {
      if i > 0 {
        assert f[i - 1].next == if i - 1 < |f| - 1 then f[i] else end;
      }
    }
  }
}
