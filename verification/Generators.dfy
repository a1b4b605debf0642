/**
 With-loop generators as values.

 A generator is an n-dimensional grid: on axis d it selects the x with l <= x < u and
 (x - l) % step < width.  It is tagged with the code block that computes the selected elements.
 A generator without step and width vectors (hasGrid false) has step == width == 1 on every axis.
 */
module Generators {

  /** A code block: one of the original ones, or one created by substituting `subst` into `target`.
      `serial` tells apart two blocks created for the same pair. */
  datatype Code =
    | Block(id: nat)
    | Combined(target: Code, subst: Code, serial: nat)

  datatype Axis = Axis(l: int, u: int, step: int, width: int)

  datatype Gen = Gen(axes: seq<Axis>, hasGrid: bool, code: Code)

  predicate In(a: Axis, x: int) {
    a.step > 0 && a.l <= x < a.u && (x - a.l) % a.step < a.width
  }

  /** What the source keeps true of every axis. */
  predicate Proper(a: Axis) {
    1 <= a.width <= a.step
  }

  /** Only an axis without a grid may be empty. */
  predicate Filled(a: Axis) {
    a.step > 1 ==> a.l < a.u
  }

  predicate Plain(a: Axis) {
    a.step == 1 && a.width == 1
  }

  predicate Member(axes: seq<Axis>, v: seq<int>) {
    |v| == |axes| && forall d :: 0 <= d < |axes| ==> In(axes[d], v[d])
  }

  predicate PlainAxes(axes: seq<Axis>) {
    forall d :: 0 <= d < |axes| ==> Plain(axes[d])
  }

  predicate ProperGen(g: Gen, n: nat) {
    && |g.axes| == n
    && (forall d :: 0 <= d < n ==> Proper(g.axes[d]))
    && (!g.hasGrid ==> PlainAxes(g.axes))
  }

  predicate ProperGens(gs: seq<Gen>, n: nat) {
    forall k :: 0 <= k < |gs| ==> ProperGen(gs[k], n)
  }

  predicate FilledGen(g: Gen) {
    forall d :: 0 <= d < |g.axes| ==> Filled(g.axes[d])
  }

  /** No axis with a grid is empty. */
  predicate FilledGens(V: seq<Gen>) {
    forall k :: 0 <= k < |V| ==> FilledGen(V[k])
  }

  /** No generator of the list has a grid. */
  predicate Gridless(V: seq<Gen>) {
    forall k :: 0 <= k < |V| ==> !V[k].hasGrid
  }

  /** The box that selects w alone. */
  function PointBox(w: seq<int>): (g: Gen)
    ensures |g.axes| == |w| && !g.hasGrid && ProperGen(g, |w|) && Member(g.axes, w)
  {
    Gen(seq(|w|, d requires 0 <= d < |w| => Axis(w[d], w[d] + 1, 1, 1)), false, Block(0))
  }

  function Hit(g: Gen, v: seq<int>): multiset<Code> {
    if Member(g.axes, v) then multiset{g.code} else multiset{}
  }

  function HitOf(v: seq<int>): Gen -> multiset<Code> {
    g => Hit(g, v)
  }

  /** The codes of all generators of the list that select v, with multiplicity: the list denotes
      a partial function when no v has more than one. */
  function Hits(gs: seq<Gen>, v: seq<int>): multiset<Code> {
    Total(gs, HitOf(v))
  }

  function Total<T, C>(s: seq<T>, f: T -> multiset<C>): multiset<C> {
    if s == [] then multiset{} else Total(s[..|s| - 1], f) + f(s[|s| - 1])
  }

  lemma {:induction false} TotalConcat<T, C>(a: seq<T>, b: seq<T>, f: T -> multiset<C>)
    ensures Total(a + b, f) == Total(a, f) + Total(b, f)
  {
    if b == [] {
      assert a + b == a;
    } else {
      var init, s := b[..|b| - 1], a + b;
      TotalConcat(a, init, f);
      assert s[..|s| - 1] == a + init && s[|s| - 1] == b[|b| - 1];
    }
  }

  lemma TotalOne<T, C>(x: T, f: T -> multiset<C>)
    ensures Total([x], f) == f(x)
  {
    assert [x][..0] == [];
  }

  lemma TotalSnoc<T, C>(s: seq<T>, k: nat, f: T -> multiset<C>)
    requires k < |s|
    ensures Total(s[..k + 1], f) == Total(s[..k], f) + f(s[k])
  {
    assert s[..k + 1][..k] == s[..k];
  }

  lemma {:induction false} TotalWitness<T, C>(s: seq<T>, f: T -> multiset<C>, c: C)
    ensures c in Total(s, f) <==> exists k :: 0 <= k < |s| && c in f(s[k])
  {
    if s != [] {
      var init := s[..|s| - 1];
      TotalWitness(init, f, c);
      assert forall k :: 0 <= k < |init| ==> init[k] == s[k];
      if k :| 0 <= k < |s| && c in f(s[k]) && k < |s| - 1 {
        assert c in f(init[k]);
      }
      if c in Total(init, f) {
        var k :| 0 <= k < |init| && c in f(init[k]);
        assert c in f(s[k]);
      }
    }
  }

  lemma HitsConcat(a: seq<Gen>, b: seq<Gen>, v: seq<int>)
    ensures Hits(a + b, v) == Hits(a, v) + Hits(b, v)
  {
    TotalConcat(a, b, HitOf(v));
  }

  lemma HitsOne(g: Gen, v: seq<int>)
    ensures Hits([g], v) == Hit(g, v)
  {
    TotalOne(g, HitOf(v));
  }

  lemma HitsSnoc(gs: seq<Gen>, k: nat, v: seq<int>)
    requires k < |gs|
    ensures Hits(gs[..k + 1], v) == Hits(gs[..k], v) + Hit(gs[k], v)
  {
    TotalSnoc(gs, k, HitOf(v));
  }

  /** A code is hit exactly when some generator of the list carries it and selects v. */
  lemma HitsWitness(gs: seq<Gen>, v: seq<int>, c: Code)
    ensures c in Hits(gs, v) <==> exists k :: 0 <= k < |gs| && gs[k].code == c && Member(gs[k].axes, v)
  {
    TotalWitness(gs, HitOf(v), c);
    assert forall k :: 0 <= k < |gs| ==> (c in HitOf(v)(gs[k]) <==> gs[k].code == c && Member(gs[k].axes, v));
  }

  // Arithmetic of a residue given together with its quotient.

  lemma DivModUnique(a: int, s: int, q: int, r: int)
    requires 0 <= r < s && a == q * s + r
    ensures a / s == q && a % s == r
  {
    var q', r' := a / s, a % s;
    assert a == q' * s + r';
    assert (q - q') * s == r' - r;
    if q - q' >= 1 {
      assert (q - q') * s >= s by { MulMonotone(1, q - q', s); }
    } else if q - q' <= -1 {
      assert (q - q') * s <= -s by { MulMonotone(q - q', -1, s); }
    }
  }

  lemma MulMonotone(a: int, b: int, s: int)
    requires a <= b && s >= 0
    ensures a * s <= b * s
  {
    assert (b - a) * s >= 0;
  }
}
