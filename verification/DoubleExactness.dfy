/**
 When merging the components based on one index scalar is exact, and when it is not (RemoveDoubleIndexVectors).
 */
module DoubleExactness {
  import opened Wrappers
  import opened Generators
  import opened AxisTransform
  import opened IndexInfos
  import opened GridRegions
  import opened FinalTransformation
  import opened DoubleIndexVectors

  // ---- components ----

  /** What component i is: an index scalar, or a constant. */
  function Comp(st: Doubles, i: nat): (nat, int)
    requires i < |st.permutation| == |st.constArg|
  {
    (st.permutation[i], if st.permutation[i] == 0 then st.constArg[i] else 0)
  }

  function ValueOf(c: (nat, int), iv: seq<int>): int
    requires c.0 <= |iv|
  {
    if c.0 == 0 then c.1 else iv[c.0 - 1]
  }

  /** The vector the components make of iv. */
  function Gathered(st: Doubles, iv: seq<int>): (w: seq<int>)
    requires Regular(st, |iv|)
  {
    seq(st.vector, d requires 0 <= d < st.vector => ValueOf(Comp(st, d), iv))
  }

  predicate Repeats(st: Doubles, d: nat)
    requires d < |st.permutation|
  {
    st.permutation[d] > 0 && exists j :: 0 <= j < d && st.permutation[j] == st.permutation[d]
  }

  /** Behind a repeated component all components are the same. */
  predicate TailSame(st: Doubles, act: nat)
    requires st.vector <= |st.permutation| == |st.constArg|
  {
    forall d, i {:trigger Repeats(st, d), Comp(st, i)} ::
      act <= d < i < st.vector && Repeats(st, d) ==> Comp(st, i) == Comp(st, st.vector - 1)
  }

  predicate Doubled(st: Doubles, d: nat)
    requires d < st.vector <= |st.permutation|
  {
    st.permutation[d] > 0 && exists e :: 0 <= e < st.vector && e != d && st.permutation[e] == st.permutation[d]
  }

  /** Everything between the bounds is selected. */
  predicate Dense(a: Axis) {
    1 <= a.width == a.step
  }

  /** The axes to be merged are dense. */
  predicate DoubledDense(st: Doubles, n: nat)
    requires Regular(st, n)
  {
    forall k, d {:trigger st.gens[k].axes[d]} ::
      0 <= k < |st.gens| && 0 <= d < st.vector && Doubled(st, d) ==> Dense(st.gens[k].axes[d])
  }

  // ---- one merge ----

  lemma {:induction false} ShiftTimesAt<T>(x: seq<T>, at: nat, to: nat, k: nat, i: nat)
    requires at <= to < |x| && i < |x|
    ensures ShiftTimes(x, at, to, k)[i] == x[if i < at || i > to then i else Min(i + k, to)]
  {
    if k > 0 {
      ShiftAt(ShiftTimes(x, at, to, k - 1), at, to, i);
      hide Shift;
      ShiftTimesAt(x, at, to, k - 1, if at <= i < to then i + 1 else i);
    }
  }

  lemma ShiftAt<T>(x: seq<T>, at: nat, to: nat, i: nat)
    requires at <= to < |x| && i < |x|
    ensures Shift(x, at, to)[i] == x[if at <= i < to then i + 1 else i]
  {
  }

  lemma MergeFacts(st: Doubles, n: nat, fdim: nat, at: nat)
    requires Regular(st, n) && fdim < at < st.vector
    ensures var m := Merge(st, n, fdim, at);
            && Regular(m, n) && m.vector == st.vector - 1 && |m.gens| == |st.gens|
            && forall j :: 0 <= j < |st.gens| ==>
                 at < |st.gens[j].axes| == st.vector && m.gens[j] == MergedGen(st.gens[j], fdim, at)
  {
  }

  /** After a merge component i is the one k places behind it, k being the number of generators. */
  lemma MergedComp(st: Doubles, n: nat, fdim: nat, at: nat, i: nat)
    requires Regular(st, n) && fdim < at < st.vector && i < st.vector - 1
    ensures Comp(Merge(st, n, fdim, at), i) == Comp(st, if i < at then i else Min(i + |st.gens|, st.vector - 1))
  {
    hide ShiftTimes, Shift, MergedGens;
    var to, k := st.vector - 1, |st.gens|;
    ShiftTimesAt(st.permutation, at, to, k, i);
    ShiftTimesAt(st.constArg, at, to, k, i);
  }

  /** The axes of a merged generator. */
  lemma MergedAt(g: Gen, fdim: nat, at: nat, i: nat)
    requires fdim < at < |g.axes| && i < |g.axes| - 1
    ensures MergedGen(g, fdim, at).axes[i] ==
      if i == fdim then MergedAxis(g.axes[fdim], g.axes[at]) else g.axes[if i < at then i else i + 1]
  {
  }

  /** One generator, or the same component all over behind the repeated one: nothing is shifted too far. */
  predicate Harmless(st: Doubles, at: nat)
    requires st.vector <= |st.permutation| == |st.constArg|
  {
    |st.gens| == 1 || forall i :: at < i < st.vector ==> Comp(st, i) == Comp(st, st.vector - 1)
  }

  lemma HarmlessComps(st: Doubles, n: nat, fdim: nat, at: nat)
    requires Regular(st, n) && fdim < at < st.vector && Harmless(st, at) && st.gens != []
    ensures var r := Merge(st, n, fdim, at);
            forall i :: 0 <= i < r.vector ==> Comp(r, i) == Comp(st, if i < at then i else i + 1)
  {
    var r := Merge(st, n, fdim, at);
    forall i | 0 <= i < r.vector ensures Comp(r, i) == Comp(st, if i < at then i else i + 1) {
      MergedComp(st, n, fdim, at, i);
    }
  }

  lemma DenseIn(a: Axis, x: int)
    requires Dense(a)
    ensures In(a, x) <==> a.l <= x < a.u
  {
  }

  lemma MergedMember(g: Gen, w: seq<int>, fdim: nat, at: nat)
    requires fdim < at < |g.axes| == |w| && w[fdim] == w[at] && Dense(g.axes[fdim]) && Dense(g.axes[at])
    ensures Member(MergedGen(g, fdim, at).axes, w[..at] + w[at + 1..]) <==> Member(g.axes, w)
  {
    var a, w' := MergedGen(g, fdim, at).axes, w[..at] + w[at + 1..];
    DenseIn(g.axes[fdim], w[fdim]);
    DenseIn(g.axes[at], w[at]);
    DenseIn(MergedAxis(g.axes[fdim], g.axes[at]), w[fdim]);
    hide In;
    if Member(a, w') {
      forall d | 0 <= d < |w| ensures In(g.axes[d], w[d]) {
        MergedAt(g, fdim, at, fdim);
        assert In(a[fdim], w'[fdim]);
        if d != fdim && d != at {
          MergedAt(g, fdim, at, if d < at then d else d - 1);
          assert In(a[if d < at then d else d - 1], w'[if d < at then d else d - 1]);
        }
      }
    }
    if Member(g.axes, w) {
      forall i | 0 <= i < |a| ensures In(a[i], w'[i]) {
        MergedAt(g, fdim, at, i);
        assert In(g.axes[at], w[at]) && In(g.axes[fdim], w[fdim]);
        assert In(g.axes[if i < at then i else i + 1], w'[i]);
      }
    }
  }

  predicate Uses(st: Doubles, n: nat, p: nat)
    requires Regular(st, n)
  {
    exists d :: 0 <= d < st.vector && st.permutation[d] == p
  }

  /** The constants of generator k lie in its axes. */
  predicate ConstsFit(st: Doubles, n: nat, k: nat)
    requires Regular(st, n) && k < |st.gens|
  {
    forall d :: 0 <= d < st.vector && st.permutation[d] == 0 ==> In(st.gens[k].axes[d], st.constArg[d])
  }

  /** Both use the same scalars, and generator for generator r selects what r makes of iv exactly when st selects what
      st makes of iv. */
  ghost predicate Equivalent(r: Doubles, st: Doubles, iv: seq<int>)
    requires Regular(r, |iv|) && Regular(st, |iv|)
  {
    && |r.gens| == |st.gens|
    && (forall k :: 0 <= k < |r.gens| ==> SameGen(r, st, iv, k))
    && (forall p :: Uses(r, |iv|, p) <==> Uses(st, |iv|, p))
  }

  ghost predicate SameGen(r: Doubles, st: Doubles, iv: seq<int>, k: nat)
    requires Regular(r, |iv|) && Regular(st, |iv|) && k < |r.gens| == |st.gens|
  {
    && r.gens[k].code == st.gens[k].code && r.gens[k].hasGrid == st.gens[k].hasGrid
    && (Member(r.gens[k].axes, Gathered(r, iv)) <==> Member(st.gens[k].axes, Gathered(st, iv)))
    && (ConstsFit(r, |iv|, k) <==> ConstsFit(st, |iv|, k))
  }

  lemma EquivalentTrans(r: Doubles, m: Doubles, st: Doubles, iv: seq<int>)
    requires Regular(r, |iv|) && Regular(m, |iv|) && Regular(st, |iv|)
    requires Equivalent(r, m, iv) && Equivalent(m, st, iv)
    ensures Equivalent(r, st, iv)
  {
    forall k | 0 <= k < |r.gens| ensures SameGen(r, st, iv, k) {
      assert SameGen(r, m, iv, k) && SameGen(m, st, iv, k);
    }
  }

  lemma MergeEquivalent(st: Doubles, iv: seq<int>, fdim: nat, at: nat)
    requires Regular(st, |iv|) && fdim < at < st.vector && st.permutation[fdim] == st.permutation[at] > 0
    requires Harmless(st, at) && st.gens != [] && DoubledDense(st, |iv|)
    ensures Equivalent(Merge(st, |iv|, fdim, at), st, iv)
  {
    var r := Merge(st, |iv|, fdim, at);
    HarmlessComps(st, |iv|, fdim, at);
    assert Doubled(st, fdim) && Doubled(st, at);
    MergeUses(st, r, |iv|, fdim, at);
    hide Merge, Regular;
    forall k | 0 <= k < |r.gens| ensures SameGen(r, st, iv, k) {
      MergeGen(st, iv, fdim, at, k);
    }
  }

  lemma MergeGen(st: Doubles, iv: seq<int>, fdim: nat, at: nat, k: nat)
    requires Regular(st, |iv|) && fdim < at < st.vector && st.permutation[fdim] == st.permutation[at] > 0
    requires Harmless(st, at) && k < |st.gens| && Dense(st.gens[k].axes[fdim]) && Dense(st.gens[k].axes[at])
    ensures SameGen(Merge(st, |iv|, fdim, at), st, iv, k)
  {
    var r, g := Merge(st, |iv|, fdim, at), st.gens[k];
    HarmlessComps(st, |iv|, fdim, at);
    assert r.gens[k] == MergedGen(g, fdim, at);
    var w, w' := Gathered(st, iv), Gathered(r, iv);
    hide Merge, MergedGen, Regular;
    assert w' == w[..at] + w[at + 1..];
    assert Comp(st, fdim) == Comp(st, at);
    MergedMember(g, w, fdim, at);
    MergeConsts(st, iv, fdim, at, k);
  }

  lemma MergeConsts(st: Doubles, iv: seq<int>, fdim: nat, at: nat, k: nat)
    requires Regular(st, |iv|) && fdim < at < st.vector && st.permutation[fdim] == st.permutation[at] > 0
    requires Harmless(st, at) && k < |st.gens|
    ensures ConstsFit(Merge(st, |iv|, fdim, at), |iv|, k) <==> ConstsFit(st, |iv|, k)
  {
    var r, g := Merge(st, |iv|, fdim, at), st.gens[k];
    HarmlessComps(st, |iv|, fdim, at);
    assert r.gens[k] == MergedGen(g, fdim, at);
    hide Merge, MergedGen, In;
    forall i | 0 <= i < r.vector
      ensures i != fdim ==> r.gens[k].axes[i] == g.axes[if i < at then i else i + 1]
      ensures Comp(r, i) == Comp(st, if i < at then i else i + 1)
    {
      MergedAt(g, fdim, at, i);
    }
    if ConstsFit(r, |iv|, k) {
      forall d | 0 <= d < st.vector && st.permutation[d] == 0 ensures In(g.axes[d], st.constArg[d]) {
        var i := if d < at then d else d - 1;
        assert Comp(r, i) == Comp(st, d);
      }
    }
    if ConstsFit(st, |iv|, k) {
      forall i | 0 <= i < r.vector && r.permutation[i] == 0 ensures In(r.gens[k].axes[i], r.constArg[i]) {
        var d := if i < at then i else i + 1;
        assert Comp(r, i) == Comp(st, d);
      }
    }
  }

  lemma MergeUses(st: Doubles, m: Doubles, n: nat, fdim: nat, at: nat)
    requires Regular(st, n) && Regular(m, n) && fdim < at < st.vector && m.vector == st.vector - 1
    requires st.permutation[fdim] == st.permutation[at]
    requires forall i :: 0 <= i < m.vector ==> Comp(m, i) == Comp(st, if i < at then i else i + 1)
    ensures forall p :: Uses(m, n, p) <==> Uses(st, n, p)
  {
    forall p ensures Uses(m, n, p) <==> Uses(st, n, p) {
      if Uses(st, n, p) {
        var d :| 0 <= d < st.vector && st.permutation[d] == p;
        var i := if d == at then fdim else if d < at then d else d - 1;
        assert Comp(m, i) == Comp(st, if i < at then i else i + 1);
        assert m.permutation[i] == p;
      }
      if Uses(m, n, p) {
        var i :| 0 <= i < m.vector && m.permutation[i] == p;
        assert Comp(m, i) == Comp(st, if i < at then i else i + 1);
        assert st.permutation[if i < at then i else i + 1] == p;
      }
    }
  }

  // ---- what a harmless merge keeps ----

  /** Everything RemoveDoubleIndexVectors needs from component act on to be exact. */
  predicate Mergeable(st: Doubles, n: nat, act: nat, found: seq<nat>)
    requires Regular(st, n)
  {
    && Firsts(st, n, act, found) && st.gens != []
    && (|st.gens| == 1 || TailSame(st, act)) && DoubledDense(st, n)
  }

  lemma MergeKeepsMergeable(st: Doubles, n: nat, act: nat, found: seq<nat>, fdim: nat)
    requires Regular(st, n) && Mergeable(st, n, act, found) && act < st.vector
    requires st.permutation[act] > 0 && found[st.permutation[act] - 1] == fdim + 1
    ensures fdim < act && st.permutation[fdim] == st.permutation[act] && Harmless(st, act)
    ensures Mergeable(Merge(st, n, fdim, act), n, act, found)
  {
    assert Repeats(st, act);
    assert Harmless(st, act);
    var m := Merge(st, n, fdim, act);
    HarmlessComps(st, n, fdim, act);
    forall i | 0 <= i < act ensures m.permutation[i] == st.permutation[i] {
      assert Comp(m, i) == Comp(st, i);
    }
    FirstsSame(st, m, n, act, found);
    if |st.gens| > 1 {
      MergeTail(st, m, act);
    }
    MergeDense(st, n, fdim, act);
  }

  lemma MergeTail(st: Doubles, m: Doubles, at: nat)
    requires st.vector <= |st.permutation| == |st.constArg| && m.vector <= |m.permutation| == |m.constArg|
    requires at < st.vector == m.vector + 1 && TailSame(st, at) && Repeats(st, at)
    requires forall i :: 0 <= i < m.vector ==> Comp(m, i) == Comp(st, if i < at then i else i + 1)
    ensures TailSame(m, at)
  {
    forall d, i | at <= d < i < m.vector && Repeats(m, d) ensures Comp(m, i) == Comp(m, m.vector - 1) {
      assert Comp(st, i + 1) == Comp(st, st.vector - 1);
    }
  }

  lemma MergeDense(st: Doubles, n: nat, fdim: nat, at: nat)
    requires Regular(st, n) && fdim < at < st.vector && st.permutation[fdim] == st.permutation[at] > 0
    requires Harmless(st, at) && st.gens != [] && DoubledDense(st, n)
    ensures DoubledDense(Merge(st, n, fdim, at), n)
  {
    var r := Merge(st, n, fdim, at);
    HarmlessComps(st, n, fdim, at);
    forall k, i | 0 <= k < |r.gens| && 0 <= i < r.vector && Doubled(r, i) ensures Dense(r.gens[k].axes[i]) {
      var g := st.gens[k];
      assert r.gens[k] == MergedGen(g, fdim, at);
      MergedAt(g, fdim, at, i);
      DoubledBefore(st, r, fdim, at, i);
      assert Doubled(st, fdim) && Dense(g.axes[fdim]);
      assert Dense(g.axes[if i < at then i else i + 1]);
    }
  }

  lemma DoubledBefore(st: Doubles, m: Doubles, fdim: nat, at: nat, i: nat)
    requires st.vector <= |st.permutation| == |st.constArg| && m.vector <= |m.permutation| == |m.constArg|
    requires fdim < at < st.vector == m.vector + 1 && st.permutation[fdim] == st.permutation[at] > 0
    requires forall i :: 0 <= i < m.vector ==> Comp(m, i) == Comp(st, if i < at then i else i + 1)
    requires i < m.vector && Doubled(m, i)
    ensures Doubled(st, if i < at then i else i + 1) && Doubled(st, fdim)
  {
    var e :| 0 <= e < m.vector && e != i && m.permutation[e] == m.permutation[i];
    var i', e' := if i < at then i else i + 1, if e < at then e else e + 1;
    assert Comp(m, i) == Comp(st, i') && Comp(m, e) == Comp(st, e');
    assert st.permutation[e'] == st.permutation[i'] && e' != i';
    assert st.permutation[at] == st.permutation[fdim];
  }

  lemma KeepMergeable(st: Doubles, n: nat, act: nat, found: seq<nat>)
    requires Regular(st, n) && Mergeable(st, n, act, found) && act < st.vector
    requires st.permutation[act] > 0 ==> found[st.permutation[act] - 1] == 0
    ensures Mergeable(st, n, act + 1,
              if st.permutation[act] == 0 then found else found[st.permutation[act] - 1 := act + 1])
  {
    FirstsNext(st, n, act, found);
  }

  lemma Below(st: Doubles, n: nat, act: nat, found: seq<nat>)
    requires Regular(st, n) && Firsts(st, n, act, found)
    ensures FoundBelow(found, act) && |found| == n
    ensures act < st.vector ==> act < |st.permutation| && st.permutation[act] <= n
  {
  }

  lemma AllFirst(st: Doubles, n: nat, act: nat, found: seq<nat>)
    requires Regular(st, n) && Firsts(st, n, act, found) && act >= st.vector
    ensures DistinctFirst(st.permutation, st.vector)
  {
    forall i, j | 0 <= i < j < st.vector && st.permutation[i] > 0 ensures st.permutation[i] != st.permutation[j] {
      assert found[st.permutation[i] - 1] == i + 1;
    }
  }

  // ---- the whole removal ----

  lemma {:induction false} RemoveFromExact(st: Doubles, iv: seq<int>, act: nat, found: seq<nat>)
    requires Regular(st, |iv|) && Mergeable(st, |iv|, act, found)
    ensures FoundBelow(found, act) && |found| == |iv|
    ensures var r := RemoveFrom(st, |iv|, act, found); Equivalent(r, st, iv) && DistinctFirst(r.permutation, r.vector)
    decreases st.vector - act
  {
    hide Merge, Firsts, Equivalent, DistinctFirst, TailSame, DoubledDense, Harmless;
    Below(st, |iv|, act, found);
    if act >= st.vector {
      AllFirst(st, |iv|, act, found);
      SameAsItself(st, iv);
    } else if st.permutation[act] > 0 && found[st.permutation[act] - 1] != 0 {
      var fdim := found[st.permutation[act] - 1] - 1;
      MergeKeepsMergeable(st, |iv|, act, found, fdim);
      MergeEquivalent(st, iv, fdim, act);
      var m := Merge(st, |iv|, fdim, act);
      RemoveFromMerges(st, |iv|, act, found);
      RemoveFromExact(m, iv, act, found);
      hide RemoveFrom, Mergeable, Regular;
      EquivalentTrans(RemoveFrom(m, |iv|, act, found), m, st, iv);
    } else {
      KeepMergeable(st, |iv|, act, found);
      RemoveFromExact(st, iv, act + 1,
        if st.permutation[act] == 0 then found else found[st.permutation[act] - 1 := act + 1]);
    }
  }

  lemma SameAsItself(st: Doubles, iv: seq<int>)
    requires Regular(st, |iv|)
    ensures Equivalent(st, st, iv)
  {
  }

  /** Component for component: which index scalars are used at all. */
  lemma {:induction false} SourceUses(info: IndexInfo, i: nat, k: nat)
    requires k <= |info.permutation|
    ensures Source(info, i, k) == 0 <==> forall d :: 0 <= d < k ==> info.permutation[d] != i + 1
  {
    if k > 0 {
      SourceUses(info, i, k - 1);
    }
  }

  lemma SameUnconstrained(st: Doubles, r: Doubles, a: IndexInfo, b: IndexInfo, iv: seq<int>)
    requires Regular(st, |iv|) && Regular(r, |iv|) && forall p :: Uses(r, |iv|, p) <==> Uses(st, |iv|, p)
    requires a.vector == st.vector && a.permutation == st.permutation[..st.vector]
    requires b.vector == r.vector && b.permutation == r.permutation[..r.vector]
    ensures Unconstrained(a, iv) <==> Unconstrained(b, iv)
  {
    forall i | 0 <= i < |iv| ensures Source(a, i, a.vector) == 0 <==> Source(b, i, b.vector) == 0 {
      SourceUses(a, i, a.vector);
      SourceUses(b, i, b.vector);
      assert Uses(r, |iv|, i + 1) <==> Uses(st, |iv|, i + 1);
    }
  }

  lemma {:induction false} HitsPointwise(V: seq<Gen>, W: seq<Gen>, v: seq<int>, w: seq<int>)
    requires |V| == |W| && forall k :: 0 <= k < |V| ==> Hit(V[k], v) == Hit(W[k], w)
    ensures Hits(V, v) == Hits(W, w)
  {
    if V != [] {
      HitsPointwise(V[..|V| - 1], W[..|W| - 1], v, w);
    }
  }

  predicate Removable(V: seq<Gen>, info: IndexInfo, n: nat) {
    && Addresses(info, n) && |info.last| == info.vector && forall k :: 0 <= k < |V| ==> |V[k].axes| == info.vector
  }

  /** For one generator, and for a history that has the same component all over behind the first repeated one, and
      axes that are dense where they are merged: afterwards no scalar is used twice, the same scalars are used, the same
      constants fit, and the list selects the same vectors under the same codes. */
  lemma RemoveDoublesExact(V: seq<Gen>, info: IndexInfo, iv: seq<int>)
    requires Removable(V, info, |iv|) && V != []
    requires (|V| == 1 || TailSame(Load(V, info), 0)) && DoubledDense(Load(V, info), |iv|)
    ensures var (W, r) := RemoveDoubles(V, info, |iv|);
            && |W| == |V| && DistinctScalars(r) && (Unconstrained(r, iv) <==> Unconstrained(info, iv))
            && (forall k :: 0 <= k < |V| ==>
                  && |W[k].axes| == r.vector && W[k].hasGrid == V[k].hasGrid
                  && (ConstantsFit(W[k], r) <==> ConstantsFit(V[k], info)))
            && Hits(W, Gather(r, iv)) == Hits(V, Gather(info, iv))
  {
    var st, found := Load(V, info), seq(|iv|, _ => 0);
    RemoveFromExact(st, iv, 0, found);
    var r := RemoveDoublesFrom(st, |iv|);
    var info' := Store(r, |iv|, info);
    SameUnconstrained(st, r, info, info', iv);
    GatheredIs(st, info, iv);
    GatheredIs(r, info', iv);
    forall k | 0 <= k < |V|
      ensures Hit(r.gens[k], Gather(info', iv)) == Hit(V[k], Gather(info, iv))
      ensures |r.gens[k].axes| == info'.vector && r.gens[k].hasGrid == V[k].hasGrid
      ensures ConstantsFit(r.gens[k], info') <==> ConstantsFit(V[k], info)
    {
      assert SameGen(r, st, iv, k);
      FitIs(st, info, |iv|, k);
      FitIs(r, info', |iv|, k);
    }
    HitsPointwise(r.gens, V, Gather(info', iv), Gather(info, iv));
    assert DistinctFirst(info'.permutation, info'.vector);
  }

  lemma GatheredIs(st: Doubles, info: IndexInfo, iv: seq<int>)
    requires Regular(st, |iv|) && info.vector == st.vector
    requires info.permutation == st.permutation[..st.vector] && info.constArg == st.constArg[..st.vector]
    ensures Addresses(info, |iv|) && Gather(info, iv) == Gathered(st, iv)
  {
  }

  lemma FitIs(st: Doubles, info: IndexInfo, n: nat, k: nat)
    requires Regular(st, n) && info.vector == st.vector && k < |st.gens|
    requires info.permutation == st.permutation[..st.vector] && info.constArg == st.constArg[..st.vector]
    ensures ConstantsFit(st.gens[k], info) <==> ConstsFit(st, n, k)
  {
    hide In;
  }

  // ---- where shifts go too far ----

  ghost predicate NoneSelects(r: Doubles, iv: seq<int>)
    requires Regular(r, |iv|)
  {
    forall k :: 0 <= k < |r.gens| ==> !Member(r.gens[k].axes, Gathered(r, iv))
  }

  /** No generator has the value of component b between its bounds. */
  ghost predicate Excluded(st: Doubles, iv: seq<int>, b: nat)
    requires Regular(st, |iv|) && b < st.vector
  {
    forall k :: 0 <= k < |st.gens| ==>
      var a := st.gens[k].axes[b]; !(a.l <= ValueOf(Comp(st, b), iv) < a.u)
  }

  lemma ExcludedMerge(st: Doubles, iv: seq<int>, fdim: nat, at: nat, b: nat)
    requires Regular(st, |iv|) && fdim < at < st.vector && b < at && Excluded(st, iv, b)
    ensures Excluded(Merge(st, |iv|, fdim, at), iv, b)
  {
    MergedComp(st, |iv|, fdim, at, b);
    forall k | 0 <= k < |st.gens|
      ensures MergedGen(st.gens[k], fdim, at).axes[b] ==
        if b == fdim then MergedAxis(st.gens[k].axes[fdim], st.gens[k].axes[at]) else st.gens[k].axes[b]
    {
      MergedAt(st.gens[k], fdim, at, b);
    }
    hide MergedGen;
  }

  /** What is excluded on an axis that has been passed stays excluded. */
  lemma {:induction false} ExcludedStays(st: Doubles, iv: seq<int>, act: nat, found: seq<nat>, b: nat)
    requires Regular(st, |iv|) && |found| == |iv| && FoundBelow(found, act) && b < act && b < st.vector
    requires Excluded(st, iv, b)
    ensures NoneSelects(RemoveFrom(st, |iv|, act, found), iv)
    decreases st.vector - act
  {
    if act >= st.vector {
      RemoveFromDone(st, |iv|, act, found);
      hide RemoveFrom;
      forall k | 0 <= k < |st.gens| ensures !Member(st.gens[k].axes, Gathered(st, iv)) {
        assert !In(st.gens[k].axes[b], Gathered(st, iv)[b]);
      }
    } else if st.permutation[act] > 0 && found[st.permutation[act] - 1] != 0 {
      var fdim := found[st.permutation[act] - 1] - 1;
      ExcludedMerge(st, iv, fdim, act, b);
      RemoveFromMerges(st, |iv|, act, found);
      hide RemoveFrom, Excluded, Merge;
      ExcludedStays(Merge(st, |iv|, fdim, act), iv, act, found, b);
    } else {
      RemoveFromKeeps(st, |iv|, act, found);
      hide RemoveFrom, Excluded;
      var p := st.permutation[act];
      ExcludedStays(st, iv, act + 1, if p == 0 then found else found[p - 1 := act + 1], b);
    }
  }

  /** Nothing but x is selected, whatever step and width are. */
  predicate Point(a: Axis, x: int) {
    a.l == x && a.u == x + 1
  }

  /** Axis act + i of all generators holds the value T[i], but component act + i is the one e places further on. */
  ghost predicate SkewedAt(st: Doubles, iv: seq<int>, act: nat, T: seq<int>, e: nat, i: nat)
    requires Regular(st, |iv|) && act + i < st.vector && i < |T|
  {
    && (forall k :: 0 <= k < |st.gens| ==> Point(st.gens[k].axes[act + i], T[i]))
    && ValueOf(Comp(st, act + i), iv) == T[Min(i + e, |T| - 1)]
  }

  predicate AllSame(T: seq<int>) {
    forall i :: 0 <= i < |T| ==> T[i] == T[|T| - 1]
  }

  /** From act on everything is like that, and the values are not all the same. */
  ghost predicate Skewed(st: Doubles, iv: seq<int>, act: nat, T: seq<int>, e: nat)
    requires Regular(st, |iv|)
  {
    && act <= st.vector && |T| == st.vector - act && e >= 1 && st.gens != [] && !AllSame(T)
    && forall i :: 0 <= i < |T| ==> SkewedAt(st, iv, act, T, e, i)
  }

  lemma SkewedTail(T: seq<int>, e: nat)
    requires |T| > 0 && e >= 1 && T[0] == T[Min(e, |T| - 1)] && !AllSame(T)
    ensures !AllSame(T[1..])
  {
    var i :| 0 <= i < |T| && T[i] != T[|T| - 1];
    var j := if i == 0 then Min(e, |T| - 1) else i;
    assert T[1..][j - 1] == T[j] && T[1..][|T| - 2] == T[|T| - 1];
  }

  lemma SkewedKept(st: Doubles, iv: seq<int>, act: nat, T: seq<int>, e: nat)
    requires Regular(st, |iv|) && Skewed(st, iv, act, T, e) && act < st.vector && ValueOf(Comp(st, act), iv) == T[0]
    ensures Skewed(st, iv, act + 1, T[1..], e)
  {
    assert SkewedAt(st, iv, act, T, e, 0);
    SkewedTail(T, e);
    hide Regular, Comp, ValueOf, AllSame;
    var next: nat, T' := act + 1, T[1..];
    forall i | 0 <= i < |T'| ensures SkewedAt(st, iv, next, T', e, i) {
      assert SkewedAt(st, iv, act, T, e, i + 1);
      assert next + i == act + (i + 1);
    }
  }

  lemma SkewedMerged(st: Doubles, iv: seq<int>, fdim: nat, act: nat, T: seq<int>, e: nat)
    requires Regular(st, |iv|) && Skewed(st, iv, act, T, e) && fdim < act < st.vector
    requires ValueOf(Comp(st, act), iv) == T[0]
    ensures Skewed(Merge(st, |iv|, fdim, act), iv, act, T[1..], |st.gens| + e - 1)
  {
    assert SkewedAt(st, iv, act, T, e, 0);
    SkewedTail(T, e);
    var m := Merge(st, |iv|, fdim, act);
    assert |m.gens| == |st.gens|;
    hide AllSame, Merge;
    var T', e': nat := T[1..], |st.gens| + e - 1;
    forall i | 0 <= i < |T'| ensures SkewedAt(m, iv, act, T', e', i) {
      SkewedMergedAt(st, iv, fdim, act, T, e, i);
    }
  }

  lemma SkewedMergedAt(st: Doubles, iv: seq<int>, fdim: nat, act: nat, T: seq<int>, e: nat, i: nat)
    requires Regular(st, |iv|) && Skewed(st, iv, act, T, e) && fdim < act < st.vector && i + 1 < |T|
    ensures SkewedAt(Merge(st, |iv|, fdim, act), iv, act, T[1..], |st.gens| + e - 1, i)
  {
    hide Merge, MergedGen, Regular, Comp, ValueOf;
    MergeFacts(st, |iv|, fdim, act);
    var m, k := Merge(st, |iv|, fdim, act), |st.gens|;
    assert SkewedAt(st, iv, act, T, e, i + 1);
    forall j | 0 <= j < k ensures Point(m.gens[j].axes[act + i], T[1..][i]) {
      MergedAt(st.gens[j], fdim, act, act + i);
      assert Point(st.gens[j].axes[act + (i + 1)], T[i + 1]);
    }
    MergedComp(st, |iv|, fdim, act, act + i);
    var d := Min(i + k, |T| - 1);
    assert SkewedAt(st, iv, act, T, e, d);
    assert act + d == Min(act + i + k, st.vector - 1);
    assert T[Min(d + e, |T| - 1)] == T[1..][Min(i + (k + e - 1), |T[1..]| - 1)];
  }

  /** Merging an axis whose component is not the one its values are for. */
  lemma WrongMerge(st: Doubles, iv: seq<int>, fdim: nat, act: nat, x: int)
    requires Regular(st, |iv|) && fdim < act < st.vector && Comp(st, fdim) == Comp(st, act)
    requires forall k :: 0 <= k < |st.gens| ==> Point(st.gens[k].axes[act], x)
    requires ValueOf(Comp(st, act), iv) != x
    ensures Excluded(Merge(st, |iv|, fdim, act), iv, fdim)
  {
    MergedComp(st, |iv|, fdim, act, fdim);
    forall k | 0 <= k < |st.gens|
      ensures MergedGen(st.gens[k], fdim, act).axes[fdim] == MergedAxis(st.gens[k].axes[fdim], st.gens[k].axes[act])
    {
      MergedAt(st.gens[k], fdim, act, fdim);
    }
    hide MergedGen;
  }

  lemma FirstOf(st: Doubles, n: nat, act: nat, found: seq<nat>)
    requires Regular(st, n) && Firsts(st, n, act, found) && act < st.vector && st.permutation[act] > 0
    requires found[st.permutation[act] - 1] != 0
    ensures var fdim := found[st.permutation[act] - 1] - 1;
            fdim < act && Comp(st, fdim) == Comp(st, act) && st.permutation[fdim] == st.permutation[act]
    ensures Repeats(st, act)
  {
  }

  lemma FirstsMerged(st: Doubles, n: nat, act: nat, found: seq<nat>, fdim: nat)
    requires Regular(st, n) && Firsts(st, n, act, found) && fdim < act < st.vector
    ensures Firsts(Merge(st, n, fdim, act), n, act, found)
  {
    var m := Merge(st, n, fdim, act);
    forall i | 0 <= i < act ensures m.permutation[i] == st.permutation[i] {
      MergedComp(st, n, fdim, act, i);
    }
    hide Merge;
    FirstsSame(st, m, n, act, found);
  }

  /** Nothing makes up for components that are those of other axes. */
  lemma {:induction false} SkewedFails(st: Doubles, iv: seq<int>, act: nat, found: seq<nat>, T: seq<int>, e: nat)
    requires Regular(st, |iv|) && Firsts(st, |iv|, act, found) && Skewed(st, iv, act, T, e)
    ensures FoundBelow(found, act) && |found| == |iv|
    ensures NoneSelects(RemoveFrom(st, |iv|, act, found), iv)
    decreases st.vector - act, 1
  {
    hide *;
    Below(st, |iv|, act, found);
    SkewedFirst(st, iv, act, T, e);
    if st.permutation[act] > 0 && found[st.permutation[act] - 1] != 0 {
      SkewedFailsMerging(st, iv, act, found, T, e);
    } else {
      SkewedFailsKeeping(st, iv, act, found, T, e);
    }
  }

  lemma SkewedFailsMerging(st: Doubles, iv: seq<int>, act: nat, found: seq<nat>, T: seq<int>, e: nat)
    requires Regular(st, |iv|) && Firsts(st, |iv|, act, found) && Skewed(st, iv, act, T, e)
    requires |found| == |iv| && FoundBelow(found, act)
    requires act < st.vector && st.permutation[act] > 0 && found[st.permutation[act] - 1] != 0
    ensures NoneSelects(RemoveFrom(st, |iv|, act, found), iv)
    decreases st.vector - act, 0
  {
    hide *;
    SkewedFirst(st, iv, act, T, e);
    var fdim := found[st.permutation[act] - 1] - 1;
    FirstOf(st, |iv|, act, found);
    RemoveFromMerges(st, |iv|, act, found);
    var m := Merge(st, |iv|, fdim, act);
    if ValueOf(Comp(st, act), iv) == T[0] {
      SkewedMerged(st, iv, fdim, act, T, e);
      FirstsMerged(st, |iv|, act, found, fdim);
      SkewedFails(m, iv, act, found, T[1..], |st.gens| + e - 1);
    } else {
      WrongMerge(st, iv, fdim, act, T[0]);
      ExcludedStays(m, iv, act, found, fdim);
    }
  }

  lemma SkewedFailsKeeping(st: Doubles, iv: seq<int>, act: nat, found: seq<nat>, T: seq<int>, e: nat)
    requires Regular(st, |iv|) && Firsts(st, |iv|, act, found) && Skewed(st, iv, act, T, e)
    requires |found| == |iv| && FoundBelow(found, act) && act < st.vector
    requires st.permutation[act] > 0 ==> found[st.permutation[act] - 1] == 0
    ensures NoneSelects(RemoveFrom(st, |iv|, act, found), iv)
    decreases st.vector - act, 0
  {
    hide *;
    SkewedFirst(st, iv, act, T, e);
    var p := st.permutation[act];
    var found' := if p == 0 then found else found[p - 1 := act + 1];
    RemoveFromKeeps(st, |iv|, act, found);
    FirstsNext(st, |iv|, act, found);
    if ValueOf(Comp(st, act), iv) == T[0] {
      SkewedKept(st, iv, act, T, e);
      SkewedFails(st, iv, act + 1, found', T[1..], e);
    } else {
      WrongKept(st, iv, act, T[0]);
      Below(st, |iv|, act + 1, found');
      ExcludedStays(st, iv, act + 1, found', act);
    }
  }

  lemma SkewedFirst(st: Doubles, iv: seq<int>, act: nat, T: seq<int>, e: nat)
    requires Regular(st, |iv|) && Skewed(st, iv, act, T, e)
    ensures act < st.vector <= |st.permutation| == |st.constArg| && |T| > 0 && st.permutation[act] <= |iv| && e >= 1
    ensures Comp(st, act).0 <= |iv|
    ensures forall k :: 0 <= k < |st.gens| ==> act < |st.gens[k].axes| && Point(st.gens[k].axes[act], T[0])
  {
    assert SkewedAt(st, iv, act, T, e, 0);
  }

  lemma WrongKept(st: Doubles, iv: seq<int>, act: nat, x: int)
    requires Regular(st, |iv|) && act < st.vector
    requires forall k :: 0 <= k < |st.gens| ==> Point(st.gens[k].axes[act], x)
    requires ValueOf(Comp(st, act), iv) != x
    ensures Excluded(st, iv, act)
  {
  }

  /** Different components have different values. */
  ghost predicate Separates(st: Doubles, iv: seq<int>)
    requires Regular(st, |iv|)
  {
    forall i, j :: 0 <= i < st.vector && 0 <= j < st.vector && Comp(st, i) != Comp(st, j) ==>
      ValueOf(Comp(st, i), iv) != ValueOf(Comp(st, j), iv)
  }

  /** From act on every axis holds the value of its component. */
  ghost predicate Points(st: Doubles, iv: seq<int>, act: nat)
    requires Regular(st, |iv|)
  {
    forall k, i :: 0 <= k < |st.gens| && act <= i < st.vector ==> Point(st.gens[k].axes[i], ValueOf(Comp(st, i), iv))
  }

  /** Up to the first repeated component all goes well; then it is shifted too far. */
  lemma {:induction false} ShiftedTooFar(st: Doubles, iv: seq<int>, act: nat, found: seq<nat>)
    requires Regular(st, |iv|) && Firsts(st, |iv|, act, found) && |st.gens| > 1
    requires Separates(st, iv) && Points(st, iv, act) && !TailSame(st, act)
    ensures FoundBelow(found, act) && |found| == |iv|
    ensures NoneSelects(RemoveFrom(st, |iv|, act, found), iv)
    decreases st.vector - act
  {
    hide *;
    Below(st, |iv|, act, found);
    RegularAt(st, |iv|, act);
    NotTheEnd(st, act);
    var p := st.permutation[act];
    if p > 0 && found[p - 1] != 0 {
      var fdim := found[p - 1] - 1;
      FirstOf(st, |iv|, act, found);
      RemoveFromMerges(st, |iv|, act, found);
      var i := FirstTail(st, |iv|, act);
      var T := FirstSkew(st, iv, fdim, act, i);
      FirstsMerged(st, |iv|, act, found, fdim);
      SkewedFails(Merge(st, |iv|, fdim, act), iv, act, found, T, |st.gens| - 1);
    } else {
      RemoveFromKeeps(st, |iv|, act, found);
      FirstsNext(st, |iv|, act, found);
      NotRepeated(st, |iv|, act, found);
      PointsOn(st, iv, act);
      TailOn(st, |iv|, act);
      ShiftedTooFar(st, iv, act + 1, if p == 0 then found else found[p - 1 := act + 1]);
    }
  }

  lemma RegularAt(st: Doubles, n: nat, act: nat)
    requires Regular(st, n)
    ensures st.vector <= |st.permutation| == |st.constArg|
    ensures act < st.vector ==> st.permutation[act] <= n && Comp(st, act).0 <= n
  {
  }

  lemma NotTheEnd(st: Doubles, act: nat)
    requires st.vector <= |st.permutation| == |st.constArg| && !TailSame(st, act)
    ensures act < st.vector
  {
  }

  /** Behind the first repeated component there are different ones. */
  lemma FirstTail(st: Doubles, n: nat, act: nat) returns (i: nat)
    requires Regular(st, n) && !TailSame(st, act)
    ensures act < i < st.vector && Comp(st, i) != Comp(st, st.vector - 1)
  {
    var d, j :| act <= d < j < st.vector && Repeats(st, d) && Comp(st, j) != Comp(st, st.vector - 1);
    i := j;
  }

  lemma TailOn(st: Doubles, n: nat, act: nat)
    requires Regular(st, n) && !TailSame(st, act) && act < st.vector && !Repeats(st, act)
    ensures !TailSame(st, act + 1)
  {
    var d, i :| act <= d < i < st.vector && Repeats(st, d) && Comp(st, i) != Comp(st, st.vector - 1);
    assert d != act;
  }

  lemma PointsOn(st: Doubles, iv: seq<int>, act: nat)
    requires Regular(st, |iv|) && Points(st, iv, act)
    ensures Points(st, iv, act + 1)
  {
  }

  lemma NotRepeated(st: Doubles, n: nat, act: nat, found: seq<nat>)
    requires Regular(st, n) && Firsts(st, n, act, found) && act < st.vector
    requires st.permutation[act] > 0 ==> found[st.permutation[act] - 1] == 0
    ensures !Repeats(st, act)
  {
  }

  lemma FirstSkew(st: Doubles, iv: seq<int>, fdim: nat, act: nat, i: nat) returns (T: seq<int>)
    requires Regular(st, |iv|) && fdim < act < i < st.vector && |st.gens| > 1
    requires Separates(st, iv) && Points(st, iv, act) && Comp(st, i) != Comp(st, st.vector - 1)
    ensures Skewed(Merge(st, |iv|, fdim, act), iv, act, T, |st.gens| - 1)
  {
    var n, k := st.vector - 1 - act, |st.gens|;
    T := seq(n, j requires 0 <= j < n => ValueOf(Comp(st, act + 1 + j), iv));
    var m := Merge(st, |iv|, fdim, act);
    assert |m.gens| == k && m.vector == st.vector - 1;
    assert T[i - act - 1] != T[n - 1];
    var e: nat := k - 1;
    forall j | 0 <= j < n ensures SkewedAt(m, iv, act, T, e, j) {
      FirstSkewAt(st, iv, fdim, act, T, j);
    }
  }

  lemma FirstSkewAt(st: Doubles, iv: seq<int>, fdim: nat, act: nat, T: seq<int>, j: nat)
    requires Regular(st, |iv|) && fdim < act < st.vector && |st.gens| > 1 && Points(st, iv, act)
    requires |T| == st.vector - 1 - act && j < |T|
    requires forall j :: 0 <= j < |T| ==> T[j] == ValueOf(Comp(st, act + 1 + j), iv)
    ensures SkewedAt(Merge(st, |iv|, fdim, act), iv, act, T, |st.gens| - 1, j)
  {
    var m, k, n := Merge(st, |iv|, fdim, act), |st.gens|, |T|;
    forall g | 0 <= g < k ensures Point(m.gens[g].axes[act + j], T[j]) {
      MergedAt(st.gens[g], fdim, act, act + j);
      assert Point(st.gens[g].axes[act + 1 + j], ValueOf(Comp(st, act + 1 + j), iv));
    }
    MergedComp(st, |iv|, fdim, act, act + j);
    hide Merge, Regular, Comp, Points;
    assert Min(act + j + k, st.vector - 1) == act + 1 + Min(j + k - 1, n - 1);
  }

  // ---- exactly when it is exact ----

  predicate PlainGens(V: seq<Gen>) {
    forall k :: 0 <= k < |V| ==> !V[k].hasGrid && PlainAxes(V[k].axes)
  }

  /** The list selects of iv what it selected before. */
  ghost predicate ExactAt(V: seq<Gen>, info: IndexInfo, iv: seq<int>)
    requires Removable(V, info, |iv|)
  {
    var (W, r) := RemoveDoubles(V, info, |iv|);
    Hits(W, Gather(r, iv)) == Hits(V, Gather(info, iv))
  }

  /** It is exact for every list of count generators without grids, and every index vector. */
  ghost predicate ExactForPlain(info: IndexInfo, n: nat, count: nat) {
    forall V, iv {:trigger ExactAt(V, info, iv)} ::
      |V| == count && |iv| == n && Removable(V, info, n) && PlainGens(V) ==> ExactAt(V, info, iv)
  }

  predicate HistoryTailSame(info: IndexInfo)
    requires info.vector == |info.permutation| == |info.constArg|
  {
    TailSame(Load([], info), 0)
  }

  lemma TailSameLoad(V: seq<Gen>, info: IndexInfo)
    requires info.vector == |info.permutation| == |info.constArg|
    ensures TailSame(Load(V, info), 0) <==> HistoryTailSame(info)
  {
    var a, b := Load(V, info), Load([], info);
    assert forall i :: 0 <= i < info.vector ==> Comp(a, i) == Comp(b, i) && Repeats(a, i) == Repeats(b, i);
  }

  lemma PlainDense(V: seq<Gen>, info: IndexInfo, n: nat)
    requires Removable(V, info, n) && PlainGens(V)
    ensures DoubledDense(Load(V, info), n)
  {
  }

  lemma {:induction false} SameLength(st: Doubles, n: nat, act: nat, found: seq<nat>)
    requires Regular(st, n) && |found| == n && FoundBelow(found, act)
    ensures |RemoveFrom(st, n, act, found).gens| == |st.gens|
    decreases st.vector - act
  {
    if act < st.vector {
      var p := st.permutation[act];
      if p > 0 && found[p - 1] != 0 {
        RemoveFromMerges(st, n, act, found);
        SameLength(Merge(st, n, found[p - 1] - 1, act), n, act, found);
      } else {
        RemoveFromKeeps(st, n, act, found);
        SameLength(st, n, act + 1, if p == 0 then found else found[p - 1 := act + 1]);
      }
    }
  }

  /** An upper bound of all constants. */
  function Above(c: seq<int>): (m: int)
    ensures forall i :: 0 <= i < |c| ==> c[i] < m
  {
    if c == [] then 0 else var m := Above(c[..|c| - 1]); if c[|c| - 1] < m then m else c[|c| - 1] + 1
  }

  lemma NoHits(V: seq<Gen>, w: seq<int>)
    requires forall k :: 0 <= k < |V| ==> !Member(V[k].axes, w)
    ensures Hits(V, w) == multiset{}
  {
    if Hits(V, w) != multiset{} {
      var c :| c in Hits(V, w);
      HitsWitness(V, w, c);
    }
  }

  // ---- all bounds, for given steps and widths ----

  /** The steps and widths of one generator. */
  predicate Pattern(pattern: seq<(int, int)>, vector: nat) {
    |pattern| == vector && forall d :: 0 <= d < vector ==> 1 <= pattern[d].1 <= pattern[d].0
  }

  predicate Patterns(patterns: seq<seq<(int, int)>>, vector: nat) {
    forall k :: 0 <= k < |patterns| ==> Pattern(patterns[k], vector)
  }

  predicate AllOnes(pattern: seq<(int, int)>) {
    forall d :: 0 <= d < |pattern| ==> pattern[d] == (1, 1)
  }

  /** A generator with these steps and widths; a grid of ones is none. */
  predicate Patterned(g: Gen, pattern: seq<(int, int)>) {
    && |g.axes| == |pattern| && (AllOnes(pattern) ==> !g.hasGrid)
    && forall d :: 0 <= d < |pattern| ==> (g.axes[d].step, g.axes[d].width) == pattern[d]
  }

  predicate AllPatterned(V: seq<Gen>, patterns: seq<seq<(int, int)>>) {
    |V| == |patterns| && forall k :: 0 <= k < |V| ==> Patterned(V[k], patterns[k])
  }

  /** It is exact for every list with these steps and widths, whatever the bounds are, and every index vector. */
  ghost predicate ExactForPatterns(info: IndexInfo, n: nat, patterns: seq<seq<(int, int)>>) {
    forall V, iv {:trigger ExactAt(V, info, iv)} ::
      |iv| == n && AllPatterned(V, patterns) && Removable(V, info, n) ==> ExactAt(V, info, iv)
  }

  lemma NotExactBy(info: IndexInfo, patterns: seq<seq<(int, int)>>, V: seq<Gen>, iv: seq<int>)
    requires AllPatterned(V, patterns) && Removable(V, info, |iv|) && !ExactAt(V, info, iv)
    ensures !ExactForPatterns(info, |iv|, patterns)
  {
    hide ExactAt, Removable, AllPatterned;
  }

  /** The generator for the vector w alone. */
  function PatternPoint(w: seq<int>, pattern: seq<(int, int)>): Gen
    requires |pattern| == |w|
  {
    Gen(seq(|w|, d requires 0 <= d < |w| => Axis(w[d], w[d] + 1, pattern[d].0, pattern[d].1)), !AllOnes(pattern),
      Block(0))
  }

  function PatternPoints(w: seq<int>, patterns: seq<seq<(int, int)>>): (V: seq<Gen>)
    requires Patterns(patterns, |w|)
    ensures |V| == |patterns| && forall k :: 0 <= k < |V| ==> V[k] == PatternPoint(w, patterns[k])
  {
    seq(|patterns|, k requires 0 <= k < |patterns| => PatternPoint(w, patterns[k]))
  }

  /** Index scalars whose values are different from each other and from all constants. */
  function Distinct(info: IndexInfo, n: nat): (iv: seq<int>)
    ensures |iv| == n
  {
    seq(n, i requires 0 <= i < n => Above(info.constArg) + i)
  }

  lemma DistinctSeparates(V: seq<Gen>, info: IndexInfo, n: nat)
    requires Removable(V, info, n)
    ensures Separates(Load(V, info), Distinct(info, n))
  {
    var st, iv, m := Load(V, info), Distinct(info, n), Above(info.constArg);
    hide Above;
    forall i | 0 <= i < st.vector
      ensures ValueOf(Comp(st, i), iv) == (if Comp(st, i).0 > 0 then m + Comp(st, i).0 - 1 else Comp(st, i).1)
      ensures Comp(st, i).0 == 0 ==> Comp(st, i).1 < m
    {
    }
  }

  lemma GatherLength(info: IndexInfo, iv: seq<int>)
    requires Addresses(info, |iv|)
    ensures |Gather(info, iv)| == info.vector == |info.permutation| == |info.constArg|
  {
  }

  lemma PatternPointsFit(info: IndexInfo, n: nat, iv: seq<int>, patterns: seq<seq<(int, int)>>)
    requires Addresses(info, n) && |info.last| == info.vector && Patterns(patterns, info.vector) && |iv| == n
    ensures var V := PatternPoints(Gather(info, iv), patterns);
            && AllPatterned(V, patterns) && Removable(V, info, n) && Points(Load(V, info), iv, 0)
            && forall k :: 0 <= k < |V| ==> Member(V[k].axes, Gather(info, iv)) && V[k].code == Block(0)
  {
    var w := Gather(info, iv);
    var V := PatternPoints(w, patterns);
    GatheredIs(Load(V, info), info, iv);
    hide Gather;
    forall k | 0 <= k < |V| ensures Member(V[k].axes, w) {
      forall d | 0 <= d < |w| ensures In(V[k].axes[d], w[d]) {
        assert 0 % patterns[k][d].0 == 0;
      }
    }
    hide PatternPoints;
    forall k, i | 0 <= k < |V| && 0 <= i < info.vector
      ensures Point(V[k].axes[i], ValueOf(Comp(Load(V, info), i), iv))
    {
      assert Gathered(Load(V, info), iv)[i] == w[i];
    }
  }

  /** No generator selects the vector after the removal, but all of them did before. */
  lemma LostAll(V: seq<Gen>, info: IndexInfo, iv: seq<int>)
    requires Removable(V, info, |iv|) && V != []
    requires Member(V[0].axes, Gather(info, iv))
    requires NoneSelects(RemoveDoublesFrom(Load(V, info), |iv|), iv)
    ensures !ExactAt(V, info, iv)
  {
    var r := RemoveDoublesFrom(Load(V, info), |iv|);
    var info' := Store(r, |iv|, info);
    GatheredIs(r, info', iv);
    hide RemoveDoublesFrom, Member, Gather;
    NoHits(r.gens, Gather(info', iv));
    HitsWitness(V, Gather(info, iv), V[0].code);
  }

  lemma NotExactForMany(info: IndexInfo, n: nat, patterns: seq<seq<(int, int)>>)
    requires Addresses(info, n) && |info.last| == info.vector && Patterns(patterns, info.vector)
    requires |patterns| > 1 && !HistoryTailSame(info)
    ensures !ExactForPatterns(info, n, patterns)
  {
    hide *;
    var iv := Distinct(info, n);
    GatherLength(info, iv);
    var V := PatternPoints(Gather(info, iv), patterns);
    PatternPointsFit(info, n, iv, patterns);
    LoadedStart(V, info, n);
    DistinctSeparates(V, info, n);
    TailSameLoad(V, info);
    ShiftedTooFar(Load(V, info), iv, 0, seq(n, _ => 0));
    RemovesFrom(Load(V, info), n);
    LostAll(V, info, iv);
    NotExactBy(info, patterns, V, iv);
  }

  lemma LoadedStart(V: seq<Gen>, info: IndexInfo, n: nat)
    requires Removable(V, info, n)
    ensures var st := Load(V, info);
            && Regular(st, n) && Firsts(st, n, 0, seq(n, _ => 0)) && |st.gens| == |V| && st.vector == info.vector
            && st.gens == V && st.vector <= |st.permutation| == |st.constArg| && |info.permutation| == |info.constArg|
  {
  }

  lemma RemovesFrom(st: Doubles, n: nat)
    requires Regular(st, n)
    ensures FoundBelow(seq(n, _ => 0), 0) && RemoveDoublesFrom(st, n) == RemoveFrom(st, n, 0, seq(n, _ => 0))
  {
  }

  // ---- gaps ----

  /** Generator k has every component's value between its bounds, and, but for axis b, at the lower one; b is to be
      merged with another axis. */
  ghost predicate Nearly(st: Doubles, iv: seq<int>, k: nat, b: nat)
    requires Regular(st, |iv|)
  {
    && k < |st.gens|
    && (forall d :: 0 <= d < st.vector ==> NearlyAt(st.gens[k].axes[d], ValueOf(Comp(st, d), iv), d == b))
    && (b < st.vector ==> Doubled(st, b))
  }

  predicate NearlyAt(a: Axis, x: int, below: bool) {
    a.l <= x < a.u && 1 <= a.width <= a.step && (below || a.l == x)
  }

  /** Nothing is shifted too far from act on. */
  predicate Unshifted(st: Doubles, act: nat)
    requires st.vector <= |st.permutation| == |st.constArg|
  {
    |st.gens| == 1 || TailSame(st, act)
  }

  lemma NearlyMerged(st: Doubles, iv: seq<int>, fdim: nat, at: nat, k: nat, b: nat) returns (b': nat)
    requires Regular(st, |iv|) && Nearly(st, iv, k, b) && fdim < at < st.vector
    requires Comp(st, fdim) == Comp(st, at) && Comp(st, at).0 > 0 && Repeats(st, at) && Unshifted(st, at)
    ensures var m := Merge(st, |iv|, fdim, at);
            Nearly(m, iv, k, b') && m.vector <= |m.permutation| == |m.constArg| && Unshifted(m, at)
  {
    b' := if b == fdim || b == at || b >= st.vector then st.vector - 1 else if b < at then b else b - 1;
    var m := Merge(st, |iv|, fdim, at);
    MergeFacts(st, |iv|, fdim, at);
    assert Harmless(st, at);
    HarmlessComps(st, |iv|, fdim, at);
    if |st.gens| > 1 {
      MergeTail(st, m, at);
    }
    hide Merge, MergedGen, Harmless, TailSame;
    NearlyAxes(st, m, iv, fdim, at, k, b, b');
    if b' < m.vector {
      StillDoubled(st, m, fdim, at, b, b');
    }
  }

  lemma RegularComps(st: Doubles, n: nat)
    requires Regular(st, n)
    ensures st.vector <= |st.permutation| == |st.constArg| && forall i :: 0 <= i < st.vector ==> Comp(st, i).0 <= n
    ensures forall k :: 0 <= k < |st.gens| ==> |st.gens[k].axes| == st.vector
  {
  }

  lemma NearlyAxes(st: Doubles, m: Doubles, iv: seq<int>, fdim: nat, at: nat, k: nat, b: nat, b': nat)
    requires Regular(st, |iv|) && Regular(m, |iv|) && fdim < at < st.vector == m.vector + 1
    requires k < |st.gens| == |m.gens| && m.gens[k] == MergedGen(st.gens[k], fdim, at)
    requires Comp(st, fdim) == Comp(st, at)
    requires forall i :: 0 <= i < m.vector ==> Comp(m, i) == Comp(st, if i < at then i else i + 1)
    requires forall d :: 0 <= d < st.vector ==> NearlyAt(st.gens[k].axes[d], ValueOf(Comp(st, d), iv), d == b)
    requires b' == if b == fdim || b == at || b >= st.vector then st.vector - 1 else if b < at then b else b - 1
    ensures forall d :: 0 <= d < m.vector ==> NearlyAt(m.gens[k].axes[d], ValueOf(Comp(m, d), iv), d == b')
  {
    hide MergedGen, Regular;
    RegularComps(st, |iv|);
    RegularComps(m, |iv|);
    hide Comp, ValueOf;
    var g := st.gens[k];
    forall d | 0 <= d < m.vector ensures NearlyAt(m.gens[k].axes[d], ValueOf(Comp(m, d), iv), d == b') {
      MergedAt(g, fdim, at, d);
      assert NearlyAt(g.axes[fdim], ValueOf(Comp(st, fdim), iv), fdim == b);
      assert NearlyAt(g.axes[at], ValueOf(Comp(st, at), iv), at == b);
    }
  }

  lemma StillDoubled(st: Doubles, m: Doubles, fdim: nat, at: nat, b: nat, b': nat)
    requires st.vector <= |st.permutation| == |st.constArg| && m.vector <= |m.permutation| == |m.constArg|
    requires fdim < at < st.vector == m.vector + 1 && Comp(st, fdim) == Comp(st, at)
    requires b < st.vector && b != fdim && b != at && b' == (if b < at then b else b - 1) && Doubled(st, b)
    requires forall i :: 0 <= i < m.vector ==> Comp(m, i) == Comp(st, if i < at then i else i + 1)
    ensures Doubled(m, b')
  {
    var e :| 0 <= e < st.vector && e != b && st.permutation[e] == st.permutation[b];
    var e' := if e == at then fdim else if e < at then e else e - 1;
    assert Comp(m, b') == Comp(st, b) && Comp(m, e') == Comp(st, if e == at then fdim else e);
    assert m.permutation[e'] == m.permutation[b'] && e' != b';
  }

  lemma {:induction false} NearlySelects(st: Doubles, iv: seq<int>, act: nat, found: seq<nat>, k: nat, b: nat)
    requires Regular(st, |iv|) && Firsts(st, |iv|, act, found) && Nearly(st, iv, k, b)
    requires st.vector <= |st.permutation| == |st.constArg| && Unshifted(st, act)
    ensures FoundBelow(found, act) && |found| == |iv|
    ensures var r := RemoveFrom(st, |iv|, act, found); k < |r.gens| && Member(r.gens[k].axes, Gathered(r, iv))
    decreases st.vector - act
  {
    hide *;
    Below(st, |iv|, act, found);
    RegularAt(st, |iv|, act);
    if act >= st.vector {
      AllFirst(st, |iv|, act, found);
      RemoveFromDone(st, |iv|, act, found);
      NearlyDone(st, iv, k, b);
    } else {
      var p := st.permutation[act];
      if p > 0 && found[p - 1] != 0 {
        var fdim := found[p - 1] - 1;
        FirstOf(st, |iv|, act, found);
        CompScalar(st, act);
        RemoveFromMerges(st, |iv|, act, found);
        var b' := NearlyMerged(st, iv, fdim, act, k, b);
        FirstsMerged(st, |iv|, act, found, fdim);
        NearlySelects(Merge(st, |iv|, fdim, act), iv, act, found, k, b');
      } else {
        RemoveFromKeeps(st, |iv|, act, found);
        FirstsNext(st, |iv|, act, found);
        UnshiftedOn(st, act);
        NearlySelects(st, iv, act + 1, if p == 0 then found else found[p - 1 := act + 1], k, b);
      }
    }
  }

  lemma CompScalar(st: Doubles, act: nat)
    requires act < st.vector <= |st.permutation| == |st.constArg|
    ensures Comp(st, act).0 == st.permutation[act]
  {
  }

  lemma UnshiftedOn(st: Doubles, act: nat)
    requires st.vector <= |st.permutation| == |st.constArg| && Unshifted(st, act)
    ensures Unshifted(st, act + 1)
  {
  }

  lemma NearlyDone(st: Doubles, iv: seq<int>, k: nat, b: nat)
    requires Regular(st, |iv|) && Nearly(st, iv, k, b) && DistinctFirst(st.permutation, st.vector)
    ensures k < |st.gens| && Member(st.gens[k].axes, Gathered(st, iv))
  {
    assert b >= st.vector;
    hide Comp, ValueOf;
    forall d | 0 <= d < st.vector ensures In(st.gens[k].axes[d], Gathered(st, iv)[d]) {
      var a, x := st.gens[k].axes[d], ValueOf(Comp(st, d), iv);
      assert NearlyAt(a, x, d == b);
      assert (x - a.l) % a.step == 0;
    }
  }

  predicate HistoryDoubled(info: IndexInfo, d: nat)
    requires d < info.vector == |info.permutation|
  {
    Doubled(Load([], info), d)
  }

  /** Some generator selects the vector after the removal, but none did before. */
  lemma FoundOne(V: seq<Gen>, info: IndexInfo, iv: seq<int>, k: nat)
    requires Removable(V, info, |iv|) && forall j :: 0 <= j < |V| ==> !Member(V[j].axes, Gather(info, iv))
    requires var r := RemoveDoublesFrom(Load(V, info), |iv|);
             k < |r.gens| && Member(r.gens[k].axes, Gathered(r, iv))
    ensures !ExactAt(V, info, iv)
  {
    var r := RemoveDoublesFrom(Load(V, info), |iv|);
    var info' := Store(r, |iv|, info);
    GatheredIs(r, info', iv);
    hide RemoveDoublesFrom, Member, Gather;
    HitsWitness(r.gens, Gather(info', iv), r.gens[k].code);
    NoHits(V, Gather(info, iv));
  }

  /** Every axis begins at its value in w, but axis b so far below that the value is in its first gap. */
  function GapBox(w: seq<int>, pattern: seq<(int, int)>, b: nat): Gen
    requires |pattern| == |w|
  {
    Gen(seq(|w|, d requires 0 <= d < |w| =>
          Axis(if d == b then w[d] - pattern[d].1 else w[d], w[d] + 1, pattern[d].0, pattern[d].1)),
      !AllOnes(pattern), Block(0))
  }

  /** Generator k as above; the others select nothing. */
  function GapList(w: seq<int>, patterns: seq<seq<(int, int)>>, k: nat, b: nat): (V: seq<Gen>)
    requires Patterns(patterns, |w|)
    ensures |V| == |patterns|
    ensures forall j :: 0 <= j < |V| ==>
      V[j] == if j == k then GapBox(w, patterns[j], b) else PatternPoint(Next(w), patterns[j])
  {
    seq(|patterns|, j requires 0 <= j < |patterns| =>
      if j == k then GapBox(w, patterns[j], b) else PatternPoint(Next(w), patterns[j]))
  }

  /** A vector that differs from w in all components. */
  function Next(w: seq<int>): (r: seq<int>)
    ensures |r| == |w| && forall d :: 0 <= d < |w| ==> r[d] == w[d] + 1
  {
    seq(|w|, d requires 0 <= d < |w| => w[d] + 1)
  }

  lemma GapListMisses(w: seq<int>, patterns: seq<seq<(int, int)>>, k: nat, b: nat)
    requires Patterns(patterns, |w|) && k < |patterns| && b < |w| && patterns[k][b].1 < patterns[k][b].0
    ensures var V := GapList(w, patterns, k, b);
            AllPatterned(V, patterns) && forall j :: 0 <= j < |V| ==> !Member(V[j].axes, w)
  {
    var V := GapList(w, patterns, k, b);
    forall j | 0 <= j < |V| ensures !Member(V[j].axes, w) && Patterned(V[j], patterns[j]) {
      if j == k {
        assert patterns[k][b].1 % patterns[k][b].0 == patterns[k][b].1;
      }
      assert !In(V[j].axes[b], w[b]);
    }
  }

  lemma GapBoxNearly(V: seq<Gen>, info: IndexInfo, iv: seq<int>, pattern: seq<(int, int)>, k: nat, b: nat)
    requires Removable(V, info, |iv|) && k < |V| && Pattern(pattern, info.vector) && b < info.vector
    requires HistoryDoubled(info, b) && V[k] == GapBox(Gather(info, iv), pattern, b)
    ensures Regular(Load(V, info), |iv|) && Nearly(Load(V, info), iv, k, b)
  {
    var st := Load(V, info);
    GatheredIs(st, info, iv);
    assert Doubled(Load([], info), b);
    assert Doubled(st, b);
    hide Gather;
    forall d | 0 <= d < st.vector ensures NearlyAt(V[k].axes[d], ValueOf(Comp(st, d), iv), d == b) {
      assert Gathered(st, iv)[d] == Gather(info, iv)[d];
    }
  }

  lemma NotExactForGrid(info: IndexInfo, n: nat, patterns: seq<seq<(int, int)>>, k: nat, b: nat)
    requires Addresses(info, n) && |info.last| == info.vector && Patterns(patterns, info.vector)
    requires |patterns| <= 1 || HistoryTailSame(info)
    requires k < |patterns| && b < info.vector && HistoryDoubled(info, b)
    requires b < |patterns[k]| && patterns[k][b].1 < patterns[k][b].0
    ensures !ExactForPatterns(info, n, patterns)
  {
    hide *;
    var iv := seq(n, _ => 0);
    GatherLength(info, iv);
    var w := Gather(info, iv);
    var V := GapList(w, patterns, k, b);
    GapListMisses(w, patterns, k, b);
    PatternedRemovable(V, patterns, info, n);
    PatternAt(patterns, info.vector, k);
    GapBoxNearly(V, info, iv, patterns[k], k, b);
    LoadedStart(V, info, n);
    LoadedUnshifted(V, info);
    NearlySelects(Load(V, info), iv, 0, seq(n, _ => 0), k, b);
    RemovesFrom(Load(V, info), n);
    FoundOne(V, info, iv, k);
    NotExactBy(info, patterns, V, iv);
  }

  lemma PatternAt(patterns: seq<seq<(int, int)>>, vector: nat, k: nat)
    requires Patterns(patterns, vector) && k < |patterns|
    ensures Pattern(patterns[k], vector) && |patterns[k]| == vector
  {
  }

  lemma PatternedRemovable(V: seq<Gen>, patterns: seq<seq<(int, int)>>, info: IndexInfo, n: nat)
    requires Addresses(info, n) && |info.last| == info.vector && Patterns(patterns, info.vector)
    requires AllPatterned(V, patterns)
    ensures Removable(V, info, n)
  {
  }

  lemma LoadedUnshifted(V: seq<Gen>, info: IndexInfo)
    requires info.vector == |info.permutation| == |info.constArg| && V != [] && (|V| <= 1 || HistoryTailSame(info))
    ensures Unshifted(Load(V, info), 0)
  {
    TailSameLoad(V, info);
  }

  // ---- exactly when ----

  /** No generator has gaps on an axis that is merged. */
  predicate MergedDense(info: IndexInfo, patterns: seq<seq<(int, int)>>)
    requires info.vector == |info.permutation| && Patterns(patterns, info.vector)
  {
    forall k, d :: 0 <= k < |patterns| && 0 <= d < info.vector && HistoryDoubled(info, d) ==>
      patterns[k][d].0 == patterns[k][d].1
  }

  /** For a history and the steps and widths of any number of generators: removing the repeated components is exact for
      all bounds and index vectors if and only if there is at most one generator or behind the first repeated component
      one component all over (in particular at most one), and the axes that are merged have no gaps. */
  lemma MergeExactIff(info: IndexInfo, n: nat, patterns: seq<seq<(int, int)>>)
    requires Addresses(info, n) && |info.last| == info.vector && Patterns(patterns, info.vector)
    ensures ExactForPatterns(info, n, patterns) <==>
      (|patterns| <= 1 || HistoryTailSame(info)) && MergedDense(info, patterns)
  {
    if |patterns| > 1 && !HistoryTailSame(info) {
      NotExactForMany(info, n, patterns);
    } else if !MergedDense(info, patterns) {
      var k, b :| 0 <= k < |patterns| && 0 <= b < info.vector && HistoryDoubled(info, b) &&
        patterns[k][b].0 != patterns[k][b].1;
      PatternAt(patterns, info.vector, k);
      NotExactForGrid(info, n, patterns, k, b);
    } else {
      forall V, iv | |iv| == n && AllPatterned(V, patterns) && Removable(V, info, n) ensures ExactAt(V, info, iv) {
        ExactIfDense(V, info, iv, patterns);
      }
    }
  }

  lemma ExactIfDense(V: seq<Gen>, info: IndexInfo, iv: seq<int>, patterns: seq<seq<(int, int)>>)
    requires Removable(V, info, |iv|) && Patterns(patterns, info.vector) && AllPatterned(V, patterns)
    requires (|patterns| <= 1 || HistoryTailSame(info)) && MergedDense(info, patterns)
    ensures ExactAt(V, info, iv)
  {
    if V == [] {
      SameLength(Load(V, info), |iv|, 0, seq(|iv|, _ => 0));
    } else {
      TailSameLoad(V, info);
      DenseLoaded(V, info, |iv|, patterns);
      RemoveDoublesExact(V, info, iv);
    }
  }

  lemma DenseLoaded(V: seq<Gen>, info: IndexInfo, n: nat, patterns: seq<seq<(int, int)>>)
    requires Removable(V, info, n) && Patterns(patterns, info.vector) && AllPatterned(V, patterns)
    requires MergedDense(info, patterns)
    ensures DoubledDense(Load(V, info), n)
  {
    var st := Load(V, info);
    forall k, d | 0 <= k < |st.gens| && 0 <= d < st.vector && Doubled(st, d) ensures Dense(st.gens[k].axes[d]) {
      assert HistoryDoubled(info, d) by {
        var e :| 0 <= e < st.vector && e != d && st.permutation[e] == st.permutation[d];
        assert Load([], info).permutation[e] == Load([], info).permutation[d];
      }
      assert Patterned(V[k], patterns[k]) && Pattern(patterns[k], info.vector);
      assert (V[k].axes[d].step, V[k].axes[d].width) == patterns[k][d];
    }
  }

  function NoGrids(count: nat, vector: nat): (patterns: seq<seq<(int, int)>>)
    ensures |patterns| == count && Patterns(patterns, vector)
    ensures forall k :: 0 <= k < count ==> patterns[k] == seq(vector, _ => (1, 1))
  {
    seq(count, _ => seq(vector, _ => (1, 1)))
  }

  lemma PlainPatterned(V: seq<Gen>, info: IndexInfo, n: nat)
    requires Removable(V, info, n)
    ensures PlainGens(V) <==> AllPatterned(V, NoGrids(|V|, info.vector))
  {
    var p := NoGrids(|V|, info.vector);
    hide NoGrids;
    forall k | 0 <= k < |V| ensures !V[k].hasGrid && PlainAxes(V[k].axes) <==> Patterned(V[k], p[k]) {
      assert forall d :: 0 <= d < info.vector ==> p[k][d] == (1, 1);
      assert AllOnes(p[k]);
    }
  }

  /** The case without grids: exact for every list of the given length if and only if the list has at most one
      generator, or behind the first repeated component there is one component all over. */
  lemma PlainExactIff(info: IndexInfo, n: nat, count: nat)
    requires Addresses(info, n) && |info.last| == info.vector
    ensures ExactForPlain(info, n, count) <==> count <= 1 || HistoryTailSame(info)
  {
    var patterns := NoGrids(count, info.vector);
    MergeExactIff(info, n, patterns);
    assert MergedDense(info, patterns);
    hide NoGrids, MergedDense, Removable, ExactAt, AllPatterned, PlainGens, HistoryTailSame;
    forall V | |V| == count && Removable(V, info, n) ensures PlainGens(V) <==> AllPatterned(V, patterns) {
      PlainPatterned(V, info, n);
    }
    assert forall V :: AllPatterned(V, patterns) ==> |V| == count by {
      forall V | AllPatterned(V, patterns) ensures |V| == count {
        PatternedLength(V, patterns);
      }
    }
  }

  lemma PatternedLength(V: seq<Gen>, patterns: seq<seq<(int, int)>>)
    requires AllPatterned(V, patterns)
    ensures |V| == |patterns|
  {
  }

  // ---- examples ----

  /** [i, i, j, 7] and two generators: the history is shifted twice, and what was based on j becomes the constant 7. */
  lemma TwoGeneratorsShiftTwice()
    ensures var info := IndexInfo(4, [1, 1, 2, 0], [None, None, None, None], Add, [0, 0, 0, 7], 0);
            Addresses(info, 2) && !HistoryTailSame(info) && !ExactForPlain(info, 2, 2)
  {
    var info := IndexInfo(4, [1, 1, 2, 0], [None, None, None, None], Add, [0, 0, 0, 7], 0);
    var st := Load([], info);
    assert st.permutation == [1, 1, 2, 0] && st.permutation[0] == st.permutation[1];
    assert Repeats(st, 1) && Comp(st, 2) == (2, 0) && Comp(st, 3) == (0, 7);
    PlainExactIff(info, 2, 2);
  }

  /** A[[i, i]]: the diagonal, for any number of generators. */
  lemma DiagonalIsExact(count: nat)
    ensures var info := IndexInfo(2, [1, 1], [None, None], Add, [0, 0], 0);
            Addresses(info, 1) && ExactForPlain(info, 1, count)
  {
    var info := IndexInfo(2, [1, 1], [None, None], Add, [0, 0], 0);
    assert HistoryTailSame(info);
    PlainExactIff(info, 1, count);
  }

  /** [i, i] with steps 2 and 3: the second grid is lost. */
  lemma GridsAreLost()
    ensures var info := IndexInfo(2, [1, 1], [None, None], Add, [0, 0], 0);
            Addresses(info, 1) && !ExactForPatterns(info, 1, [[(2, 1), (3, 1)]])
  {
    var info := IndexInfo(2, [1, 1], [None, None], Add, [0, 0], 0);
    assert HistoryDoubled(info, 0) by { assert info.permutation[1] == info.permutation[0]; }
    var patterns: seq<seq<(int, int)>> := [[(2, 1), (3, 1)]];
    assert patterns[0][0].0 != patterns[0][0].1;
    MergeExactIff(info, 1, patterns);
  }
}
