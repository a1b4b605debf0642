/**
 Selection vectors that use an index scalar more than once, such as [i, i]: the components based on the
 same scalar are merged into one axis (RemoveDoubleIndexVectors).
 */
module DoubleIndexVectors {
  import opened Wrappers
  import opened Generators
  import opened AxisTransform
  import opened IndexInfos
  import opened InternGens
  import opened GridRegions
  import opened FinalTransformation

  /** The generators and the index_info arrays while they are being shortened; `vector` is the number of
      components that are left, the arrays keep their original length. */
  datatype Doubles = Doubles(
    gens: seq<Gen>,
    vector: nat,
    permutation: seq<nat>,
    last: seq<Option<IndexInfo>>,
    constArg: seq<int>)

  predicate Regular(st: Doubles, n: nat) {
    && st.vector <= |st.permutation| == |st.last| == |st.constArg|
    && (forall i :: 0 <= i < |st.permutation| ==> st.permutation[i] <= n)
    && (forall k :: 0 <= k < |st.gens| ==> |st.gens[k].axes| == st.vector)
  }

  /** Entries at..to-1 are overwritten by their successors; entry `to` stays. */
  function Shift<T>(x: seq<T>, at: nat, to: nat): (r: seq<T>)
    requires at <= to < |x|
    ensures |r| == |x|
  {
    x[..at] + x[at + 1..to + 1] + x[to..]
  }

  function ShiftTimes<T>(x: seq<T>, at: nat, to: nat, k: nat): (r: seq<T>)
    requires at <= to < |x|
    ensures |r| == |x|
  {
    if k == 0 then x else Shift(ShiftTimes(x, at, to, k - 1), at, to)
  }

  function MergedAxis(a: Axis, b: Axis): Axis {
    a.(l := Max(a.l, b.l), u := Min(a.u, b.u))
  }

  /** Axis `at` is folded into axis fdim: the bounds only, whatever step and width are. */
  function MergedGen(g: Gen, fdim: nat, at: nat): (r: Gen)
    requires fdim < at < |g.axes|
    ensures |r.axes| == |g.axes| - 1
  {
    var m := g.axes[fdim := MergedAxis(g.axes[fdim], g.axes[at])];
    g.(axes := m[..at] + m[at + 1..])
  }

  function MergedGens(V: seq<Gen>, fdim: nat, at: nat): (r: seq<Gen>)
    requires forall k :: 0 <= k < |V| ==> fdim < at < |V[k].axes|
    ensures |r| == |V| && forall k :: 0 <= k < |V| ==> r[k] == MergedGen(V[k], fdim, at)
  {
    seq(|V|, k requires 0 <= k < |V| => MergedGen(V[k], fdim, at))
  }

  /** All generators lose component `at`; the index_info arrays are shifted once for every generator. */
  function Merge(st: Doubles, n: nat, fdim: nat, at: nat): (r: Doubles)
    requires Regular(st, n) && fdim < at < st.vector
    ensures Regular(r, n) && r.vector == st.vector - 1
  {
    var to, k := st.vector - 1, |st.gens|;
    ShiftedWithin(st.permutation, at, to, k, n);
    Doubles(MergedGens(st.gens, fdim, at), to,
      ShiftTimes(st.permutation, at, to, k), ShiftTimes(st.last, at, to, k), ShiftTimes(st.constArg, at, to, k))
  }

  lemma {:induction false} ShiftedWithin(x: seq<nat>, at: nat, to: nat, k: nat, n: nat)
    requires at <= to < |x| && forall i :: 0 <= i < |x| ==> x[i] <= n
    ensures forall i :: 0 <= i < |x| ==> ShiftTimes(x, at, to, k)[i] <= n
  {
    if k > 0 {
      ShiftedWithin(x, at, to, k - 1, n);
    }
  }

  /** found[d] is one plus the first component based on index scalar d, if it lies before act, or 0. */
  predicate FoundBelow(found: seq<nat>, act: nat) {
    forall d :: 0 <= d < |found| ==> found[d] <= act
  }

  function RemoveFrom(st: Doubles, n: nat, act: nat, found: seq<nat>): (r: Doubles)
    requires Regular(st, n) && |found| == n && FoundBelow(found, act)
    ensures Regular(r, n)
    decreases st.vector - act
  {
    if act >= st.vector then st
    else
      var p := st.permutation[act];
      if p == 0 then RemoveFrom(st, n, act + 1, found)
      else if found[p - 1] != 0 then RemoveFrom(Merge(st, n, found[p - 1] - 1, act), n, act, found)
      else RemoveFrom(st, n, act + 1, found[p - 1 := act + 1])
  }

  lemma RemoveFromMerges(st: Doubles, n: nat, act: nat, found: seq<nat>)
    requires Regular(st, n) && |found| == n && FoundBelow(found, act) && act < st.vector
    requires st.permutation[act] > 0 && found[st.permutation[act] - 1] != 0
    ensures RemoveFrom(st, n, act, found) ==
      RemoveFrom(Merge(st, n, found[st.permutation[act] - 1] - 1, act), n, act, found)
  {
  }

  lemma RemoveFromKeeps(st: Doubles, n: nat, act: nat, found: seq<nat>)
    requires Regular(st, n) && |found| == n && FoundBelow(found, act) && act < st.vector
    requires st.permutation[act] > 0 ==> found[st.permutation[act] - 1] == 0
    ensures var p := st.permutation[act];
            RemoveFrom(st, n, act, found) ==
              RemoveFrom(st, n, act + 1, if p == 0 then found else found[p - 1 := act + 1])
  {
  }

  lemma RemoveFromDone(st: Doubles, n: nat, act: nat, found: seq<nat>)
    requires Regular(st, n) && |found| == n && FoundBelow(found, act) && act >= st.vector
    ensures RemoveFrom(st, n, act, found) == st
  {
  }

  function RemoveDoublesFrom(st: Doubles, n: nat): (r: Doubles)
    requires Regular(st, n)
    ensures Regular(r, n)
  {
    RemoveFrom(st, n, 0, seq(n, _ => 0))
  }

  function Load(V: seq<Gen>, info: IndexInfo): Doubles {
    Doubles(V, info.vector, info.permutation, info.last, info.constArg)
  }

  function Store(st: Doubles, n: nat, info: IndexInfo): IndexInfo
    requires Regular(st, n)
  {
    info.(vector := st.vector, permutation := st.permutation[..st.vector], last := st.last[..st.vector],
          constArg := st.constArg[..st.vector])
  }

  function RemoveDoubles(V: seq<Gen>, info: IndexInfo, n: nat): (r: (seq<Gen>, IndexInfo))
    requires Addresses(info, n) && |info.last| == info.vector
    requires forall k :: 0 <= k < |V| ==> |V[k].axes| == info.vector
    ensures Addresses(r.1, n)
  {
    var st := RemoveDoublesFrom(Load(V, info), n);
    (st.gens, Store(st, n, info))
  }

  /** Whatever is merged, the generators stay proper. */
  lemma {:induction false} RemoveFromProper(st: Doubles, n: nat, act: nat, found: seq<nat>)
    requires Regular(st, n) && |found| == n && FoundBelow(found, act) && ProperGens(st.gens, st.vector)
    ensures var r := RemoveFrom(st, n, act, found); ProperGens(r.gens, r.vector) && |r.gens| == |st.gens|
    decreases st.vector - act
  {
    hide RemoveFrom, ProperGens, Merge, MergedGen;
    if act >= st.vector {
      RemoveFromDone(st, n, act, found);
    } else {
      var p := st.permutation[act];
      if p > 0 && found[p - 1] != 0 {
        RemoveFromMerges(st, n, act, found);
        MergeProper(st, n, found[p - 1] - 1, act);
        RemoveFromProper(Merge(st, n, found[p - 1] - 1, act), n, act, found);
      } else {
        RemoveFromKeeps(st, n, act, found);
        RemoveFromProper(st, n, act + 1, if p == 0 then found else found[p - 1 := act + 1]);
      }
    }
  }

  lemma MergeProper(st: Doubles, n: nat, fdim: nat, at: nat)
    requires Regular(st, n) && fdim < at < st.vector && ProperGens(st.gens, st.vector)
    ensures var m := Merge(st, n, fdim, at); ProperGens(m.gens, m.vector) && |m.gens| == |st.gens|
  {
    MergedProper(st.gens, st.vector, fdim, at);
    hide MergedGens, ProperGens, ShiftTimes;
  }

  lemma MergedProper(V: seq<Gen>, vector: nat, fdim: nat, at: nat)
    requires ProperGens(V, vector) && fdim < at < vector
    ensures forall k :: 0 <= k < |V| ==> fdim < at < |V[k].axes|
    ensures ProperGens(MergedGens(V, fdim, at), vector - 1)
  {
    assert forall k :: 0 <= k < |V| ==> ProperGen(V[k], vector);
    forall k | 0 <= k < |V| ensures ProperGen(MergedGen(V[k], fdim, at), vector - 1) {
      var a, b := V[k].axes, MergedGen(V[k], fdim, at).axes;
      forall i | 0 <= i < |b| ensures Proper(b[i]) && (!V[k].hasGrid ==> Plain(b[i])) {
        assert b[i] == if i == fdim then MergedAxis(a[fdim], a[at]) else a[if i < at then i else i + 1];
      }
    }
  }

  // ---- what it is right for ----

  /** found is up to date: the components before act are the first of their scalars. */
  predicate Firsts(st: Doubles, n: nat, act: nat, found: seq<nat>)
    requires Regular(st, n)
  {
    && |found| == n && act <= st.vector
    && (forall d :: 0 <= d < n && found[d] > 0 ==> found[d] <= act && st.permutation[found[d] - 1] == d + 1)
    && (forall i, d {:trigger st.permutation[i], found[d]} ::
         0 <= i < act && 0 <= d < n && st.permutation[i] == d + 1 ==> found[d] == i + 1)
  }

  /** A component that is constant or the first of its scalar keeps found up to date. */
  lemma FirstsNext(st: Doubles, n: nat, act: nat, found: seq<nat>)
    requires Regular(st, n) && Firsts(st, n, act, found) && act < st.vector
    requires st.permutation[act] > 0 ==> found[st.permutation[act] - 1] == 0
    ensures Firsts(st, n, act + 1,
              if st.permutation[act] == 0 then found else found[st.permutation[act] - 1 := act + 1])
  {
  }

  lemma FirstsSame(st: Doubles, m: Doubles, n: nat, act: nat, found: seq<nat>)
    requires Regular(st, n) && Regular(m, n) && Firsts(st, n, act, found) && act <= m.vector
    requires forall i :: 0 <= i < act ==> m.permutation[i] == st.permutation[i]
    ensures Firsts(m, n, act, found)
  {
  }

  predicate DistinctFirst(permutation: seq<nat>, vector: nat)
    requires vector <= |permutation|
  {
    forall i, j :: 0 <= i < j < vector && permutation[i] > 0 ==> permutation[i] != permutation[j]
  }

  lemma NotFoundYet(st: Doubles, n: nat, act: nat, found: seq<nat>)
    requires Regular(st, n) && Firsts(st, n, act, found) && act < st.vector && DistinctFirst(st.permutation, st.vector)
    ensures FoundBelow(found, act) && |found| == n && st.permutation[act] <= n
    ensures st.permutation[act] > 0 ==> found[st.permutation[act] - 1] == 0
  {
  }

  /** Without doubles nothing changes. */
  lemma {:induction false} RemoveFromDistinct(st: Doubles, n: nat, act: nat, found: seq<nat>)
    requires Regular(st, n) && Firsts(st, n, act, found)
    requires DistinctFirst(st.permutation, st.vector)
    ensures RemoveFrom(st, n, act, found) == st
    decreases st.vector - act
  {
    hide Merge, Firsts, DistinctFirst;
    if act < st.vector {
      var p := st.permutation[act];
      NotFoundYet(st, n, act, found);
      FirstsNext(st, n, act, found);
      hide Regular;
      if p == 0 {
        RemoveFromDistinct(st, n, act + 1, found);
      } else {
        RemoveFromDistinct(st, n, act + 1, found[p - 1 := act + 1]);
      }
    }
  }

  lemma RemoveDoublesDistinct(V: seq<Gen>, info: IndexInfo, n: nat)
    requires Addresses(info, n) && |info.last| == info.vector && DistinctScalars(info)
    requires forall k :: 0 <= k < |V| ==> |V[k].axes| == info.vector
    ensures RemoveDoubles(V, info, n) == (V, info)
  {
    RemoveFromDistinct(Load(V, info), n, 0, seq(n, _ => 0));
    assert info.permutation[..info.vector] == info.permutation;
    assert info.last[..info.vector] == info.last && info.constArg[..info.vector] == info.constArg;
  }

  // ---- the function of the source ----

  /** Folds component `at` of one generator into component fdim; the arrays of the history are shifted along
      with those of the generator. */
  method MergeRecord(ig: InternGen, fdim: nat, at: nat, vector: nat,
                     permutation: seq<nat>, last: seq<Option<IndexInfo>>, constArg: seq<int>)
    returns (permutation': seq<nat>, last': seq<Option<IndexInfo>>, constArg': seq<int>)
    requires ig.Valid() && fdim < at <= vector && ig.shape == vector + 1
    requires vector < |permutation| == |last| == |constArg|
    modifies ig`axes, ig`shape
    ensures ig.Valid() && ig.shape == vector && ig.Value() == MergedGen(old(ig.Value()), fdim, at)
    ensures permutation' == Shift(permutation, at, vector)
    ensures last' == Shift(last, at, vector)
    ensures constArg' == Shift(constArg, at, vector)
  {
    permutation', last', constArg' := permutation, last, constArg;
    var axes := ig.axes[fdim := MergedAxis(ig.axes[fdim], ig.axes[at])];
    ghost var m := axes;
    ShiftNone(m, at);
    ShiftNone(permutation, at);
    ShiftNone(last, at);
    ShiftNone(constArg, at);
    hide Shift;
    for i := at to vector
      invariant |axes| == vector + 1 && axes == Shift(m, at, i)
      invariant permutation' == Shift(permutation, at, i)
      invariant last' == Shift(last, at, i)
      invariant constArg' == Shift(constArg, at, i)
    {
      ShiftStep(m, at, i);
      ShiftStep(permutation, at, i);
      ShiftStep(last, at, i);
      ShiftStep(constArg, at, i);
      axes := axes[i := axes[i + 1]];
      permutation' := permutation'[i := permutation'[i + 1]];
      last' := last'[i := last'[i + 1]];
      constArg' := constArg'[i := constArg'[i + 1]];
    }
    ShiftedOut(m, at, vector);
    ig.axes := axes[..vector];
    ig.shape := vector;
  }

  lemma ShiftNone<T>(x: seq<T>, at: nat)
    requires at < |x|
    ensures Shift(x, at, at) == x
  {
  }

  lemma ShiftStep<T>(x: seq<T>, at: nat, i: nat)
    requires at <= i < |x| - 1
    ensures Shift(x, at, i)[i := Shift(x, at, i)[i + 1]] == Shift(x, at, i + 1)
  {
  }

  lemma ShiftedOut<T>(x: seq<T>, at: nat, to: nat)
    requires at <= to && |x| == to + 1
    ensures Shift(x, at, to)[..to] == x[..at] + x[at + 1..]
  {
  }

  /** The same for all generators of the chain. */
  method MergeChain(substIg: InternGen?, fdim: nat, at: nat, vector: nat,
                    permutation: seq<nat>, last: seq<Option<IndexInfo>>, constArg: seq<int>,
                    ghost s: seq<InternGen>, ghost V: seq<Gen>)
    returns (permutation': seq<nat>, last': seq<Option<IndexInfo>>, constArg': seq<int>)
    requires Segment(substIg, s, null) && Show(s, V, vector + 1) && fdim < at <= vector
    requires vector < |permutation| == |last| == |constArg|
    modifies s
    ensures Segment(substIg, s, null) && |V| == |s| && (forall k :: 0 <= k < |V| ==> |V[k].axes| == vector + 1)
    ensures Show(s, MergedGens(V, fdim, at), vector)
    ensures permutation' == ShiftTimes(permutation, at, vector, |V|)
    ensures last' == ShiftTimes(last, at, vector, |V|)
    ensures constArg' == ShiftTimes(constArg, at, vector, |V|)
  {
    hide Shift, MergedGen, PlainAxes, Regular;
    permutation', last', constArg' := permutation, last, constArg;
    var actIg := substIg;
    ghost var k := 0;
    ShownAxes(s, V, vector + 1);
    while actIg != null
      invariant 0 <= k <= |s| && actIg == Link(s, k) && Segment(substIg, s, null)
      invariant permutation' == ShiftTimes(permutation, at, vector, k)
      invariant last' == ShiftTimes(last, at, vector, k)
      invariant constArg' == ShiftTimes(constArg, at, vector, k)
      invariant forall i :: 0 <= i < k ==>
        s[i].Valid() && s[i].shape == vector && s[i].Value() == MergedGen(V[i], fdim, at)
      invariant forall i :: k <= i < |s| ==> s[i].Valid() && s[i].shape == vector + 1 && s[i].Value() == V[i]
      decreases |s| - k
    {
      assert actIg == s[k];
      permutation', last', constArg' := MergeRecord(actIg, fdim, at, vector, permutation', last', constArg');
      actIg := actIg.next;
      k := k + 1;
    }
  }

  /** `goal` is what removing doubles from st, component act and on, leads to. */
  ghost predicate Removing(st: Doubles, n: nat, act: nat, found: seq<nat>, goal: Doubles) {
    Regular(st, n) && |found| == n && FoundBelow(found, act) && RemoveFrom(st, n, act, found) == goal
  }

  method MergeComponent(substIg: InternGen?, fdim: nat, at: nat, vector: nat,
                        permutation: seq<nat>, last: seq<Option<IndexInfo>>, constArg: seq<int>,
                        ghost n: nat, ghost found: seq<nat>, ghost s: seq<InternGen>, ghost st: Doubles,
                        ghost goal: Doubles)
    returns (vector': nat, permutation': seq<nat>, last': seq<Option<IndexInfo>>, constArg': seq<int>,
             ghost st': Doubles)
    requires st == Doubles(st.gens, vector, permutation, last, constArg) && Removing(st, n, at, found, goal)
    requires Segment(substIg, s, null) && Show(s, st.gens, vector)
    requires at < vector && permutation[at] > 0 && found[permutation[at] - 1] == fdim + 1
    modifies s
    ensures vector' == vector - 1
    ensures st' == Doubles(st'.gens, vector', permutation', last', constArg') && Removing(st', n, at, found, goal)
    ensures Segment(substIg, s, null) && Show(s, st'.gens, vector')
  {
    hide RemoveFrom, Segment, Show, Shift, ShiftTimes;
    RemoveFromMerges(st, n, at, found);
    vector' := vector - 1;
    permutation', last', constArg' := MergeChain(substIg, fdim, at, vector', permutation, last, constArg, s, st.gens);
    st' := Merge(st, n, fdim, at);
  }

  /** A constant, or the first component of its scalar, stays. */
  method NextComponent(found: array<nat>, act: nat, p: nat, ghost n: nat, ghost st: Doubles, ghost goal: Doubles)
    returns (act': nat)
    requires Removing(st, n, act, found[..], goal) && act < st.vector
    requires st.permutation[act] == p && (p > 0 ==> found[p - 1] == 0)
    modifies found
    ensures act' == act + 1 && Removing(st, n, act', found[..], goal)
  {
    hide RemoveFrom;
    RemoveFromKeeps(st, n, act, found[..]);
    if p != 0 {
      found[p - 1] := act + 1;
    }
    act' := act + 1;
  }

  lemma ShownAxes(s: seq<InternGen>, V: seq<Gen>, n: nat)
    requires Show(s, V, n)
    ensures forall k :: 0 <= k < |V| ==> |V[k].axes| == n
  {
    assert forall k :: 0 <= k < |V| ==> V[k] == s[k].Value();
  }

  method RemoveDoubleIndexVectors(substIg: InternGen?, transformations: IndexInfo, targetDim: nat,
                                  ghost s: seq<InternGen>, ghost V: seq<Gen>)
    returns (transformations': IndexInfo)
    requires Addresses(transformations, targetDim) && |transformations.last| == transformations.vector
    requires Segment(substIg, s, null) && Show(s, V, transformations.vector)
    modifies s
    ensures Segment(substIg, s, null) && forall k :: 0 <= k < |V| ==> |V[k].axes| == transformations.vector
    ensures transformations' == RemoveDoubles(V, transformations, targetDim).1
    ensures Show(s, RemoveDoubles(V, transformations, targetDim).0, transformations'.vector)
  {
    var found := new nat[targetDim](_ => 0);
    var vector: nat := transformations.vector;
    var permutation, last, constArg := transformations.permutation, transformations.last, transformations.constArg;
    ShownAxes(s, V, vector);
    ghost var st := Load(V, transformations);
    ghost var goal := RemoveDoublesFrom(st, targetDim);
    assert found[..] == seq(targetDim, _ => 0);
    var actDim: nat := 0;
    assert Removing(st, targetDim, 0, found[..], goal);
    hide Removing, RemoveFrom, Segment, Show, Merge;
    while actDim < vector
      invariant st == Doubles(st.gens, vector, permutation, last, constArg) && vector <= |permutation|
      invariant Segment(substIg, s, null) && Show(s, st.gens, vector)
      invariant Removing(st, targetDim, actDim, found[..], goal)
      decreases vector - actDim
    {
      var p: nat := permutation[actDim];
      RemovingScalar(st, targetDim, actDim, found[..], goal);
      var first: nat := if p != 0 then found[p - 1] else 0;
      if first != 0 {
        vector, permutation, last, constArg, st :=
          MergeComponent(substIg, first - 1, actDim, vector, permutation, last, constArg,
                         targetDim, found[..], s, st, goal);
      } else {
        actDim := NextComponent(found, actDim, p, targetDim, st, goal);
      }
      RemovingSizes(st, targetDim, actDim, found[..], goal);
    }
    RemovingDone(st, targetDim, actDim, found[..], goal);
    transformations' := transformations.(vector := vector, permutation := permutation[..vector], last := last[..vector],
                                         constArg := constArg[..vector]);
  }

  lemma RemovingScalar(st: Doubles, n: nat, act: nat, found: seq<nat>, goal: Doubles)
    requires Removing(st, n, act, found, goal) && act < st.vector <= |st.permutation|
    ensures |found| == n && st.permutation[act] <= n
  {
  }

  lemma RemovingSizes(st: Doubles, n: nat, act: nat, found: seq<nat>, goal: Doubles)
    requires Removing(st, n, act, found, goal)
    ensures st.vector <= |st.permutation| == |st.last| == |st.constArg|
  {
  }

  lemma RemovingDone(st: Doubles, n: nat, act: nat, found: seq<nat>, goal: Doubles)
    requires Removing(st, n, act, found, goal) && act >= st.vector
    ensures goal == st && Regular(st, n)
  {
  }
}
