/**
 From generators over the components of a selection vector to generators over the index scalars of the
 target loop: constants select, permuted components move to the place of their index scalar, index
 scalars that are not used stay unconstrained (FinalTransformations).
 */
module FinalTransformation {
  import opened Generators
  import opened AxisTransform
  import opened IndexInfos
  import opened InternGens

  const INT_MAX: int := 0x7fff_ffff

  /** One plus the last of the first k components that is based on index scalar i, or 0. */
  function Source(info: IndexInfo, i: nat, k: nat): (h: nat)
    requires k <= |info.permutation|
    ensures h <= k
    ensures h > 0 ==> info.permutation[h - 1] == i + 1
  {
    if k == 0 then 0 else if info.permutation[k - 1] == i + 1 then k else Source(info, i, k - 1)
  }

  predicate ConstantsFit(g: Gen, info: IndexInfo)
    requires info.vector == |g.axes| == |info.permutation| == |info.constArg|
  {
    forall d :: 0 <= d < info.vector && info.permutation[d] == 0 ==> In(g.axes[d], info.constArg[d])
  }

  function FinalAxis(g: Gen, info: IndexInfo, i: nat): Axis
    requires info.vector == |g.axes| == |info.permutation|
  {
    var h := Source(info, i, info.vector);
    if h > 0 then g.axes[h - 1] else Axis(0, INT_MAX, 1, 1)
  }

  function RawGen(g: Gen, info: IndexInfo, n: nat): (r: Gen)
    requires info.vector == |g.axes| == |info.permutation|
    ensures |r.axes| == n && forall i :: 0 <= i < n ==> r.axes[i] == FinalAxis(g, info, i)
  {
    Gen(seq(n, i requires 0 <= i < n => FinalAxis(g, info, i)), g.hasGrid, g.code)
  }

  function FinalGen(g: Gen, info: IndexInfo, n: nat): Gen
    requires info.vector == |g.axes| == |info.permutation|
  {
    Normalized(RawGen(g, info, n))
  }

  /** The first k generators done: those whose constants fit, the last one in front. */
  function FinalList(V: seq<Gen>, info: IndexInfo, n: nat, k: nat): seq<Gen>
    requires info.vector == |info.permutation| == |info.constArg| && ProperGens(V, info.vector) && k <= |V|
  {
    if k == 0 then [] else
      assert ProperGen(V[k - 1], info.vector);
      (if ConstantsFit(V[k - 1], info) then [FinalGen(V[k - 1], info, n)] else []) + FinalList(V, info, n, k - 1)
  }

  /** The components of iv that no component of the selection vector is based on are representable. */
  predicate Unconstrained(info: IndexInfo, iv: seq<int>)
    requires info.vector == |info.permutation|
  {
    forall i :: 0 <= i < |iv| && Source(info, i, info.vector) == 0 ==> 0 <= iv[i] < INT_MAX
  }

  lemma {:induction false} SourceFound(info: IndexInfo, d: nat, k: nat)
    requires d < k <= |info.permutation| && info.permutation[d] > 0 && DistinctScalars(info)
    ensures Source(info, info.permutation[d] - 1, k) == d + 1
  {
    if d < k - 1 {
      SourceFound(info, d, k - 1);
    }
  }

  lemma RawProper(g: Gen, info: IndexInfo, n: nat)
    requires ProperGen(g, info.vector) && info.vector == |info.permutation|
    ensures ProperGen(RawGen(g, info, n), n)
  {
    forall i | 0 <= i < n ensures Proper(FinalAxis(g, info, i)) && (!g.hasGrid ==> Plain(FinalAxis(g, info, i))) {
    }
  }

  lemma RawComplete(g: Gen, info: IndexInfo, iv: seq<int>)
    requires Addresses(info, |iv|) && ProperGen(g, info.vector) && Unconstrained(info, iv)
    requires Member(g.axes, Gather(info, iv))
    ensures ConstantsFit(g, info) && Member(RawGen(g, info, |iv|).axes, iv)
  {
    var w := Gather(info, iv);
    forall d | 0 <= d < info.vector && info.permutation[d] == 0 ensures In(g.axes[d], info.constArg[d]) {
      assert w[d] == info.constArg[d];
    }
    forall i | 0 <= i < |iv| ensures In(FinalAxis(g, info, i), iv[i]) {
      var h := Source(info, i, info.vector);
      if h > 0 {
        assert w[h - 1] == iv[i];
        assert In(g.axes[h - 1], w[h - 1]);
      }
    }
  }

  lemma RawSound(g: Gen, info: IndexInfo, iv: seq<int>)
    requires Addresses(info, |iv|) && ProperGen(g, info.vector) && DistinctScalars(info)
    requires ConstantsFit(g, info) && Member(RawGen(g, info, |iv|).axes, iv)
    ensures Member(g.axes, Gather(info, iv))
  {
    var w, raw := Gather(info, iv), RawGen(g, info, |iv|);
    forall d | 0 <= d < info.vector ensures In(g.axes[d], w[d]) {
      if info.permutation[d] > 0 {
        var i := info.permutation[d] - 1;
        SourceFound(info, d, info.vector);
        assert In(raw.axes[i], iv[i]);
      }
    }
  }

  /** One generator: its final form selects iv, and its constants fit, exactly when it selects the vector
      made of the constants and the permuted components of iv. */
  lemma FinalGenExact(g: Gen, info: IndexInfo, iv: seq<int>)
    requires Addresses(info, |iv|) && ProperGen(g, info.vector) && DistinctScalars(info) && Unconstrained(info, iv)
    ensures (if ConstantsFit(g, info) then Hit(FinalGen(g, info, |iv|), iv) else multiset{}) == Hit(g, Gather(info, iv))
  {
    RawProper(g, info, |iv|);
    NormalizedSame(RawGen(g, info, |iv|), |iv|, iv);
    if Member(g.axes, Gather(info, iv)) {
      RawComplete(g, info, iv);
    } else if ConstantsFit(g, info) && Member(RawGen(g, info, |iv|).axes, iv) {
      RawSound(g, info, iv);
      assert false;
    }
  }

  /** FinalTransformations denotes the preimage under "fill in constants and permute". */
  lemma {:induction false} FinalListExact(V: seq<Gen>, info: IndexInfo, iv: seq<int>, k: nat)
    requires Addresses(info, |iv|) && ProperGens(V, info.vector) && DistinctScalars(info) && k <= |V|
    requires Unconstrained(info, iv)
    ensures Hits(FinalList(V, info, |iv|, k), iv) == Hits(V[..k], Gather(info, iv))
  {
    hide *;
    FinalUnfolded(V, info, |iv|, k);
    if k == 0 {
      assert V[..0] == [];
      HitsNone(iv, Gather(info, iv));
    } else {
      var g := V[k - 1];
      FinalListExact(V, info, iv, k - 1);
      FinalGenExact(g, info, iv);
      HitsSnoc(V, k - 1, Gather(info, iv));
      HitsOptional(ConstantsFit(g, info), FinalGen(g, info, |iv|), FinalList(V, info, |iv|, k - 1), iv);
    }
  }

  lemma HitsNone(v: seq<int>, w: seq<int>)
    ensures Hits([], v) == Hits([], w)
  {
  }

  lemma FinalUnfolded(V: seq<Gen>, info: IndexInfo, n: nat, k: nat)
    requires Addresses(info, n) && ProperGens(V, info.vector) && k <= |V|
    ensures info.vector == |info.permutation| == |info.constArg|
    ensures k == 0 ==> FinalList(V, info, n, k) == []
    ensures k > 0 ==>
      var g := V[k - 1];
      && ProperGen(g, info.vector) && |g.axes| == info.vector
      && FinalList(V, info, n, k) ==
           (if ConstantsFit(g, info) then [FinalGen(g, info, n)] else []) + FinalList(V, info, n, k - 1)
  {
    hide FinalGen, ConstantsFit;
  }

  lemma HitsOptional(b: bool, g: Gen, V: seq<Gen>, v: seq<int>)
    ensures Hits((if b then [g] else []) + V, v) == (if b then Hit(g, v) else multiset{}) + Hits(V, v)
  {
    HitsConcat(if b then [g] else [], V, v);
    HitsOne(g, v);
  }

  lemma {:induction false} FinalListProper(V: seq<Gen>, info: IndexInfo, n: nat, k: nat)
    requires Addresses(info, n) && ProperGens(V, info.vector) && k <= |V|
    ensures ProperGens(FinalList(V, info, n, k), n)
  {
    if k > 0 {
      var g := V[k - 1];
      assert ProperGen(g, info.vector);
      RawProper(g, info, n);
      NormalizedSame(RawGen(g, info, n), n, []);
      FinalListProper(V, info, n, k - 1);
    }
  }

  // ---- the function of the source ----

  /** The table from target dimensions to the components based on them. */
  method HelpTable(transformations: IndexInfo, targetDim: nat) returns (help: array<nat>)
    requires Addresses(transformations, targetDim)
    ensures fresh(help) && help.Length == targetDim
    ensures forall i :: 0 <= i < targetDim ==> help[i] == Source(transformations, i, transformations.vector)
  {
    help := new nat[targetDim](_ => 0);
    for i := 0 to transformations.vector
      invariant forall j :: 0 <= j < targetDim ==> help[j] == Source(transformations, j, i)
    {
      if transformations.permutation[i] != 0 {
        help[transformations.permutation[i] - 1] := i + 1;
      }
    }
  }

  method ConstantsQualify(ig: InternGen, transformations: IndexInfo) returns (ok: bool)
    requires ig.Valid() && ProperGen(ig.Value(), ig.shape)
    requires transformations.vector == ig.shape == |transformations.permutation| == |transformations.constArg|
    ensures ok <==> ConstantsFit(ig.Value(), transformations)
  {
    ok := true;
    var i := 0;
    while i < ig.shape && ok
      invariant 0 <= i <= ig.shape
      invariant ok ==> forall d :: 0 <= d < i && transformations.permutation[d] == 0 ==>
        In(ig.axes[d], transformations.constArg[d])
      invariant !ok ==> !ConstantsFit(ig.Value(), transformations)
    {
      var a, c := ig.axes[i], transformations.constArg[i];
      assert Proper(a);
      ok := transformations.permutation[i] != 0
            || (a.l <= c && c < a.u && (!ig.hasGrid || TruncMod(c - a.l, a.step) < a.width));
      i := i + 1;
    }
  }

  method FinalTransformations(substig: InternGen?, transformations: IndexInfo, targetDim: nat,
                              ghost s: seq<InternGen>, ghost V: seq<Gen>)
    returns (rootig: InternGen?, ghost s': seq<InternGen>)
    requires Addresses(transformations, targetDim)
    requires GenChain(substig, s, V, transformations.vector)
    ensures GenChain(rootig, s', FinalList(V, transformations, targetDim, |V|), targetDim) && fresh(s')
  {
    hide GenChain, Segment, Show, FinalGen, ConstantsFit, Source, RawGen, Normalized;
    ChainAt(substig, s, V, transformations.vector, 0);
    NothingFinal(substig, s, V, transformations, targetDim);
    var help := HelpTable(transformations, targetDim);
    var tmpig := substig;
    rootig, s' := null, [];
    ghost var k := 0;
    while tmpig != null
      invariant 0 <= k <= |s| && tmpig == Link(s, k) && GenChain(substig, s, V, transformations.vector)
      invariant forall i :: 0 <= i < targetDim ==> help[i] == Source(transformations, i, transformations.vector)
      invariant fresh(s') && Segment(rootig, s', null)
      invariant Show(s', FinalList(V, transformations, targetDim, k), targetDim)
      decreases |s| - k
    {
      ChainAt(substig, s, V, transformations.vector, k);
      rootig, s' := FinalizeInto(tmpig, rootig, transformations, targetDim, help, s',
        FinalList(V, transformations, targetDim, k));
      tmpig := tmpig.next;
      k := k + 1;
    }
    FinalListProper(V, transformations, targetDim, |V|);
    ChainMade(rootig, s', FinalList(V, transformations, targetDim, |V|), targetDim);
  }

  lemma NothingFinal(head: InternGen?, s: seq<InternGen>, V: seq<Gen>, info: IndexInfo, n: nat)
    requires info.vector == |info.permutation| == |info.constArg| && GenChain(head, s, V, info.vector)
    ensures ProperGens(V, info.vector)
    ensures FinalList(V, info, n, 0) == [] && Segment(null, [], null) && Show([], [], n)
  {
  }

  /** The body of that loop: the generator's final form, if its constants qualify it, goes to the front. */
  method FinalizeInto(tmpig: InternGen, rootig: InternGen?, transformations: IndexInfo, targetDim: nat,
                      help: array<nat>,
                      ghost s: seq<InternGen>, ghost W: seq<Gen>)
    returns (rootig': InternGen?, ghost s': seq<InternGen>)
    requires tmpig.Valid() && ProperGen(tmpig.Value(), transformations.vector) && Addresses(transformations, targetDim)
    requires help.Length == targetDim
    requires forall i :: 0 <= i < targetDim ==> help[i] == Source(transformations, i, transformations.vector)
    requires Segment(rootig, s, null) && Show(s, W, targetDim)
    ensures Segment(rootig', s', null)
    ensures ProperGen(tmpig.Value(), transformations.vector)
    ensures var g := tmpig.Value();
            Show(s', (if ConstantsFit(g, transformations) then [FinalGen(g, transformations, targetDim)] else []) + W,
              targetDim)
    ensures s' == s || (s' != [] && s'[1..] == s && fresh(s'[0]))
  {
    rootig', s' := rootig, s;
    var ok := ConstantsQualify(tmpig, transformations);
    if ok {
      var newig := Finalize(tmpig, transformations, targetDim, help);
      PushFront(newig, rootig, s, null, W, targetDim);
      rootig', s' := newig, [newig] + s;
    }
  }

  /** One generator in its final form, normalised. */
  method Finalize(tmpig: InternGen, transformations: IndexInfo, targetDim: nat, help: array<nat>)
    returns (newig: InternGen)
    requires tmpig.Valid() && ProperGen(tmpig.Value(), transformations.vector) && Addresses(transformations, targetDim)
    requires help.Length == targetDim
    requires forall i :: 0 <= i < targetDim ==> help[i] == Source(transformations, i, transformations.vector)
    ensures fresh(newig) && newig.Valid() && newig.shape == targetDim && newig.next == null
    ensures newig.Value() == FinalGen(tmpig.Value(), transformations, targetDim)
  {
    ghost var g := tmpig.Value();
    newig := new InternGen(targetDim, tmpig.hasGrid);
    for i := 0 to targetDim
      invariant newig.Valid() && newig.shape == targetDim && newig.hasGrid == tmpig.hasGrid && newig.next == null
      invariant forall j :: 0 <= j < i ==> newig.axes[j] == FinalAxis(g, transformations, j)
    {
      if help[i] != 0 {
        newig.axes := newig.axes[i := tmpig.axes[help[i] - 1]];
      } else {
        newig.axes := newig.axes[i := Axis(0, INT_MAX, 1, 1)];
      }
    }
    newig.code := tmpig.code;
    assert newig.Value() == RawGen(g, transformations, targetDim);
    RawProper(g, transformations, targetDim);
    var error := newig.Normalize();
    assert error == 0;
  }
}
