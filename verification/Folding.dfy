/**
 Folding one with-loop into another (Fold): what the generators of the folded loop are, and that the folded
 loop computes what the target loop computed when it selected from the subst loop's array.
 */
module Folding {
  import opened Wrappers
  import opened Generators
  import opened AxisTransform
  import opened IndexInfos
  import opened InternGens
  import opened LinearTransformations
  import opened FinalTransformation
  import opened CodePairs
  import opened RangeCheck
  import opened DoubleIndexVectors
  import opened DoubleExactness
  import opened WithloopFolding

  /** Every target generator lies in the pulled-back box of the subst loop. */
  ghost predicate InRange(T: seq<Gen>, shape: seq<int>, info: IndexInfo, n: nat)
    requires Checkable(info, shape, n)
  {
    var W := Whole(shape, info, n);
    n == 0 || (W != [] && |W[0].axes| == n && FirstFault(T, W[0], n, 0))
  }

  datatype Outcome = RangeError(dim: nat) | RangeUndefined | ConstantsOutOfRange | Folded(newIg: InternGen?)

  ghost predicate Foldable(T: seq<Gen>, S: seq<Gen>, shape: seq<int>, info: IndexInfo, n: nat) {
    Checkable(info, shape, n) && (n == 0 ==> Gridless(T)) && Transforming(S, info, n)
  }

  /** Fold: code_constr is cleared, the range is checked, the subst loop's generators are transformed, and both
      lists are intersected. */
  method Fold(f: Folder, transformations: IndexInfo, shape: seq<int>, targetIg: InternGen, substIg: InternGen,
              ghost n: nat,
              ghost ts: seq<InternGen>, ghost T: seq<Gen>, ghost ss: seq<InternGen>, ghost S: seq<Gen>)
    returns (outcome: Outcome)
    requires GenChain(targetIg, ts, T, n) && GenChain(substIg, ss, S, transformations.vector)
    requires forall i :: 0 <= i < |ts| ==> ts[i] !in ss
    requires Foldable(T, S, shape, transformations, n) && f.Buffers(n)
    modifies f, f.gridsOt, f.gridsOs, ss
    ensures match outcome
            case RangeUndefined => n > 0 && Whole(shape, transformations, n) == []
            case RangeError(dim) =>
              && var W := Whole(shape, transformations, n);
              && n > 0 && dim > 0 && W != [] && |W[0].axes| == n && FirstFault(T, W[0], n, dim)
            case ConstantsOutOfRange =>
              InRange(T, shape, transformations, n) && SubstList(S, transformations, n) == []
            case Folded(newIg) =>
              && InRange(T, shape, transformations, n) && SubstList(S, transformations, n) != []
              && f.Valid(n) && newIg == f.internGen && fresh(Records(f.chain))
              && forall v {:trigger Tags(f.values, v)} ::
                   Tags(f.values, v) == Cross(T, SubstList(S, transformations, n), v)
  {
    hide GenChain, SubstList, Whole, Segment, Show, FirstFault, Cross, Tags, Memoised;
    f.codeConstr := [];
    var error := TransformationRangeCheck(transformations, shape, targetIg, n, ts, T);
    if error.Undefined? {
      return RangeUndefined;
    }
    if error.dim != 0 {
      return RangeError(error.dim);
    }
    ChainAt(targetIg, ts, T, n, 0);
    var subst;
    ghost var ss';
    subst, ss' := TransformList(substIg, transformations, targetIg.shape, ss, S);
    ChainEnds(subst, ss', SubstList(S, transformations, n), n);
    if subst == null {
      return ConstantsOutOfRange;
    }
    ScalarGridless(S, transformations, n);
    f.IntersectInternGen(targetIg, subst, n, ts, T, ss', SubstList(S, transformations, n));
    outcome := Folded(f.internGen);
  }

  lemma ChainEnds(head: InternGen?, s: seq<InternGen>, V: seq<Gen>, n: nat)
    requires GenChain(head, s, V, n)
    ensures head == null <==> V == []
  {
  }

  lemma ScalarGridless(S: seq<Gen>, info: IndexInfo, n: nat)
    requires Transforming(S, info, n)
    ensures n == 0 ==> Gridless(SubstList(S, info, n))
  {
    PullVectorKeeps(S, info);
    RemoveDoublesKeeps(PullVector(S, info), info, n);
    var (V, r) := RemoveDoubles(PullVector(S, info), info, n);
    FinalListScalar(V, r, n, |V|);
  }

  lemma {:induction false} FinalListScalar(V: seq<Gen>, info: IndexInfo, n: nat, k: nat)
    requires info.vector == |info.permutation| == |info.constArg| && ProperGens(V, info.vector) && k <= |V|
    ensures n == 0 ==> Gridless(FinalList(V, info, n, k))
  {
    if k > 0 {
      FinalListScalar(V, info, n, k - 1);
    }
  }

  // ---- the theorem ----

  /** The subst loop computes every element of its array exactly once, and no others. */
  ghost predicate Partitions(S: seq<Gen>, shape: seq<int>, n: nat) {
    forall w {:trigger Hits(S, w)} :: |w| == n ==> |Hits(S, w)| == if InShape(shape, w) then 1 else 0
  }

  /** Where the target loop selects something, rounding quotients down leads to the same block of the subst loop. */
  ghost predicate SameBlocks(T: seq<Gen>, S: seq<Gen>, info: IndexInfo, n: nat)
    requires VectorHistory(info) && Addresses(info, n)
  {
    forall iv {:trigger Hits(T, iv)} :: |iv| == n && Hits(T, iv) != multiset{} ==>
      Hits(S, FlooredIndex(info, iv)) == Hits(S, Index(info, iv))
  }

  ghost function Only(m: multiset<Code>): (c: Code)
    requires |m| == 1
    ensures m == multiset{c}
  {
    Singleton(m);
    var c :| c in m;
    c
  }

  lemma Singleton(m: multiset<Code>)
    requires |m| == 1
    ensures exists c :: c in m
    ensures forall c :: c in m ==> m == multiset{c}
  {
    forall c | c in m ensures m == multiset{c} {
      assert |m - multiset{c}| == 0;
    }
    assert m != multiset{};
  }

  /** A list made from all pairs carries, where exactly one target and one subst generator select v, exactly the
      block memoised for their two codes, and nothing where no target or no subst generator selects v. */
  lemma OnePair(V: seq<Gen>, cc: seq<CodeConstr>, T: seq<Gen>, S: seq<Gen>, v: seq<int>)
    requires Memoised(V, cc) && Tags(V, v) == Cross(T, S, v)
    ensures Hits(T, v) == multiset{} || Hits(S, v) == multiset{} ==> Hits(V, v) == multiset{}
    ensures |Hits(T, v)| == 1 && |Hits(S, v)| == 1 ==>
      |Hits(V, v)| == 1 && PairOf(Only(Hits(V, v))) == (Only(Hits(T, v)), Only(Hits(S, v)))
  {
    hide *;
    if Hits(T, v) == multiset{} || Hits(S, v) == multiset{} {
      NoPair(V, cc, T, S, v);
    } else if |Hits(T, v)| == 1 && |Hits(S, v)| == 1 {
      var t, s := Only(Hits(T, v)), Only(Hits(S, v));
      SingleCross(T, S, v, t, s);
      PairCode(V, cc, v, (t, s));
    }
  }

  lemma NoPair(V: seq<Gen>, cc: seq<CodeConstr>, T: seq<Gen>, S: seq<Gen>, v: seq<int>)
    requires Memoised(V, cc) && Tags(V, v) == Cross(T, S, v)
    requires Hits(T, v) == multiset{} || Hits(S, v) == multiset{}
    ensures Hits(V, v) == multiset{}
  {
    hide *;
    forall c ensures Hits(V, v)[c] == 0 {
      HitsFromTags(V, cc, v, c);
      if c.Combined? {
        CrossCount(T, S, v, (c.target, c.subst));
      }
    }
  }

  lemma SingleCross(T: seq<Gen>, S: seq<Gen>, v: seq<int>, t: Code, s: Code)
    requires Hits(T, v) == multiset{t} && Hits(S, v) == multiset{s}
    ensures forall q :: Cross(T, S, v)[q] == if q == (t, s) then 1 else 0
  {
    hide *;
    forall q: (Code, Code) ensures Cross(T, S, v)[q] == if q == (t, s) then 1 else 0 {
      CrossCount(T, S, v, q);
      assert multiset{t}[q.0] == if q.0 == t then 1 else 0;
      assert multiset{s}[q.1] == if q.1 == s then 1 else 0;
    }
  }

  /** Where one pair is hit once, one block is hit once: the one in the table. */
  lemma PairCode(V: seq<Gen>, cc: seq<CodeConstr>, v: seq<int>, p: (Code, Code))
    requires Memoised(V, cc) && forall q :: Tags(V, v)[q] == if q == p then 1 else 0
    ensures |Hits(V, v)| == 1 && PairOf(Only(Hits(V, v))) == p
  {
    TagCode(V, v, p);
    var k :| 0 <= k < |V| && PairOf(V[k].code) == p;
    var block := V[k].code;
    forall c ensures Hits(V, v)[c] == if c == block then 1 else 0 {
      HitsFromTags(V, cc, v, c);
    }
    assert Hits(V, v) == multiset{block};
  }

  lemma TagCode(V: seq<Gen>, v: seq<int>, p: (Code, Code))
    requires p in Tags(V, v)
    ensures exists k :: 0 <= k < |V| && PairOf(V[k].code) == p
  {
    TotalWitness(V, TagOf(v), p);
    var k :| 0 <= k < |V| && p in TagOf(v)(V[k]);
    assert PairOf(V[k].code) == p;
  }

  /** Where there are no index scalars none is used twice. */
  lemma ConstantsTransformable(S: seq<Gen>, info: IndexInfo)
    requires Transforming(S, info, 0)
    ensures Transformable(S, info, 0)
  {
    PullVectorKeeps(S, info);
    RemoveDoublesKeeps(PullVector(S, info), info, 0);
    DistinctIsTidy(PullVector(S, info), info, 0);
  }

  lemma ConstantsOnly(info: IndexInfo)
    requires VectorHistory(info) && Addresses(info, 0)
    ensures NonNegativeVector(info) && FlooredIndex(info, []) == Index(info, [])
  {
  }

  /** A target loop of dimension 0 selects one constant vector; if any transformed generator is left, it lies
      within the shape. */
  lemma ScalarInShape(S: seq<Gen>, shape: seq<int>, info: IndexInfo)
    requires Transforming(S, info, 0) && Partitions(S, shape, info.vector) && SubstList(S, info, 0) != []
    ensures InShape(shape, Index(info, []))
  {
    ConstantsTransformable(S, info);
    ConstantsOnly(info);
    var W := SubstList(S, info, 0);
    var V := PullVector(S, info);
    PullVectorKeeps(S, info);
    RemoveDoublesKeeps(V, info, 0);
    var (X, r) := RemoveDoubles(V, info, 0);
    FinalListProper(X, r, 0, |X|);
    assert ProperGen(W[0], 0);
    HitsWitness(W, [], W[0].code);
    assert Member(W[0].axes, []);
    SubstListExact(S, info, []);
  }

  /** An index vector the target loop selects is mapped into the subst loop's array when quotients are rounded down. */
  lemma TargetInShape(T: seq<Gen>, S: seq<Gen>, shape: seq<int>, info: IndexInfo, iv: seq<int>)
    requires Foldable(T, S, shape, info, |iv|) && InRange(T, shape, info, |iv|) && NonNegativeVector(info)
    requires |iv| == 0 ==> Partitions(S, shape, info.vector) && SubstList(S, info, |iv|) != []
    requires Hits(T, iv) != multiset{}
    ensures Unconstrained(info, iv) && InShape(shape, FlooredIndex(info, iv))
  {
    if |iv| == 0 {
      assert iv == [];
      ScalarInShape(S, shape, info);
      ConstantsOnly(info);
    } else {
      var c :| c in Hits(T, iv);
      HitsWitness(T, iv, c);
      var k :| 0 <= k < |T| && T[k].code == c && Member(T[k].axes, iv);
      CoveredInShape(shape, info, T[k], iv);
    }
  }

  /** No generator of the subst loop is left, so that the source reports constants out of range: then the target loop
      selects nothing at all, unless it is one of dimension 0. */
  lemma NothingLeft(T: seq<Gen>, S: seq<Gen>, shape: seq<int>, info: IndexInfo, iv: seq<int>)
    requires Foldable(T, S, shape, info, |iv|) && Transformable(S, info, |iv|) && |iv| > 0
    requires Partitions(S, shape, info.vector) && NonNegativeVector(info) && InRange(T, shape, info, |iv|)
    requires SubstList(S, info, |iv|) == []
    ensures Hits(T, iv) == multiset{}
  {
    if Hits(T, iv) != multiset{} {
      SomethingLeft(T, S, shape, info, iv);
    }
  }

  lemma SomethingLeft(T: seq<Gen>, S: seq<Gen>, shape: seq<int>, info: IndexInfo, iv: seq<int>)
    requires Foldable(T, S, shape, info, |iv|) && Transformable(S, info, |iv|) && |iv| > 0
    requires Partitions(S, shape, info.vector) && NonNegativeVector(info) && InRange(T, shape, info, |iv|)
    requires Hits(T, iv) != multiset{}
    ensures SubstList(S, info, |iv|) != []
  {
    TargetInShape(T, S, shape, info, iv);
    SubstListExact(S, info, iv);
    assert |FlooredIndex(info, iv)| == info.vector;
    assert |Hits(SubstList(S, info, |iv|), iv)| == 1;
  }

  /** What a code block computes at an index vector, given the selected element of the folded-in array. */
  datatype Meaning<!V> = Meaning(ofTarget: (Code, seq<int>, V) -> V, ofSubst: (Code, seq<int>) -> V)

  /** The element the subst loop computes at index w. */
  ghost function SubstElement<V>(m: Meaning<V>, S: seq<Gen>, w: seq<int>): V
    requires |Hits(S, w)| == 1
  {
    m.ofSubst(Only(Hits(S, w)), w)
  }

  /** The element the target loop computes at iv, selecting from the subst loop's array. */
  ghost function TargetElement<V>(m: Meaning<V>, T: seq<Gen>, S: seq<Gen>, info: IndexInfo, iv: seq<int>): V
    requires VectorHistory(info) && Addresses(info, |iv|)
    requires |Hits(T, iv)| == 1 && |Hits(S, Index(info, iv))| == 1
  {
    m.ofTarget(Only(Hits(T, iv)), iv, SubstElement(m, S, Index(info, iv)))
  }

  /** The element the folded loop computes at iv: its block is the subst block, at the selection vector,
      substituted into the target block. */
  ghost function FoldedElement<V>(m: Meaning<V>, R: seq<Gen>, info: IndexInfo, iv: seq<int>): V
    requires VectorHistory(info) && Addresses(info, |iv|) && |Hits(R, iv)| == 1
  {
    var (t, s) := PairOf(Only(Hits(R, iv)));
    m.ofTarget(t, iv, m.ofSubst(s, Index(info, iv)))
  }

  /** One generator of the folded loop selects iv where one of the target loop does, with the block of the subst loop
      that the rounded selection vector belongs to. */
  lemma FoldedPair(R: seq<Gen>, cc: seq<CodeConstr>, T: seq<Gen>, S: seq<Gen>, shape: seq<int>, info: IndexInfo,
                   iv: seq<int>)
    requires Foldable(T, S, shape, info, |iv|) && Transformable(S, info, |iv|) && NonNegativeVector(info)
    requires Partitions(S, shape, info.vector)
    requires InRange(T, shape, info, |iv|) && (|iv| == 0 ==> SubstList(S, info, |iv|) != [])
    requires Memoised(R, cc) && forall v {:trigger Tags(R, v)} :: Tags(R, v) == Cross(T, SubstList(S, info, |iv|), v)
    requires |Hits(T, iv)| == 1
    ensures InShape(shape, FlooredIndex(info, iv)) && |Hits(S, FlooredIndex(info, iv))| == 1 && |Hits(R, iv)| == 1
    ensures PairOf(Only(Hits(R, iv))) == (Only(Hits(T, iv)), Only(Hits(S, FlooredIndex(info, iv))))
  {
    var W := SubstList(S, info, |iv|);
    assert Tags(R, iv) == Cross(T, W, iv);
    TargetInShape(T, S, shape, info, iv);
    SubstListExact(S, info, iv);
    assert |FlooredIndex(info, iv)| == info.vector;
    hide SubstList, Foldable, Transformable, InRange;
    OnePair(R, cc, T, W, iv);
  }

  /** Folding preserves meaning.  Where the target loop computes an element once, so does the folded loop, and it
      is the same element; where the target loop computes none, the folded loop computes none. */
  lemma FoldPreservesMeaning<V>(m: Meaning<V>, R: seq<Gen>, cc: seq<CodeConstr>, T: seq<Gen>, S: seq<Gen>,
                                shape: seq<int>, info: IndexInfo, iv: seq<int>)
    requires Foldable(T, S, shape, info, |iv|) && Transformable(S, info, |iv|) && NonNegativeVector(info)
    requires Partitions(S, shape, info.vector) && SameBlocks(T, S, info, |iv|)
    requires InRange(T, shape, info, |iv|) && (|iv| == 0 ==> SubstList(S, info, |iv|) != [])
    requires Memoised(R, cc) && forall v {:trigger Tags(R, v)} :: Tags(R, v) == Cross(T, SubstList(S, info, |iv|), v)
    ensures Hits(T, iv) == multiset{} ==> Hits(R, iv) == multiset{}
    ensures |Hits(T, iv)| == 1 ==> |Hits(S, Index(info, iv))| == 1 && |Hits(R, iv)| == 1
    ensures |Hits(T, iv)| == 1 ==> FoldedElement(m, R, info, iv) == TargetElement(m, T, S, info, iv)
  {
    hide SubstList, Transformable, InRange, FlooredIndex, Index;
    if |Hits(T, iv)| == 1 {
      FoldedPair(R, cc, T, S, shape, info, iv);
    } else {
      assert Transforming(S, info, |iv|);
      var W := SubstList(S, info, |iv|);
      assert Tags(R, iv) == Cross(T, W, iv);
      OnePair(R, cc, T, W, iv);
    }
  }

  /** Whatever the blocks compute, the folded loop computes the element of the target loop. */
  ghost predicate AlwaysSameElement(R: seq<Gen>, T: seq<Gen>, S: seq<Gen>, info: IndexInfo, iv: seq<int>)
    requires VectorHistory(info) && Addresses(info, |iv|) && |Hits(T, iv)| == 1 && |Hits(R, iv)| == 1
  {
    && |Hits(S, Index(info, iv))| == 1
    && forall m: Meaning<int> {:trigger FoldedElement(m, R, info, iv)} ::
         FoldedElement(m, R, info, iv) == TargetElement(m, T, S, info, iv)
  }

  /** Nothing less will do: the element at iv is right whatever the blocks compute if and only if rounding quotients
      down leads to the same block. */
  lemma FoldRightIff(R: seq<Gen>, cc: seq<CodeConstr>, T: seq<Gen>, S: seq<Gen>, shape: seq<int>, info: IndexInfo,
                     iv: seq<int>)
    requires Foldable(T, S, shape, info, |iv|) && Transformable(S, info, |iv|) && NonNegativeVector(info)
    requires Partitions(S, shape, info.vector)
    requires InRange(T, shape, info, |iv|) && (|iv| == 0 ==> SubstList(S, info, |iv|) != [])
    requires Memoised(R, cc) && forall v {:trigger Tags(R, v)} :: Tags(R, v) == Cross(T, SubstList(S, info, |iv|), v)
    requires |Hits(T, iv)| == 1
    ensures |Hits(R, iv)| == 1
    ensures AlwaysSameElement(R, T, S, info, iv) <==> Hits(S, FlooredIndex(info, iv)) == Hits(S, Index(info, iv))
  {
    FoldedPair(R, cc, T, S, shape, info, iv);
    hide SubstList, Foldable, Transformable, InRange, FlooredIndex, Index, Partitions;
    if |Hits(S, Index(info, iv))| == 1 {
      var b := Only(Hits(S, FlooredIndex(info, iv)));
      Distinguished(R, T, S, info, iv, Meaning((t, v, x) => x, (s, w) => if s == b then 1 else 0));
    }
  }

  lemma Distinguished(R: seq<Gen>, T: seq<Gen>, S: seq<Gen>, info: IndexInfo, iv: seq<int>, m: Meaning<int>)
    requires VectorHistory(info) && Addresses(info, |iv|) && |Hits(T, iv)| == 1 && |Hits(R, iv)| == 1
    requires |Hits(S, Index(info, iv))| == 1 && |Hits(S, FlooredIndex(info, iv))| == 1
    requires PairOf(Only(Hits(R, iv))).1 == Only(Hits(S, FlooredIndex(info, iv)))
    requires m == Meaning((t, v, x) => x, (s, w) => if s == Only(Hits(S, FlooredIndex(info, iv))) then 1 else 0)
    ensures AlwaysSameElement(R, T, S, info, iv) ==> Hits(S, FlooredIndex(info, iv)) == Hits(S, Index(info, iv))
  {
    if AlwaysSameElement(R, T, S, info, iv) {
      assert FoldedElement(m, R, info, iv) == TargetElement(m, T, S, info, iv);
    }
  }
}
