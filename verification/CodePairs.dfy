/**
 Which pairs of code blocks a list of combined generators stands for, and the memo table that maps a
 pair of blocks to the one block created for it (code_constr).
 */
module CodePairs {
  import opened Wrappers
  import opened Generators
  import opened AxisTransform
  import opened GridRegions

  // ---- pairs ----

  function PairOf(c: Code): (Code, Code) {
    if c.Combined? then (c.target, c.subst) else (c, c)
  }

  function Tag(g: Gen, v: seq<int>): multiset<(Code, Code)> {
    if Member(g.axes, v) then multiset{PairOf(g.code)} else multiset{}
  }

  function TagOf(v: seq<int>): Gen -> multiset<(Code, Code)> {
    g => Tag(g, v)
  }

  /** The pairs of code blocks of all generators that select v. */
  function Tags(gs: seq<Gen>, v: seq<int>): multiset<(Code, Code)> {
    Total(gs, TagOf(v))
  }

  lemma TagsPrepend(g: Gen, gs: seq<Gen>, v: seq<int>)
    ensures Tags([g] + gs, v) == Tag(g, v) + Tags(gs, v)
  {
    TotalConcat([g], gs, TagOf(v));
    TotalOne(g, TagOf(v));
  }

  /** V' selects in addition exactly the vectors of R, once each, for pair p. */
  ghost predicate AddsRegion(V': seq<Gen>, V: seq<Gen>, R: iset<seq<int>>, p: (Code, Code)) {
    forall v {:trigger Tags(V', v)} :: Tags(V', v) == Tags(V, v) + if v in R then multiset{p} else multiset{}
  }

  lemma AddsNothing(V: seq<Gen>, R: iset<seq<int>>, p: (Code, Code))
    requires R == iset{}
    ensures AddsRegion(V, V, R, p)
  {
  }

  lemma AddsTrans(V2: seq<Gen>, V1: seq<Gen>, V0: seq<Gen>, R1: iset<seq<int>>, R2: iset<seq<int>>, p: (Code, Code))
    requires AddsRegion(V1, V0, R1, p) && AddsRegion(V2, V1, R2, p) && R1 !! R2
    ensures AddsRegion(V2, V0, R1 + R2, p)
  {
    forall v ensures Tags(V2, v) == Tags(V0, v) + if v in R1 + R2 then multiset{p} else multiset{} {
      assert Tags(V1, v) == Tags(V0, v) + if v in R1 then multiset{p} else multiset{};
    }
  }

  lemma AddsOne(g: Gen, V: seq<Gen>, R: iset<seq<int>>)
    requires forall v :: v in R <==> Member(g.axes, v)
    ensures AddsRegion([g] + V, V, R, PairOf(g.code))
  {
    forall v ensures Tags([g] + V, v) == Tags(V, v) + if v in R then multiset{PairOf(g.code)} else multiset{} {
      TagsPrepend(g, V, v);
    }
  }

  // ---- the scan over the residues of one axis ----

  /** A run has been intersected: everything up to and including the residue behind it is done. */
  lemma ScannedRun(V2: seq<Gen>, V1: seq<Gen>, V0: seq<Gen>, b: seq<Axis>, t: seq<Axis>, s: seq<Axis>, dim: nat,
                   tOff: int, sOff: int, first: int, last: int, p: (Code, Code))
    requires |b| == |t| == |s| && dim < |b| && Prepared(b[dim], t[dim], s[dim], tOff, sOff)
    requires 0 <= first < last <= b[dim].step
    requires forall r :: first <= r < last ==> BothGrids(t[dim], s[dim], tOff, sOff, r)
    requires last < b[dim].step ==> !BothGrids(t[dim], s[dim], tOff, sOff, last)
    requires AddsRegion(V1, V0, RegionBelow(b, t, s, dim, first), p)
    requires AddsRegion(V2, V1, Region(Narrowed(b, dim, first, last), t, s, dim + 1), p)
    ensures AddsRegion(V2, V0, RegionBelow(b, t, s, dim, last + 1), p)
  {
    var next := Region(Narrowed(b, dim, first, last), t, s, dim + 1);
    AddRun(b, t, s, dim, tOff, sOff, first, last);
    AddsTrans(V2, V1, V0, RegionBelow(b, t, s, dim, first), next, p);
    if last < b[dim].step {
      SkipResidue(b, t, s, dim, tOff, sOff, last);
    } else {
      WholePeriod(b, t, s, dim, last);
      WholePeriod(b, t, s, dim, last + 1);
    }
  }

  lemma ScannedBeyond(V1: seq<Gen>, V0: seq<Gen>, b: seq<Axis>, t: seq<Axis>, s: seq<Axis>, dim: nat, first: int,
                      p: (Code, Code))
    requires |b| == |t| == |s| && dim < |b| && b[dim].step > 0 && b[dim].l + first >= b[dim].u
    requires AddsRegion(V1, V0, RegionBelow(b, t, s, dim, first), p)
    ensures AddsRegion(V1, V0, RegionBelow(b, t, s, dim, b[dim].step + 1), p)
  {
    BeyondBound(b, t, s, dim, first);
    WholePeriod(b, t, s, dim, b[dim].step + 1);
  }

  lemma ScannedSkip(V1: seq<Gen>, V0: seq<Gen>, b: seq<Axis>, t: seq<Axis>, s: seq<Axis>, dim: nat,
                    tOff: int, sOff: int, dc: int, p: (Code, Code))
    requires |b| == |t| == |s| && dim < |b| && Prepared(b[dim], t[dim], s[dim], tOff, sOff)
    requires !BothGrids(t[dim], s[dim], tOff, sOff, dc)
    requires AddsRegion(V1, V0, RegionBelow(b, t, s, dim, dc), p)
    ensures AddsRegion(V1, V0, RegionBelow(b, t, s, dim, dc + 1), p)
  {
    SkipResidue(b, t, s, dim, tOff, sOff, dc);
  }

  // ---- all pairs of a target and a subst generator ----

  function Both(t: Gen, s: Gen, v: seq<int>): multiset<(Code, Code)> {
    if Member(t.axes, v) && Member(s.axes, v) then multiset{(t.code, s.code)} else multiset{}
  }

  function BothOf(t: Gen, v: seq<int>): Gen -> multiset<(Code, Code)> {
    s => Both(t, s, v)
  }

  function Row(t: Gen, S: seq<Gen>, v: seq<int>): multiset<(Code, Code)> {
    Total(S, BothOf(t, v))
  }

  function RowOf(S: seq<Gen>, v: seq<int>): Gen -> multiset<(Code, Code)> {
    t => Row(t, S, v)
  }

  /** The pairs of codes under which both lists select v. */
  function Cross(T: seq<Gen>, S: seq<Gen>, v: seq<int>): multiset<(Code, Code)> {
    Total(T, RowOf(S, v))
  }

  lemma {:induction false} RowCount(t: Gen, S: seq<Gen>, v: seq<int>, p: (Code, Code))
    ensures Row(t, S, v)[p] == if p.0 in Hit(t, v) then Hits(S, v)[p.1] else 0
  {
    if S != [] {
      RowCount(t, S[..|S| - 1], v, p);
    }
  }

  /** Target code and subst code meet as often as the product of how often either selects v. */
  lemma {:induction false} CrossCount(T: seq<Gen>, S: seq<Gen>, v: seq<int>, p: (Code, Code))
    ensures Cross(T, S, v)[p] == Hits(T, v)[p.0] * Hits(S, v)[p.1]
  {
    if T != [] {
      var init, t := T[..|T| - 1], T[|T| - 1];
      var a, b, c := Hits(init, v)[p.0], if p.0 in Hit(t, v) then 1 else 0, Hits(S, v)[p.1];
      CrossCount(init, S, v, p);
      RowCount(t, S, v, p);
      assert Cross(T, S, v)[p] == a * c + b * c;
      assert Hits(T, v)[p.0] == a + b;
      AddedRow(a, b, c);
    }
  }

  lemma AddedRow(a: int, b: int, c: int)
    ensures (a + b) * c == a * c + b * c
  {
  }

  /** V stands for the first i target generators against all of S, and target generator i against the
      first j of S. */
  ghost predicate Crossed(V: seq<Gen>, T: seq<Gen>, S: seq<Gen>, i: nat, j: nat)
    requires i <= |T| && j <= |S| && (j > 0 ==> i < |T|)
  {
    forall v {:trigger Tags(V, v)} ::
      Tags(V, v) == Cross(T[..i], S, v) + if j == 0 then multiset{} else Row(T[i], S[..j], v)
  }

  ghost function Overlap(t: Gen, s: Gen): iset<seq<int>> {
    iset v: seq<int> | Member(t.axes, v) && Member(s.axes, v)
  }

  lemma EmptyOverlap(t: Gen, s: Gen, d: nat)
    requires d < |t.axes| == |s.axes| && Max(t.axes[d].l, s.axes[d].l) >= Min(t.axes[d].u, s.axes[d].u)
    ensures Overlap(t, s) == iset{}
  {
    forall v ensures v !in Overlap(t, s) {
      if |v| == |t.axes| {
        assert !(In(t.axes[d], v[d]) && In(s.axes[d], v[d]));
      }
    }
  }

  /** With no axis fixed yet the region is the overlap of the two generators. */
  lemma OverlapIsRegion(b: seq<Axis>, t: Gen, s: Gen)
    requires |b| == |t.axes| == |s.axes| && forall d :: 0 <= d < |b| ==> Bounded(b[d], t.axes[d], s.axes[d])
    ensures Region(b, t.axes, s.axes, 0) == Overlap(t, s)
  {
    forall v ensures v in Region(b, t.axes, s.axes, 0) <==> v in Overlap(t, s) {
      RegionNoneFixed(b, t.axes, s.axes, v);
    }
  }

  /** Without grids the bounds alone are the intersection. */
  lemma PlainOverlap(b: seq<Axis>, t: Gen, s: Gen)
    requires |b| == |t.axes| == |s.axes| && forall d :: 0 <= d < |b| ==> Bounded(b[d], t.axes[d], s.axes[d])
    requires PlainAxes(b) && PlainAxes(t.axes) && PlainAxes(s.axes)
    ensures forall v :: v in Overlap(t, s) <==> Member(b, v)
  {
    forall v: seq<int> | |v| == |b| ensures v in Overlap(t, s) <==> Member(b, v) {
      forall d | 0 <= d < |b| ensures In(b[d], v[d]) <==> In(t.axes[d], v[d]) && In(s.axes[d], v[d]) {
      }
    }
  }

  lemma CrossedStart(T: seq<Gen>, S: seq<Gen>)
    ensures Crossed([], T, S, 0, 0)
  {
  }

  lemma CrossedNext(V': seq<Gen>, V: seq<Gen>, T: seq<Gen>, S: seq<Gen>, i: nat, j: nat)
    requires i < |T| && j < |S| && Crossed(V, T, S, i, j)
    requires AddsRegion(V', V, Overlap(T[i], S[j]), (T[i].code, S[j].code))
    ensures Crossed(V', T, S, i, j + 1)
  {
    hide Tags, Cross, Total, Member;
    forall v ensures Tags(V', v) == Cross(T[..i], S, v) + Row(T[i], S[..j + 1], v) {
      RowSnoc(T[i], S, j, v);
      assert Tags(V', v) == Tags(V, v) + Both(T[i], S[j], v);
    }
  }

  lemma RowSnoc(t: Gen, S: seq<Gen>, j: nat, v: seq<int>)
    requires j < |S|
    ensures Row(t, S[..0], v) == multiset{} && Row(t, S[..j + 1], v) == Row(t, S[..j], v) + Both(t, S[j], v)
  {
    hide Both;
    TotalSnoc(S, j, BothOf(t, v));
  }

  lemma CrossedRow(V: seq<Gen>, T: seq<Gen>, S: seq<Gen>, i: nat)
    requires i < |T| && Crossed(V, T, S, i, |S|)
    ensures Crossed(V, T, S, i + 1, 0)
  {
    forall v ensures Tags(V, v) == Cross(T[..i + 1], S, v) {
      TotalSnoc(T, i, RowOf(S, v));
      assert S[..|S|] == S;
      assert Tags(V, v) == Cross(T[..i], S, v) + Row(T[i], S, v);
    }
  }

  lemma CrossedAll(V: seq<Gen>, T: seq<Gen>, S: seq<Gen>)
    requires Crossed(V, T, S, |T|, 0)
    ensures forall v {:trigger Tags(V, v)} :: Tags(V, v) == Cross(T, S, v)
  {
    assert T[..|T|] == T;
  }

  // ---- the memo table ----

  datatype CodeConstr = CodeConstr(target: Code, subst: Code, mnew: Code)

  function Lookup(cc: seq<CodeConstr>, t: Code, s: Code): Option<Code> {
    if cc == [] then None
    else if cc[0].target == t && cc[0].subst == s then Some(cc[0].mnew)
    else Lookup(cc[1..], t, s)
  }

  /** Every entry holds a block created for its pair, and no pair has two entries. */
  predicate Memo(cc: seq<CodeConstr>, serial: nat) {
    && (forall i :: 0 <= i < |cc| ==>
         cc[i].mnew.Combined? && cc[i].mnew.target == cc[i].target && cc[i].mnew.subst == cc[i].subst &&
         cc[i].mnew.serial < serial)
    && (forall i, j :: 0 <= i < j < |cc| ==> (cc[i].target, cc[i].subst) != (cc[j].target, cc[j].subst))
  }

  /** Every block created is in the list of new blocks. */
  predicate Listed(cc: seq<CodeConstr>, newCodes: seq<Code>) {
    forall i :: 0 <= i < |cc| ==> cc[i].mnew in newCodes
  }

  lemma ListedMore(cc: seq<CodeConstr>, newCodes: seq<Code>, e: CodeConstr)
    requires Listed(cc, newCodes)
    ensures Listed([e] + cc, [e.mnew] + newCodes)
  {
    assert forall i :: 0 < i < |[e] + cc| ==> ([e] + cc)[i] == cc[i - 1];
  }

  lemma {:induction false} LookupNone(cc: seq<CodeConstr>, t: Code, s: Code)
    requires Lookup(cc, t, s).None?
    ensures forall i :: 0 <= i < |cc| ==> (cc[i].target, cc[i].subst) != (t, s)
  {
    if cc != [] {
      LookupNone(cc[1..], t, s);
      assert forall i :: 0 < i < |cc| ==> cc[i] == cc[1..][i - 1];
    }
  }

  lemma {:induction false} LookupSome(cc: seq<CodeConstr>, t: Code, s: Code, serial: nat)
    requires Memo(cc, serial) && Lookup(cc, t, s).Some?
    ensures var c := Lookup(cc, t, s).value; c.Combined? && c.target == t && c.subst == s && c.serial < serial
  {
    if !(cc[0].target == t && cc[0].subst == s) {
      LookupSome(cc[1..], t, s, serial);
    }
  }

  /** Every generator carries the block the table holds for its pair. */
  predicate Memoised(V: seq<Gen>, cc: seq<CodeConstr>) {
    forall k :: 0 <= k < |V| ==>
      V[k].code.Combined? && Lookup(cc, V[k].code.target, V[k].code.subst) == Some(V[k].code)
  }

  /** A new entry for a new pair leaves all answers as they were. */
  lemma MemoGrows(V: seq<Gen>, cc: seq<CodeConstr>, e: CodeConstr)
    requires Memoised(V, cc) && Lookup(cc, e.target, e.subst).None?
    ensures Memoised(V, [e] + cc)
  {
    assert ([e] + cc)[1..] == cc;
  }

  /** Equal pairs, equal blocks: in a memoised list two generators for the same pair share their code. */
  lemma SamePairSameCode(V: seq<Gen>, cc: seq<CodeConstr>, i: nat, j: nat)
    requires Memoised(V, cc) && i < |V| && j < |V| && PairOf(V[i].code) == PairOf(V[j].code)
    ensures V[i].code == V[j].code
  {
  }

  /** A memoised list hits a block as often as the pair it was created for. */
  lemma {:induction false} HitsFromTags(V: seq<Gen>, cc: seq<CodeConstr>, v: seq<int>, c: Code)
    requires Memoised(V, cc)
    ensures Hits(V, v)[c] ==
      if c.Combined? && Lookup(cc, c.target, c.subst) == Some(c) then Tags(V, v)[(c.target, c.subst)] else 0
  {
    if V != [] {
      HitsFromTags(V[..|V| - 1], cc, v, c);
    }
  }
}
