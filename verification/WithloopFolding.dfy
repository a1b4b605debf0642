/**
 Intersecting the generators of a target loop with those of the loop folded into it (AddCC, SearchCC,
 CreateCode, IntersectGrids, IntersectInternGen).
 */
module WithloopFolding {
  import opened Wrappers
  import opened Generators
  import opened AxisTransform
  import opened InternGens
  import opened MathUtils
  import opened GridRegions
  import opened CodePairs

  /** A target generator and a subst generator of dimension n that are being intersected. */
  datatype Crossing = Crossing(n: nat, t: seq<Axis>, s: seq<Axis>, pair: (Code, Code))

  /** The file's global variables. */
  class Folder {
    var codeConstr: seq<CodeConstr>
    var newCodes: seq<Code>
    var serial: nat
    var gridsOt: array<int>
    var gridsOs: array<int>
    var gridsTig: InternGen?
    var gridsSig: InternGen?
    var gridsBaseig: InternGen?
    var internGen: InternGen?
    ghost var chain: seq<InternGen>
    ghost var values: seq<Gen>

    constructor (dim: nat)
      ensures codeConstr == [] && newCodes == [] && serial == 0 && internGen == null && chain == [] && values == []
      ensures gridsOt.Length == gridsOs.Length == dim && gridsOt != gridsOs && fresh(gridsOt) && fresh(gridsOs)
    {
      codeConstr, newCodes, serial := [], [], 0;
      gridsOt, gridsOs := new int[dim], new int[dim];
      gridsTig, gridsSig, gridsBaseig, internGen := null, null, null, null;
      chain, values := [], [];
    }

    /** intersect_intern_gen is a chain of proper generators of dimension n that all carry memoised blocks, and the
        blocks created are in the list of new blocks. */
    ghost predicate Valid(n: nat)
      reads this, chain
    {
      && GenChain(internGen, chain, values, n)
      && Memo(codeConstr, serial) && Memoised(values, codeConstr) && Listed(codeConstr, newCodes)
    }

    // ---- code blocks ----

    method SearchCC(targetn: Code, substn: Code) returns (cc: Option<Code>)
      ensures cc == Lookup(codeConstr, targetn, substn)
    {
      var i := 0;
      while i < |codeConstr| && (codeConstr[i].target != targetn || codeConstr[i].subst != substn)
        invariant 0 <= i <= |codeConstr|
        invariant Lookup(codeConstr, targetn, substn) == Lookup(codeConstr[i..], targetn, substn)
      {
        assert codeConstr[i..][1..] == codeConstr[i + 1..];
        i := i + 1;
      }
      cc := if i < |codeConstr| then Some(codeConstr[i].mnew) else None;
    }

    method AddCC(targetn: Code, substn: Code, resultn: Code)
      modifies this`codeConstr
      ensures codeConstr == [CodeConstr(targetn, substn, resultn)] + old(codeConstr)
    {
      codeConstr := [CodeConstr(targetn, substn, resultn)] + codeConstr;
    }

    /** CreateCode: a new block, the substitution of subst into target. */
    method CreateCode(target: Code, subst: Code) returns (coden: Code)
      modifies this`serial
      ensures coden == Combined(target, subst, old(serial)) && serial == old(serial) + 1
    {
      coden := Combined(target, subst, serial);
      serial := serial + 1;
    }

    /** The block for a pair: the memoised one, or a new one that is entered into the table and prepended
        to the list of new blocks. */
    method CodeFor(target: Code, subst: Code) returns (code: Code)
      requires Memo(codeConstr, serial) && Memoised(values, codeConstr) && Listed(codeConstr, newCodes)
      modifies this`codeConstr, this`newCodes, this`serial
      ensures code.Combined? && code.target == target && code.subst == subst
      ensures Lookup(codeConstr, target, subst) == Some(code)
      ensures Memo(codeConstr, serial) && Memoised(values, codeConstr) && Listed(codeConstr, newCodes)
      ensures if Lookup(old(codeConstr), target, subst).Some? then
                code == Lookup(old(codeConstr), target, subst).value &&
                codeConstr == old(codeConstr) && newCodes == old(newCodes)
              else
                codeConstr == [CodeConstr(target, subst, code)] + old(codeConstr) && newCodes == [code] + old(newCodes)
    {
      var cc := SearchCC(target, subst);
      if cc.Some? {
        LookupSome(codeConstr, target, subst, serial);
        code := cc.value;
      } else {
        code := CreateCode(target, subst);
        LookupNone(codeConstr, target, subst);
        MemoGrows(values, codeConstr, CodeConstr(target, subst, code));
        ListedMore(codeConstr, newCodes, CodeConstr(target, subst, code));
        AddCC(target, subst, code);
        newCodes := [code] + newCodes;
      }
    }

    static lemma OneMoreGen(g: Gen, V: seq<Gen>, cc: seq<CodeConstr>, n: nat)
      requires ProperGens(V, n) && ProperGen(g, n) && Memoised(V, cc)
      requires g.code.Combined? && Lookup(cc, g.code.target, g.code.subst) == Some(g.code)
      ensures ProperGens([g] + V, n) && Memoised([g] + V, cc)
    {
    }

    /** A finished generator gets its block and goes to the front of intersect_intern_gen. */
    method Prepend(ig: InternGen, target: Code, subst: Code, ghost n: nat, ghost R: iset<seq<int>>)
      requires Valid(n) && ig.Valid() && ig.shape == n && ProperGen(ig.Value(), n) && ig !in chain
      requires forall v :: v in R <==> Member(ig.axes, v)
      modifies this`codeConstr, this`newCodes, this`serial, this`internGen, this`chain, this`values
      modifies ig`code, ig`next
      ensures Valid(n) && chain == [ig] + old(chain)
      ensures AddsRegion(values, old(values), R, (target, subst))
    {
      hide GenChain, Segment, Show, ProperGens, Memo, Memoised, Listed, AddsRegion;
      ChainParts(internGen, chain, values, n);
      var code := CodeFor(target, subst);
      ig.code := code;
      PushFront(ig, internGen, chain, null, values, n);
      OneMoreGen(ig.Value(), values, codeConstr, n);
      ChainMade(ig, [ig] + chain, [ig.Value()] + values, n);
      AddsOne(ig.Value(), values, R);
      internGen := ig;
      chain := [ig] + chain;
      values := [ig.Value()] + values;
    }

    // ---- grids ----

    /** What IntersectGrids needs from axis dim on: the common period and the offsets.  b are the base
        generator's axes up to widths that do not matter yet. */
    ghost predicate Ready(c: Crossing, dim: nat, b: seq<Axis>)
      reads this, gridsBaseig, gridsTig, gridsSig, gridsOt, gridsOs
    {
      && gridsBaseig != null && gridsTig != null && gridsSig != null
      && gridsBaseig != gridsTig && gridsBaseig != gridsSig
      && gridsBaseig.Valid() && gridsBaseig.shape == c.n && gridsBaseig.hasGrid
      && gridsTig.Valid() && gridsTig.shape == c.n && gridsTig.axes == c.t
      && gridsSig.Valid() && gridsSig.shape == c.n && gridsSig.axes == c.s
      && c.pair == (gridsTig.code, gridsSig.code)
      && gridsOt.Length == gridsOs.Length == c.n
      && SameBounds(gridsBaseig.axes, b, dim)
      && (forall d :: dim <= d < c.n ==> Prepared(b[d], c.t[d], c.s[d], TOff(d), SOff(d)))
      && (forall d :: 0 <= d < dim && d < c.n ==> Proper(b[d]))
    }

    /** The offsets as they count: none without a grid. */
    ghost function TOff(dim: nat): int
      requires gridsTig != null && dim < gridsOt.Length
      reads this, gridsTig, gridsOt
    {
      if gridsTig.hasGrid then gridsOt[dim] else 0
    }

    ghost function SOff(dim: nat): int
      requires gridsSig != null && dim < gridsOs.Length
      reads this, gridsSig, gridsOs
    {
      if gridsSig.hasGrid then gridsOs[dim] else 0
    }

    ghost predicate Separate()
      reads this
    {
      gridsBaseig !in chain && gridsTig !in chain && gridsSig !in chain
    }

    /** Both grids contain residue dc of axis dim. */
    method Common(dim: nat, dc: int, ghost c: Crossing, ghost b: seq<Axis>) returns (both: bool)
      requires dim < c.n && Ready(c, dim, b)
      ensures both <==> BothGrids(c.t[dim], c.s[dim], TOff(dim), SOff(dim), dc)
    {
      assert !gridsTig.hasGrid ==> Plain(gridsTig.axes[dim]);
      assert !gridsSig.hasGrid ==> Plain(gridsSig.axes[dim]);
      both := (!gridsTig.hasGrid || InGrid(gridsTig.axes[dim], gridsOt[dim], dc))
              && (!gridsSig.hasGrid || InGrid(gridsSig.axes[dim], gridsOs[dim], dc));
    }

    /** On the last axis a run becomes a new generator. */
    method NewGrid(dim: nat, first: int, last: int, ghost c: Crossing, ghost b: seq<Axis>)
      requires dim == c.n - 1 && Valid(c.n) && Ready(c, dim, b) && Separate()
      requires 0 <= first < last <= b[dim].step && b[dim].l + first < b[dim].u
      modifies this`codeConstr, this`newCodes, this`serial, this`internGen, this`chain, this`values
      ensures Valid(c.n) && Separate() && fresh(Records(chain) - Records(old(chain)))
      ensures AddsRegion(values, old(values), Region(Narrowed(b, dim, first, last), c.t, c.s, dim + 1), c.pair)
    {
      hide Memo, Memoised, Listed, AddsRegion, Prepared;
      var ig := gridsBaseig.Copy();
      ghost var b' := Narrowed(b, dim, first, last);
      ig.axes := ig.axes[dim := ig.axes[dim].(l := ig.axes[dim].l + first, width := last - first)];
      assert ig.axes == b';
      forall v ensures v in Region(b', c.t, c.s, dim + 1) <==> Member(b', v) {
        RegionAllFixed(b', c.t, c.s, v);
      }
      Prepend(ig, gridsTig.code, gridsSig.code, c.n, Region(b', c.t, c.s, dim + 1));
    }

    /** The run first <= residue < last of axis dim: the inner axes are intersected below it, or, on the last
        axis, it becomes a new generator. */
    method IntersectRun(dim: nat, first: int, last: int, ghost c: Crossing, ghost b: seq<Axis>)
      requires dim < c.n && Valid(c.n) && Ready(c, dim, b) && Separate()
      requires 0 <= first < last <= b[dim].step && b[dim].l + first < b[dim].u
      modifies this`codeConstr, this`newCodes, this`serial, this`internGen, this`chain, this`values
      modifies gridsBaseig`axes
      ensures Valid(c.n) && Separate() && fresh(Records(chain) - Records(old(chain)))
      ensures gridsBaseig.Valid() && SameBounds(gridsBaseig.axes, b, dim)
      ensures AddsRegion(values, old(values), Region(Narrowed(b, dim, first, last), c.t, c.s, dim + 1), c.pair)
      decreases c.n - dim, 0
    {
      hide Region, RegionBelow, AddsRegion, BothGrids, GenChain, Memo, Memoised, Listed;
      if dim < gridsBaseig.shape - 1 {
        Narrow(dim, first, last, c, b);
        IntersectGrids(dim + 1, c, Narrowed(b, dim, first, last));
        WidenedSame(gridsBaseig.axes, b, dim, first, last);
        Widen(dim, first);
      } else {
        NewGrid(dim, first, last, c, b);
      }
    }

    method Narrow(dim: nat, first: int, last: int, ghost c: Crossing, ghost b: seq<Axis>)
      requires dim < c.n && Ready(c, dim, b)
      requires 0 <= first < last <= b[dim].step && b[dim].l + first < b[dim].u
      modifies gridsBaseig`axes
      ensures Ready(c, dim + 1, Narrowed(b, dim, first, last))
    {
      var a := gridsBaseig.axes[dim];
      gridsBaseig.axes := gridsBaseig.axes[dim := a.(l := a.l + first, width := last - first)];
    }

    /** The lower bound of the base generator is restored. */
    method Widen(dim: nat, first: int)
      requires gridsBaseig != null && dim < |gridsBaseig.axes|
      modifies gridsBaseig`axes
      ensures var a := old(gridsBaseig.axes[dim]);
              gridsBaseig.axes == old(gridsBaseig.axes)[dim := a.(l := a.l - first)]
    {
      var a := gridsBaseig.axes[dim];
      gridsBaseig.axes := gridsBaseig.axes[dim := a.(l := a.l - first)];
    }

    /** The first residue from `first` on that is not common, or the period. */
    method RunEnd(dim: nat, first: int, ghost c: Crossing, ghost b: seq<Axis>) returns (last: int)
      requires dim < c.n && Ready(c, dim, b)
      requires 0 <= first < b[dim].step && BothGrids(c.t[dim], c.s[dim], TOff(dim), SOff(dim), first)
      ensures first < last <= b[dim].step
      ensures forall r :: first <= r < last ==> BothGrids(c.t[dim], c.s[dim], TOff(dim), SOff(dim), r)
      ensures last < b[dim].step ==> !BothGrids(c.t[dim], c.s[dim], TOff(dim), SOff(dim), last)
    {
      last := first + 1;
      var both := Common(dim, last, c, b);
      while both && last < gridsBaseig.axes[dim].step
        invariant first < last <= b[dim].step
        invariant forall r :: first <= r < last ==> BothGrids(c.t[dim], c.s[dim], TOff(dim), SOff(dim), r)
        invariant both <==> BothGrids(c.t[dim], c.s[dim], TOff(dim), SOff(dim), last)
        decreases b[dim].step - last
      {
        last := last + 1;
        both := Common(dim, last, c, b);
      }
    }

    /** Adds to intersect_intern_gen what target and subst grid have in common, axis dim and inwards, below
        the runs already fixed on the outer axes; the bounds of the base generator are restored. */
    method IntersectGrids(dim: nat, ghost c: Crossing, ghost b: seq<Axis>)
      requires dim < c.n && Valid(c.n) && Ready(c, dim, b) && Separate()
      modifies this`codeConstr, this`newCodes, this`serial, this`internGen, this`chain, this`values
      modifies gridsBaseig`axes
      ensures Valid(c.n) && Separate() && fresh(Records(chain) - Records(old(chain)))
      ensures gridsBaseig.Valid() && SameBounds(gridsBaseig.axes, b, dim)
      ensures AddsRegion(values, old(values), Region(b, c.t, c.s, dim), c.pair)
      decreases c.n - dim, 3
    {
      var dc := 0;
      WholePeriod(b, c.t, c.s, dim, b[dim].step);
      AddsNothing(values, RegionBelow(b, c.t, c.s, dim, 0), c.pair);
      while dc < gridsBaseig.axes[dim].step
        invariant 0 <= dc <= b[dim].step + 1
        invariant Valid(c.n) && Separate() && fresh(Records(chain) - Records(old(chain)))
        invariant Ready(c, dim, b)
        invariant AddsRegion(values, old(values), RegionBelow(b, c.t, c.s, dim, dc), c.pair)
        decreases b[dim].step - dc
      {
        dc := NextResidue(dim, dc, c, b, old(values));
      }
      WholePeriod(b, c.t, c.s, dim, dc);
    }

    /** The body of that loop: a residue outside is skipped, one inside starts a run; a run that starts
        beyond the upper bound ends the search. */
    method NextResidue(dim: nat, dc0: int, ghost c: Crossing, ghost b: seq<Axis>, ghost V0: seq<Gen>) returns (dc: int)
      requires dim < c.n && Valid(c.n) && Ready(c, dim, b) && Separate()
      requires 0 <= dc0 < b[dim].step
      requires AddsRegion(values, V0, RegionBelow(b, c.t, c.s, dim, dc0), c.pair)
      modifies this`codeConstr, this`newCodes, this`serial, this`internGen, this`chain, this`values
      modifies gridsBaseig`axes
      ensures dc0 < dc <= b[dim].step + 1
      ensures Valid(c.n) && Separate() && fresh(Records(chain) - Records(old(chain)))
      ensures Ready(c, dim, b)
      ensures AddsRegion(values, V0, RegionBelow(b, c.t, c.s, dim, dc), c.pair)
      decreases c.n - dim, 2
    {
      var both := Common(dim, dc0, c, b);
      if both {
        dc := NextRun(dim, dc0, c, b, V0);
      } else {
        dc := dc0;
        ScannedSkip(values, V0, b, c.t, c.s, dim, TOff(dim), SOff(dim), dc, c.pair);
      }
      dc := dc + 1;
    }

    method NextRun(dim: nat, first: int, ghost c: Crossing, ghost b: seq<Axis>, ghost V0: seq<Gen>) returns (dc: int)
      requires dim < c.n && Valid(c.n) && Ready(c, dim, b) && Separate()
      requires 0 <= first < b[dim].step && BothGrids(c.t[dim], c.s[dim], TOff(dim), SOff(dim), first)
      requires AddsRegion(values, V0, RegionBelow(b, c.t, c.s, dim, first), c.pair)
      modifies this`codeConstr, this`newCodes, this`serial, this`internGen, this`chain, this`values
      modifies gridsBaseig`axes
      ensures first < dc <= b[dim].step
      ensures Valid(c.n) && Separate() && fresh(Records(chain) - Records(old(chain)))
      ensures gridsBaseig.Valid() && SameBounds(gridsBaseig.axes, b, dim)
      ensures AddsRegion(values, V0, RegionBelow(b, c.t, c.s, dim, dc + 1), c.pair)
      decreases c.n - dim, 1
    {
      hide Region, RegionBelow, AddsRegion, BothGrids, GenChain, Memo, Memoised, Listed;
      ghost var tOff, sOff, V1 := TOff(dim), SOff(dim), values;
      dc := RunEnd(dim, first, c, b);
      if gridsBaseig.axes[dim].l + first < gridsBaseig.axes[dim].u {
        IntersectRun(dim, first, dc, c, b);
        ScannedRun(values, V1, V0, b, c.t, c.s, dim, tOff, sOff, first, dc, c.pair);
      } else {
        ScannedBeyond(V1, V0, b, c.t, c.s, dim, first, c.pair);
        dc := gridsBaseig.axes[dim].step;
      }
    }

    // ---- generators ----

    ghost predicate Operand(ig: InternGen, n: nat)
      reads this, ig
    {
      ig.Valid() && ig.shape == n && ProperGen(ig.Value(), n) && ig !in chain
    }

    ghost predicate Buffers(n: nat)
      reads this
    {
      gridsOt != gridsOs && gridsOt.Length == gridsOs.Length == n
    }

    ghost predicate Buffer(ig: InternGen, stepwidth: bool, n: nat)
      reads this, ig
    {
      ig.Valid() && ig.shape == n && ig.hasGrid == stepwidth && ig !in chain
    }

    /** The bounds of the intersection; false as soon as they are empty on one axis. */
    method IntersectBounds(newGen: InternGen, tig: InternGen, sig: InternGen) returns (possible: bool)
      requires newGen.Valid() && tig.Valid() && sig.Valid() && newGen.shape == tig.shape == sig.shape
      requires newGen != tig && newGen != sig
      modifies newGen`axes
      ensures newGen.Valid()
      ensures possible ==> forall d :: 0 <= d < newGen.shape ==> Bounded(newGen.axes[d], tig.axes[d], sig.axes[d])
      ensures !possible ==> Overlap(tig.Value(), sig.Value()) == iset{}
    {
      possible := true;
      var d := 0;
      while d < newGen.shape && possible
        invariant 0 <= d <= newGen.shape && newGen.Valid()
        invariant possible ==> forall k :: 0 <= k < d ==> Bounded(newGen.axes[k], tig.axes[k], sig.axes[k])
        invariant !possible ==>
          d > 0 && Max(tig.axes[d - 1].l, sig.axes[d - 1].l) >= Min(tig.axes[d - 1].u, sig.axes[d - 1].u)
      {
        var l, u := Max(tig.axes[d].l, sig.axes[d].l), Min(tig.axes[d].u, sig.axes[d].u);
        if l >= u {
          possible := false;
        } else {
          newGen.axes := newGen.axes[d := newGen.axes[d].(l := l, u := u)];
        }
        d := d + 1;
      }
      if !possible {
        EmptyOverlap(tig.Value(), sig.Value(), d - 1);
      }
    }

    /** The common period: the other generator's step where one has no grid. */
    method IntersectSteps(newGen: InternGen, tig: InternGen, sig: InternGen)
      requires newGen.Valid() && newGen.hasGrid && tig.Valid() && sig.Valid() && newGen.shape == tig.shape == sig.shape
      requires newGen != tig && newGen != sig
      requires forall d :: 0 <= d < tig.shape ==> Bounded(newGen.axes[d], tig.axes[d], sig.axes[d])
      requires ProperGen(tig.Value(), tig.shape) && ProperGen(sig.Value(), sig.shape)
      modifies newGen`axes
      ensures newGen.Valid()
      ensures forall d :: 0 <= d < newGen.shape ==>
        Bounded(newGen.axes[d], tig.axes[d], sig.axes[d]) && CommonPeriod(newGen.axes[d], tig.axes[d], sig.axes[d])
    {
      for d := 0 to newGen.shape
        invariant newGen.Valid()
        invariant forall k :: 0 <= k < newGen.shape ==> Bounded(newGen.axes[k], tig.axes[k], sig.axes[k])
        invariant forall k :: 0 <= k < d ==> CommonPeriod(newGen.axes[k], tig.axes[k], sig.axes[k])
      {
        assert Proper(tig.axes[d]) && Proper(sig.axes[d]);
        var period;
        if !tig.hasGrid {
          assert Plain(tig.axes[d]);
          period := sig.axes[d].step;
        } else if !sig.hasGrid {
          assert Plain(sig.axes[d]);
          period := tig.axes[d].step;
        } else {
          period := Lcm(tig.axes[d].step, sig.axes[d].step);
        }
        newGen.axes := newGen.axes[d := newGen.axes[d].(step := period)];
      }
    }

    /** How far the new lower bounds lie behind those of a grid, modulo its step. */
    method Offsets(offsets: array<int>, newGen: InternGen, ig: InternGen)
      requires newGen.Valid() && ig.Valid() && newGen.shape == ig.shape == offsets.Length
      requires ProperGen(ig.Value(), ig.shape)
      requires forall d :: 0 <= d < ig.shape ==> ig.axes[d].l <= newGen.axes[d].l
      modifies offsets
      ensures forall d :: 0 <= d < ig.shape ==>
        ig.axes[d].step > 0 && offsets[d] == (newGen.axes[d].l - ig.axes[d].l) % ig.axes[d].step
    {
      for d := 0 to ig.shape
        invariant forall k :: 0 <= k < d ==>
          ig.axes[k].step > 0 && offsets[k] == (newGen.axes[k].l - ig.axes[k].l) % ig.axes[k].step
      {
        assert Proper(ig.axes[d]);
        offsets[d] := TruncMod(newGen.axes[d].l - ig.axes[d].l, ig.axes[d].step);
      }
    }

    /** Sets the parameters of IntersectGrids. */
    method PrepareGrids(newGen: InternGen, tig: InternGen, sig: InternGen, ghost n: nat) returns (ghost c: Crossing)
      requires newGen.Valid() && newGen.shape == n && newGen.hasGrid
      requires Operand(tig, n) && Operand(sig, n) && Buffers(n)
      requires newGen != tig && newGen != sig
      requires forall d :: 0 <= d < n ==> Bounded(newGen.axes[d], tig.axes[d], sig.axes[d])
      modifies this`gridsBaseig, this`gridsTig, this`gridsSig, gridsOt, gridsOs, newGen`axes
      ensures c == Crossing(n, tig.axes, sig.axes, (tig.code, sig.code))
      ensures gridsBaseig == newGen && gridsTig == tig && gridsSig == sig && newGen.Valid() && Ready(c, 0, newGen.axes)
      ensures forall d :: 0 <= d < n ==> Bounded(newGen.axes[d], tig.axes[d], sig.axes[d])
    {
      IntersectSteps(newGen, tig, sig);
      if tig.hasGrid {
        Offsets(gridsOt, newGen, tig);
      }
      if sig.hasGrid {
        Offsets(gridsOs, newGen, sig);
      }
      gridsBaseig, gridsTig, gridsSig := newGen, tig, sig;
      c := Crossing(n, tig.axes, sig.axes, (tig.code, sig.code));
      assert !tig.hasGrid ==> PlainAxes(tig.axes);
      assert !sig.hasGrid ==> PlainAxes(sig.axes);
    }

    /** The grids of two generators whose bounds, filled into newGen, overlap. */
    method IntersectGridPair(newGen: InternGen, tig: InternGen, sig: InternGen, ghost n: nat)
      requires Valid(n) && newGen.Valid() && newGen.shape == n > 0 && newGen.hasGrid
      requires Operand(tig, n) && Operand(sig, n) && Buffers(n)
      requires newGen != tig && newGen != sig && newGen !in chain
      requires forall d :: 0 <= d < n ==> Bounded(newGen.axes[d], tig.axes[d], sig.axes[d])
      modifies this, gridsOt, gridsOs, newGen`axes
      ensures Valid(n) && Buffers(n) && gridsOt == old(gridsOt) && gridsOs == old(gridsOs)
      ensures newGen.Valid() && newGen !in chain
      ensures fresh(Records(chain) - Records(old(chain)))
      ensures AddsRegion(values, old(values), Overlap(tig.Value(), sig.Value()), (tig.code, sig.code))
    {
      hide Region, AddsRegion, GenChain, Memo, Memoised, Listed, Ready;
      ghost var c := PrepareGrids(newGen, tig, sig, n);
      OverlapIsRegion(newGen.axes, tig.Value(), sig.Value());
      IntersectGrids(0, c, newGen.axes);
    }

    /** One pair of generators.  A grid is computed in stepGen, which is free again afterwards; without a grid
        nostepGen itself becomes the new generator.  A buffer whose bounds turned out empty is dropped. */
    method IntersectPair(tig: InternGen, sig: InternGen, stepGen: InternGen, nostepGen: InternGen, ghost n: nat)
      returns (stepGen': InternGen?, nostepGen': InternGen?)
      requires Valid(n) && Operand(tig, n) && Operand(sig, n) && Buffers(n)
      requires n == 0 ==> !tig.hasGrid && !sig.hasGrid
      requires Buffer(stepGen, true, n) && Buffer(nostepGen, false, n)
      requires {tig, sig} !! {stepGen, nostepGen}
      modifies this, gridsOt, gridsOs, stepGen, nostepGen
      ensures Valid(n) && Buffers(n) && gridsOt == old(gridsOt) && gridsOs == old(gridsOs)
      ensures stepGen' != null ==> stepGen' == stepGen && Buffer(stepGen, true, n)
      ensures nostepGen' != null ==> nostepGen' == nostepGen && Buffer(nostepGen, false, n)
      ensures fresh(Records(chain) - Records(old(chain)) - {nostepGen})
      ensures AddsRegion(values, old(values), Overlap(tig.Value(), sig.Value()), (tig.code, sig.code))
    {
      hide Region, AddsRegion, GenChain, Memo, Memoised, Listed;
      stepGen', nostepGen' := stepGen, nostepGen;
      var newGen := if tig.hasGrid || sig.hasGrid then stepGen else nostepGen;
      var possible := IntersectBounds(newGen, tig, sig);
      if tig.hasGrid || sig.hasGrid {
        if possible {
          IntersectGridPair(newGen, tig, sig, n);
        } else {
          stepGen' := null;
        }
      } else {
        nostepGen' := null;
        if possible {
          PlainOverlap(newGen.axes, tig.Value(), sig.Value());
          Prepend(newGen, tig.code, sig.code, n, Overlap(tig.Value(), sig.Value()));
        }
      }
      if !possible {
        AddsNothing(values, Overlap(tig.Value(), sig.Value()), (tig.code, sig.code));
      }
    }

    ghost predicate Scratch(stepGen: InternGen?, nostepGen: InternGen?, n: nat)
      reads this, chain, stepGen, nostepGen
    {
      && Valid(n) && Buffers(n)
      && (stepGen != null ==> Buffer(stepGen, true, n))
      && (nostepGen != null ==> Buffer(nostepGen, false, n))
    }

    /** The same, with new buffers where the last pair has used them up. */
    method IntersectNext(tig: InternGen, sig: InternGen, stepGen: InternGen?, nostepGen: InternGen?, ghost n: nat)
      returns (stepGen': InternGen?, nostepGen': InternGen?)
      requires Scratch(stepGen, nostepGen, n) && Operand(tig, n) && Operand(sig, n)
      requires n == 0 ==> !tig.hasGrid && !sig.hasGrid
      requires {tig, sig} !! {stepGen, nostepGen}
      modifies this, gridsOt, gridsOs, stepGen, nostepGen
      ensures Scratch(stepGen', nostepGen', n) && gridsOt == old(gridsOt) && gridsOs == old(gridsOs)
      ensures fresh({stepGen'} - {stepGen, null}) && fresh({nostepGen'} - {nostepGen, null})
      ensures fresh(Records(chain) - Records(old(chain)) - {nostepGen})
      ensures AddsRegion(values, old(values), Overlap(tig.Value(), sig.Value()), (tig.code, sig.code))
    {
      hide AddsRegion, GenChain, Memo, Memoised, Listed;
      var step, nostep := stepGen, nostepGen;
      if step == null {
        step := new InternGen(tig.shape, true);
      }
      if nostep == null {
        nostep := new InternGen(tig.shape, false);
      }
      stepGen', nostepGen' := IntersectPair(tig, sig, step, nostep, n);
    }

    /** One target generator with all subst generators. */
    method IntersectRow(tig: InternGen, substIg: InternGen?, stepGen: InternGen?, nostepGen: InternGen?, ghost n: nat,
                        ghost T: seq<Gen>, ghost i: nat, ghost ss: seq<InternGen>, ghost S: seq<Gen>)
      returns (stepGen': InternGen?, nostepGen': InternGen?)
      requires Scratch(stepGen, nostepGen, n) && Operand(tig, n) && GenChain(substIg, ss, S, n)
      requires ({tig} + Records(ss)) !! ({stepGen, nostepGen} + Records(chain))
      requires i < |T| && tig.Value() == T[i] && (n == 0 ==> !tig.hasGrid && Gridless(S))
      requires Crossed(values, T, S, i, 0)
      modifies this, gridsOt, gridsOs, stepGen, nostepGen
      ensures Scratch(stepGen', nostepGen', n) && gridsOt == old(gridsOt) && gridsOs == old(gridsOs)
      ensures fresh({stepGen'} - {stepGen, null}) && fresh({nostepGen'} - {nostepGen, null})
      ensures fresh(Records(chain) - Records(old(chain)) - {nostepGen})
      ensures Crossed(values, T, S, i + 1, 0)
    {
      hide GenChain, Crossed, Memo, Memoised, Listed, Overlap, AddsRegion;
      stepGen', nostepGen' := stepGen, nostepGen;
      var sig := substIg;
      ghost var j := 0;
      ChainAt(substIg, ss, S, n, 0);
      while sig != null
        invariant 0 <= j <= |ss| == |S| && sig == Link(ss, j)
        invariant GenChain(substIg, ss, S, n) && Operand(tig, n) && tig.Value() == T[i]
        invariant Scratch(stepGen', nostepGen', n) && gridsOt == old(gridsOt) && gridsOs == old(gridsOs)
        invariant fresh({stepGen'} - {stepGen, null}) && fresh({nostepGen'} - {nostepGen, null})
        invariant fresh(Records(chain) - Records(old(chain)) - {nostepGen})
        invariant Crossed(values, T, S, i, j)
        decreases |ss| - j
      {
        ChainAt(substIg, ss, S, n, j);
        ghost var V := values;
        stepGen', nostepGen' := IntersectNext(tig, sig, stepGen', nostepGen', n);
        CrossedNext(values, V, T, S, i, j);
        sig := sig.next;
        j := j + 1;
      }
      CrossedRow(values, T, S, i);
    }

    method EmptyResult(ghost n: nat)
      requires Memo(codeConstr, serial) && Listed(codeConstr, newCodes) && Buffers(n)
      modifies this`internGen, this`chain, this`values
      ensures Scratch(null, null, n) && chain == [] && values == []
    {
      internGen, chain, values := null, [], [];
    }

    /** Intersects every target generator with every subst generator.  Whatever v is, the new list selects
        it under exactly the pairs of codes under which both lists select it. */
    method IntersectInternGen(targetIg: InternGen?, substIg: InternGen?, ghost n: nat,
                              ghost ts: seq<InternGen>, ghost T: seq<Gen>, ghost ss: seq<InternGen>, ghost S: seq<Gen>)
      requires GenChain(targetIg, ts, T, n) && GenChain(substIg, ss, S, n)
      requires Memo(codeConstr, serial) && Listed(codeConstr, newCodes) && Buffers(n)
      requires n == 0 ==> Gridless(T) && Gridless(S)
      modifies this, gridsOt, gridsOs
      ensures Valid(n) && Buffers(n) && fresh(Records(chain))
      ensures forall v {:trigger Tags(values, v)} :: Tags(values, v) == Cross(T, S, v)
    {
      hide GenChain, Crossed, Memo, Memoised, Listed, ProperGen, Cross, Tags;
      var stepGen: InternGen?, nostepGen: InternGen? := null, null;
      EmptyResult(n);
      var tig := targetIg;
      ghost var i := 0;
      CrossedStart(T, S);
      ChainAt(targetIg, ts, T, n, 0);
      while tig != null
        invariant 0 <= i <= |ts| == |T| && tig == Link(ts, i)
        invariant GenChain(targetIg, ts, T, n) && GenChain(substIg, ss, S, n)
        invariant Scratch(stepGen, nostepGen, n) && gridsOt == old(gridsOt) && gridsOs == old(gridsOs)
        invariant fresh({stepGen, nostepGen} - {null}) && fresh(Records(chain))
        invariant Crossed(values, T, S, i, 0)
        decreases |ts| - i
      {
        ChainAt(targetIg, ts, T, n, i);
        assert tig !in Records(chain);
        stepGen, nostepGen := IntersectRow(tig, substIg, stepGen, nostepGen, n, T, i, ss, S);
        tig := tig.next;
        i := i + 1;
      }
      CrossedAll(values, T, S);
    }
  }
}
