/**
 The intersection of two grids, axis by axis: which residues of the common period belong to both, and
 how a run of such residues becomes an axis of a new generator.
 */
module GridRegions {
  import opened Generators
  import opened MathUtils

  /** Residue r of the period, counted from the base bound, lies in the grid of axis a; `off` is the
      distance of the base bound from a's own lower bound modulo its step. */
  predicate InGrid(a: Axis, off: int, r: int)
    requires a.step > 0
  {
    (r + off) % a.step < a.width
  }

  predicate BothGrids(t: Axis, s: Axis, tOff: int, sOff: int, r: int)
    requires t.step > 0 && s.step > 0
  {
    InGrid(t, tOff, r) && InGrid(s, sOff, r)
  }

  /** Counting from bound l instead of a.l, and modulo a multiple of the step, changes nothing. */
  lemma ResidueInGrid(a: Axis, l: int, period: int, off: int, x: int)
    requires a.step > 0 && period > 0 && period % a.step == 0
    requires off == (l - a.l) % a.step && a.l <= l <= x
    ensures InGrid(a, off, (x - l) % period) <==> (x - a.l) % a.step < a.width
  {
    var s, r, q := a.step, (x - l) % period, (x - l) / period;
    var m, p := period / s, (l - a.l) / s;
    assert period == m * s && l - a.l == p * s + off && x - l == q * period + r;
    var k, rho := (r + off) / s, (r + off) % s;
    assert r + off == k * s + rho;
    assert q * period == (q * m) * s by { assert q * (m * s) == (q * m) * s; }
    assert x - a.l == (q * m + p + k) * s + rho by {
      assert (q * m + p + k) * s == (q * m) * s + p * s + k * s;
    }
    DivModUnique(x - a.l, s, q * m + p + k, rho);
  }

  /** The axis for residues first <= r < last of period s, counted from l. */
  function RunAxis(l: int, u: int, s: int, first: int, last: int): Axis {
    Axis(l + first, u, s, last - first)
  }

  lemma RunAxisExact(l: int, u: int, s: int, first: int, last: int, x: int)
    requires 0 <= first < last <= s
    ensures In(RunAxis(l, u, s, first, last), x) <==> l <= x < u && first <= (x - l) % s < last
  {
    var z := x - l;
    var r, q := z % s, z / s;
    assert z == q * s + r;
    if first <= r {
      DivModUnique(z - first, s, q, r - first);
    } else {
      assert z - first == (q - 1) * s + (r - first + s);
      DivModUnique(z - first, s, q - 1, r - first + s);
    }
    if 0 <= z < first {
      DivModUnique(z, s, 0, z);
    }
  }

  lemma ResidueBelow(z: int, s: int)
    requires z >= 0 && s > 0
    ensures 0 <= z % s <= z
  {
    if z < s {
      DivModUnique(z, s, 0, z);
    }
  }

  /** The axes with axis dim narrowed to a run of residues. */
  function Narrowed(b: seq<Axis>, dim: nat, first: int, last: int): (r: seq<Axis>)
    requires dim < |b|
    ensures |r| == |b|
  {
    b[dim := RunAxis(b[dim].l, b[dim].u, b[dim].step, first, last)]
  }

  // ---- regions ----

  /** Axis b keeps x between the bounds it shares with t and s, and both grids contain x. */
  predicate InBoth(b: Axis, t: Axis, s: Axis, x: int) {
    b.l <= x < b.u && In(t, x) && In(s, x)
  }

  /** The vectors that are already fixed to runs on the first dim axes and lie in both grids on the rest. */
  ghost function Region(b: seq<Axis>, t: seq<Axis>, s: seq<Axis>, dim: nat): iset<seq<int>>
    requires |b| == |t| == |s|
  {
    iset v: seq<int> | |v| == |b| && (forall d :: 0 <= d < |b| ==>
      if d < dim then In(b[d], v[d]) else InBoth(b[d], t[d], s[d], v[d]))
  }

  /** Those of them whose residue on axis dim is below dc. */
  ghost function RegionBelow(b: seq<Axis>, t: seq<Axis>, s: seq<Axis>, dim: nat, dc: int): iset<seq<int>>
    requires |b| == |t| == |s| && dim < |b| && b[dim].step > 0
  {
    iset v | v in Region(b, t, s, dim) && (v[dim] - b[dim].l) % b[dim].step < dc
  }

  /** The same bounds and periods, and the same axes before dim: what a region depends on. */
  ghost predicate SameBounds(a: seq<Axis>, b: seq<Axis>, dim: nat) {
    && |a| == |b|
    && (forall d :: 0 <= d < |a| ==> a[d].l == b[d].l && a[d].u == b[d].u && a[d].step == b[d].step)
    && (forall d :: 0 <= d < |a| && d < dim ==> a[d] == b[d])
  }

  lemma WidenedSame(a: seq<Axis>, b: seq<Axis>, dim: nat, first: int, last: int)
    requires dim < |b| && SameBounds(a, Narrowed(b, dim, first, last), dim + 1)
    ensures SameBounds(a[dim := a[dim].(l := a[dim].l - first)], b, dim)
  {
    assert forall d :: 0 <= d < |b| && d != dim ==> Narrowed(b, dim, first, last)[d] == b[d];
  }

  /** The common period, bounds and offsets that IntersectInternGen prepares for axis d. */
  predicate Prepared(b: Axis, t: Axis, s: Axis, tOff: int, sOff: int) {
    && b.step > 0 && t.step > 0 && s.step > 0
    && b.step % t.step == 0 && b.step % s.step == 0
    && t.l <= b.l && s.l <= b.l && b.u <= t.u && b.u <= s.u
    && tOff == (b.l - t.l) % t.step && sOff == (b.l - s.l) % s.step
  }

  function Max(x: int, y: int): int {
    if x > y then x else y
  }

  function Min(x: int, y: int): int {
    if x < y then x else y
  }

  /** b has the bounds of the intersection of t and s, and they are not empty. */
  predicate Bounded(b: Axis, t: Axis, s: Axis) {
    b.l == Max(t.l, s.l) && b.u == Min(t.u, s.u) && b.l < b.u
  }

  predicate CommonPeriod(b: Axis, t: Axis, s: Axis) {
    b.step > 0 && t.step > 0 && s.step > 0 && b.step % t.step == 0 && b.step % s.step == 0
  }

  lemma BothByResidue(b: Axis, t: Axis, s: Axis, tOff: int, sOff: int, x: int)
    requires Prepared(b, t, s, tOff, sOff) && b.l <= x < b.u
    ensures var r := (x - b.l) % b.step;
            InBoth(b, t, s, x) <==> BothGrids(t, s, tOff, sOff, r)
  {
    ResidueInGrid(t, b.l, b.step, tOff, x);
    ResidueInGrid(s, b.l, b.step, sOff, x);
  }

  /** A residue outside one of the grids adds nothing. */
  lemma SkipResidue(b: seq<Axis>, t: seq<Axis>, s: seq<Axis>, dim: nat, tOff: int, sOff: int, dc: int)
    requires |b| == |t| == |s| && dim < |b| && Prepared(b[dim], t[dim], s[dim], tOff, sOff)
    requires !BothGrids(t[dim], s[dim], tOff, sOff, dc)
    ensures RegionBelow(b, t, s, dim, dc + 1) == RegionBelow(b, t, s, dim, dc)
  {
    forall v | v in RegionBelow(b, t, s, dim, dc + 1) ensures v in RegionBelow(b, t, s, dim, dc) {
      assert InBoth(b[dim], t[dim], s[dim], v[dim]);
      BothByResidue(b[dim], t[dim], s[dim], tOff, sOff, v[dim]);
    }
  }

  /** A run of residues in both grids adds exactly the region of the next axis with the run's axis fixed. */
  lemma AddRun(b: seq<Axis>, t: seq<Axis>, s: seq<Axis>, dim: nat, tOff: int, sOff: int, first: int, last: int)
    requires |b| == |t| == |s| && dim < |b| && Prepared(b[dim], t[dim], s[dim], tOff, sOff)
    requires 0 <= first < last <= b[dim].step
    requires forall r :: first <= r < last ==> BothGrids(t[dim], s[dim], tOff, sOff, r)
    ensures var b' := Narrowed(b, dim, first, last);
            && RegionBelow(b, t, s, dim, last) == RegionBelow(b, t, s, dim, first) + Region(b', t, s, dim + 1)
            && RegionBelow(b, t, s, dim, first) !! Region(b', t, s, dim + 1)
  {
    var a := b[dim];
    var run := RunAxis(a.l, a.u, a.step, first, last);
    var b' := b[dim := run];
    var next := Region(b', t, s, dim + 1);
    forall v | v in next ensures v in RegionBelow(b, t, s, dim, last) && v !in RegionBelow(b, t, s, dim, first) {
      assert In(b'[dim], v[dim]);
      RunAxisExact(a.l, a.u, a.step, first, last, v[dim]);
      BothByResidue(a, t[dim], s[dim], tOff, sOff, v[dim]);
      forall d | 0 <= d < |b| ensures if d < dim then In(b[d], v[d]) else InBoth(b[d], t[d], s[d], v[d]) {
        if d != dim { assert b'[d] == b[d]; }
      }
    }
    forall v | v in RegionBelow(b, t, s, dim, last) && v !in RegionBelow(b, t, s, dim, first) ensures v in next {
      RunAxisExact(a.l, a.u, a.step, first, last, v[dim]);
    }
  }

  /** Once a run starts at or beyond the upper bound nothing more is to come. */
  lemma BeyondBound(b: seq<Axis>, t: seq<Axis>, s: seq<Axis>, dim: nat, first: int)
    requires |b| == |t| == |s| && dim < |b| && b[dim].step > 0 && b[dim].l + first >= b[dim].u
    ensures RegionBelow(b, t, s, dim, first) == Region(b, t, s, dim)
  {
    forall v | v in Region(b, t, s, dim) ensures v in RegionBelow(b, t, s, dim, first) {
      assert InBoth(b[dim], t[dim], s[dim], v[dim]);
      ResidueBelow(v[dim] - b[dim].l, b[dim].step);
    }
  }

  lemma WholePeriod(b: seq<Axis>, t: seq<Axis>, s: seq<Axis>, dim: nat, dc: int)
    requires |b| == |t| == |s| && dim < |b| && b[dim].step > 0 && dc >= b[dim].step
    ensures RegionBelow(b, t, s, dim, dc) == Region(b, t, s, dim)
    ensures RegionBelow(b, t, s, dim, 0) == iset{}
  {
  }

  /** With every axis fixed the region is that of one generator. */
  lemma RegionAllFixed(b: seq<Axis>, t: seq<Axis>, s: seq<Axis>, v: seq<int>)
    requires |b| == |t| == |s|
    ensures v in Region(b, t, s, |b|) <==> Member(b, v)
  {
  }

  /** With no axis fixed it is the intersection of the two generators. */
  lemma RegionNoneFixed(b: seq<Axis>, t: seq<Axis>, s: seq<Axis>, v: seq<int>)
    requires |b| == |t| == |s|
    requires forall d :: 0 <= d < |b| ==>
      b[d].l == Max(t[d].l, s[d].l) && b[d].u == Min(t[d].u, s[d].u)
    ensures v in Region(b, t, s, 0) <==> Member(t, v) && Member(s, v)
  {
    if Member(t, v) && Member(s, v) {
      forall d | 0 <= d < |b| ensures InBoth(b[d], t[d], s[d], v[d]) {
        assert In(t[d], v[d]) && In(s[d], v[d]);
      }
    }
    if v in Region(b, t, s, 0) {
      forall d | 0 <= d < |b| ensures In(t[d], v[d]) && In(s[d], v[d]) {
        assert InBoth(b[d], t[d], s[d], v[d]);
      }
    }
  }
}
