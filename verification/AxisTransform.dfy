/**
 One step of an index transformation, x := x op c or x := c op x, and what it does to one axis
 of a generator (LinearTransformationsHelp).
 */
module AxisTransform {
  import opened Wrappers
  import opened Generators

  datatype Prf = Add | Sub | Mul | Div

  /** The source's integer division: it truncates towards zero. */
  function TruncDiv(a: int, b: int): int
    requires b != 0
  {
    if a >= 0 then a / b else -((-a) / b)
  }

  /** The remainder that goes with it: it has the sign of the dividend. */
  function TruncMod(a: int, b: int): int
    requires b != 0
  {
    if a >= 0 then a % b else -((-a) % b)
  }

  /** The value of the transformation at x; argNo says which argument the constant is. */
  function Apply(prf: Prf, argNo: nat, c: int, x: int): int
    requires prf == Div ==> (if argNo == 2 then c else x) != 0
  {
    match prf
    case Add => x + c
    case Sub => if argNo == 2 then x - c else c - x
    case Mul => x * c
    case Div => if argNo == 2 then TruncDiv(x, c) else TruncDiv(c, x)
  }

  /** `constant - index` on an axis with a grid: the residues run backwards, and the cut-off last
      period may need a generator of its own. */
  function Reverse(c: int, a: Axis): (r: (Axis, Option<Axis>))
    requires a.step > 0
  {
    var l, u := c - a.u + 1, c - a.l + 1;
    var cut := TruncMod(a.u - a.l, a.step);
    if cut == 0 then
      (Axis(l + a.step - a.width, u, a.step, a.width), None)
    else if cut > a.width then
      (Axis(l + cut - a.width, u, a.step, a.width), None)
    else if cut < a.width then
      (Axis(l, u, a.step, cut),
       if a.u <= a.l + cut then None
       else Some(Axis(c - a.u + 1 + a.step - (a.width - cut), c - (a.l + cut) + 1, a.step, a.width - cut)))
    else
      (Axis(l, u, a.step, a.width), None)
  }

  /** The bound of an axis under `index * constant`; as in the source the upper bound for a negative
      constant is computed from the lower bound already overwritten. */
  function MulBound(b: int, c: int): int
    requires c != 0
  {
    if c > 0 then
      if TruncMod(b, c) == 0 || b < 0 then TruncDiv(b, c) else TruncDiv(b, c) + 1
    else
      if TruncMod(b, c) == 0 || b < 0 then TruncDiv(b, c) + 1 else TruncDiv(b, c)
  }

  /** The axis after the step, and the split-off axis if there is one. */
  function PullBack(prf: Prf, argNo: nat, c: int, hasGrid: bool, a: Axis): (r: (Axis, Option<Axis>))
    requires hasGrid ==> a.step > 0
  {
    match prf
    case Add => (a.(l := a.l - c, u := a.u - c), None)
    case Sub =>
      if argNo == 2 then (a.(l := a.l + c, u := a.u + c), None)
      else if hasGrid then Reverse(c, a)
      else (a.(l := c - a.u + 1, u := c - a.l + 1), None)
    case Mul =>
      if c > 0 then (a.(l := MulBound(a.l, c), u := MulBound(a.u, c)), None)
      else if c < 0 then (var l := MulBound(a.u, c); a.(l := l, u := MulBound(l, c)), None)
      else (a, None)
    case Div =>
      if c > 0 then (a.(l := a.l * c, u := a.u * c), None)
      else if c < 0 then (var l := a.u * c + 1; a.(l := l, u := l * c + 1), None)
      else (a, None)
  }

  /** The constants for which the pulled-back axis is the preimage under some function: no negative factors or
      divisors. */
  predicate NonNegative(prf: Prf, c: int) {
    (prf == Mul ==> c >= 0) && (prf == Div ==> c > 0)
  }

  /** That function: quotients are rounded down, where the program truncates them, and a product with zero is taken for
      the other factor. */
  function Floored(prf: Prf, argNo: nat, c: int, x: int): int
    requires prf == Div ==> argNo == 2 && c != 0
  {
    if prf == Div then x / c
    else if prf == Mul && c == 0 then x
    else Apply(prf, argNo, c, x)
  }

  function Selects(a: Option<Axis>, x: int): nat {
    if a.Some? && In(a.value, x) then 1 else 0
  }

  /** The two axes a step leaves select x once when the original selects the transformed x, and
      never otherwise. */
  predicate Exact(prf: Prf, argNo: nat, c: int, hasGrid: bool, a: Axis, x: int)
    requires hasGrid ==> a.step > 0
    requires prf == Div ==> (if argNo == 2 then c else x) != 0
  {
    var r := PullBack(prf, argNo, c, hasGrid, a);
    Selects(Some(r.0), x) + Selects(r.1, x) == Selects(Some(a), Apply(prf, argNo, c, x))
  }

  // ---- constant - index, with a grid ----

  /** Membership of y (counted from l) read off the reversed offset z = (u - l) - 1 - y. */
  lemma ReversedResidue(s: int, q: int, cut: int, z: int)
    requires 0 <= cut < s
    ensures var y, r := q * s + cut - 1 - z, z % s;
            y % s == if r < cut then cut - 1 - r else s + cut - 1 - r
  {
    var y, r, p := q * s + cut - 1 - z, z % s, z / s;
    assert z == p * s + r;
    if r < cut {
      assert y == (q - p) * s + (cut - 1 - r);
      DivModUnique(y, s, q - p, cut - 1 - r);
    } else {
      assert y == (q - p - 1) * s + (s + cut - 1 - r);
      DivModUnique(y, s, q - p - 1, s + cut - 1 - r);
    }
  }

  /** An offset shifted by k < s has residue r - k, or wraps round to r - k + s. */
  lemma ShiftedResidue(s: int, z: int, k: int)
    requires 0 <= k < s
    ensures var r := z % s; (z - k) % s == if k <= r then r - k else r - k + s
  {
    var r, p := z % s, z / s;
    if k <= r {
      DivModUnique(z - k, s, p, r - k);
    } else {
      assert z - k == (p - 1) * s + (r - k + s);
      DivModUnique(z - k, s, p - 1, r - k + s);
    }
  }

  /** Reversing a grid is exact, in all cases of the cut against the width, and keeps it proper unless it is empty. */
  lemma ReverseExact(c: int, a: Axis, x: int)
    requires Proper(a)
    ensures var r := Reverse(c, a);
            Selects(Some(r.0), x) + Selects(r.1, x) == Selects(Some(a), c - x)
    ensures var r := Reverse(c, a);
            Filled(a) ==> Proper(r.0) && Filled(r.0) && (r.1.Some? ==> Proper(r.1.value) && Filled(r.1.value))
  {
    var s, w, len := a.step, a.width, a.u - a.l;
    if s == 1 {
      assert TruncMod(len, 1) == 0;
      assert Reverse(c, a) == (Axis(c - a.u + 1, c - a.l + 1, 1, 1), None);
    } else if len <= 0 {
      ReverseEmpty(c, a);
    } else {
      var q := Quotient(len, s);
      var cut := len - q * s;
      if cut == 0 {
        ReverseShifts(c, a, x, q, cut, s - w);
      } else if cut >= w {
        ReverseShifts(c, a, x, q, cut, cut - w);
      } else {
        ReverseSplits(c, a, x, q, cut);
      }
    }
  }

  /** An empty axis stays empty and nothing is split off; but its width may become negative. */
  lemma ReverseEmpty(c: int, a: Axis)
    requires Proper(a) && a.l >= a.u
    ensures var r := Reverse(c, a);
            && r.0.l >= r.0.u && r.1.None?
            && (Proper(r.0) <==> a.l == a.u || (a.l - a.u) % a.step == 0)
  {
    var len, s := a.l - a.u, a.step;
    var q, m := len / s, len % s;
    assert len == q * s + m && q >= 0;
    assert q * s >= 0 by { MulMonotone(0, q, s); }
    assert TruncMod(-len, s) == -m;
  }

  /** Exactly when the width stays one: the axis is not empty, or its bounds differ by a multiple of the step. */
  lemma ReverseProperIff(c: int, a: Axis)
    requires Proper(a)
    ensures var r := Reverse(c, a);
            Proper(r.0) && (r.1.Some? ==> Proper(r.1.value)) <==> a.l <= a.u || (a.l - a.u) % a.step == 0
  {
    if a.l >= a.u {
      ReverseEmpty(c, a);
    } else {
      ReverseExact(c, a, 0);
    }
  }

  /** 5 <= x < 3 with step 4 and width 2, whose width becomes negative. */
  lemma ReverseLosesWidth(c: int)
    ensures var a := Axis(5, 3, 4, 2); Proper(a) && Reverse(c, a) == (Axis(c - 2, c - 4, 4, -2), None)
  {
    assert TruncMod(-2, 4) == -2;
  }

  lemma Quotient(len: int, s: int) returns (q: int)
    requires len > 0 && s > 0
    ensures q >= 0 && 0 <= len - q * s < s && TruncMod(len, s) == len - q * s
    ensures len - q * s == 0 ==> q >= 1
  {
    q := len / s;
  }

  /** The case of one axis: the residues of the last k offsets of a period are left out in front. */
  lemma ReverseShifts(c: int, a: Axis, x: int, q: int, cut: int, k: int)
    requires Proper(a) && a.l < a.u && 0 <= cut < a.step && a.u - a.l == q * a.step + cut && q >= 0
    requires TruncMod(a.u - a.l, a.step) == cut
    requires if cut == 0 then q >= 1 && k == a.step - a.width else a.width <= cut && k == cut - a.width
    ensures var r := Reverse(c, a);
            r == (Axis(c - a.u + 1 + k, c - a.l + 1, a.step, a.width), None) && Proper(r.0) && Filled(r.0) &&
            (In(r.0, x) <==> In(a, c - x))
  {
    var s := a.step;
    var z := x - (c - a.u + 1);
    var y := c - x - a.l;
    assert y == q * s + cut - 1 - z;
    if q > 0 {
      assert q * s >= s by { MulMonotone(1, q, s); }
    }
    ReversedResidue(s, q, cut, z);
    ShiftedResidue(s, z, k);
    if z >= 0 { ReverseKeepsLow(s, z, k); }
  }

  /** The split case: residues below the cut stay with the first axis, the wrapped ones go to the
      second. */
  lemma ReverseSplits(c: int, a: Axis, x: int, q: int, cut: int)
    requires Proper(a) && a.l < a.u && 1 <= cut < a.width && a.u - a.l == q * a.step + cut && q >= 0
    requires TruncMod(a.u - a.l, a.step) == cut
    ensures var r := Reverse(c, a);
            Selects(Some(r.0), x) + Selects(r.1, x) == Selects(Some(a), c - x)
    ensures var r := Reverse(c, a); r.1.Some? ==> Proper(r.1.value) && Filled(r.1.value)
  {
    var s, w := a.step, a.width;
    var z := x - (c - a.u + 1);
    var y := c - x - a.l;
    var k := s - (w - cut);
    assert y == q * s + cut - 1 - z;
    ReversedResidue(s, q, cut, z);
    ShiftedResidue(s, z, k);
    if q == 0 {
      assert a.u == a.l + cut;
      if 0 <= z < cut { DivModUnique(z, s, 0, z); }
    } else {
      assert q * s >= s by { MulMonotone(1, q, s); }
      if z >= 0 { ReverseKeepsLow(s, z, k); }
      if y >= 0 && y < cut { DivModUnique(y, s, 0, y); }
    }
  }

  lemma ReverseKeepsLow(s: int, z: int, k: int)
    requires 0 <= k < s && z >= 0
    ensures z % s >= k ==> z >= k
  {
    if z < k {
      DivModUnique(z, s, 0, z);
    }
  }

  // ---- index * constant and index / constant, without a grid ----

  /** For a positive constant the new bound is the exact ceiling, for bounds of either sign. */
  lemma MulBoundIsCeiling(b: int, c: int, x: int)
    requires c > 0
    ensures x * c >= b <==> x >= MulBound(b, c)
  {
    var k := MulBound(b, c);
    assert (k - 1) * c < b <= k * c by {
      if b >= 0 {
        assert b == (b / c) * c + b % c;
      } else {
        assert -b == ((-b) / c) * c + (-b) % c;
      }
    }
    if x >= k {
      MulMonotone(k, x, c);
    } else {
      MulMonotone(x, k - 1, c);
    }
  }

  /** A flooring division by a positive constant reaches a bound exactly from bound * constant on. */
  lemma DivBound(b: int, c: int, x: int)
    requires c > 0
    ensures x / c >= b <==> x >= b * c
  {
    var q := x / c;
    assert x == q * c + x % c;
    if q >= b {
      MulMonotone(b, q, c);
    } else {
      MulMonotone(q + 1, b, c);
    }
  }

  /** One step with a nonnegative constant, at any x: together the two axes select x exactly when the original selects
      what the step is taken for. */
  lemma StepExact(prf: Prf, argNo: nat, c: int, hasGrid: bool, a: Axis, x: int)
    requires Proper(a)
    requires !hasGrid ==> Plain(a)
    requires prf == Mul || prf == Div ==> !hasGrid
    requires NonNegative(prf, c) && (prf == Div ==> argNo == 2)
    ensures var r := PullBack(prf, argNo, c, hasGrid, a);
            Selects(Some(r.0), x) + Selects(r.1, x) == Selects(Some(a), Floored(prf, argNo, c, x))
  {
    match prf
    case Add =>
    case Sub =>
      if argNo != 2 && hasGrid {
        ReverseExact(c, a, x);
      }
    case Mul =>
      if c > 0 {
        MulBoundIsCeiling(a.l, c, x);
        MulBoundIsCeiling(a.u, c, x);
      }
    case Div =>
      DivBound(a.l, c, x);
      DivBound(a.u, c, x);
  }

  /** The two ways to round agree for nonnegative dividends and where nothing is left over. */
  lemma FloorIsTrunc(c: int, x: int)
    requires c > 0
    ensures Floored(Div, 2, c, x) == Apply(Div, 2, c, x) <==> x >= 0 || TruncMod(x, c) == 0
  {
    if x < 0 {
      var q, r := (-x) / c, (-x) % c;
      assert -x == q * c + r;
      if r == 0 {
        DivModUnique(x, c, -q, 0);
      } else {
        DivModUnique(x, c, -q - 1, c - r);
      }
    }
  }

  /** With a negative factor or divisor the lower bound does not matter. */
  lemma LowerIgnored(prf: Prf, argNo: nat, c: int, a: Axis, l: int)
    requires !NonNegative(prf, c) && (prf == Div ==> c != 0)
    ensures PullBack(prf, argNo, c, false, a) == PullBack(prf, argNo, c, false, a.(l := l))
  {
  }

  /** A step is exact at x for every axis without a grid if and only if its constant is nonnegative and rounding down
      makes no difference. */
  lemma StepExactIff(prf: Prf, argNo: nat, c: int, x: int)
    requires prf == Div ==> argNo == 2 && c != 0
    ensures (forall a: Axis :: Plain(a) ==> Exact(prf, argNo, c, false, a, x)) <==>
            NonNegative(prf, c) && Floored(prf, argNo, c, x) == Apply(prf, argNo, c, x)
  {
    var y := Apply(prf, argNo, c, x);
    var a := Axis(y, y + 1, 1, 1);
    if NonNegative(prf, c) {
      forall a: Axis | Plain(a)
        ensures Exact(prf, argNo, c, false, a, x) <==> (In(a, Floored(prf, argNo, c, x)) <==> In(a, y))
      {
        StepExact(prf, argNo, c, false, a, x);
      }
      assert Plain(a);
    } else {
      LowerIgnored(prf, argNo, c, a, y + 1);
      assert Plain(a) && Plain(a.(l := y + 1));
      assert In(a, y) && !In(a.(l := y + 1), y);
    }
  }

  /** Steps keep axes proper, whatever the constant; only `constant - index` demands that a grid is not empty. */
  lemma StepProper(prf: Prf, argNo: nat, c: int, hasGrid: bool, a: Axis)
    requires Proper(a)
    requires !hasGrid ==> Plain(a)
    requires prf == Mul || prf == Div ==> !hasGrid
    requires prf == Sub && argNo != 2 && hasGrid ==> Filled(a)
    ensures var r := PullBack(prf, argNo, c, hasGrid, a);
            && Proper(r.0) && (r.1.Some? ==> hasGrid && Proper(r.1.value)) && (!hasGrid ==> Plain(r.0))
            && (Filled(a) ==> Filled(r.0) && (r.1.Some? ==> Filled(r.1.value)))
  {
    if prf == Sub && argNo != 2 && hasGrid {
      ReverseExact(c, a, 0);
    }
  }

  // ---- where the code does not compute the preimage ----

  /** The step is exact for every generator without a grid and every index that is at least `from`. */
  ghost predicate AlwaysExact(prf: Prf, c: int, from: int)
    requires prf == Div ==> c != 0
  {
    forall a: Axis, x :: Plain(a) && x >= from ==> Exact(prf, 2, c, false, a, x)
  }

  /** `index * constant` is exact for every generator and every index from any bound on if and only if the constant is
      positive: for 0 the bounds stay as they are, for a negative one the overwritten bound is read. */
  lemma MulExactIffPositive(c: int, from: int)
    ensures AlwaysExact(Mul, c, from) <==> c > 0
  {
    var x := if from > 1 then from else 1;
    StepExactIff(Mul, 2, c, x);
    if c > 0 {
      forall a: Axis, x | Plain(a) && x >= from ensures Exact(Mul, 2, c, false, a, x) {
        StepExact(Mul, 2, c, false, a, x);
      }
    }
  }

  lemma NotExactBy(prf: Prf, c: int, a: Axis, x: int, b: Axis, y: int)
    requires prf == Div ==> c != 0
    requires PullBack(prf, 2, c, false, a) == (b, None) && Apply(prf, 2, c, x) == y
    requires In(b, x) != In(a, y)
    ensures !Exact(prf, 2, c, false, a, x)
  {
  }

  lemma MulByZeroNotExact()
    ensures !Exact(Mul, 2, 0, false, Axis(1, 2, 1, 1), 1)
  {
    NotExactBy(Mul, 0, Axis(1, 2, 1, 1), 1, Axis(1, 2, 1, 1), 0);
  }

  lemma MulByNegativeNotExact(c: int)
    requires c < 0
    ensures !Exact(Mul, 2, c, false, Axis(1, 2, 1, 1), 0)
  {
    MulNegativeBounds(c);
    NotExactBy(Mul, c, Axis(1, 2, 1, 1), 0, Axis(MulBound(2, c), MulBound(MulBound(2, c), c), 1, 1), 0);
  }

  /** The box [1, 2) becomes one around 0. */
  lemma MulNegativeBounds(c: int)
    requires c < 0
    ensures MulBound(2, c) <= 0 < MulBound(MulBound(2, c), c)
  {
    if c == -1 {
      assert MulBound(2, -1) == -1;
      assert MulBound(-1, -1) == 2;
    } else if c == -2 {
      assert MulBound(2, -2) == 0;
    } else {
      assert 2 / c == 0;
      assert MulBound(2, c) == 0;
      assert MulBound(0, c) == 1;
    }
  }

  /** `index / constant` with a positive constant is exact at x for every generator if and only if x
      is not negative or divides evenly: the bounds are those of a flooring division. */
  lemma DivExactIffNonNegative(c: int, x: int)
    requires c > 0
    ensures x >= 0 || TruncMod(x, c) == 0 <==> forall a: Axis :: Plain(a) ==> Exact(Div, 2, c, false, a, x)
  {
    StepExactIff(Div, 2, c, x);
    FloorIsTrunc(c, x);
  }

  /** `index / constant` is exact for every generator and nonnegative index if and only if the
      constant is positive; a negative one loses whole generators. */
  lemma DivExactIffPositive(c: int)
    requires c != 0
    ensures AlwaysExact(Div, c, 0) <==> c > 0
  {
    if c > 0 {
      forall a: Axis, x | Plain(a) && x >= 0 ensures Exact(Div, 2, c, false, a, x) {
        StepExact(Div, 2, c, false, a, x);
      }
    } else {
      DivByNegativeNotExact(c);
    }
  }

  lemma DivByNegativeNotExact(c: int)
    requires c < 0
    ensures !Exact(Div, 2, c, false, Axis(-1, 0, 1, 1), -c)
  {
    assert -c == c * -1;
    assert TruncDiv(-c, c) == -1;
  }
}
