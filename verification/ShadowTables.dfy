/**
 The shadow arrays of all registered arrays at one cache level (RegisterArray, UnregisterArray,
 DetailedAnalysis).
 */
module ShadowTables {
  import opened Wrappers
  import opened AxisTransform
  import opened Shadows
  import Generators

  const MAX_SHADOWARRAYS: nat := 100

  /** What an analysis adds to the counters of cold misses and of cross and self interference. */
  datatype Tally = Tally(cold: nat, cross: nat, self: nat)

  function Plus(a: Tally, b: Tally): Tally {
    Tally(a.cold + b.cold, a.cross + b.cross, a.self + b.self)
  }

  function SlotTally(g: Geometry, s: Slot, x: nat): Tally
    requires Sizes(g) && SlotOk(g, s)
  {
    if Covers(g, s, x) then
      var e := BlockEntry(g, s, x);
      Tally(1 - LBit(e), CBit(e), SBit(e))
    else Tally(0, 0, 0)
  }

  predicate SlotsOk(g: Geometry, slots: seq<Slot>)
    requires Sizes(g)
  {
    forall i :: 0 <= i < |slots| ==> SlotOk(g, slots[i])
  }

  function TallyOf(g: Geometry, slots: seq<Slot>, x: nat, k: nat): Tally
    requires Sizes(g) && SlotsOk(g, slots) && k <= |slots|
  {
    if k == 0 then Tally(0, 0, 0) else Plus(TallyOf(g, slots, x, k - 1), SlotTally(g, slots[k - 1], x))
  }

  /** All shadow arrays after a miss of block x caused by an access to array accBase. */
  function MissSlots(g: Geometry, slots: seq<Slot>, accBase: nat, x: nat): (r: seq<Slot>)
    requires Sizes(g)
    ensures |r| == |slots|
  {
    seq(|slots|, i requires 0 <= i < |slots| => MissSlot(g, slots[i], accBase, x, LineOf(g, x)))
  }

  // ---- which entries belong to a line ----

  lemma SumMod(a: nat, b: nat, n: nat)
    requires n > 0
    ensures (a + b) % n == (a % n + b % n) % n
  {
    var q := a / n + b / n + (a % n + b % n) / n;
    assert q * n == a / n * n + b / n * n + (a % n + b % n) / n * n;
    Generators.DivModUnique(a + b, n, q, (a % n + b % n) % n);
  }

  /** The entries of a line are those with one residue. */
  lemma LineResidue(f: nat, k: nat, line: nat, n: nat)
    requires line < n
    ensures (f + k) % n == line <==> k % n == (line + n - f % n) % n
  {
    SumMod(f, k, n);
    var b, r := f % n, k % n;
    if b + r < n {
      Generators.DivModUnique(b + r, n, 0, b + r);
    } else {
      Generators.DivModUnique(b + r, n, 1, b + r - n);
    }
    if line >= b {
      Generators.DivModUnique(line + n - b, n, 1, line - b);
    } else {
      Generators.DivModUnique(line + n - b, n, 0, line + n - b);
    }
  }

  /** From one entry of a line to the next there are n steps. */
  lemma NextOfLine(k: nat, j: nat, n: nat)
    requires n > 0 && k < j < k + n
    ensures j % n != k % n
    ensures (k + n) % n == k % n
  {
    var q, r := k / n, k % n;
    if r + (j - k) < n {
      Generators.DivModUnique(j, n, q, r + (j - k));
    } else {
      assert (q + 1) * n == q * n + n;
      Generators.DivModUnique(j, n, q + 1, r + (j - k) - n);
    }
    assert (q + 1) * n == q * n + n;
    Generators.DivModUnique(k + n, n, q + 1, r);
  }

  /** The sweep over the entries of one shadow array: what it has done when entry idx comes next. */
  ghost predicate Swept(g: Geometry, s: Slot, accBase: nat, x: nat, line: nat, bytes: seq<nat>, idx: nat)
    requires Sizes(g)
  {
    && |bytes| == |s.bytes|
    && (forall j :: 0 <= j < |bytes| ==> bytes[j] < 256)
    && forall k {:trigger GetEntry(bytes, k)} :: 0 <= k < 2 * |bytes| ==>
         GetEntry(bytes, k) == if k < idx then NewEntry(g, s, accBase, x, line, k) else GetEntry(s.bytes, k)
  }

  lemma SweepStart(g: Geometry, s: Slot, accBase: nat, x: nat, line: nat, idx: nat)
    requires Sizes(g) && SlotOk(g, s) && line < g.nr && idx == (line + g.nr - s.base / g.size % g.nr) % g.nr
    ensures Swept(g, s, accBase, x, line, s.bytes, idx) && idx % g.nr == idx
  {
    Generators.DivModUnique(idx, g.nr, 0, idx);
    forall k | 0 <= k < idx ensures !Affected(g, s, line, k) {
      LineResidue(s.base / g.size, k, line, g.nr);
      Generators.DivModUnique(k, g.nr, 0, k);
    }
  }

  lemma SweepStep(g: Geometry, s: Slot, accBase: nat, x: nat, line: nat, bytes: seq<nat>, idx: nat)
    requires Sizes(g) && SlotOk(g, s) && line < g.nr && Swept(g, s, accBase, x, line, bytes, idx)
    requires idx % g.nr == (line + g.nr - s.base / g.size % g.nr) % g.nr && EntryAddr(g, s, idx) <= s.top
    requires idx < 2 * |bytes|
    ensures Swept(g, s, accBase, x, line, SetEntry(bytes, idx, NewEntry(g, s, accBase, x, line, idx)), idx + g.nr)
    ensures (idx + g.nr) % g.nr == idx % g.nr && Affected(g, s, line, idx)
  {
    NewEntryOk(g, s, accBase, x, line, idx);
    LineResidue(s.base / g.size, idx, line, g.nr);
    var e := NewEntry(g, s, accBase, x, line, idx);
    var r := SetEntry(bytes, idx, e);
    SetInRange(bytes, idx, e);
    assert (idx + g.nr) % g.nr == idx % g.nr by {
      if g.nr > 1 { NextOfLine(idx, idx + 1, g.nr); }
    }
    forall k | 0 <= k < 2 * |r|
      ensures GetEntry(r, k) == if k < idx + g.nr then NewEntry(g, s, accBase, x, line, k) else GetEntry(s.bytes, k)
    {
      SetGet(bytes, idx, e, k);
      if idx < k < idx + g.nr {
        NextOfLine(idx, k, g.nr);
        LineResidue(s.base / g.size, k, line, g.nr);
      }
    }
  }

  lemma SetInRange(bytes: seq<nat>, k: nat, e: nat)
    requires k / 2 < |bytes| && e < 16 && forall j :: 0 <= j < |bytes| ==> bytes[j] < 256
    ensures forall j :: 0 <= j < |bytes| ==> SetEntry(bytes, k, e)[j] < 256
  {
  }

  lemma SweepEnd(g: Geometry, s: Slot, accBase: nat, x: nat, line: nat, bytes: seq<nat>, idx: nat)
    requires Sizes(g) && SlotOk(g, s) && Swept(g, s, accBase, x, line, bytes, idx) && EntryAddr(g, s, idx) > s.top
    ensures bytes == MissSlot(g, s, accBase, x, line).bytes
  {
    hide GetEntry, SlotOk, EntryAddr, NewEntry, MissSlot;
    var r := MissSlot(g, s, accBase, x, line);
    MissSlotParts(g, s, accBase, x, line);
    MissSlotBytes(g, s, accBase, x, line);
    forall k | 0 <= k < 2 * |bytes| ensures GetEntry(bytes, k) == GetEntry(r.bytes, k) {
      MissSlotEntry(g, s, accBase, x, line, k);
      if k >= idx {
        BehindTop(g, s, accBase, x, line, idx, k);
      }
    }
    SameBytes(bytes, r.bytes);
  }

  lemma MissSlotBytes(g: Geometry, s: Slot, accBase: nat, x: nat, line: nat)
    requires Sizes(g) && SlotOk(g, s)
    ensures var r := MissSlot(g, s, accBase, x, line);
            |r.bytes| == |s.bytes| && forall j :: 0 <= j < |r.bytes| ==> r.bytes[j] < 256
  {
    hide MissSlot, GetEntry;
    MissSlotOk(g, s, accBase, x, line);
    MissSlotParts(g, s, accBase, x, line);
  }

  /** Entries behind the top are not changed. */
  lemma BehindTop(g: Geometry, s: Slot, accBase: nat, x: nat, line: nat, idx: nat, k: nat)
    requires Sizes(g) && EntryAddr(g, s, idx) > s.top && idx <= k < 2 * |s.bytes|
    ensures NewEntry(g, s, accBase, x, line, k) == GetEntry(s.bytes, k)
  {
    hide GetEntry;
    Generators.MulMonotone(idx, k, g.size);
  }

  lemma SameBytes(a: seq<nat>, b: seq<nat>)
    requires |a| == |b| && forall j :: 0 <= j < |a| ==> a[j] < 256 && b[j] < 256
    requires forall k {:trigger GetEntry(a, k)} :: 0 <= k < 2 * |a| ==> GetEntry(a, k) == GetEntry(b, k)
    ensures a == b
  {
    forall j | 0 <= j < |a| ensures a[j] == b[j] {
      assert GetEntry(a, 2 * j) == GetEntry(b, 2 * j);
      assert GetEntry(a, 2 * j + 1) == GetEntry(b, 2 * j + 1);
      SameByte(a[j], b[j]);
    }
  }

  lemma SameByte(a: nat, b: nat)
    requires a < 256 && b < 256 && a / 16 % 16 == b / 16 % 16 && a % 16 == b % 16
    ensures a == b
  {
  }

  /** An entry up to the top is inside the allocated bytes. */
  lemma EntryFits(g: Geometry, s: Slot, k: nat)
    requires Sizes(g) && SlotOk(g, s) && EntryAddr(g, s, k) <= s.top
    ensures k < 2 * |s.bytes| && Covers(g, s, EntryAddr(g, s, k)) && IndexOf(g, s, EntryAddr(g, s, k)) == k
  {
    var n := g.size;
    var q := s.base / n;
    assert Aligned(g, s.base) == q * n;
    assert EntryAddr(g, s, k) == (q + k) * n;
    Generators.DivModUnique(EntryAddr(g, s, k), n, q + k, 0);
    IndexFits(g, s, EntryAddr(g, s, k));
    Generators.DivModUnique(k * n, n, k, 0);
  }

  /** Entry idx has been passed: the missed block's own entry has been counted if it lies before idx. */
  function Counted(g: Geometry, s: Slot, x: nat, idx: nat): Tally
    requires Sizes(g) && SlotOk(g, s)
  {
    if Covers(g, s, x) && IndexOf(g, s, x) < idx then SlotTally(g, s, x) else Tally(0, 0, 0)
  }

  lemma CountStep(g: Geometry, s: Slot, x: nat, line: nat, k: nat, idx: nat)
    requires Sizes(g) && SlotOk(g, s) && line == LineOf(g, x) && k <= idx
    requires forall j :: k <= j < idx && Affected(g, s, line, j) ==> j == k && EntryAddr(g, s, k) != x
    ensures Counted(g, s, x, idx) == Counted(g, s, x, k)
  {
    if Covers(g, s, x) {
      IndexFits(g, s, x);
      assert Affected(g, s, line, IndexOf(g, s, x));
    }
  }

  /** Between two entries of a line there is no other. */
  lemma NoneBetween(g: Geometry, s: Slot, line: nat, idx: nat)
    requires Sizes(g) && line < g.nr && idx % g.nr == (line + g.nr - s.base / g.size % g.nr) % g.nr
    ensures forall j :: idx < j < idx + g.nr ==> !Affected(g, s, line, j)
    ensures idx < g.nr ==> forall j :: 0 <= j < idx ==> !Affected(g, s, line, j)
  {
    forall j | idx < j < idx + g.nr ensures !Affected(g, s, line, j) {
      NextOfLine(idx, j, g.nr);
      LineResidue(s.base / g.size, j, line, g.nr);
    }
    forall j | 0 <= j < idx && idx < g.nr ensures !Affected(g, s, line, j) {
      Generators.DivModUnique(j, g.nr, 0, j);
      Generators.DivModUnique(idx, g.nr, 0, idx);
      LineResidue(s.base / g.size, j, line, g.nr);
    }
  }

  /** One entry of the line: it is counted if it is that of the missed block, and gets its new value. */
  method AnalyseEntry(g: Geometry, s: Slot, accBase: nat, x: nat, line: nat, idx: nat, entryAddr: nat,
                      bytes: seq<nat>, tally: Tally)
    returns (bytes': seq<nat>, tally': Tally)
    requires Sizes(g) && SlotOk(g, s) && x % g.size == 0 && line == LineOf(g, x)
    requires entryAddr == EntryAddr(g, s, idx) <= s.top && idx % g.nr == (line + g.nr - s.base / g.size % g.nr) % g.nr
    requires Swept(g, s, accBase, x, line, bytes, idx) && tally == Counted(g, s, x, idx)
    ensures Swept(g, s, accBase, x, line, bytes', idx + g.nr) && tally' == Counted(g, s, x, idx + g.nr)
    ensures (idx + g.nr) % g.nr == idx % g.nr
  {
    EntryFits(g, s, idx);
    SweepStep(g, s, accBase, x, line, bytes, idx);
    NoneBetween(g, s, line, idx);
    var entry := GetEntry(bytes, idx);
    assert entry == GetEntry(s.bytes, idx);
    tally' := tally;
    if x == entryAddr {
      tally' := Plus(tally, Tally(1 - LBit(entry), CBit(entry), SBit(entry)));
      entry := 4;
    } else {
      entry := Mark(entry, accBase != s.base);
      CountStep(g, s, x, line, idx, idx + g.nr);
    }
    bytes' := SetEntry(bytes, idx, entry);
  }

  /** The sweep over one shadow array. */
  method AnalyseSlot(g: Geometry, s: Slot, accBase: nat, x: nat, line: nat) returns (bytes: seq<nat>, tally: Tally)
    requires Sizes(g) && SlotOk(g, s) && x % g.size == 0 && line == LineOf(g, x)
    ensures bytes == MissSlot(g, s, accBase, x, line).bytes
    ensures tally == SlotTally(g, s, x)
  {
    bytes, tally := s.bytes, Tally(0, 0, 0);
    var idx: nat := (line + g.nr - LineOf(g, s.base)) % g.nr;
    var entryAddr := Aligned(g, s.base) + g.size * idx;
    SweepStart(g, s, accBase, x, line, idx);
    NoneBetween(g, s, line, idx);
    CountStep(g, s, x, line, 0, idx);
    hide Swept, Counted, SlotOk, SlotTally;
    while entryAddr <= s.top
      invariant entryAddr == EntryAddr(g, s, idx)
      invariant idx % g.nr == (line + g.nr - s.base / g.size % g.nr) % g.nr
      invariant Swept(g, s, accBase, x, line, bytes, idx) && tally == Counted(g, s, x, idx)
      decreases s.top + 1 - entryAddr
    {
      bytes, tally := AnalyseEntry(g, s, accBase, x, line, idx, entryAddr, bytes, tally);
      NextAddr(g, s, idx);
      entryAddr := entryAddr + g.size * g.nr;
      idx := idx + g.nr;
    }
    SweepEnd(g, s, accBase, x, line, bytes, idx);
    AllCounted(g, s, x, idx);
  }

  lemma NextAddr(g: Geometry, s: Slot, idx: nat)
    requires Sizes(g)
    ensures EntryAddr(g, s, idx + g.nr) == EntryAddr(g, s, idx) + g.size * g.nr > EntryAddr(g, s, idx)
  {
    assert (idx + g.nr) * g.size == idx * g.size + g.nr * g.size;
    Generators.MulMonotone(1, g.nr, g.size);
  }

  lemma AllCounted(g: Geometry, s: Slot, x: nat, idx: nat)
    requires Sizes(g) && SlotOk(g, s) && EntryAddr(g, s, idx) > s.top
    ensures Counted(g, s, x, idx) == SlotTally(g, s, x)
  {
    if Covers(g, s, x) {
      IndexFits(g, s, x);
      if IndexOf(g, s, x) >= idx {
        Generators.MulMonotone(idx, IndexOf(g, s, x), g.size);
      }
    }
  }

  // ---- registering arrays ----

  /** A shadow array with all entries 0, for the blocks from the base to the end of the array. */
  function NewSlot(g: Geometry, base: nat, size: nat): (s: Slot)
    requires Sizes(g) && size > 0
  {
    var blocks := NrBlocks(g, base, size);
    var cols := (blocks + (g.nr - 1)) / g.nr;
    var bytes := (g.nr * cols + 1) / 2;
    Slot(base, Aligned(g, base + size - 1), seq(if bytes > 0 then bytes else 0, _ => 0))
  }

  /** Enough is allocated: an entry for every block. */
  lemma NewSlotOk(g: Geometry, base: nat, size: nat)
    requires Sizes(g) && size > 0
    ensures SlotOk(g, NewSlot(g, base, size))
    ensures forall x :: Covers(g, NewSlot(g, base, size), x) ==> BlockEntry(g, NewSlot(g, base, size), x) == 0
  {
    hide *;
    NewSlotSize(g, base, size);
    NewSlotTop(g, base, size);
    ZeroSlot(g, NewSlot(g, base, size));
  }

  /** There are bytes enough for all blocks. */
  lemma NewSlotSize(g: Geometry, base: nat, size: nat)
    requires Sizes(g) && size > 0
    ensures var s := NewSlot(g, base, size);
            && s.base == base && s.top == Aligned(g, base + size - 1)
            && 2 * |s.bytes| > (base + size - 1) / g.size - base / g.size
            && forall j :: 0 <= j < |s.bytes| ==> s.bytes[j] == 0
  {
    NrBlocksExact(g, base, size);
    QuotientMonotone(base, base + size - 1, g.size);
    RoundUp(NrBlocks(g, base, size), g.nr);
    hide NrBlocks, Aligned;
  }

  lemma NewSlotTop(g: Geometry, base: nat, size: nat)
    requires Sizes(g) && size > 0
    ensures var top := Aligned(g, base + size - 1);
            top % g.size == 0 && top / g.size == (base + size - 1) / g.size && top >= base - base % g.size
  {
    var n := g.size;
    var t, q := (base + size - 1) / n, base / n;
    QuotientMonotone(base, base + size - 1, n);
    assert Aligned(g, base + size - 1) == t * n && base - base % n == q * n;
    Generators.MulMonotone(q, t, n);
    Generators.DivModUnique(t * n, n, t, 0);
  }

  lemma ZeroSlot(g: Geometry, s: Slot)
    requires Sizes(g) && s.top >= s.base - s.base % g.size && s.top % g.size == 0
    requires 2 * |s.bytes| > s.top / g.size - s.base / g.size && forall j :: 0 <= j < |s.bytes| ==> s.bytes[j] == 0
    ensures SlotOk(g, s) && forall x :: Covers(g, s, x) ==> BlockEntry(g, s, x) == 0
  {
    hide Covers, IndexOf, Aligned;
    forall k | 0 <= k < 2 * |s.bytes| ensures GetEntry(s.bytes, k) == 0 && EntryOk(GetEntry(s.bytes, k)) {
    }
    forall x | Covers(g, s, x) ensures BlockEntry(g, s, x) == 0 {
      IndexFits(g, s, x);
    }
  }

  lemma QuotientMonotone(a: nat, b: nat, n: nat)
    requires n > 0 && a <= b
    ensures a / n <= b / n
  {
    if b / n < a / n {
      Generators.MulMonotone(b / n + 1, a / n, n);
    }
  }

  lemma RoundUp(blocks: nat, nr: nat)
    requires nr > 0 && blocks > 0
    ensures nr * ((blocks + (nr - 1)) / nr) >= blocks
  {
    var q, r := (blocks + (nr - 1)) / nr, (blocks + (nr - 1)) % nr;
    assert blocks + (nr - 1) == q * nr + r;
  }

  lemma MissSlotParts(g: Geometry, s: Slot, accBase: nat, x: nat, line: nat)
    requires Sizes(g)
    ensures MissSlot(g, s, accBase, x, line) == Slot(s.base, s.top, MissSlot(g, s, accBase, x, line).bytes)
  {
  }

  class ShadowTable {
    const g: Geometry
    const bases: array<nat>
    const tops: array<nat>
    const arrays: array<Option<seq<nat>>>
    ghost var used: nat

    constructor (g: Geometry)
      requires Sizes(g)
      ensures Valid() && this.g == g && used == 0 && fresh(bases) && fresh(tops) && fresh(arrays)
    {
      this.g := g;
      bases := new nat[MAX_SHADOWARRAYS](_ => 0);
      tops := new nat[MAX_SHADOWARRAYS](_ => 0);
      arrays := new Option<seq<nat>>[MAX_SHADOWARRAYS](_ => None);
      used := 0;
    }

    /** The used slots are the first ones; a slot not in use has base 0. */
    ghost predicate Valid()
      reads this, bases, tops, arrays
    {
      && Sizes(g) && bases != tops
      && bases.Length == tops.Length == arrays.Length == MAX_SHADOWARRAYS && used <= MAX_SHADOWARRAYS
      && (forall i :: 0 <= i < MAX_SHADOWARRAYS ==> (arrays[i].Some? <==> i < used) && (bases[i] > 0 <==> i < used))
      && (forall i :: 0 <= i < used ==> SlotOk(g, Slot(bases[i], tops[i], arrays[i].value)))
    }

    ghost function Slots(): (s: seq<Slot>)
      requires Valid()
      reads this, bases, tops, arrays
      ensures |s| == used && SlotsOk(g, s)
    {
      seq(used, i requires 0 <= i < used && Valid() reads this, bases, tops, arrays =>
        Slot(bases[i], tops[i], arrays[i].value))
    }

    /** DetailedAnalysis: every used shadow array is swept. */
    method DetailedAnalysis(accBase: nat, x: nat, line: nat) returns (tally: Tally)
      requires Valid() && x % g.size == 0 && line == LineOf(g, x)
      modifies arrays
      ensures Valid() && used == old(used) && Slots() == MissSlots(g, old(Slots()), accBase, x)
      ensures tally == TallyOf(g, old(Slots()), x, used)
    {
      hide MissSlot, SlotOk, SlotTally, LineOf;
      tally := Tally(0, 0, 0);
      ghost var was := Slots();
      var i := 0;
      while i < MAX_SHADOWARRAYS && arrays[i].Some?
        invariant 0 <= i <= used && Valid() && used == old(used)
        invariant forall j :: 0 <= j < i ==> Slots()[j] == MissSlot(g, was[j], accBase, x, line)
        invariant forall j :: i <= j < used ==> Slots()[j] == was[j]
        invariant tally == TallyOf(g, was, x, i)
      {
        var more := AnalyseArray(i, accBase, x, line);
        tally := Plus(tally, more);
        i := i + 1;
      }
      assert Slots() == MissSlots(g, was, accBase, x);
    }

    method AnalyseArray(i: nat, accBase: nat, x: nat, line: nat) returns (tally: Tally)
      requires Valid() && i < used && x % g.size == 0 && line == LineOf(g, x)
      modifies arrays
      ensures Valid() && used == old(used)
      ensures Slots() == old(Slots())[i := MissSlot(g, old(Slots())[i], accBase, x, line)]
      ensures tally == SlotTally(g, old(Slots())[i], x)
    {
      hide MissSlot, SlotOk, SlotTally, LineOf;
      var s := Slot(bases[i], tops[i], arrays[i].value);
      assert s == Slots()[i];
      MissSlotOk(g, s, accBase, x, line);
      var bytes;
      bytes, tally := AnalyseSlot(g, s, accBase, x, line);
      MissSlotParts(g, s, accBase, x, line);
      arrays[i] := Some(bytes);
    }

    /** RegisterArray at one level; the search for a free slot starts where it ended at the level before. */
    method RegisterArray(start: nat, baseaddress: nat, size: nat) returns (i: nat, ok: bool)
      requires Valid() && start <= used && baseaddress > 0 && size > 0
      modifies this`used, bases, tops, arrays
      ensures Valid() && i == old(used) && (ok <==> old(used) < MAX_SHADOWARRAYS)
      ensures Slots() == if ok then old(Slots()) + [NewSlot(g, baseaddress, size)] else old(Slots())
    {
      i := start;
      while i < MAX_SHADOWARRAYS && arrays[i].Some?
        invariant start <= i <= used
      {
        i := i + 1;
      }
      ok := i < MAX_SHADOWARRAYS;
      if ok {
        NewSlotOk(g, baseaddress, size);
        ghost var was := Slots();
        var s := NewSlot(g, baseaddress, size);
        bases[i], tops[i], arrays[i] := s.base, s.top, Some(s.bytes);
        used := used + 1;
        assert forall j :: 0 <= j < i ==> Slots()[j] == was[j];
      }
    }

    /** UnregisterArray: the last used slot takes the place of the first one with that base. */
    method UnregisterArray(baseaddress: nat)
      requires Valid() && baseaddress > 0
      modifies this`used, bases, tops, arrays
      ensures Valid()
      ensures var was := old(Slots());
              var j := Find(was, baseaddress, 0);
              Slots() == if j < |was| then Removed(was, j) else was
      ensures var was := old(Slots());
              var j := Find(was, baseaddress, 0);
              j < |was| ==> multiset(Slots()) == multiset(was) - multiset{was[j]}
    {
      hide SlotOk;
      var j := FindBase(baseaddress);
      if j < MAX_SHADOWARRAYS {
        var lastused := LastUsed(j);
        RemovedBag(Slots(), j);
        RemoveSlot(j, lastused);
      }
    }

    /** The first entry with that base; free ones have base 0. */
    method FindBase(baseaddress: nat) returns (j: nat)
      requires Valid() && baseaddress > 0
      ensures Find(Slots(), baseaddress, 0) == if j < MAX_SHADOWARRAYS then j else used
      ensures j < MAX_SHADOWARRAYS ==> j < used
    {
      hide SlotOk;
      j := 0;
      while j < MAX_SHADOWARRAYS && bases[j] != baseaddress
        invariant 0 <= j <= MAX_SHADOWARRAYS
        invariant Find(Slots(), baseaddress, 0) == Find(Slots(), baseaddress, if j < used then j else used)
      {
        assert j < used ==> Slots()[j].base == bases[j];
        j := j + 1;
      }
    }

    method LastUsed(j: nat) returns (lastused: nat)
      requires Valid() && j < used
      ensures lastused == used - 1
    {
      hide SlotOk;
      lastused := j;
      while lastused < MAX_SHADOWARRAYS && arrays[lastused].Some?
        invariant j <= lastused <= used
      {
        lastused := lastused + 1;
      }
      lastused := lastused - 1;
    }

    method RemoveSlot(j: nat, lastused: nat)
      requires Valid() && j <= lastused == used - 1
      modifies this`used, bases, tops, arrays
      ensures Valid() && Slots() == Removed(old(Slots()), j)
    {
      hide SlotOk;
      ghost var was := Slots();
      if j != lastused {
        arrays[j], bases[j], tops[j] := arrays[lastused], bases[lastused], tops[lastused];
      }
      arrays[lastused] := None;
      bases[lastused] := 0;
      used := used - 1;
      assert forall k :: 0 <= k < used ==> Slots()[k] == was[if k == j then lastused else k];
    }
  }

  /** The first slot with that base from j on. */
  function Find(slots: seq<Slot>, base: nat, j: nat): (r: nat)
    requires j <= |slots|
    ensures j <= r <= |slots| && (r < |slots| ==> slots[r].base == base)
    ensures forall i :: j <= i < r ==> slots[i].base != base
    decreases |slots| - j
  {
    if j == |slots| || slots[j].base == base then j else Find(slots, base, j + 1)
  }

  function Removed(slots: seq<Slot>, j: nat): (r: seq<Slot>)
    requires j < |slots|
    ensures |r| == |slots| - 1
  {
    slots[j := slots[|slots| - 1]][..|slots| - 1]
  }

  /** Exactly slot j leaves; the others stay, all but the last one where they were; if the arrays have different
      addresses, that of slot j is not found any more, and all others are. */
  lemma RemovedIs(slots: seq<Slot>, j: nat)
    requires j < |slots|
    ensures var r := Removed(slots, j);
            && multiset(r) == multiset(slots) - multiset{slots[j]}
            && (forall k :: 0 <= k < |r| && k != j ==> r[k] == slots[k])
            && (DistinctBases(slots) ==>
                 && DistinctBases(r)
                 && forall b :: Find(r, b, 0) < |r| <==> b != slots[j].base && Find(slots, b, 0) < |slots|)
  {
    var r, n := Removed(slots, j), |slots| - 1;
    RemovedBag(slots, j);
    if DistinctBases(slots) {
      forall b ensures Find(r, b, 0) < |r| <==> b != slots[j].base && Find(slots, b, 0) < |slots| {
        var i := Find(slots, b, 0);
        if i < |slots| && b != slots[j].base {
          assert r[if i == n then j else i].base == b;
        }
        var k := Find(r, b, 0);
        if k < |r| {
          assert slots[if k == j then n else k].base == b;
        }
      }
    }
  }

  /** The last slot is in the place of slot j. */
  lemma RemovedPlaces(slots: seq<Slot>, j: nat)
    requires j < |slots|
    ensures var r, n := Removed(slots, j), |slots| - 1;
            forall i :: 0 <= i < n ==> r[i] == slots[if i == j then n else i]
  {
  }

  predicate DistinctBases(slots: seq<Slot>) {
    forall i, k :: 0 <= i < k < |slots| ==> slots[i].base != slots[k].base
  }

  lemma RemovedBag(slots: seq<Slot>, j: nat)
    requires j < |slots|
    ensures multiset(Removed(slots, j)) == multiset(slots) - multiset{slots[j]}
  {
    hide *;
    MovedBag(slots, j);
    RemovedMoves(slots, j);
  }

  lemma RemovedMoves(slots: seq<Slot>, j: nat)
    requires j < |slots|
    ensures Removed(slots, j) == slots[j := slots[|slots| - 1]][..|slots| - 1]
  {
  }

  lemma MovedBag<T>(s: seq<T>, j: nat)
    requires j < |s|
    ensures multiset(s[j := s[|s| - 1]][..|s| - 1]) == multiset(s) - multiset{s[j]}
  {
    var last := s[|s| - 1];
    LastOut(s[j := last]);
    assert multiset(s[j := last]) == multiset(s) - multiset{s[j]} + multiset{last};
    Cancel(multiset(s[j := last][..|s| - 1]), multiset(s) - multiset{s[j]}, last);
  }

  lemma Cancel<T>(a: multiset<T>, b: multiset<T>, x: T)
    requires a + multiset{x} == b + multiset{x}
    ensures a == b
  {
    forall y ensures a[y] == b[y] {
      assert (a + multiset{x})[y] == (b + multiset{x})[y];
    }
  }

  lemma LastOut<T>(u: seq<T>)
    requires u != []
    ensures multiset(u) == multiset(u[..|u| - 1]) + multiset{u[|u| - 1]}
  {
    assert u == u[..|u| - 1] + [u[|u| - 1]];
  }

  // ---- the blocks of an array ----

  /** A new shadow array has an entry for every block that an element of the array lies in, and for no others. */
  lemma NewSlotCovers(g: Geometry, base: nat, size: nat, x: nat)
    requires Sizes(g) && size > 0
    ensures Covers(g, NewSlot(g, base, size), x) <==>
      exists address :: base <= address < base + size && Aligned(g, address) == x
  {
    var n := g.size;
    if Covers(g, NewSlot(g, base, size), x) {
      var address := if x < base then base else x;
      BlockOf(n, base, base + size - 1, address, x);
      assert Aligned(g, address) == x && base <= address < base + size;
    }
    forall address | base <= address < base + size && Aligned(g, address) == x
      ensures Covers(g, NewSlot(g, base, size), x)
    {
      QuotientMonotone(base, address, n);
      QuotientMonotone(address, base + size - 1, n);
      BlocksOrdered(n, base, address);
      BlocksOrdered(n, address, base + size - 1);
      Generators.DivModUnique(address / n * n, n, address / n, 0);
    }
  }

  /** Rounding down to a block keeps the order. */
  lemma BlocksOrdered(n: nat, a: nat, b: nat)
    requires n > 0 && a / n <= b / n
    ensures a - a % n == a / n * n <= b / n * n == b - b % n
  {
    Generators.MulMonotone(a / n, b / n, n);
  }

  lemma BlockOf(n: nat, base: nat, end: nat, address: nat, x: nat)
    requires n > 0 && x % n == 0 && base - base % n <= x <= end - end % n && base <= end
    requires address == if x < base then base else x
    ensures address - address % n == x && base <= address <= end
  {
    if x < base {
      var q, p := base / n, x / n;
      assert x == p * n && base - base % n == q * n;
      if p > q {
        Generators.MulMonotone(q + 1, p, n);
      } else if p < q {
        Generators.MulMonotone(p, q - 1, n);
      }
    }
  }
}
