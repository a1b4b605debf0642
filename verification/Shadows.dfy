/**
 Shadow arrays: for every cache block of a registered array three bits, two blocks to a byte, that say whether
 the block has been loaded, and whether another array or the array itself has since used its cache line
 (the shadow-entry macros, DetailedAnalysis on one array, the arithmetic of RegisterArray).
 */
module Shadows {
  import Generators

  // ---- two entries in a byte ----

  function GetEntry(bytes: seq<nat>, k: nat): (e: nat)
    requires k / 2 < |bytes|
  {
    if k % 2 == 0 then bytes[k / 2] / 16 % 16 else bytes[k / 2] % 16
  }

  function SetEntry(bytes: seq<nat>, k: nat, e: nat): (r: seq<nat>)
    requires k / 2 < |bytes|
    ensures |r| == |bytes|
  {
    bytes[k / 2 := if k % 2 == 0 then e * 16 + bytes[k / 2] % 16 else bytes[k / 2] / 16 % 16 * 16 + e]
  }

  /** Only the entry addressed changes. */
  lemma SetGet(bytes: seq<nat>, k: nat, e: nat, j: nat)
    requires k / 2 < |bytes| && j / 2 < |bytes| && e < 16
    ensures GetEntry(SetEntry(bytes, k, e), j) == if j == k then e else GetEntry(bytes, j)
  {
    if j / 2 != k / 2 {
      assert SetEntry(bytes, k, e)[j / 2] == bytes[j / 2];
    } else {
      Nibbles(e, bytes[j / 2] % 16);
      Nibbles(bytes[j / 2] / 16 % 16, e);
    }
  }

  lemma Nibbles(hi: nat, lo: nat)
    requires hi < 16 && lo < 16
    ensures (hi * 16 + lo) / 16 % 16 == hi && (hi * 16 + lo) % 16 == lo
  {
  }

  // ---- the three bits ----

  function LBit(e: nat): nat { e / 4 % 2 }
  function CBit(e: nat): nat { e / 2 % 2 }
  function SBit(e: nat): nat { e % 2 }

  /** A loaded block is marked: its line has been used by another array (C), or by its own (S). */
  function Mark(e: nat, otherArray: bool): nat {
    if LBit(e) == 0 then e
    else if otherArray then e + 2 * (1 - CBit(e))
    else e + 1 - SBit(e)
  }

  /** Entries that occur: marks only on loaded blocks. */
  predicate EntryOk(e: nat) {
    e < 8 && (CBit(e) == 1 || SBit(e) == 1 ==> LBit(e) == 1)
  }

  /** Loaded, and its line not used for anything else since. */
  predicate Clean(e: nat) {
    LBit(e) == 1 && CBit(e) == 0 && SBit(e) == 0
  }

  /** On a loaded entry the use by another array sets C and nothing else, that by the own array S and nothing else;
      other entries stay as they are. */
  lemma MarkOk(e: nat, otherArray: bool)
    requires EntryOk(e)
    ensures var m := Mark(e, otherArray);
            && EntryOk(m) && !Clean(m) && LBit(m) == LBit(e)
            && (LBit(e) == 0 ==> m == e)
            && (LBit(e) == 1 && otherArray ==> CBit(m) == 1 && SBit(m) == SBit(e))
            && (LBit(e) == 1 && !otherArray ==> SBit(m) == 1 && CBit(m) == CBit(e))
  {
  }

  // ---- geometry ----

  /** Bytes in a cache line, lines, and places per line. */
  datatype Geometry = Geometry(size: nat, nr: nat, assoc: nat)

  predicate Sizes(g: Geometry) {
    g.size > 0 && g.nr > 0 && g.assoc > 0
  }

  function Aligned(g: Geometry, address: nat): (a: nat)
    requires Sizes(g)
  {
    address - address % g.size
  }

  function LineOf(g: Geometry, address: nat): (line: nat)
    requires Sizes(g)
    ensures line < g.nr
  {
    (address / g.size) % g.nr
  }

  /** The number of blocks RegisterArray computes. */
  function NrBlocks(g: Geometry, base: nat, size: nat): int
    requires Sizes(g) && size > 0
  {
    (size + (g.size - 1)) / g.size
    + if base % g.size > g.size - 1 - (Aligned(g, base) + size - 1) % g.size then 1 else 0
  }

  /** It is the number of cache blocks the array touches, however it is aligned. */
  lemma NrBlocksExact(g: Geometry, base: nat, size: nat)
    requires Sizes(g) && size > 0
    ensures NrBlocks(g, base, size) == (base + size - 1) / g.size - base / g.size + 1
  {
    var n, b, q := g.size, base % g.size, base / g.size;
    var k, r := (size - 1) / n, (size - 1) % n;
    assert base == q * n + b && size - 1 == k * n + r;
    Quotients(n, q, b, k, r);
    assert Aligned(g, base) == q * n;
  }

  /** Base q * n + b and size k * n + r + 1. */
  lemma Quotients(n: nat, q: nat, b: nat, k: nat, r: nat)
    requires b < n && r < n
    ensures (k * n + r + 1 + (n - 1)) / n == k + 1
    ensures (q * n + k * n + r) % n == r
    ensures (q * n + b + k * n + r) / n == q + k + if b + r >= n then 1 else 0
  {
    assert (k + 1) * n == k * n + n && (q + k) * n == q * n + k * n && (q + k + 1) * n == q * n + k * n + n;
    Generators.DivModUnique(k * n + r + 1 + (n - 1), n, k + 1, r);
    Generators.DivModUnique(q * n + k * n + r, n, q + k, r);
    if b + r >= n {
      Generators.DivModUnique(q * n + b + k * n + r, n, q + k + 1, b + r - n);
    } else {
      Generators.DivModUnique(q * n + b + k * n + r, n, q + k, b + r);
    }
  }

  // ---- one shadow array ----

  /** The base address, the aligned address of the last block, and the packed entries. */
  datatype Slot = Slot(base: nat, top: nat, bytes: seq<nat>)

  /** The aligned address of entry k. */
  function EntryAddr(g: Geometry, s: Slot, k: nat): (a: nat)
    requires Sizes(g)
  {
    Aligned(g, s.base) + k * g.size
  }

  /** The slot has an entry for every block from its base to its top. */
  predicate SlotOk(g: Geometry, s: Slot)
    requires Sizes(g)
  {
    && s.top >= s.base - s.base % g.size && s.top % g.size == 0
    && 2 * |s.bytes| > s.top / g.size - s.base / g.size
    && (forall j :: 0 <= j < |s.bytes| ==> s.bytes[j] < 256)
    && (forall k :: 0 <= k < 2 * |s.bytes| ==> EntryOk(GetEntry(s.bytes, k)))
  }

  /** Block x, an aligned address, belongs to the array. */
  predicate Covers(g: Geometry, s: Slot, x: nat)
    requires Sizes(g)
  {
    x % g.size == 0 && Aligned(g, s.base) <= x <= s.top
  }

  function IndexOf(g: Geometry, s: Slot, x: nat): (k: nat)
    requires Sizes(g) && Covers(g, s, x)
  {
    (x - Aligned(g, s.base)) / g.size
  }

  lemma IndexFits(g: Geometry, s: Slot, x: nat)
    requires Sizes(g) && SlotOk(g, s) && Covers(g, s, x)
    ensures IndexOf(g, s, x) / 2 < |s.bytes| && EntryAddr(g, s, IndexOf(g, s, x)) == x
    ensures IndexOf(g, s, x) == x / g.size - s.base / g.size <= s.top / g.size - s.base / g.size
  {
    hide GetEntry, EntryOk;
    BlockIndex(g.size, s.base, x, s.top);
  }

  /** The number of a block from that of the base on. */
  lemma BlockIndex(n: nat, base: nat, x: nat, top: nat)
    requires n > 0 && x % n == 0 && top % n == 0 && base - base % n <= x <= top
    ensures (x - (base - base % n)) / n == x / n - base / n
    ensures 0 <= x / n - base / n <= top / n - base / n && base - base % n + (x / n - base / n) * n == x
  {
    var q, p, t := base / n, x / n, top / n;
    assert base - base % n == q * n && x == p * n && top == t * n;
    assert x - q * n == (p - q) * n;
    Generators.DivModUnique(x - q * n, n, p - q, 0);
    if p < q {
      Generators.MulMonotone(p + 1, q, n);
    }
    if p > t {
      Generators.MulMonotone(t + 1, p, n);
    }
  }

  function BlockEntry(g: Geometry, s: Slot, x: nat): (e: nat)
    requires Sizes(g) && SlotOk(g, s) && Covers(g, s, x)
  {
    IndexFits(g, s, x);
    GetEntry(s.bytes, IndexOf(g, s, x))
  }

  // ---- a miss ----

  /** Entry k belongs to the array and to a block of the given line. */
  predicate Affected(g: Geometry, s: Slot, line: nat, k: nat)
    requires Sizes(g)
  {
    (s.base / g.size + k) % g.nr == line && EntryAddr(g, s, k) <= s.top
  }

  /** The entry after a miss of block x in that line, caused by an access to array accBase. */
  function NewEntry(g: Geometry, s: Slot, accBase: nat, x: nat, line: nat, k: nat): (e: nat)
    requires Sizes(g) && k / 2 < |s.bytes|
  {
    if !Affected(g, s, line, k) then GetEntry(s.bytes, k)
    else if EntryAddr(g, s, k) == x then 4
    else Mark(GetEntry(s.bytes, k), accBase != s.base)
  }

  function MissSlot(g: Geometry, s: Slot, accBase: nat, x: nat, line: nat): (r: Slot)
    requires Sizes(g)
    ensures |r.bytes| == |s.bytes|
  {
    s.(bytes := seq(|s.bytes|, j requires 0 <= j < |s.bytes| =>
      NewEntry(g, s, accBase, x, line, 2 * j) % 16 * 16 + NewEntry(g, s, accBase, x, line, 2 * j + 1) % 16))
  }

  lemma NewEntryOk(g: Geometry, s: Slot, accBase: nat, x: nat, line: nat, k: nat)
    requires Sizes(g) && SlotOk(g, s) && k < 2 * |s.bytes|
    ensures EntryOk(NewEntry(g, s, accBase, x, line, k))
  {
    assert EntryOk(GetEntry(s.bytes, k));
    if Affected(g, s, line, k) && EntryAddr(g, s, k) != x {
      MarkOk(GetEntry(s.bytes, k), accBase != s.base);
    }
  }

  lemma MissSlotEntry(g: Geometry, s: Slot, accBase: nat, x: nat, line: nat, k: nat)
    requires Sizes(g) && SlotOk(g, s) && k < 2 * |s.bytes|
    ensures GetEntry(MissSlot(g, s, accBase, x, line).bytes, k) == NewEntry(g, s, accBase, x, line, k)
  {
    var j := k / 2;
    NewEntryOk(g, s, accBase, x, line, 2 * j);
    NewEntryOk(g, s, accBase, x, line, 2 * j + 1);
    PackedEntries(NewEntry(g, s, accBase, x, line, 2 * j), NewEntry(g, s, accBase, x, line, 2 * j + 1));
    hide NewEntry;
    assert k == 2 * j || k == 2 * j + 1;
  }

  lemma PackedEntries(high: nat, low: nat)
    requires high < 16 && low < 16
    ensures var b := high % 16 * 16 + low % 16; b < 256 && b / 16 % 16 == high && b % 16 == low
  {
  }

  lemma MissSlotOk(g: Geometry, s: Slot, accBase: nat, x: nat, line: nat)
    requires Sizes(g) && SlotOk(g, s)
    ensures SlotOk(g, MissSlot(g, s, accBase, x, line))
  {
    var r := MissSlot(g, s, accBase, x, line);
    forall k | 0 <= k < 2 * |r.bytes| ensures EntryOk(GetEntry(r.bytes, k)) {
      MissSlotEntry(g, s, accBase, x, line, k);
      NewEntryOk(g, s, accBase, x, line, k);
    }
  }

  /** In terms of blocks and their three bits: the missed block is loaded and clean; the other loaded blocks of its line
      are marked with C if the miss was that of another array and with S if it was one of their own; blocks that are not
      loaded, and those of other lines, stay as they were. */
  lemma MissBlock(g: Geometry, s: Slot, accBase: nat, x: nat, y: nat)
    requires Sizes(g) && SlotOk(g, s) && Covers(g, s, y)
    ensures SlotOk(g, MissSlot(g, s, accBase, x, LineOf(g, x)))
    ensures Covers(g, MissSlot(g, s, accBase, x, LineOf(g, x)), y)
    ensures BlockEntry(g, MissSlot(g, s, accBase, x, LineOf(g, x)), y) ==
              if y == x then 4
              else if LineOf(g, y) == LineOf(g, x) then Mark(BlockEntry(g, s, y), accBase != s.base)
              else BlockEntry(g, s, y)
    ensures var e, m := BlockEntry(g, s, y), BlockEntry(g, MissSlot(g, s, accBase, x, LineOf(g, x)), y);
            && (y == x ==> LBit(m) == 1 && CBit(m) == 0 && SBit(m) == 0)
            && (y != x ==>
                 var touched := LineOf(g, y) == LineOf(g, x) && LBit(e) == 1;
                 && LBit(m) == LBit(e)
                 && (CBit(m) == 1 <==> CBit(e) == 1 || (touched && accBase != s.base))
                 && (SBit(m) == 1 <==> SBit(e) == 1 || (touched && accBase == s.base)))
  {
    var line, r := LineOf(g, x), MissSlot(g, s, accBase, x, LineOf(g, x));
    MissSlotOk(g, s, accBase, x, line);
    IndexFits(g, s, y);
    IndexFits(g, r, y);
    var k := IndexOf(g, s, y);
    MissSlotEntry(g, s, accBase, x, line, k);
    assert Affected(g, s, line, k) <==> LineOf(g, y) == line;
    assert EntryOk(BlockEntry(g, s, y));
    MarkOk(BlockEntry(g, s, y), accBase != s.base);
  }
}
