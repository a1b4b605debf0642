/**
 Traces at one cache level with reads and fetching writes: what the sets hold, and how the misses are
 classified by the shadow arrays.
 */
module MissClassification {
  import opened AxisTransform
  import opened CacheSets
  import opened CacheLevels
  import opened Shadows
  import opened ShadowTables

  datatype Op =
    | Register(base: nat, size: nat)
    | Unregister(base: nat)
    | Use(write: bool, base: nat, elem: nat)
    | Start

  /** The numbers of hits and misses, the three counters of the classification, and, for reference, how many misses
      have raised both the cross and the self counter. */
  datatype Counters = Counters(hits: nat, misses: nat, tally: Tally, both: nat)

  function NoCounters(): Counters {
    Counters(0, 0, Tally(0, 0, 0), 0)
  }

  /** After a hit, or after a miss with the entries t. */
  function CountOne(c: Counters, hit: bool, t: Tally): Counters {
    if hit then c.(hits := c.hits + 1)
    else Counters(c.hits, c.misses + 1, Plus(c.tally, t), c.both + if t.cross > 0 && t.self > 0 then 1 else 0)
  }

  /** The sets, the shadow arrays, and the counters of reads and of writes. */
  datatype Level = Level(sets: seq<seq<nat>>, slots: seq<Slot>, rcounts: Counters, wcounts: Counters)

  function CountIn(st: Level, write: bool, hit: bool, t: Tally): Level {
    if write then st.(wcounts := CountOne(st.wcounts, hit, t)) else st.(rcounts := CountOne(st.rcounts, hit, t))
  }

  predicate Shape(g: Geometry, st: Level) {
    Sizes(g) && |st.sets| == g.nr && (forall l :: 0 <= l < g.nr ==> |st.sets[l]| == g.assoc) && SlotsOk(g, st.slots)
  }

  function Empty(g: Geometry): Level {
    Level(seq(g.nr, _ => Zeros(g.assoc)), [], NoCounters(), NoCounters())
  }

  /** An access under a write policy; reads do what fetch-on-write does. */
  function PolicyStep(g: Geometry, st: Level, write: bool, policy: Policy, base: nat, elem: nat): Level
    requires Shape(g, st)
  {
    var x, line := Aligned(g, elem), LineOf(g, elem);
    var sets := st.sets[line := Access(st.sets[line], policy, x)];
    if Hit(st.sets[line], x) then CountIn(st.(sets := sets), write, true, Tally(0, 0, 0))
    else
      CountIn(st.(sets := sets, slots := MissSlots(g, st.slots, base, x)), write, false,
        TallyOf(g, st.slots, x, |st.slots|))
  }

  /** A read, or a write with fetch-on-write. */
  function UseStep(g: Geometry, st: Level, write: bool, base: nat, elem: nat): Level
    requires Shape(g, st)
  {
    PolicyStep(g, st, write, Fetch, base, elem)
  }

  function Step(g: Geometry, st: Level, op: Op): Level
    requires Shape(g, st) && (op.Register? ==> op.size > 0)
  {
    match op
    case Register(base, size) => st.(slots := st.slots + [NewSlot(g, base, size)])
    case Unregister(base) =>
      var j := Find(st.slots, base, 0);
      if j < |st.slots| then st.(slots := Removed(st.slots, j)) else st
    case Use(write, base, elem) => UseStep(g, st, write, base, elem)
    case Start => st.(rcounts := NoCounters(), wcounts := NoCounters())
  }

  /** No block belongs to both arrays. */
  ghost predicate Apart(g: Geometry, s: Slot, t: Slot)
    requires Sizes(g)
  {
    forall x :: Covers(g, s, x) ==> !Covers(g, t, x)
  }

  /** Arrays are registered next to the others, without a common block; accesses are to elements of registered
      arrays, and not to block 0. */
  ghost predicate Legal(g: Geometry, st: Level, op: Op)
    requires Shape(g, st)
  {
    match op
    case Register(base, size) =>
      && size > 0
      && forall i :: 0 <= i < |st.slots| ==>
           Apart(g, st.slots[i], NewSlot(g, base, size)) && Apart(g, NewSlot(g, base, size), st.slots[i])
    case Unregister(_) => true
    case Use(_, base, elem) =>
      && Aligned(g, elem) > 0
      && exists i :: 0 <= i < |st.slots| && st.slots[i].base == base && Covers(g, st.slots[i], Aligned(g, elem))
    case Start => true
  }

  /** A clean entry is that of a block that is still in its set. */
  predicate CleanIsIn(g: Geometry, st: Level, i: nat, x: nat)
    requires Shape(g, st) && i < |st.slots| && Covers(g, st.slots[i], x)
  {
    Clean(BlockEntry(g, st.slots[i], x)) ==> x in st.sets[LineOf(g, x)]
  }

  predicate EvenSets(g: Geometry, st: Level)
    requires Shape(g, st)
  {
    forall l, p :: 0 <= l < g.nr && 0 <= p < g.assoc ==> st.sets[l][p] % 2 == 0
  }

  ghost predicate AllApart(g: Geometry, slots: seq<Slot>)
    requires Sizes(g)
  {
    forall i, j :: 0 <= i < |slots| && 0 <= j < |slots| && i != j ==> Apart(g, slots[i], slots[j])
  }

  ghost predicate CleanIn(g: Geometry, st: Level)
    requires Shape(g, st)
  {
    forall i: nat, x: nat :: i < |st.slots| && Covers(g, st.slots[i], x) ==> CleanIsIn(g, st, i, x)
  }

  ghost predicate Inv(g: Geometry, st: Level) {
    && Shape(g, st) && g.size % 2 == 0
    && EvenSets(g, st) && AllApart(g, st.slots) && CleanIn(g, st)
    && CountersOk(st.rcounts) && CountersOk(st.wcounts)
  }

  /** Every miss raises one counter, or two. */
  predicate CountersOk(c: Counters) {
    c.tally.cold + c.tally.cross + c.tally.self == c.misses + c.both
  }

  // ---- one miss ----

  lemma AlignedBlock(g: Geometry, elem: nat)
    requires Sizes(g)
    ensures Aligned(g, elem) % g.size == 0 && LineOf(g, Aligned(g, elem)) == LineOf(g, elem)
    ensures g.size % 2 == 0 ==> Aligned(g, elem) % 2 == 0
  {
    var q, n := elem / g.size, g.size;
    assert Aligned(g, elem) == q * n;
    Generators.DivModUnique(q * n, n, q, 0);
    if n % 2 == 0 {
      assert q * n == 2 * (q * (n / 2));
    }
  }

  lemma EvenHits(s: seq<nat>, x: nat)
    requires x in s && x % 2 == 0 && forall p :: 0 <= p < |s| ==> s[p] % 2 == 0
    ensures Hit(s, x)
  {
    var p :| 0 <= p < |s| && s[p] == x;
    assert Contents(s[p]) == x;
  }

  /** If one slot only has an entry for the block, that entry is what is counted. */
  lemma {:induction false} OneTally(g: Geometry, slots: seq<Slot>, x: nat, i: nat, k: nat)
    requires Sizes(g) && SlotsOk(g, slots) && i < |slots| && k <= |slots|
    requires forall j :: 0 <= j < |slots| && j != i ==> !Covers(g, slots[j], x)
    ensures TallyOf(g, slots, x, k) == if i < k then SlotTally(g, slots[i], x) else Tally(0, 0, 0)
  {
    hide SlotOk, SlotTally, Covers;
    if k > 0 {
      if k - 1 != i {
        NoTally(g, slots[k - 1], x);
      }
      OneTally(g, slots, x, i, k - 1);
    }
  }

  lemma NoTally(g: Geometry, s: Slot, x: nat)
    requires Sizes(g) && SlotOk(g, s) && !Covers(g, s, x)
    ensures SlotTally(g, s, x) == Tally(0, 0, 0)
  {
  }

  /** Every miss is exactly one of: cold, cross interference, self interference, or both. */
  lemma MissClassified(g: Geometry, st: Level, write: bool, base: nat, elem: nat)
    requires Inv(g, st) && Legal(g, st, Use(write, base, elem)) && !Hit(st.sets[LineOf(g, elem)], Aligned(g, elem))
    ensures TallyOf(g, st.slots, Aligned(g, elem), |st.slots|) in
              {Tally(1, 0, 0), Tally(0, 1, 0), Tally(0, 0, 1), Tally(0, 1, 1)}
  {
    var x := Aligned(g, elem);
    AlignedBlock(g, elem);
    var i :| 0 <= i < |st.slots| && st.slots[i].base == base && Covers(g, st.slots[i], x);
    forall j | 0 <= j < |st.slots| && j != i ensures !Covers(g, st.slots[j], x) {
      assert Apart(g, st.slots[i], st.slots[j]);
    }
    OneTally(g, st.slots, x, i, |st.slots|);
    MissNotClean(g, st, i, elem);
  }

  /** The entry of a missed block is not clean. */
  lemma MissNotClean(g: Geometry, st: Level, i: nat, elem: nat)
    requires Inv(g, st) && i < |st.slots| && Covers(g, st.slots[i], Aligned(g, elem))
    requires !Hit(st.sets[LineOf(g, elem)], Aligned(g, elem))
    ensures SlotTally(g, st.slots[i], Aligned(g, elem)) in
              {Tally(1, 0, 0), Tally(0, 1, 0), Tally(0, 0, 1), Tally(0, 1, 1)}
  {
    var x := Aligned(g, elem);
    AlignedBlock(g, elem);
    IndexFits(g, st.slots[i], x);
    var e := BlockEntry(g, st.slots[i], x);
    assert EntryOk(e);
    assert CleanIsIn(g, st, i, x);
    if Clean(e) {
      EvenHits(st.sets[LineOf(g, elem)], x);
    }
  }

  /** What an access leaves in the set. */
  lemma AccessMembers(s: seq<nat>, x: nat)
    requires |s| > 0 && x % 2 == 0 && forall p :: 0 <= p < |s| ==> s[p] % 2 == 0
    ensures var r := Access(s, Fetch, x);
            && (forall p :: 0 <= p < |r| ==> r[p] % 2 == 0)
            && x in r
            && (Hit(s, x) ==> forall y :: y in s ==> y in r)
  {
    var p, r := Pos(s, x), Access(s, Fetch, x);
    hide Pos;
    assert p >= 0 ==> s[p] == x;
    assert r[|s| - 1] == x;
    var victim := if p >= 0 then p else 0;
    assert forall q :: 0 <= q < |r| - 1 ==> r[q] == s[if q < victim then q else q + 1];
    forall y | y in s && Hit(s, x) ensures y in r {
      var q :| 0 <= q < |s| && s[q] == y;
      if q != p {
        assert r[if q < p then q else q - 1] == y;
      }
    }
  }

  /** The sets after an access. */
  lemma SetsKept(g: Geometry, st: Level, write: bool, base: nat, elem: nat)
    requires Inv(g, st)
    ensures var st' := UseStep(g, st, write, base, elem);
            && |st'.sets| == g.nr && (forall l :: 0 <= l < g.nr ==> |st'.sets[l]| == g.assoc)
            && (forall l, p :: 0 <= l < g.nr && 0 <= p < g.assoc ==> st'.sets[l][p] % 2 == 0)
            && Aligned(g, elem) in st'.sets[LineOf(g, elem)]
            && (forall l :: 0 <= l < g.nr && l != LineOf(g, elem) ==> st'.sets[l] == st.sets[l])
            && (Hit(st.sets[LineOf(g, elem)], Aligned(g, elem)) ==>
                 forall y :: y in st.sets[LineOf(g, elem)] ==> y in st'.sets[LineOf(g, elem)])
  {
    AlignedBlock(g, elem);
    AccessMembers(st.sets[LineOf(g, elem)], Aligned(g, elem));
    hide Access, Hit;
  }

  lemma ApartMissed(g: Geometry, slots: seq<Slot>, base: nat, x: nat)
    requires Sizes(g) && AllApart(g, slots)
    ensures AllApart(g, MissSlots(g, slots, base, x))
  {
    var r := MissSlots(g, slots, base, x);
    forall i, j | 0 <= i < |r| && 0 <= j < |r| && i != j ensures Apart(g, r[i], r[j]) {
      assert Apart(g, slots[i], slots[j]);
      forall y | Covers(g, r[i], y) ensures !Covers(g, r[j], y) {
        assert Covers(g, slots[i], y);
      }
    }
  }

  lemma SlotsOkMissed(g: Geometry, slots: seq<Slot>, base: nat, x: nat)
    requires Sizes(g) && SlotsOk(g, slots)
    ensures SlotsOk(g, MissSlots(g, slots, base, x))
  {
    forall i | 0 <= i < |slots| ensures SlotOk(g, MissSlots(g, slots, base, x)[i]) {
      MissSlotOk(g, slots[i], base, x, LineOf(g, x));
    }
  }

  lemma HitKept(g: Geometry, st: Level, write: bool, base: nat, elem: nat)
    requires Inv(g, st) && Hit(st.sets[LineOf(g, elem)], Aligned(g, elem))
    ensures Inv(g, UseStep(g, st, write, base, elem))
  {
    SetsKept(g, st, write, base, elem);
    hide Access, Hit, SlotOk;
    var st' := UseStep(g, st, write, base, elem);
    forall i: nat, x: nat | i < |st'.slots| && Covers(g, st'.slots[i], x) ensures CleanIsIn(g, st', i, x) {
      assert CleanIsIn(g, st, i, x);
    }
  }

  lemma MissClean(g: Geometry, st: Level, st': Level, base: nat, elem: nat, i: nat, y: nat)
    requires Inv(g, st) && Shape(g, st') && i < |st.slots| && Covers(g, st.slots[i], y)
    requires st'.slots == MissSlots(g, st.slots, base, Aligned(g, elem)) && Covers(g, st'.slots[i], y)
    requires Aligned(g, elem) in st'.sets[LineOf(g, elem)]
    requires forall l :: 0 <= l < g.nr && l != LineOf(g, elem) ==> st'.sets[l] == st.sets[l]
    ensures CleanIsIn(g, st', i, y)
  {
    var x := Aligned(g, elem);
    AlignedBlock(g, elem);
    MissBlock(g, st.slots[i], base, x, y);
    assert CleanIsIn(g, st, i, y);
    IndexFits(g, st.slots[i], y);
    MarkOk(BlockEntry(g, st.slots[i], y), base != st.slots[i].base);
  }

  lemma MissKept(g: Geometry, st: Level, write: bool, base: nat, elem: nat)
    requires Inv(g, st) && Legal(g, st, Use(write, base, elem)) && !Hit(st.sets[LineOf(g, elem)], Aligned(g, elem))
    ensures Inv(g, UseStep(g, st, write, base, elem))
  {
    hide SlotOk, PolicyStep, TallyOf, MissSlots, Access, Hit, AllApart, Legal, CleanIn, CleanIsIn, Covers;
    SetsKept(g, st, write, base, elem);
    MissClassified(g, st, write, base, elem);
    ApartMissed(g, st.slots, base, Aligned(g, elem));
    SlotsOkMissed(g, st.slots, base, Aligned(g, elem));
    MissFields(g, st, write, Fetch, base, elem);
    hide SlotsOk;
    MissCleanIn(g, st, UseStep(g, st, write, base, elem), base, elem);
  }

  lemma MissFields(g: Geometry, st: Level, write: bool, policy: Policy, base: nat, elem: nat)
    requires Shape(g, st) && !Hit(st.sets[LineOf(g, elem)], Aligned(g, elem))
    ensures var x, line := Aligned(g, elem), LineOf(g, elem);
            var sets := st.sets[line := Access(st.sets[line], policy, x)];
            PolicyStep(g, st, write, policy, base, elem) ==
              CountIn(st.(sets := sets, slots := MissSlots(g, st.slots, base, x)), write, false,
                TallyOf(g, st.slots, x, |st.slots|))
  {
    hide Hit, Access, TallyOf;
  }

  lemma HitFields(g: Geometry, st: Level, write: bool, policy: Policy, base: nat, elem: nat)
    requires Shape(g, st) && Hit(st.sets[LineOf(g, elem)], Aligned(g, elem))
    ensures var x, line := Aligned(g, elem), LineOf(g, elem);
            PolicyStep(g, st, write, policy, base, elem) ==
              CountIn(st.(sets := st.sets[line := Access(st.sets[line], policy, x)]), write, true, Tally(0, 0, 0))
  {
    hide Hit, Access, TallyOf;
  }

  lemma MissCleanIn(g: Geometry, st: Level, st': Level, base: nat, elem: nat)
    requires Inv(g, st) && Shape(g, st') && st'.slots == MissSlots(g, st.slots, base, Aligned(g, elem))
    requires Aligned(g, elem) in st'.sets[LineOf(g, elem)]
    requires forall l :: 0 <= l < g.nr && l != LineOf(g, elem) ==> st'.sets[l] == st.sets[l]
    ensures CleanIn(g, st')
  {
    hide SlotOk, MissSlot, Inv, CleanIsIn;
    forall i: nat, y: nat | i < |st'.slots| && Covers(g, st'.slots[i], y) ensures CleanIsIn(g, st', i, y) {
      SameCover(g, st.slots, base, Aligned(g, elem), i, y);
      MissClean(g, st, st', base, elem, i, y);
    }
  }

  lemma SameCover(g: Geometry, slots: seq<Slot>, base: nat, x: nat, i: nat, y: nat)
    requires Sizes(g) && i < |slots|
    ensures Covers(g, MissSlots(g, slots, base, x)[i], y) <==> Covers(g, slots[i], y)
  {
  }

  lemma RegisterKept(g: Geometry, st: Level, base: nat, size: nat)
    requires Inv(g, st) && Legal(g, st, Register(base, size))
    ensures Inv(g, Step(g, st, Register(base, size)))
  {
    var st', s := Step(g, st, Register(base, size)), NewSlot(g, base, size);
    NewSlotOk(g, base, size);
    hide SlotOk, NewSlot, Apart;
    forall i: nat, x: nat | i < |st'.slots| && Covers(g, st'.slots[i], x) ensures CleanIsIn(g, st', i, x) {
      if i < |st.slots| {
        assert CleanIsIn(g, st, i, x);
      }
    }
  }

  lemma UnregisterKept(g: Geometry, st: Level, base: nat)
    requires Inv(g, st)
    ensures Inv(g, Step(g, st, Unregister(base)))
  {
    var st', j, last := Step(g, st, Unregister(base)), Find(st.slots, base, 0), |st.slots| - 1;
    if j < |st.slots| {
      assert forall i :: 0 <= i < |st'.slots| ==> st'.slots[i] == st.slots[if i == j then last else i];
      hide SlotOk, Apart, Removed;
      forall i: nat, x: nat | i < |st'.slots| && Covers(g, st'.slots[i], x) ensures CleanIsIn(g, st', i, x) {
        assert CleanIsIn(g, st, if i == j then last else i, x);
      }
    }
  }

  lemma StartKept(g: Geometry, st: Level)
    requires Inv(g, st)
    ensures Inv(g, Step(g, st, Start))
  {
    var st' := Step(g, st, Start);
    hide SlotOk, Apart;
    forall i: nat, x: nat | i < |st'.slots| && Covers(g, st'.slots[i], x) ensures CleanIsIn(g, st', i, x) {
      assert CleanIsIn(g, st, i, x);
    }
  }

  lemma StepKept(g: Geometry, st: Level, op: Op)
    requires Inv(g, st) && Legal(g, st, op)
    ensures Inv(g, Step(g, st, op))
  {
    match op {
      case Register(base, size) => RegisterKept(g, st, base, size);
      case Unregister(base) => UnregisterKept(g, st, base);
      case Use(write, base, elem) =>
        if Hit(st.sets[LineOf(g, elem)], Aligned(g, elem)) {
          HitKept(g, st, write, base, elem);
        } else {
          MissKept(g, st, write, base, elem);
        }
      case Start =>
        StartKept(g, st);
    }
  }

  // ---- whole traces ----

  lemma EmptyInv(g: Geometry)
    requires Sizes(g) && g.size % 2 == 0
    ensures Inv(g, Empty(g))
  {
  }

  /** Every operation is legal where it stands. */
  ghost predicate LegalOps(g: Geometry, ops: seq<Op>)
    decreases |ops|, 0
  {
    && Sizes(g) && g.size % 2 == 0
    && (ops != [] ==>
         LegalOps(g, ops[..|ops| - 1]) && Legal(g, Run(g, ops[..|ops| - 1]), ops[|ops| - 1]))
  }

  /** The level after a trace. */
  ghost function Run(g: Geometry, ops: seq<Op>): (st: Level)
    requires LegalOps(g, ops)
    ensures Inv(g, st)
    decreases |ops|, 1
  {
    if ops == [] then
      EmptyInv(g);
      Empty(g)
    else
      var prev, op := Run(g, ops[..|ops| - 1]), ops[|ops| - 1];
      StepKept(g, prev, op);
      Step(g, prev, op)
  }

  /** The figure that is computed as "both" is the number of misses counted as cross and as self interference. */
  predicate BothExact(c: Counters) {
    c.tally.self + c.tally.cross + c.tally.cold - c.misses == c.both
  }

  function Sum(a: Counters, b: Counters): Counters {
    Counters(a.hits + b.hits, a.misses + b.misses, Plus(a.tally, b.tally), a.both + b.both)
  }

  /** Whatever the trace, also when the counters have been reset on the way: clean entries are those of blocks in the
      cache, and for reads, for writes, and for both together the three counters exceed the misses by the number of
      misses that were counted as both cross and self interference. */
  lemma ClassificationComplete(g: Geometry, ops: seq<Op>)
    requires LegalOps(g, ops)
    ensures var st := Run(g, ops);
            && BothExact(st.rcounts) && BothExact(st.wcounts) && BothExact(Sum(st.rcounts, st.wcounts))
            && forall i: nat, x: nat :: i < |st.slots| && Covers(g, st.slots[i], x) ==> EntrySound(g, st, i, x)
  {
    var st := Run(g, ops);
    hide EntrySound, Covers, SlotOk;
    forall i: nat, x: nat | i < |st.slots| && Covers(g, st.slots[i], x) ensures EntrySound(g, st, i, x) {
      EntryIsSound(g, st, i, x);
    }
  }

  /** The entry of a block: marked only if loaded, and clean only if the block is still in the cache. */
  predicate EntrySound(g: Geometry, st: Level, i: nat, x: nat)
    requires Shape(g, st) && i < |st.slots| && Covers(g, st.slots[i], x)
  {
    var e := BlockEntry(g, st.slots[i], x);
    EntryOk(e) && (Clean(e) ==> x in st.sets[LineOf(g, x)])
  }

  lemma EntryIsSound(g: Geometry, st: Level, i: nat, x: nat)
    requires Inv(g, st) && i < |st.slots| && Covers(g, st.slots[i], x)
    ensures EntrySound(g, st, i, x)
  {
    assert CleanIsIn(g, st, i, x);
    IndexFits(g, st.slots[i], x);
  }

  /** The blocks of one line in the order of the accesses to them. */
  function Trace(g: Geometry, ops: seq<Op>, line: nat): seq<nat>
    requires Sizes(g)
  {
    if ops == [] then [] else
      var past, op := Trace(g, ops[..|ops| - 1], line), ops[|ops| - 1];
      if op.Use? && LineOf(g, op.elem) == line then past + [Aligned(g, op.elem)] else past
  }

  /** Every set is what the accesses to its own line make of it. */
  lemma {:induction false} SetsFollowTraces(g: Geometry, ops: seq<Op>, line: nat)
    requires LegalOps(g, ops) && line < g.nr
    ensures Blocks(Trace(g, ops, line))
    ensures Run(g, ops).sets[line] == SetAfter(Trace(g, ops, line), g.assoc)
  {
    hide Inv, Step, SetAfter, Legal, Access;
    if ops == [] {
      NoTrace(g.assoc);
    } else {
      var init, op := ops[..|ops| - 1], ops[|ops| - 1];
      SetsFollowTraces(g, init, line);
      RunSets(g, ops, line);
      if op.Use? && LineOf(g, op.elem) == line {
        AlignedBlock(g, op.elem);
        TraceSnoc(Trace(g, init, line), Aligned(g, op.elem), g.assoc);
      }
    }
  }

  lemma NoTrace(k: nat)
    requires k > 0
    ensures SetAfter([], k) == Zeros(k)
  {
  }

  lemma TraceSnoc(t: seq<nat>, x: nat, k: nat)
    requires k > 0 && Blocks(t) && x > 0 && x % 2 == 0
    ensures Blocks(t + [x]) && SetAfter(t + [x], k) == Access(SetAfter(t, k), Fetch, x)
  {
    assert (t + [x])[..|t|] == t;
  }

  /** Only an access to the line itself changes a set. */
  lemma RunSets(g: Geometry, ops: seq<Op>, line: nat)
    requires LegalOps(g, ops) && ops != [] && line < g.nr
    ensures var was, op := Run(g, ops[..|ops| - 1]).sets[line], ops[|ops| - 1];
            && (op.Use? ==> Aligned(g, op.elem) > 0)
            && Run(g, ops).sets[line] ==
                 if op.Use? && LineOf(g, op.elem) == line then Access(was, Fetch, Aligned(g, op.elem)) else was
  {
    hide Inv, Hit, Access, TallyOf, MissSlots, SlotsOk, SlotOk, Removed, NewSlot, Covers, CountIn;
    var prev, op := Run(g, ops[..|ops| - 1]), ops[|ops| - 1];
    RunsOn(g, ops);
    StepSets(g, prev, op, line);
  }

  lemma RunsOn(g: Geometry, ops: seq<Op>)
    requires LegalOps(g, ops) && ops != []
    ensures var prev, op := Run(g, ops[..|ops| - 1]), ops[|ops| - 1];
            Shape(g, prev) && Legal(g, prev, op) && Run(g, ops) == Step(g, prev, op)
  {
    hide Legal, Step, SlotOk, EvenSets, AllApart, CleanIn;
  }

  lemma StepSets(g: Geometry, st: Level, op: Op, line: nat)
    requires Shape(g, st) && Legal(g, st, op) && line < g.nr
    ensures op.Use? ==> Aligned(g, op.elem) > 0
    ensures line < |Step(g, st, op).sets|
    ensures Step(g, st, op).sets[line] ==
      if op.Use? && LineOf(g, op.elem) == line then Access(st.sets[line], Fetch, Aligned(g, op.elem)) else st.sets[line]
  {
    hide Hit, Access, TallyOf, MissSlots, SlotsOk, SlotOk, Removed, NewSlot, Covers;
  }

  predicate HitsNext(g: Geometry, st: Level, elem: nat)
    requires Shape(g, st)
  {
    Hit(st.sets[LineOf(g, elem)], Aligned(g, elem))
  }

  /** After any trace an access hits exactly when its block has been used before and fewer other blocks of its line
      than there are places have been used since. */
  lemma HitsByDistance(g: Geometry, ops: seq<Op>, elem: nat)
    requires LegalOps(g, ops) && Aligned(g, elem) > 0
    ensures var t := Trace(g, ops, LineOf(g, elem));
            HitsNext(g, Run(g, ops), elem) <==> Aligned(g, elem) in t && |Since(t, Aligned(g, elem))| < g.assoc
  {
    SetsFollowTraces(g, ops, LineOf(g, elem));
    AlignedBlock(g, elem);
    HitByDistance(Trace(g, ops, LineOf(g, elem)), g.assoc, Aligned(g, elem));
  }

  /** Two levels with the same lines: on the same trace the one with more places per line hits whenever the other
      does, and so has at least as many hits. */
  lemma {:induction false} MorePlacesMoreHits(g: Geometry, g': Geometry, ops: seq<Op>)
    requires g'.size == g.size && g'.nr == g.nr && g'.assoc >= g.assoc && LegalOps(g, ops) && LegalOps(g', ops)
    ensures forall elem {:trigger HitsNext(g, Run(g, ops), elem)} ::
              Aligned(g, elem) > 0 && HitsNext(g, Run(g, ops), elem) ==> HitsNext(g', Run(g', ops), elem)
    ensures Run(g, ops).rcounts.hits <= Run(g', ops).rcounts.hits
    ensures Run(g, ops).wcounts.hits <= Run(g', ops).wcounts.hits
  {
    forall elem | Aligned(g, elem) > 0 && HitsNext(g, Run(g, ops), elem) ensures HitsNext(g', Run(g', ops), elem) {
      HitsByDistance(g, ops, elem);
      HitsByDistance(g', ops, elem);
      SameTrace(g, g', ops, LineOf(g, elem));
    }
    if ops != [] {
      MorePlacesMoreHits(g, g', ops[..|ops| - 1]);
      HitsStep(g, ops);
      HitsStep(g', ops);
    }
  }

  function HitsAfter(hits: nat, op: Op, hit: bool): nat {
    if op.Start? then 0 else if hit then hits + 1 else hits
  }

  lemma HitsStep(g: Geometry, ops: seq<Op>)
    requires LegalOps(g, ops) && ops != []
    ensures var prev, op := Run(g, ops[..|ops| - 1]), ops[|ops| - 1];
            var hit := op.Use? && HitsNext(g, prev, op.elem);
            && Run(g, ops).rcounts.hits == HitsAfter(prev.rcounts.hits, op, hit && !op.write)
            && Run(g, ops).wcounts.hits == HitsAfter(prev.wcounts.hits, op, hit && op.write)
            && (op.Use? ==> Aligned(g, op.elem) > 0)
  {
    hide Inv, Hit, Access;
  }

  lemma {:induction false} SameTrace(g: Geometry, g': Geometry, ops: seq<Op>, line: nat)
    requires Sizes(g) && Sizes(g') && g'.size == g.size && g'.nr == g.nr
    ensures Trace(g', ops, line) == Trace(g, ops, line)
  {
    if ops != [] {
      SameTrace(g, g', ops[..|ops| - 1], line);
    }
  }
}
