/**
 What the classification of misses means: after any trace the bits of a block say what has happened in its cache line
 since the block was loaded, and so the counters tell cold misses, cross interference and self interference apart.
 */
module MissCauses {
  import opened CacheSets
  import opened Shadows
  import opened ShadowTables
  import opened MissClassification

  /** A miss in the line of a block: of the block itself, of an access to another array, or of one to its own. */
  datatype Event = Loaded | UsedByOther | UsedByOwn

  /** What has happened to block x of the array at base since that was registered. */
  ghost function Events(g: Geometry, ops: seq<Op>, base: nat, x: nat): seq<Event>
    requires LegalOps(g, ops)
  {
    if ops == [] then [] else
      var init, op := ops[..|ops| - 1], ops[|ops| - 1];
      var past := Events(g, init, base, x);
      if op.Register? && op.base == base then []
      else if op.Use? && LineOf(g, op.elem) == LineOf(g, x) && !HitsNext(g, Run(g, init), op.elem) then
        past + [if Aligned(g, op.elem) == x then Loaded else if op.base != base then UsedByOther else UsedByOwn]
      else past
  }

  /** What has happened since the block was last loaded. */
  function SinceLoaded(ev: seq<Event>): seq<Event> {
    if ev == [] || ev[|ev| - 1] == Loaded then [] else SinceLoaded(ev[..|ev| - 1]) + [ev[|ev| - 1]]
  }

  /** The three bits say whether the block has been loaded, and what has happened since. */
  predicate Explained(e: nat, ev: seq<Event>) {
    && (LBit(e) == 1 <==> Loaded in ev)
    && (CBit(e) == 1 <==> Loaded in ev && UsedByOther in SinceLoaded(ev))
    && (SBit(e) == 1 <==> Loaded in ev && UsedByOwn in SinceLoaded(ev))
  }

  /** What a miss is to be counted as. */
  function Cause(ev: seq<Event>): Tally {
    Tally(if Loaded in ev then 0 else 1,
          if Loaded in ev && UsedByOther in SinceLoaded(ev) then 1 else 0,
          if Loaded in ev && UsedByOwn in SinceLoaded(ev) then 1 else 0)
  }

  lemma OneMore(ev: seq<Event>, a: Event)
    ensures SinceLoaded(ev + [a]) == if a == Loaded then [] else SinceLoaded(ev) + [a]
    ensures forall b :: b in ev + [a] <==> b in ev || b == a
    ensures forall b :: b in SinceLoaded(ev + [a]) <==> a != Loaded && (b in SinceLoaded(ev) || b == a)
  {
    assert (ev + [a])[..|ev|] == ev;
  }

  /** The slot and the block as they are after an operation, and what has happened to it. */
  ghost predicate BlockExplained(g: Geometry, st: Level, i: nat, x: nat, ev: seq<Event>)
    requires Shape(g, st)
  {
    i < |st.slots| && Covers(g, st.slots[i], x) ==> Explained(BlockEntry(g, st.slots[i], x), ev)
  }

  /** A block belongs to one array only, and no two registered arrays have the same address. */
  lemma BasesDiffer(g: Geometry, st: Level)
    requires Inv(g, st)
    ensures DistinctBases(st.slots)
  {
    forall i, k | 0 <= i < k < |st.slots| ensures st.slots[i].base != st.slots[k].base {
      OwnBlock(g, st.slots[i]);
      OwnBlock(g, st.slots[k]);
      assert Apart(g, st.slots[i], st.slots[k]);
    }
  }

  lemma OwnBlock(g: Geometry, s: Slot)
    requires Sizes(g) && SlotOk(g, s)
    ensures Covers(g, s, Aligned(g, s.base))
  {
    AlignedBlock(g, s.base);
  }

  lemma RegisterExplained(g: Geometry, st: Level, base: nat, size: nat, i: nat, x: nat, ev: seq<Event>)
    requires Inv(g, st) && Legal(g, st, Register(base, size))
    requires i < |st.slots| ==> BlockExplained(g, st, i, x, ev)
    ensures var st' := Step(g, st, Register(base, size));
            && Shape(g, st')
            && (i < |st'.slots| ==> BlockExplained(g, st', i, x, if st'.slots[i].base == base then [] else ev))
  {
    var st' := Step(g, st, Register(base, size));
    NewSlotOk(g, base, size);
    if i < |st.slots| {
      OwnBlock(g, st.slots[i]);
      OwnBlock(g, NewSlot(g, base, size));
      assert Apart(g, st.slots[i], NewSlot(g, base, size));
      assert st'.slots[i] == st.slots[i];
    }
  }

  lemma MissExplainedAt(g: Geometry, st: Level, write: bool, base: nat, elem: nat, i: nat, x: nat, ev: seq<Event>)
    requires Inv(g, st) && !Hit(st.sets[LineOf(g, elem)], Aligned(g, elem))
    requires i < |st.slots| && Covers(g, st.slots[i], x) && Explained(BlockEntry(g, st.slots[i], x), ev)
    ensures var st' := UseStep(g, st, write, base, elem);
            && Shape(g, st') && i < |st'.slots| && Covers(g, st'.slots[i], x)
            && Explained(BlockEntry(g, st'.slots[i], x),
                 if LineOf(g, x) != LineOf(g, elem) then ev
                 else ev + [if Aligned(g, elem) == x then Loaded
                            else if base != st.slots[i].base then UsedByOther else UsedByOwn])
  {
    hide PolicyStep, TallyOf, Hit, Access, MissSlot, Mark, SlotOk, Covers, BlockEntry, LBit, CBit, SBit, AllApart;
    hide CleanIn;
    MissFields(g, st, write, Fetch, base, elem);
    SlotsOkMissed(g, st.slots, base, Aligned(g, elem));
    AlignedBlock(g, elem);
    MissBlock(g, st.slots[i], base, Aligned(g, elem), x);
    if LineOf(g, x) == LineOf(g, elem) {
      OneMore(ev, if Aligned(g, elem) == x then Loaded
                  else if base != st.slots[i].base then UsedByOther else UsedByOwn);
    }
  }
  /** Nothing but a registration or a miss changes an entry. */
  lemma OtherwiseSame(g: Geometry, st: Level, op: Op, i: nat) returns (j: nat)
    requires Inv(g, st) && Legal(g, st, op) && !op.Register?
    requires op.Use? ==> Hit(st.sets[LineOf(g, op.elem)], Aligned(g, op.elem))
    requires i < |Step(g, st, op).slots|
    ensures j < |st.slots| && Step(g, st, op).slots[i] == st.slots[j]
  {
    j := i;
    match op {
      case Register(_, _) =>
      case Unregister(base) =>
        if Find(st.slots, base, 0) == i {
          j := |st.slots| - 1;
        }
      case Use(write, base, elem) =>
        HitFields(g, st, write, Fetch, base, elem);
      case Start =>
    }
  }

  lemma EventsOn(g: Geometry, ops: seq<Op>, base: nat, x: nat)
    requires LegalOps(g, ops) && ops != []
    ensures var init, op := ops[..|ops| - 1], ops[|ops| - 1];
            var past := Events(g, init, base, x);
            && LegalOps(g, init)
            && Events(g, ops, base, x) ==
                 if op.Register? && op.base == base then []
                 else if op.Use? && LineOf(g, op.elem) == LineOf(g, x) && !HitsNext(g, Run(g, init), op.elem) then
                   past + [if Aligned(g, op.elem) == x then Loaded
                           else if op.base != base then UsedByOther else UsedByOwn]
                 else past
  {
    hide HitsNext, Run, Legal, Inv;
  }

  lemma NextInv(g: Geometry, ops: seq<Op>)
    requires LegalOps(g, ops) && ops != []
    ensures LegalOps(g, ops[..|ops| - 1]) && Sizes(g) && Shape(g, Run(g, ops))
    ensures var prev, op := Run(g, ops[..|ops| - 1]), ops[|ops| - 1];
            && Inv(g, prev) && Shape(g, prev) && Inv(g, Run(g, ops))
            && Legal(g, prev, op) && Run(g, ops) == Step(g, prev, op)
  {
    hide Legal, Step, EvenSets, AllApart, CleanIn, SlotsOk;
    RunsOn(g, ops);
  }

  /** After any trace the entry of a block says what has happened to it since its array was registered. */
  lemma {:induction false} EntriesExplained(g: Geometry, ops: seq<Op>, i: nat, x: nat)
    requires LegalOps(g, ops) && i < |Run(g, ops).slots|
    ensures BlockExplained(g, Run(g, ops), i, x, Events(g, ops, Run(g, ops).slots[i].base, x))
  {
    hide *;
    if ops == [] {
      NoSlots(g, ops);
    } else {
      var init, op := ops[..|ops| - 1], ops[|ops| - 1];
      NextInv(g, ops);
      var st, b := Run(g, init), Run(g, ops).slots[i].base;
      EventsOn(g, ops, b, x);
      if op.Register? {
        if i < |st.slots| {
          EntriesExplained(g, init, i, x);
        }
        RegisterNext(g, st, op, i, x, if i < |st.slots| then Events(g, init, st.slots[i].base, x) else []);
      } else if op.Use? && !HitsNext(g, st, op.elem) {
        UseNext(g, st, op, i);
        EntriesExplained(g, init, i, x);
        MissNext(g, st, op, i, x, Events(g, init, b, x));
      } else {
        HitIs(g, st, op);
        var j := OtherwiseSame(g, st, op, i);
        EntriesExplained(g, init, j, x);
        SameExplained(g, st, Run(g, ops), j, i, x, Events(g, init, b, x));
      }
    }
  }

  lemma NoSlots(g: Geometry, ops: seq<Op>)
    requires LegalOps(g, ops) && ops == []
    ensures Run(g, ops).slots == []
  {
  }

  lemma HitIs(g: Geometry, st: Level, op: Op)
    requires Shape(g, st)
    ensures op.Use? ==> (HitsNext(g, st, op.elem) <==> Hit(st.sets[LineOf(g, op.elem)], Aligned(g, op.elem)))
  {
    hide Hit;
  }

  lemma SameExplained(g: Geometry, st: Level, st': Level, j: nat, i: nat, x: nat, ev: seq<Event>)
    requires Shape(g, st) && Shape(g, st') && j < |st.slots| && i < |st'.slots| && st'.slots[i] == st.slots[j]
    requires BlockExplained(g, st, j, x, ev)
    ensures BlockExplained(g, st', i, x, ev)
  {
    hide Explained;
  }

  lemma RegisterNext(g: Geometry, st: Level, op: Op, i: nat, x: nat, ev: seq<Event>)
    requires Inv(g, st) && Shape(g, st) && Legal(g, st, op) && op.Register?
    requires i < |st.slots| ==> BlockExplained(g, st, i, x, ev)
    ensures op.size > 0 && Shape(g, Step(g, st, op))
    ensures i < |st.slots| ==> i < |Step(g, st, op).slots| && Step(g, st, op).slots[i].base == st.slots[i].base
    ensures i < |Step(g, st, op).slots| ==>
      BlockExplained(g, Step(g, st, op), i, x, if Step(g, st, op).slots[i].base == op.base then [] else ev)
    ensures |st.slots| <= i < |Step(g, st, op).slots| ==> Step(g, st, op).slots[i].base == op.base
  {
    RegisterExplained(g, st, op.base, op.size, i, x, ev);
    hide BlockExplained;
  }

  lemma UseNext(g: Geometry, st: Level, op: Op, i: nat)
    requires Shape(g, st) && op.Use?
    ensures |Step(g, st, op).slots| == |st.slots|
    ensures i < |st.slots| ==> Step(g, st, op).slots[i].base == st.slots[i].base
  {
    if Hit(st.sets[LineOf(g, op.elem)], Aligned(g, op.elem)) {
      HitFields(g, st, op.write, Fetch, op.base, op.elem);
    } else {
      MissFields(g, st, op.write, Fetch, op.base, op.elem);
    }
  }

  lemma MissNext(g: Geometry, st: Level, op: Op, i: nat, x: nat, ev: seq<Event>)
    requires Inv(g, st) && op.Use? && Shape(g, st) && !HitsNext(g, st, op.elem) && i < |st.slots|
    requires BlockExplained(g, st, i, x, ev)
    ensures Shape(g, Step(g, st, op)) && i < |Step(g, st, op).slots|
    ensures BlockExplained(g, Step(g, st, op), i, x,
              if LineOf(g, op.elem) != LineOf(g, x) then ev
              else ev + [if Aligned(g, op.elem) == x then Loaded
                         else if op.base != st.slots[i].base then UsedByOther else UsedByOwn])
  {
    hide Explained, UseStep, Hit, Covers, Inv;
    HitIs(g, st, op);
    UseCovers(g, st, op, i, x);
    if Covers(g, st.slots[i], x) {
      MissExplainedAt(g, st, op.write, op.base, op.elem, i, x, ev);
    }
  }

  lemma UseCovers(g: Geometry, st: Level, op: Op, i: nat, x: nat)
    requires Inv(g, st) && op.Use? && Shape(g, st) && i < |st.slots|
    requires !Hit(st.sets[LineOf(g, op.elem)], Aligned(g, op.elem))
    ensures Shape(g, Step(g, st, op)) && i < |Step(g, st, op).slots|
    ensures Covers(g, Step(g, st, op).slots[i], x) <==> Covers(g, st.slots[i], x)
  {
    hide PolicyStep, TallyOf, Hit, Access, MissSlot, SlotOk, AllApart, CleanIn;
    MissFields(g, st, op.write, Fetch, op.base, op.elem);
    SlotsOkMissed(g, st.slots, op.base, Aligned(g, op.elem));
    SameCover(g, st.slots, op.base, Aligned(g, op.elem), i, x);
  }

  // ---- what is counted ----

  /** The tally of a miss, from what has happened to the block. */
  lemma TallyExplained(g: Geometry, st: Level, i: nat, base: nat, elem: nat, ev: seq<Event>)
    requires Inv(g, st) && i < |st.slots| && Covers(g, st.slots[i], Aligned(g, elem))
    requires BlockExplained(g, st, i, Aligned(g, elem), ev)
    ensures TallyOf(g, st.slots, Aligned(g, elem), |st.slots|) == Cause(ev)
  {
    var x := Aligned(g, elem);
    forall j | 0 <= j < |st.slots| && j != i ensures !Covers(g, st.slots[j], x) {
      assert Apart(g, st.slots[i], st.slots[j]);
    }
    OneTally(g, st.slots, x, i, |st.slots|);
    hide TallyOf, BlockEntry, SinceLoaded, Apart, SlotOk;
  }

  /** A miss after any trace is counted as cold exactly if its block has not been loaded since its array was registered;
      as cross interference exactly if it has, and since it was last loaded a miss of another array has fallen in its
      line; as self interference exactly if one of its own array has.  Nothing else is counted. */
  lemma MissesExplained(g: Geometry, ops: seq<Op>)
    requires LegalOps(g, ops) && ops != [] && ops[|ops| - 1].Use?
    ensures var init, op := ops[..|ops| - 1], ops[|ops| - 1];
            LegalOps(g, init) && Shape(g, Run(g, init))
    ensures var init, op := ops[..|ops| - 1], ops[|ops| - 1];
            var (was, now) := (Run(g, init), Run(g, ops));
            var cause := if HitsNext(g, was, op.elem) then Tally(0, 0, 0)
                         else Cause(Events(g, init, op.base, Aligned(g, op.elem)));
            && now.rcounts.tally == (if op.write then was.rcounts.tally else Plus(was.rcounts.tally, cause))
            && now.wcounts.tally == (if op.write then Plus(was.wcounts.tally, cause) else was.wcounts.tally)
  {
    hide *;
    var init, op := ops[..|ops| - 1], ops[|ops| - 1];
    NextInv(g, ops);
    EventsOn(g, ops, op.base, Aligned(g, op.elem));
    var st := Run(g, init);
    HitIs(g, st, op);
    if HitsNext(g, st, op.elem) {
      HitCounts(g, st, op);
    } else {
      var i := OwnSlot(g, st, op);
      EntriesExplained(g, init, i, Aligned(g, op.elem));
      TallyExplained(g, st, i, op.base, op.elem, Events(g, init, op.base, Aligned(g, op.elem)));
      MissCounts(g, st, op);
    }
  }

  lemma OwnSlot(g: Geometry, st: Level, op: Op) returns (i: nat)
    requires Shape(g, st) && op.Use? && Legal(g, st, op)
    ensures i < |st.slots| && st.slots[i].base == op.base && Covers(g, st.slots[i], Aligned(g, op.elem))
  {
    hide Covers, SlotsOk;
    var j :| 0 <= j < |st.slots| && st.slots[j].base == op.base && Covers(g, st.slots[j], Aligned(g, op.elem));
    i := j;
  }

  lemma HitCounts(g: Geometry, st: Level, op: Op)
    requires Shape(g, st) && op.Use? && Hit(st.sets[LineOf(g, op.elem)], Aligned(g, op.elem))
    ensures var st' := Step(g, st, op);
            st'.rcounts.tally == Plus(st.rcounts.tally, Tally(0, 0, 0)) == st.rcounts.tally &&
            st'.wcounts.tally == Plus(st.wcounts.tally, Tally(0, 0, 0)) == st.wcounts.tally
  {
    HitFields(g, st, op.write, Fetch, op.base, op.elem);
  }

  lemma MissCounts(g: Geometry, st: Level, op: Op)
    requires Shape(g, st) && op.Use? && !Hit(st.sets[LineOf(g, op.elem)], Aligned(g, op.elem))
    ensures var st', t := Step(g, st, op), TallyOf(g, st.slots, Aligned(g, op.elem), |st.slots|);
            && st'.rcounts.tally == (if op.write then st.rcounts.tally else Plus(st.rcounts.tally, t))
            && st'.wcounts.tally == (if op.write then Plus(st.wcounts.tally, t) else st.wcounts.tally)
  {
    hide TallyOf;
    MissFields(g, st, op.write, Fetch, op.base, op.elem);
  }
  // ---- which accesses are classified ----

  /** After a registration every access to an element of the array is one that can be classified, and no other has
      become one. */
  lemma RegisteredLegal(g: Geometry, st: Level, base: nat, size: nat, op: Op)
    requires Inv(g, st) && Legal(g, st, Register(base, size)) && op.Use? && Aligned(g, op.elem) > 0
    ensures size > 0 && Shape(g, Step(g, st, Register(base, size)))
    ensures Legal(g, Step(g, st, Register(base, size)), op) <==>
      || Legal(g, st, op)
      || (op.base == base &&
           exists address :: base <= address < base + size && Aligned(g, address) == Aligned(g, op.elem))
  {
    var s, st', x := NewSlot(g, base, size), Step(g, st, Register(base, size)), Aligned(g, op.elem);
    NewSlotOk(g, base, size);
    NewSlotCovers(g, base, size, x);
    hide SlotOk, NewSlot, Apart, Covers, EvenSets, AllApart, CleanIn;
    assert st'.slots[|st.slots|] == s && forall i :: 0 <= i < |st.slots| ==> st'.slots[i] == st.slots[i];
    NewBase(g, base, size);
    if Legal(g, st, op) {
      var i :| 0 <= i < |st.slots| && st.slots[i].base == op.base && Covers(g, st.slots[i], x);
      assert st'.slots[i] == st.slots[i];
    }
    if op.base == base && Covers(g, s, x) {
      assert st'.slots[|st.slots|].base == op.base;
    }
  }

  lemma NewBase(g: Geometry, base: nat, size: nat)
    requires Sizes(g) && size > 0
    ensures NewSlot(g, base, size).base == base
  {
  }

  /** After its removal no access to the array is; the accesses to others stay what they were. */
  lemma UnregisteredIllegal(g: Geometry, st: Level, base: nat, op: Op)
    requires Inv(g, st) && op.Use? && Shape(g, st)
    ensures Shape(g, Step(g, st, Unregister(base)))
    ensures Legal(g, Step(g, st, Unregister(base)), op) <==> op.base != base && Legal(g, st, op)
  {
    var st', j, x := Step(g, st, Unregister(base)), Find(st.slots, base, 0), Aligned(g, op.elem);
    UnregisterKept(g, st, base);
    BasesDiffer(g, st);
    hide SlotOk, Apart, Covers, EvenSets, AllApart, CleanIn, Removed;
    if j < |st.slots| {
      RemovedIs(st.slots, j);
      RemovedPlaces(st.slots, j);
      var n := |st.slots| - 1;
      forall i | 0 <= i < n ensures st'.slots[i] == st.slots[if i == j then n else i] {
      }
      if Legal(g, st, op) && op.base != base {
        var i :| 0 <= i < |st.slots| && st.slots[i].base == op.base && Covers(g, st.slots[i], x);
        assert st'.slots[if i == n then j else i] == st.slots[i];
      }
    }
  }
}
