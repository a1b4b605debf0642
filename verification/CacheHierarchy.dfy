/**
 Several cache levels: an access that misses at one level goes on to the next, the last level being followed by
 the main memory (the access functions, SAC_CS_Access_MM, Start, the figures of SAC_CS_ShowResults).
 */
module CacheHierarchy {
  import opened AxisTransform
  import opened CacheSets
  import opened CacheLevels
  import opened Shadows
  import opened ShadowTables
  import opened MissClassification

  /** One level with its counters, for reads and for writes; rboth and wboth are only kept for reference. */
  class SimulatedLevel {
    const cache: CacheLevel
    const shadows: ShadowTable
    const policy: Policy
    var rhit: nat
    var rmiss: nat
    var rtally: Tally
    var whit: nat
    var wmiss: nat
    var wtally: Tally
    ghost var rboth: nat
    ghost var wboth: nat

    constructor (g: Geometry, policy: Policy)
      requires Sizes(g)
      ensures Valid() && this.policy == policy && fresh(Repr()) && Geom() == g
      ensures State() == Empty(g)
      ensures rhit == rmiss == whit == wmiss == 0
    {
      var cache := new CacheLevel(g.size, g.nr, g.assoc);
      var shadows := new ShadowTable(g);
      this.cache, this.shadows, this.policy := cache, shadows, policy;
      rhit, rmiss, whit, wmiss := 0, 0, 0, 0;
      rtally, wtally := Tally(0, 0, 0), Tally(0, 0, 0);
      rboth, wboth := 0, 0;
      new;
      assert cache.Sets() == Empty(g).sets;
    }

    ghost function Repr(): set<object>
    {
      {this, cache, cache.data, shadows, shadows.bases, shadows.tops, shadows.arrays}
    }

    function Geom(): Geometry {
      Geometry(cache.cachelinesize, cache.nrCachelines, cache.associativity)
    }

    ghost predicate Valid()
      reads Repr()
    {
      && cache.Valid() && shadows.Valid() && shadows.g == Geom()
      && cache.data != shadows.bases && cache.data != shadows.tops
    }

    ghost function State(): Level
      requires Valid()
      reads Repr()
    {
      Level(cache.Sets(), shadows.Slots(), Reads(), Writes())
    }

    ghost function Reads(): Counters
      reads this
    {
      Counters(rhit, rmiss, rtally, rboth)
    }

    ghost function Writes(): Counters
      reads this
    {
      Counters(whit, wmiss, wtally, wboth)
    }

    /** Reads do what writes do with fetch-on-write. */
    function PolicyFor(write: bool): Policy {
      if write then policy else Fetch
    }

    ghost predicate HitsNow(elem: nat)
      requires Valid()
      reads Repr()
    {
      HitsNext(Geom(), State(), elem)
    }

    ghost function After(write: bool, base: nat, elem: nat): Level
      requires Valid()
      reads Repr()
    {
      PolicyStep(Geom(), State(), write, PolicyFor(write), base, elem)
    }

    /** The block is in its set, but marked as invalid. */
    ghost predicate InvalidNow(elem: nat)
      requires Valid()
      reads Repr()
    {
      WasInvalid(State().sets[LineOf(Geom(), elem)], Aligned(Geom(), elem))
    }

    /** After a read the block is there. */
    lemma AfterRead(base: nat, elem: nat)
      requires Valid() && Aligned(Geom(), elem) % 2 == 0
      ensures Shape(Geom(), After(false, base, elem)) && HitsNext(Geom(), After(false, base, elem), elem)
    {
      hide PolicyStep, ShadowTable.Valid, Hit, SlotOk;
      var st := State();
      PolicyLeaves(Geom(), st, false, Fetch, base, elem);
      PolicyShape(Geom(), st, false, Fetch, base, elem);
    }

    /** Looks the block up and counts; on a miss the shadow arrays are brought up to date.  After a read the block is
        there, whatever the write policy is; a write that misses leaves the sets alone, the block invalid, or the block
        there. */
    method Access(write: bool, baseaddress: nat, elemaddress: nat) returns (hit: bool)
      requires Valid()
      modifies Repr()
      ensures Valid() && hit == old(HitsNow(elemaddress))
      ensures State() == old(After(write, baseaddress, elemaddress))
      ensures Aligned(Geom(), elemaddress) % 2 == 0 && (hit || !write || policy == Fetch) ==> HitsNow(elemaddress)
      ensures write && !hit && policy == WriteAround ==> State().sets == old(State().sets)
      ensures Aligned(Geom(), elemaddress) % 2 == 0 && write && !hit && policy == WriteValidate ==>
                InvalidNow(elemaddress) && !HitsNow(elemaddress)
      ensures var h, m := if hit then 1 else 0, if hit then 0 else 1;
              if write then whit == old(whit) + h && wmiss == old(wmiss) + m && rhit == old(rhit) && rmiss == old(rmiss)
              else rhit == old(rhit) + h && rmiss == old(rmiss) + m && whit == old(whit) && wmiss == old(wmiss)
    {
      hide PolicyStep, MissSlots, TallyOf, CacheSets.Access, Hit, ShadowTable.Valid, SlotOk;
      ghost var g, was := Geom(), State();
      PolicyLeaves(g, was, write, PolicyFor(write), baseaddress, elemaddress);
      var wasInvalid;
      hit, wasInvalid := cache.Lookup(PolicyFor(write), elemaddress);
      if hit {
        HitFields(g, was, write, PolicyFor(write), baseaddress, elemaddress);
        Count(write, true, Tally(0, 0, 0));
      } else {
        MissFields(g, was, write, PolicyFor(write), baseaddress, elemaddress);
        Miss(write, baseaddress, elemaddress);
      }
    }

    /** The analysis of a miss, and its counters. */
    method Miss(write: bool, baseaddress: nat, elemaddress: nat)
      requires Valid()
      modifies this, shadows.arrays
      ensures Valid() && cache.Sets() == old(cache.Sets())
      ensures shadows.Slots() == MissSlots(Geom(), old(shadows.Slots()), baseaddress, Aligned(Geom(), elemaddress))
      ensures var slots := old(shadows.Slots());
              var t := TallyOf(Geom(), slots, Aligned(Geom(), elemaddress), |slots|);
              && Reads() == (if write then old(Reads()) else CountOne(old(Reads()), false, t))
              && Writes() == if write then CountOne(old(Writes()), false, t) else old(Writes())
    {
      hide MissSlots, TallyOf, SlotOk;
      var g := Geom();
      AlignedBlock(g, elemaddress);
      var t := shadows.DetailedAnalysis(baseaddress, Aligned(g, elemaddress), LineOf(g, elemaddress));
      Count(write, false, t);
    }

    /** Nothing has been counted. */
    ghost predicate Cleared()
      reads this
    {
      Reads() == Writes() == NoCounters()
    }

    /** Start: all counters to 0; cache and shadow arrays stay as they are. */
    method Reset()
      requires Valid()
      modifies this
      ensures Valid() && State() == Restarted(old(State())) && Cleared()
    {
      hide ShadowTable.Valid, SlotOk;
      rhit, rmiss, whit, wmiss := 0, 0, 0, 0;
      rtally, wtally := Tally(0, 0, 0), Tally(0, 0, 0);
      rboth, wboth := 0, 0;
    }

    /** RegisterArray at this level; refused if no shadow array is free. */
    method Register(start: nat, baseaddress: nat, size: nat) returns (i: nat, ok: bool)
      requires Valid() && start <= shadows.used && baseaddress > 0 && size > 0
      modifies Repr()
      ensures Valid() && i == old(shadows.used) && shadows.used == |State().slots|
      ensures ok <==> |old(State()).slots| < MAX_SHADOWARRAYS
      ensures State() == if ok then Step(Geom(), old(State()), Op.Register(baseaddress, size)) else old(State())
      ensures ok ==> State().slots == old(State()).slots + [NewSlot(Geom(), baseaddress, size)]
    {
      hide ShadowTable.Valid, SlotOk, NewSlot;
      i, ok := shadows.RegisterArray(start, baseaddress, size);
    }

    /** UnregisterArray at this level. */
    method Unregister(baseaddress: nat)
      requires Valid() && baseaddress > 0
      modifies Repr()
      ensures Valid() && State() == Step(Geom(), old(State()), Op.Unregister(baseaddress))
    {
      hide ShadowTable.Valid, SlotOk, Removed, Find;
      shadows.UnregisterArray(baseaddress);
    }

    method Count(write: bool, hit: bool, t: Tally)
      modifies this
      ensures Reads() == if write then old(Reads()) else CountOne(old(Reads()), hit, t)
      ensures Writes() == if write then CountOne(old(Writes()), hit, t) else old(Writes())
    {
      if hit {
        if write {
          whit := whit + 1;
        } else {
          rhit := rhit + 1;
        }
      } else if write {
        wmiss, wtally := wmiss + 1, Plus(wtally, t);
        wboth := wboth + if t.cross > 0 && t.self > 0 then 1 else 0;
      } else {
        rmiss, rtally := rmiss + 1, Plus(rtally, t);
        rboth := rboth + if t.cross > 0 && t.self > 0 then 1 else 0;
      }
    }
  }

  /** What an access under a policy leaves in the sets. */
  lemma PolicyLeaves(g: Geometry, st: Level, write: bool, policy: Policy, base: nat, elem: nat)
    requires Shape(g, st)
    ensures var st', line, x := PolicyStep(g, st, write, policy, base, elem), LineOf(g, elem), Aligned(g, elem);
            && |st'.sets| == |st.sets|
            && (x % 2 == 0 && (Hit(st.sets[line], x) || policy == Fetch) ==> Hit(st'.sets[line], x))
            && (!Hit(st.sets[line], x) && policy == WriteAround ==> st'.sets == st.sets)
            && (x % 2 == 0 && !Hit(st.sets[line], x) && policy == WriteValidate ==>
                 !Hit(st'.sets[line], x) && WasInvalid(st'.sets[line], x))
  {
    hide Hit, CacheSets.Access, WasInvalid, TallyOf, MissSlots;
    var line, x := LineOf(g, elem), Aligned(g, elem);
    if Hit(st.sets[line], x) {
      HitFields(g, st, write, policy, base, elem);
    } else {
      MissFields(g, st, write, policy, base, elem);
    }
    if x % 2 == 0 {
      AfterAccess(st.sets[line], policy, x);
    } else if !Hit(st.sets[line], x) && policy == WriteAround {
      AroundSame(st.sets[line], x);
    }
  }

  lemma PolicyShape(g: Geometry, st: Level, write: bool, policy: Policy, base: nat, elem: nat)
    requires Shape(g, st)
    ensures Shape(g, PolicyStep(g, st, write, policy, base, elem))
  {
    hide Hit, CacheSets.Access, TallyOf, MissSlots, SlotOk;
    if Hit(st.sets[LineOf(g, elem)], Aligned(g, elem)) {
      HitFields(g, st, write, policy, base, elem);
    } else {
      MissFields(g, st, write, policy, base, elem);
      SlotsOkMissed(g, st.slots, base, Aligned(g, elem));
    }
  }

  lemma AroundSame(s: seq<nat>, a: nat)
    requires |s| > 0 && !Hit(s, a)
    ensures CacheSets.Access(s, WriteAround, a) == s
  {
  }

  // ---- traces on one level ----

  /** Array addresses are no null pointers. */
  predicate NoNull(op: Op) {
    (op.Register? || op.Unregister? ==> op.base > 0) && (op.Register? ==> op.size > 0)
  }

  /** One operation on a level that fetches on writes; refused if an array is registered and no shadow array is free. */
  method Perform(l: SimulatedLevel, op: Op) returns (ok: bool)
    requires l.Valid() && l.policy == Fetch && NoNull(op)
    modifies l.Repr()
    ensures l.Valid() && (ok <==> (op.Register? ==> |old(l.State()).slots| < MAX_SHADOWARRAYS))
    ensures l.State() == if ok then Step(l.Geom(), old(l.State()), op) else old(l.State())
  {
    hide SimulatedLevel.Valid, SimulatedLevel.State, PolicyStep, SlotOk, NewSlot, Removed;
    ok := true;
    match op {
      case Register(base, size) =>
        var i;
        i, ok := l.Register(0, base, size);
      case Unregister(base) =>
        l.Unregister(base);
      case Use(write, base, elem) =>
        var hit := l.Access(write, base, elem);
      case Start =>
        l.Reset();
    }
  }

  lemma {:induction false} LegalPrefix(g: Geometry, ops: seq<Op>, k: nat)
    requires LegalOps(g, ops) && k <= |ops|
    ensures LegalOps(g, ops[..k])
  {
    if k == |ops| {
      assert ops[..k] == ops;
    } else {
      var init := ops[..|ops| - 1];
      LegalPrefix(g, init, k);
      assert init[..k] == ops[..k];
    }
  }

  /** Whenever an array is registered a shadow array is free. */
  ghost predicate Roomy(g: Geometry, ops: seq<Op>, k: nat)
    requires LegalOps(g, ops) && k <= |ops|
  {
    forall i :: 0 <= i < k && ops[i].Register? ==>
      LegalOps(g, ops[..i]) && |Run(g, ops[..i]).slots| < MAX_SHADOWARRAYS
  }

  lemma RunStarts(g: Geometry, ops: seq<Op>)
    requires LegalOps(g, ops)
    ensures LegalOps(g, ops[..0]) && Run(g, ops[..0]) == Empty(g) && Shape(g, Empty(g))
  {
    LegalPrefix(g, ops, 0);
    assert ops[..0] == [];
  }

  lemma RunNext(g: Geometry, ops: seq<Op>, k: nat)
    requires LegalOps(g, ops) && k < |ops|
    ensures LegalOps(g, ops[..k]) && LegalOps(g, ops[..k + 1]) && Shape(g, Run(g, ops[..k]))
    ensures ops[k].Register? ==> ops[k].size > 0
    ensures Run(g, ops[..k + 1]) == Step(g, Run(g, ops[..k]), ops[k])
    ensures Roomy(g, ops, k + 1) <==>
      Roomy(g, ops, k) && (ops[k].Register? ==> |Run(g, ops[..k]).slots| < MAX_SHADOWARRAYS)
  {
    hide Legal, Step, EvenSets, AllApart, CleanIn;
    LegalPrefix(g, ops, k);
    LegalPrefix(g, ops, k + 1);
    LegalSize(g, Run(g, ops[..k]), ops[k]);
    assert ops[..k + 1][..k] == ops[..k] && ops[..k + 1][k] == ops[k];
    RunsOn(g, ops[..k + 1]);
  }

  lemma LegalSize(g: Geometry, st: Level, op: Op)
    requires Shape(g, st)
    ensures Legal(g, st, op) && op.Register? ==> op.size > 0
  {
    hide Shape, Apart, Covers;
  }

  /** A whole trace on a new level does what Run says, unless more arrays are registered than there are shadow arrays;
      so the figure computed as "both" is right for reads and for writes. */
  method Replay(l: SimulatedLevel, ops: seq<Op>) returns (ok: bool)
    requires l.Valid() && l.policy == Fetch && l.State() == Empty(l.Geom()) && LegalOps(l.Geom(), ops)
    requires forall k :: 0 <= k < |ops| ==> NoNull(ops[k])
    modifies l.Repr()
    ensures l.Valid() && (ok <==> Roomy(l.Geom(), ops, |ops|))
    ensures ok ==> l.State() == Run(l.Geom(), ops) && BothExact(l.Reads()) && BothExact(l.Writes())
  {
    hide *;
    ghost var g := l.Geom();
    RunStarts(g, ops);
    NothingYet(g, ops);
    ok := true;
    for k := 0 to |ops|
      invariant l.Valid() && LegalOps(g, ops[..k]) && Roomy(g, ops, k) && ok
      invariant l.State() == Run(g, ops[..k])
    {
      RunNext(g, ops, k);
      ok := Perform(l, ops[k]);
      if !ok {
        Overfull(g, ops, k);
        return;
      }
    }
    assert ops[..|ops|] == ops;
    ClassificationComplete(g, ops);
    Tallies(l);
  }

  lemma NothingYet(g: Geometry, ops: seq<Op>)
    requires LegalOps(g, ops)
    ensures Roomy(g, ops, 0)
  {
  }

  lemma Overfull(g: Geometry, ops: seq<Op>, k: nat)
    requires LegalOps(g, ops) && k < |ops| && !Roomy(g, ops, k + 1)
    ensures !Roomy(g, ops, |ops|)
  {
  }

  lemma Tallies(l: SimulatedLevel)
    requires l.Valid()
    ensures l.State().rcounts == l.Reads() && l.State().wcounts == l.Writes()
  {
  }

  function Restarted(st: Level): Level {
    st.(rcounts := NoCounters(), wcounts := NoCounters())
  }

  // ---- the figures of all levels ----

  /** Hits and misses of one level, of reads or of writes. */
  datatype Figures = Figures(hit: nat, miss: nat)

  /** What misses at one level is looked up at the next; `pending` is the level, counted from one, that the access
      under way has not reached yet. */
  predicate Balanced(f: seq<Figures>, pending: nat) {
    forall i :: 1 <= i < |f| ==> f[i].hit + f[i].miss + (if i + 1 == pending then 1 else 0) == f[i - 1].miss
  }

  function SumHits(f: seq<Figures>, k: nat): nat
    requires k <= |f|
  {
    if k == 0 then 0 else SumHits(f, k - 1) + f[k - 1].hit
  }

  /** The misses shown for all levels together, the accesses less all hits, are those of the last level. */
  lemma {:induction false} AllMisses(f: seq<Figures>, k: nat)
    requires Balanced(f, 1) && 0 < k <= |f|
    ensures f[0].hit + f[0].miss - SumHits(f, k) == f[k - 1].miss
  {
    if k == 1 {
      assert SumHits(f, 0) == 0;
    } else {
      AllMisses(f, k - 1);
    }
  }

  /** The figures of a level that has counted one access. */
  function Recorded(f: Figures, hit: bool): Figures {
    if hit then f.(hit := f.hit + 1) else f.(miss := f.miss + 1)
  }

  /** The level at which an access that has come to level i stops, because it hits there or is a write that is not
      passed on; the main memory, if there is none. */
  function Stop(hits: seq<bool>, around: seq<bool>, i: nat): (r: nat)
    requires |hits| == |around| && i <= |hits|
    ensures i <= r <= |hits| && (forall j :: i <= j < r ==> !hits[j] && !around[j])
    ensures r < |hits| ==> hits[r] || around[r]
    decreases |hits| - i
  {
    if i == |hits| || hits[i] || around[i] then i else Stop(hits, around, i + 1)
  }

  /** An access that is always passed on does what it asks for at the levels up to the first that holds the block. */
  lemma ReadReaches(v: View, p: Path, i: nat)
    requires Fits(v, p) && v.level == 1 && i < |p.hits| && forall j :: 0 <= j < |p.around| ==> !p.around[j]
    ensures i < |Travel(v, p).states| && i < |p.after| == |v.states|
    ensures Travel(v, p).states[i] == if forall j :: 0 <= j < i ==> !p.hits[j] then p.after[i] else v.states[i]
  {
  }

  /** The figures after levels first..last have counted one access. */
  function CountedFrom(f: seq<Figures>, hits: seq<bool>, first: nat, last: nat): (r: seq<Figures>)
    requires |f| == |hits|
    ensures |r| == |f|
  {
    seq(|f|, j requires 0 <= j < |f| => if first <= j <= last then Recorded(f[j], hits[j]) else f[j])
  }

  /** Levels first..last after, the others before. */
  function Spliced<T>(before: seq<T>, after: seq<T>, first: nat, last: nat): (r: seq<T>)
    requires |before| == |after|
    ensures |r| == |before|
  {
    seq(|before|, j requires 0 <= j < |before| => if first <= j <= last then after[j] else before[j])
  }

  /** Where SAC_CS_level is left: at 1, unless a write has gone around level r. */
  function LevelAfter(hits: seq<bool>, r: nat): nat {
    if r < |hits| && !hits[r] then r + 1 else 1
  }

  /** All that can be seen of the levels by reads, or by writes: SAC_CS_level, the levels, their figures, and those of
      the other kind of access. */
  datatype View = View(level: nat, states: seq<Level>, shown: seq<Figures>, others: seq<Figures>)

  /** What an access would meet, level by level: whether the block is there, whether a miss is not passed on, and what
      the level would be afterwards. */
  datatype Path = Path(hits: seq<bool>, around: seq<bool>, after: seq<Level>)

  predicate Fits(v: View, p: Path) {
    |p.hits| == |p.around| == |p.after| == |v.states| == |v.shown| && 1 <= v.level <= |p.hits| + 1
  }

  /** A whole access: it goes through the levels up to the one where it stops; each of them does what its policy
      says, and counts; the others do nothing. */
  function Travel(v: View, p: Path): View
    requires Fits(v, p)
  {
    var first := v.level - 1;
    var last := Stop(p.hits, p.around, first);
    View(LevelAfter(p.hits, last), Spliced(v.states, p.after, first, last), CountedFrom(v.shown, p.hits, first, last),
      v.others)
  }

  /** Level i has done what the access asks for, and counted it. */
  function Touched(v: View, p: Path, i: nat): View
    requires Fits(v, p) && i < |p.hits|
  {
    v.(states := v.states[i := p.after[i]], shown := v.shown[i := Recorded(v.shown[i], p.hits[i])])
  }

  predicate StopsAt(p: Path, i: nat) {
    i < |p.hits| == |p.around| && (p.hits[i] || p.around[i])
  }

  /** The access function of one level: back to the first one on a hit, on to the next one on a miss, unless that is a
      write around. */
  function OneLevel(v: View, p: Path): View
    requires Fits(v, p) && v.level <= |p.hits|
  {
    var i := v.level - 1;
    Touched(v, p, i).(level := if p.hits[i] then 1 else if p.around[i] then i + 1 else i + 2)
  }

  /** The two agree on all levels but i. */
  predicate Elsewhere(p: Path, p1: Path, i: nat) {
    && |p.hits| == |p1.hits| && |p.after| == |p1.after| && p.around == p1.around
    && (forall j :: 0 <= j < |p.hits| && j != i ==> p1.hits[j] == p.hits[j])
    && (forall j :: 0 <= j < |p.after| && j != i ==> p1.after[j] == p.after[j])
  }

  /** If every miss is passed on, an access ends at the first level, and what misses at one level has been looked up
      at the next. */
  lemma StaysBalanced(v: View, p: Path)
    requires Fits(v, p) && Balanced(v.shown, v.level) && forall j :: 0 <= j < |p.around| ==> !p.around[j]
    ensures Travel(v, p).level == 1 && Balanced(Travel(v, p).shown, 1)
  {
  }

  /** The misses shown for all levels together are those of the last one. */
  predicate AllIsLast(f: seq<Figures>) {
    f != [] ==> f[0].hit + f[0].miss - SumHits(f, |f|) == f[|f| - 1].miss
  }

  lemma BalancedAll(f: seq<Figures>)
    requires Balanced(f, 1)
    ensures AllIsLast(f)
  {
    if f != [] {
      AllMisses(f, |f|);
    }
  }

  /** The first level has counted the access. */
  lemma FirstCounts(v: View, p: Path)
    requires Fits(v, p) && v.level == 1 && |p.hits| > 0
    ensures |Travel(v, p).shown| == |v.shown| > 0
    ensures var f, f' := v.shown[0], Travel(v, p).shown[0]; f'.hit + f'.miss == f.hit + f.miss + 1
  {
  }

  /** An access that starts at the first level. */
  lemma FromFirst(v: View, p: Path)
    requires Fits(v, p)
    ensures Travel(v, p).others == v.others
    ensures v.level == 1 && AroundHarmless(p.around) ==> Travel(v, p).level == 1
    ensures v.level == 1 && Balanced(v.shown, 1) && (forall j :: 0 <= j < |p.around| ==> !p.around[j]) ==>
      && Travel(v, p).level == 1 && Balanced(Travel(v, p).shown, 1)
      && (p.hits != [] ==> SeenAtFirst(Travel(v, p).shown) == SeenAtFirst(v.shown) + 1)
  {
    if v.level == 1 {
      AlwaysEndsAtFirstIff(p.around);
      assert AroundHarmless(p.around) ==> LevelAfter(p.hits, Stop(p.hits, p.around, 0)) == 1;
      if p.hits != [] {
        FirstCounts(v, p);
      }
      if Balanced(v.shown, 1) && forall j :: 0 <= j < |p.around| ==> !p.around[j] {
        StaysBalanced(v, p);
      }
    }
  }

  // ---- where SAC_CS_level is left ----

  /** An access leaves SAC_CS_level at 1 exactly if it does not stop with a miss above the first level. */
  lemma EndsAtFirstIff(v: View, p: Path)
    requires Fits(v, p)
    ensures var r := Stop(p.hits, p.around, v.level - 1);
            Travel(v, p).level == 1 <==> !(0 < r < |p.hits| && !p.hits[r])
  {
  }

  /** No level goes around misses, or the first one does. */
  predicate AroundHarmless(around: seq<bool>) {
    (|around| > 0 && around[0]) || forall i :: 0 <= i < |around| ==> !around[i]
  }

  /** Whatever hits and misses, accesses that start at the first level leave SAC_CS_level at 1: exactly if no level goes
      around misses or the first one does, so that no miss gets any further. */
  lemma AlwaysEndsAtFirstIff(around: seq<bool>)
    ensures AroundHarmless(around) <==>
      forall hits: seq<bool> :: |hits| == |around| ==> LevelAfter(hits, Stop(hits, around, 0)) == 1
  {
    if AroundHarmless(around) {
      forall hits: seq<bool> | |hits| == |around| ensures LevelAfter(hits, Stop(hits, around, 0)) == 1 {
        assert around != [] && around[0] ==> Stop(hits, around, 0) == 0;
      }
    } else {
      var hits := seq(|around|, _ => false);
      var i :| 0 <= i < |around| && around[i];
      var r := Stop(hits, around, 0);
      assert 0 < r <= i && LevelAfter(hits, r) == r + 1;
      assert |hits| == |around| && LevelAfter(hits, Stop(hits, around, 0)) != 1;
    }
  }

  function SeenAtFirst(f: seq<Figures>): nat {
    if f == [] then 0 else f[0].hit + f[0].miss
  }

  /** A reference of a program to an element of an array. */
  datatype Reference = Reference(write: bool, base: nat, elem: nat)

  /** The number of reads, or of writes, among the first k references. */
  function CountOf(refs: seq<Reference>, write: bool, k: nat): nat
    requires k <= |refs|
  {
    if k == 0 then 0 else CountOf(refs, write, k - 1) + if refs[k - 1].write == write then 1 else 0
  }

  lemma Levelled(v: View, p: Path, i: nat)
    requires Fits(v, p) && v.level == i + 1 <= |p.hits| == |p.around|
    ensures StopsAt(p, i) == (p.hits[i] || p.around[i])
    ensures OneLevel(v, p) == Touched(v, p, i).(level := if p.hits[i] then 1 else if p.around[i] then i + 1 else i + 2)
  {
  }

  lemma Missed(v: View, p: Path)
    requires Fits(v, p) && v.level == |p.hits| + 1
    ensures Travel(v, p) == v.(level := 1)
  {
  }

  lemma StoppedHere(v: View, p: Path)
    requires Fits(v, p) && StopsAt(p, v.level - 1)
    ensures Travel(v, p) == OneLevel(v, p)
  {
    var i := v.level - 1;
    assert Spliced(v.states, p.after, i, i) == v.states[i := p.after[i]];
    assert CountedFrom(v.shown, p.hits, i, i) == v.shown[i := Recorded(v.shown[i], p.hits[i])];
  }

  /** An access that goes on to the next level, and from there as if it had started there. */
  lemma PassedOn(v: View, p: Path, v1: View, p1: Path)
    requires Fits(v, p) && v.level <= |p.hits| && !StopsAt(p, v.level - 1)
    requires v1 == OneLevel(v, p) && Elsewhere(p, p1, v.level - 1)
    ensures Fits(v1, p1) && Travel(v, p) == Travel(v1, p1) && v1.level == v.level + 1
  {
    var i := v.level - 1;
    SameStop(p.hits, p1.hits, p.around, i + 1);
    var last := Stop(p.hits, p.around, i);
    assert Spliced(v1.states, p1.after, i + 1, last) == Spliced(v.states, p.after, i, last);
    assert CountedFrom(v1.shown, p1.hits, i + 1, last) == CountedFrom(v.shown, p.hits, i, last);
  }

  lemma LevelDone(v: View, p: Path, v1: View, p1: Path)
    requires Fits(v, p) && v.level <= |p.hits| && v1 == OneLevel(v, p) && Elsewhere(p, p1, v.level - 1)
    ensures if StopsAt(p, v.level - 1) then v1 == Travel(v, p)
            else Fits(v1, p1) && v1.level == v.level + 1 && Travel(v1, p1) == Travel(v, p)
  {
    if StopsAt(p, v.level - 1) {
      StoppedHere(v, p);
    } else {
      PassedOn(v, p, v1, p1);
    }
  }

  lemma {:induction false} SameStop(hits: seq<bool>, hits1: seq<bool>, around: seq<bool>, i: nat)
    requires |hits| == |hits1| == |around| && i <= |hits|
    requires forall j :: i <= j < |hits| ==> hits1[j] == hits[j]
    ensures Stop(hits1, around, i) == Stop(hits, around, i)
    decreases |hits| - i
  {
    if i < |hits| {
      SameStop(hits, hits1, around, i + 1);
    }
  }

  // ---- the levels together ----

  class Simulator {
    const levels: seq<SimulatedLevel>
    var level: nat

    constructor (levels: seq<SimulatedLevel>)
      requires Separate(levels)
      ensures this.levels == levels && level == 1
    {
      this.levels := levels;
      level := 1;
    }

    ghost function Footprint(): set<object>
    {
      {this} + set o: object, i | 0 <= i < |levels| && o in levels[i].Repr() :: o
    }

    ghost predicate Valid()
      reads Footprint()
      ensures Valid() ==> 1 <= level <= |levels| + 1
    {
      && Separate(levels) && 1 <= level <= |levels| + 1
      && forall i :: 0 <= i < |levels| ==> levels[i].Repr() <= Footprint() && levels[i].Valid()
    }

    /** The figures of reads, or of writes. */
    function Shown(write: bool): (f: seq<Figures>)
      reads levels
      ensures |f| == |levels|
    {
      seq(|levels|, i requires 0 <= i < |levels| reads levels =>
        if write then Figures(levels[i].whit, levels[i].wmiss) else Figures(levels[i].rhit, levels[i].rmiss))
    }

    /** Which levels do not pass a miss on. */
    function Around(write: bool): (a: seq<bool>)
      ensures |a| == |levels|
    {
      seq(|levels|, i requires 0 <= i < |levels| => write && levels[i].policy == WriteAround)
    }

    // What is in the levels now, which of them hold the block, and what an access that reaches them would do.

    ghost function States(): (s: seq<Level>)
      requires Valid()
      reads Footprint()
      ensures |s| == |levels|
    {
      seq(|levels|, i requires 0 <= i < |levels| && levels[i].Valid()
                      reads if 0 <= i < |levels| then levels[i].Repr() else {} => levels[i].State())
    }

    ghost function Hits(elem: nat): (h: seq<bool>)
      requires Valid()
      reads Footprint()
      ensures |h| == |levels|
    {
      seq(|levels|, i requires 0 <= i < |levels| && levels[i].Valid()
                      reads if 0 <= i < |levels| then levels[i].Repr() else {} => levels[i].HitsNow(elem))
    }

    ghost function After(write: bool, base: nat, elem: nat): (s: seq<Level>)
      requires Valid()
      reads Footprint()
      ensures |s| == |levels|
    {
      seq(|levels|, i requires 0 <= i < |levels| && levels[i].Valid()
                      reads if 0 <= i < |levels| then levels[i].Repr() else {} => levels[i].After(write, base, elem))
    }

    /** Start: the counters of all levels; what is in the levels stays. */
    method Start()
      requires Valid()
      modifies levels
      ensures Valid() && level == old(level)
      ensures forall i :: 0 <= i < |levels| ==> levels[i].State() == Restarted(old(levels[i].State()))
      ensures forall write, i :: 0 <= i < |levels| ==> Shown(write)[i] == Figures(0, 0)
    {
      hide SimulatedLevel.Valid, SimulatedLevel.State, Separate, Footprint;
      for k := 0 to |levels|
        invariant Valid() && level == old(level)
        invariant forall i :: 0 <= i < k ==>
          levels[i].State() == Restarted(old(levels[i].State())) && levels[i].Cleared()
        invariant forall i :: k <= i < |levels| ==> levels[i].State() == old(levels[i].State())
      {
        OwnLevels(k);
        levels[k].Reset();
      }
    }

    lemma OwnLevels(i: nat)
      requires Valid() && i < |levels|
      ensures levels[i].Valid() && levels[i] in levels
      ensures forall j :: 0 <= j < |levels| && j != i ==> levels[i] !in levels[j].Repr() && levels[j] != levels[i]
    {
      forall j | 0 <= j < |levels| && j != i ensures levels[i] !in levels[j].Repr() {
        assert levels[i] in levels[i].Repr() && levels[i].Repr() !! levels[j].Repr();
      }
    }

    ghost function Seen(write: bool): (v: View)
      requires Valid()
      reads Footprint()
      ensures v.level == level && |v.states| == |levels|
    {
      View(level, States(), Shown(write), Shown(!write))
    }

    ghost function Ahead(write: bool, base: nat, elem: nat): (p: Path)
      requires Valid()
      reads Footprint()
      ensures Fits(Seen(write), p) && |p.hits| == |levels|
    {
      Path(Hits(elem), Around(write), After(write, base, elem))
    }

    /** What is to be seen after an access. */
    ghost function Expected(write: bool, base: nat, elem: nat): View
      requires Valid()
      reads Footprint()
    {
      Travel(Seen(write), Ahead(write, base, elem))
    }

    lemma ExpectedAt(write: bool, base: nat, elem: nat)
      requires Valid()
      ensures Fits(Seen(write), Ahead(write, base, elem)) && |Ahead(write, base, elem).hits| == |levels|
      ensures Expected(write, base, elem) == Travel(Seen(write), Ahead(write, base, elem))
    {
    }

    /** A read that starts at the first level: every level that it comes to, since those before do not hold the block,
        holds it afterwards, whatever the write policies are; the levels behind one that held it stay as they were. */
    lemma ReadLoads(base: nat, elem: nat, i: nat)
      requires Valid() && level == 1 && i < |levels| && levels[i].Valid()
      requires Aligned(levels[i].Geom(), elem) % 2 == 0
      ensures i < |Expected(false, base, elem).states|
      ensures var st := Expected(false, base, elem).states[i];
              if forall j :: 0 <= j < i ==> !Hits(elem)[j] then
                Shape(levels[i].Geom(), st) && HitsNext(levels[i].Geom(), st, elem)
              else
                st == levels[i].State()
    {
      hide *;
      ghost var v, p := LookAhead(false, base, elem);
      AheadParts(false, base, elem);
      NoneStays(p);
      ReadReaches(v, p, i);
      LevelParts(base, elem, i);
      AheadAfter(base, elem);
      levels[i].AfterRead(base, elem);
    }

    lemma NoneStays(p: Path)
      requires p.around == Around(false)
      ensures forall j :: 0 <= j < |p.around| ==> !p.around[j]
    {
    }

    lemma LevelParts(base: nat, elem: nat, i: nat)
      requires Valid() && i < |levels| && levels[i].Valid()
      ensures After(false, base, elem)[i] == levels[i].After(false, base, elem)
      ensures Seen(false).states[i] == levels[i].State()
    {
      hide SimulatedLevel.Valid, SimulatedLevel.State, SimulatedLevel.After, Separate, Footprint, Shown;
    }

    lemma AheadAfter(base: nat, elem: nat)
      requires Valid()
      ensures Ahead(false, base, elem).after == After(false, base, elem)
    {
      hide SimulatedLevel.Valid, SimulatedLevel.State, Simulator.After, Hits, Around, Separate, Footprint;
    }

    /** A write goes around level i: no level before that holds the block or goes around writes, and level i does not
        hold it, either. */
    ghost predicate GoesAround(write: bool, elem: nat, i: nat)
      requires Valid() && i < |levels|
      reads Footprint()
    {
      Stays(write, i) && !Hits(elem)[i] && forall j :: 0 <= j < i ==> !Stays(write, j) && !Hits(elem)[j]
    }

    /** An access that starts at the first level leaves SAC_CS_level at another one if and only if it is a write that
        goes around a level above the first. */
    lemma LeftAboveIff(write: bool, base: nat, elem: nat)
      requires Valid() && level == 1
      ensures Expected(write, base, elem).level != 1 <==> exists i :: 0 < i < |levels| && GoesAround(write, elem, i)
    {
      hide *;
      ghost var v, p := LookAhead(write, base, elem);
      AheadParts(write, base, elem);
      EndsAtFirstIff(v, p);
      var r := Stop(p.hits, p.around, 0);
      forall i | 0 < i < |levels| ensures GoesAround(write, elem, i) <==> i == r && !p.hits[r] {
        AroundStops(write, elem, i, p);
      }
      if 0 < r < |levels| {
        assert GoesAround(write, elem, r) <==> !p.hits[r];
      }
    }

    lemma AheadParts(write: bool, base: nat, elem: nat)
      requires Valid()
      ensures var p := Ahead(write, base, elem); p.hits == Hits(elem) && p.around == Around(write)
    {
      hide Separate, SimulatedLevel.Valid, SimulatedLevel.State, Around, Hits, Simulator.After, Footprint;
    }

    lemma AroundStops(write: bool, elem: nat, i: nat, p: Path)
      requires Valid() && i < |levels| == |p.hits| == |p.around| && p.hits == Hits(elem) && p.around == Around(write)
      ensures GoesAround(write, elem, i) <==> i == Stop(p.hits, p.around, 0) && !p.hits[i]
    {
      hide Hits, Valid, Footprint;
      assert forall j :: 0 <= j <= i ==> p.around[j] == Stays(write, j);
      var r := Stop(p.hits, p.around, 0);
      hide Stop, Around;
    }

    predicate NoAround() {
      forall i :: 0 <= i < |levels| ==> levels[i].policy != WriteAround
    }

    /** The figures of a trace after its first k references. */
    ghost predicate Accounted(refs: seq<Reference>, k: nat)
      requires k <= |refs|
      reads this, levels
    {
      && (AroundHarmless(Around(true)) ==> level == 1)
      && (NoAround() ==>
           && level == 1 && Balanced(Shown(false), 1) && Balanced(Shown(true), 1)
           && (levels != [] ==>
                && SeenAtFirst(Shown(false)) == CountOf(refs, false, k)
                && SeenAtFirst(Shown(true)) == CountOf(refs, true, k)))
    }

    /** A whole trace after Start.  If no level goes around writes: SAC_CS_level is 1, the first level has seen every
        reference, hits and misses of every other level sum up to the misses of the one before, separately for reads and
        writes, and the misses shown for all levels together are those of the last one. */
    method Simulate(refs: seq<Reference>)
      requires Valid() && level == 1
      modifies Footprint()
      ensures Valid() && Accounted(refs, |refs|)
      ensures NoAround() ==> AllIsLast(Shown(false)) && AllIsLast(Shown(true))
    {
      hide *;
      OwnAll();
      Start();
      NothingCounted(refs);
      for k := 0 to |refs|
        invariant Valid() && Accounted(refs, k)
      {
        Next(refs, k);
      }
      if NoAround() {
        AccountedBalance(refs);
      }
    }

    method Next(refs: seq<Reference>, k: nat)
      requires Valid() && k < |refs| && Accounted(refs, k)
      modifies Footprint()
      ensures Valid() && Accounted(refs, k + 1)
    {
      hide *;
      var ref := refs[k];
      ghost var v, p := LookAhead(ref.write, ref.base, ref.elem);
      AccountedNext(refs, k, v, p);
      Access(ref.write, ref.base, ref.elem);
      AccountedThen(refs, k, Seen(ref.write));
    }

    lemma OwnAll()
      ensures forall i :: 0 <= i < |levels| ==> levels[i] in Footprint()
    {
      forall i | 0 <= i < |levels| ensures levels[i] in Footprint() {
        assert levels[i] in levels[i].Repr();
      }
    }

    lemma NothingCounted(refs: seq<Reference>)
      requires level == 1 && forall write, i :: 0 <= i < |levels| ==> Shown(write)[i] == Figures(0, 0)
      ensures Accounted(refs, 0)
    {
    }

    lemma AccountedBalance(refs: seq<Reference>)
      requires Accounted(refs, |refs|) && NoAround()
      ensures AllIsLast(Shown(false)) && AllIsLast(Shown(true))
    {
      BalancedAll(Shown(false));
      BalancedAll(Shown(true));
    }

    /** What the next reference will make of the figures. */
    lemma AccountedNext(refs: seq<Reference>, k: nat, v: View, p: Path)
      requires Valid() && k < |refs| && Accounted(refs, k)
      requires var ref := refs[k];
               v == Seen(ref.write) && p == Ahead(ref.write, ref.base, ref.elem) && Fits(v, p)
      ensures AccountedView(Travel(v, p), refs, k + 1, refs[k].write)
    {
      hide States, Hits, Simulator.After, Travel, Balanced, AroundHarmless, NoAround, Around, Shown, SeenAtFirst;
      AroundOnly(refs[k].write);
      FromFirst(v, p);
    }

    lemma AroundOnly(write: bool)
      ensures AroundHarmless(Around(true)) ==> AroundHarmless(Around(write))
      ensures NoAround() ==> forall j :: 0 <= j < |Around(write)| ==> !Around(write)[j]
    {
    }

    /** The same of what is seen. */
    ghost predicate AccountedView(v: View, refs: seq<Reference>, k: nat, write: bool)
      requires k <= |refs|
    {
      && (AroundHarmless(Around(true)) ==> v.level == 1)
      && (NoAround() ==>
           && v.level == 1 && Balanced(v.shown, 1) && Balanced(v.others, 1)
           && (levels != [] ==>
                && SeenAtFirst(v.shown) == CountOf(refs, write, k)
                && SeenAtFirst(v.others) == CountOf(refs, !write, k)))
    }

    lemma AccountedThen(refs: seq<Reference>, k: nat, v: View)
      requires Valid() && k < |refs| && v == Seen(refs[k].write) && AccountedView(v, refs, k + 1, refs[k].write)
      ensures Accounted(refs, k + 1)
    {
      hide States, CountOf, Balanced, SeenAtFirst;
    }

    /** The access function of the current level, of the main memory if there is none. */
    method Access(write: bool, base: nat, elem: nat)
      requires Valid()
      modifies Footprint()
      ensures Valid() && Seen(write) == old(Expected(write, base, elem))
      decreases |levels| + 1 - level
    {
      hide *;
      OwnFootprint();
      if level > |levels| {
        AccessMM(write, base, elem);
      } else {
        var done := AccessNext(write, base, elem);
        if !done {
          Access(write, base, elem);
        }
      }
    }

    /** SAC_CS_Access_MM: nothing misses in the main memory. */
    method AccessMM(write: bool, ghost base: nat, ghost elem: nat)
      requires Valid() && level > |levels|
      modifies this`level
      ensures Valid() && Seen(write) == old(Expected(write, base, elem))
    {
      ExpectedAt(write, base, elem);
      Missed(Seen(write), Ahead(write, base, elem));
      hide *;
      MoveTo(1, base, elem, write);
    }

    /** One level; where the access goes on, it still leads to the same. */
    method AccessNext(write: bool, base: nat, elem: nat) returns (done: bool)
      requires Valid() && level <= |levels|
      modifies Footprint()
      ensures Valid() && (if done then Seen(write) else Expected(write, base, elem)) == old(Expected(write, base, elem))
      ensures !done ==> level == old(level) + 1
    {
      hide *;
      ghost var v, p := LookAhead(write, base, elem);
      done := AccessLevel(write, base, elem, v, p);
      ghost var v1, p1 := LookAhead(write, base, elem);
      LevelDone(v, p, v1, p1);
    }

    lemma LookAhead(write: bool, base: nat, elem: nat) returns (v: View, p: Path)
      requires Valid()
      ensures v == Seen(write) && p == Ahead(write, base, elem) && v.level == level && |p.hits| == |levels|
      ensures Fits(v, p) && Expected(write, base, elem) == Travel(v, p)
    {
      v, p := Seen(write), Ahead(write, base, elem);
    }

    method AccessLevel(write: bool, base: nat, elem: nat, ghost v: View, ghost p: Path) returns (done: bool)
      requires Valid() && level <= |levels| && v == Seen(write) && p == Ahead(write, base, elem)
      modifies Footprint()
      ensures Valid() && Fits(v, p) && 1 <= v.level <= |p.hits|
      ensures done == StopsAt(p, v.level - 1) && Seen(write) == OneLevel(v, p)
      ensures Elsewhere(p, Ahead(write, base, elem), v.level - 1)
    {
      hide *;
      LookAheadAt(write, base, elem, v, p);
      var i := level - 1;
      Levelled(v, p, i);
      var hit := AccessAt(write, base, elem, i, v, p);
      done := hit || Stays(write, i);
      MoveTo(if hit then 1 else if done then i + 1 else i + 2, base, elem, write);
    }

    lemma LookAheadAt(write: bool, base: nat, elem: nat, v: View, p: Path)
      requires Valid() && level <= |levels| && v == Seen(write) && p == Ahead(write, base, elem)
      ensures var i := level - 1;
              && levels[i].Repr() <= Footprint() && this in Footprint()
              && Fits(v, p) && v.level == level && |p.hits| == |p.around| == |levels| && p.around[i] == Stays(write, i)
    {
      hide *;
      OwnFootprint();
      OwnRepr(level - 1);
      AroundAt(write, level - 1);
      PathParts(write, base, elem);
      FitsParts(v, p);
    }

    lemma OwnRepr(i: nat)
      requires Valid() && i < |levels|
      ensures levels[i].Repr() <= Footprint()
    {
      hide Separate, SimulatedLevel.Valid;
    }

    lemma AroundAt(write: bool, i: nat)
      requires i < |levels|
      ensures Around(write)[i] == Stays(write, i)
    {
    }

    lemma PathParts(write: bool, base: nat, elem: nat)
      requires Valid()
      ensures Ahead(write, base, elem).around == Around(write)
    {
      hide Separate, SimulatedLevel.Valid, SimulatedLevel.State, Around, Hits, Simulator.After, Footprint;
    }

    lemma FitsParts(v: View, p: Path)
      requires Fits(v, p)
      ensures |p.hits| == |p.around| == |v.states|
    {
    }

    /** A write that misses here is not passed on. */
    predicate Stays(write: bool, i: nat)
      requires i < |levels|
    {
      write && levels[i].policy == WriteAround
    }

    /** Only level i is touched. */
    method AccessAt(write: bool, base: nat, elem: nat, i: nat, ghost v: View, ghost p: Path) returns (hit: bool)
      requires Valid() && i < |levels| && v == Seen(write) && p == Ahead(write, base, elem)
      modifies levels[i].Repr()
      ensures Valid() && Fits(v, p) && i < |p.hits| && hit == p.hits[i]
      ensures Seen(write) == Touched(v, p, i) && Elsewhere(p, Ahead(write, base, elem), i)
    {
      hide SimulatedLevel.Valid, SimulatedLevel.State, SimulatedLevel.HitsNow, SimulatedLevel.After, Footprint;
      OwnObjects(i);
      hit := levels[i].Access(write, base, elem);
    }

    method MoveTo(l: nat, ghost base: nat, ghost elem: nat, ghost write: bool)
      requires Valid() && 1 <= l <= |levels| + 1
      modifies this`level
      ensures Valid() && Seen(write) == old(Seen(write)).(level := l)
      ensures Ahead(write, base, elem) == old(Ahead(write, base, elem))
    {
      hide SimulatedLevel.Valid, SimulatedLevel.State, SimulatedLevel.HitsNow, SimulatedLevel.After, Footprint,
        Separate;
      level := l;
    }

    lemma OwnFootprint()
      ensures this in Footprint()
    {
    }

    lemma OwnObjects(i: nat)
      requires Separate(levels) && i < |levels|
      ensures forall j :: 0 <= j < |levels| && j != i ==> levels[j] !in levels[i].Repr() && levels[j] != levels[i]
    {
      forall j | 0 <= j < |levels| && j != i ensures levels[j] !in levels[i].Repr() {
        assert levels[j] in levels[j].Repr() && levels[i].Repr() !! levels[j].Repr();
      }
    }
  }

  /** Two new levels, the second one with write-around: a write of any block but block 0 leaves SAC_CS_level at 2. */
  method LeftAtTheSecond(g: Geometry, g': Geometry, base: nat, elem: nat) returns (s: Simulator)
    requires Sizes(g) && Sizes(g') && Aligned(g, elem) > 0 && Aligned(g', elem) > 0
    ensures s.Valid() && fresh(s.Footprint()) && |s.levels| == 2
    ensures s.levels[0].policy == Fetch && s.levels[1].policy == WriteAround && s.level == 2
  {
    hide *;
    s := TwoLevels(g, g');
    ghost var v, p := s.LookAhead(true, base, elem);
    s.AheadParts(true, base, elem);
    BothMiss(s, elem);
    EndsAtSecond(v, p);
    s.Access(true, base, elem);
  }

  method TwoLevels(g: Geometry, g': Geometry) returns (s: Simulator)
    requires Sizes(g) && Sizes(g')
    ensures s.Valid() && fresh(s.Footprint()) && |s.levels| == 2 && s.level == 1
    ensures s.levels[0].policy == Fetch && s.levels[1].policy == WriteAround
    ensures s.levels[0].Valid() && s.levels[0].Geom() == g && s.levels[0].State() == Empty(g)
    ensures s.levels[1].Valid() && s.levels[1].Geom() == g' && s.levels[1].State() == Empty(g')
  {
    hide Empty, SimulatedLevel.Valid, SimulatedLevel.State, SimulatedLevel.Geom, Separate, Simulator.Valid;
    hide Simulator.Footprint;
    var first := new SimulatedLevel(g, Fetch);
    var second := new SimulatedLevel(g', WriteAround);
    assert first.Repr() !! second.Repr();
    s := new Simulator([first, second]);
    TwoValid(s, first, second);
  }

  lemma TwoValid(s: Simulator, first: SimulatedLevel, second: SimulatedLevel)
    requires s.levels == [first, second] && first.Valid() && second.Valid() && s.level == 1
    requires first.Repr() !! second.Repr()
    ensures s.Valid() && s.Footprint() == {s} + first.Repr() + second.Repr()
  {
    hide SimulatedLevel.Valid;
    assert s.levels[0] == first && s.levels[1] == second;
  }

  /** In an empty level nothing but block 0 is found. */
  lemma BothMiss(s: Simulator, elem: nat)
    requires s.Valid() && |s.levels| == 2 && s.levels[0].policy == Fetch && s.levels[1].policy == WriteAround
    requires s.levels[0].Valid() && s.levels[1].Valid()
    requires forall i :: 0 <= i < 2 ==>
      var g := s.levels[i].Geom();
      Sizes(g) && s.levels[i].State() == Empty(g) && Aligned(g, elem) > 0
    ensures s.Hits(elem) == [false, false] && s.Around(true) == [false, true]
  {
    hide SimulatedLevel.Valid, SimulatedLevel.State, HitsNext, Empty, Separate, Simulator.Footprint;
    EmptyMisses(s.levels[0].Geom(), elem);
    EmptyMisses(s.levels[1].Geom(), elem);
  }

  lemma EmptyMisses(g: Geometry, elem: nat)
    requires Sizes(g) && Aligned(g, elem) > 0
    ensures Shape(g, Empty(g)) && !HitsNext(g, Empty(g), elem)
  {
  }

  lemma EndsAtSecond(v: View, p: Path)
    requires Fits(v, p) && v.level == 1 && p.hits == [false, false] && p.around == [false, true]
    ensures Travel(v, p).level == 2
  {
    assert Stop(p.hits, p.around, 0) == 1;
  }

  /** No two levels share an object. */
  ghost predicate Separate(levels: seq<SimulatedLevel>) {
    forall i, j :: 0 <= i < |levels| && 0 <= j < |levels| && i != j ==> levels[i].Repr() !! levels[j].Repr()
  }
}
