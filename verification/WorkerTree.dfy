/**
 Starting the worker threads of a hive (SAC_MT_AllocHive, ThreadControlInitialWorker, ThreadControl): the
 master thread creates worker 1, which creates the workers whose number is a power of two, and every other
 worker creates those that differ from it in one lower bit.
 */
module WorkerTree {

  // ---- powers of two ----

  function Power(j: nat): (i: nat)
    ensures i > 0
  {
    if j == 0 then 1 else 2 * Power(j - 1)
  }

  /** One more than the largest unsigned int. */
  const WORD: nat := 2 * Power(31)

  lemma SmallMod(x: nat, m: nat)
    requires x < m
    ensures x % m == x
  {
  }

  predicate Pow2(i: int) {
    i == 1 || (i > 1 && i % 2 == 0 && Pow2(i / 2))
  }

  /** The value of the lowest bit set. */
  function LowBit(k: nat): (b: nat)
    requires k > 0
    ensures 1 <= b <= k && Pow2(b)
  {
    if k % 2 == 1 then 1 else 2 * LowBit(k / 2)
  }

  /** The worker that creates worker k > 1: k without its lowest bit, or 1 if no other bit is set. */
  function Parent(k: nat): (p: nat)
    requires k > 1
    ensures 1 <= p < k
  {
    if LowBit(k) == k then 1 else k - LowBit(k)
  }

  lemma {:induction false} Pow2LowBit(i: nat)
    requires Pow2(i)
    ensures LowBit(i) == i
  {
    if i > 1 {
      Pow2LowBit(i / 2);
    }
  }

  /** Adding a bit below the lowest one. */
  lemma {:induction false} AddLowBit(p: nat, i: nat)
    requires p > 0 && Pow2(i) && i < LowBit(p)
    ensures LowBit(p + i) == i && Parent(p + i) == p
  {
    if i > 1 {
      assert p % 2 == 0;
      AddLowBit(p / 2, i / 2);
      assert (p + i) / 2 == p / 2 + i / 2;
    } else {
      assert p % 2 == 0;
    }
  }

  /** Removing the lowest bit leaves higher bits only. */
  lemma {:induction false} ParentLowBit(k: nat)
    requires k > 1 && LowBit(k) < k
    ensures LowBit(k - LowBit(k)) > LowBit(k)
  {
    if k % 2 == 0 {
      ParentLowBit(k / 2);
      assert (k - LowBit(k)) / 2 == k / 2 - LowBit(k / 2);
    }
  }

  lemma {:induction false} Pow2Order(i: nat, j: nat)
    requires Pow2(i) && Pow2(j) && i < j
    ensures 2 * i <= j
  {
    if i > 1 {
      Pow2Order(i / 2, j / 2);
    }
  }

  // ---- the queen's class ----

  /** The class is doubled, as an unsigned 32-bit number, until it reaches the number of bees, and halved. */
  method QueenClass(numBees: nat) returns (queenClass: nat)
    requires 1 <= numBees <= WORD / 2
    ensures if numBees == 1 then queenClass == 0 else Pow2(queenClass) && queenClass < numBees <= 2 * queenClass
  {
    queenClass := 1;
    while queenClass < numBees
      invariant Pow2(queenClass) && queenClass <= WORD / 2
      invariant queenClass > 1 ==> queenClass / 2 < numBees
      decreases numBees - queenClass
    {
      HalfWord(queenClass, numBees);
      queenClass := (queenClass * 2) % WORD;
    }
    queenClass := queenClass / 2;
  }

  lemma HalfWord(q: nat, numBees: nat)
    requires Pow2(q) && q < numBees <= WORD / 2
    ensures (q * 2) % WORD == 2 * q <= WORD / 2
  {
    hide Power;
    PowerOf(31);
    assert WORD == 2 * Power(31);
    Pow2Order(q, Power(31));
    SmallMod(q * 2, WORD);
  }

  lemma {:induction false} PowerOf(j: nat)
    ensures Pow2(Power(j))
  {
    if j > 0 {
      PowerOf(j - 1);
    }
  }

  /** The class after k rounds of that loop. */
  function Doubled(k: nat): nat {
    if k == 0 then 1 else (Doubled(k - 1) * 2) % WORD
  }

  /** With more than 2^31 bees the loop never ends: the class never reaches their number. */
  lemma {:induction false} TooManyBees(numBees: nat, k: nat)
    requires WORD / 2 < numBees < WORD
    ensures Doubled(k) < numBees
    ensures Doubled(k) == if k < 32 then Power(k) else 0
  {
    assert WORD == 2 * Power(31);
    hide Power, WORD;
    PowerStep(k);
    if k == 0 {
      PowerMonotone(0, 31);
    } else {
      TooManyBees(numBees, k - 1);
      var d := Doubled(k - 1);
      if k < 32 {
        PowerMonotone(k, 31);
        SmallMod(d * 2, WORD);
      } else {
        assert d * 2 == if k == 32 then WORD else 0;
        SelfMod(WORD);
      }
    }
  }

  lemma SelfMod(m: nat)
    requires m > 0
    ensures m % m == 0 && 0 % m == 0
  {
  }

  lemma PowerStep(k: nat)
    ensures Power(k) == if k == 0 then 1 else 2 * Power(k - 1)
  {
  }

  lemma {:induction false} PowerMonotone(i: nat, j: nat)
    requires i <= j
    ensures Power(i) <= Power(j)
  {
    if i < j {
      PowerMonotone(i, j - 1);
    }
  }

  // ---- the workers ----

  /** Start: created, but its class not yet corrected.  Create(i) and Spawn(i) are the loop that creates workers:
      Create(i) tests i and writes the class of the worker to be created, Spawn(i) creates it. */
  datatype Phase = Absent | Start | Create(i: nat) | Spawn(i: nat) | Serving

  /** All bees of a hive, the queen being number 0; how often each has been created, and by whom. */
  datatype Hive = Hive(phases: seq<Phase>, classes: seq<nat>, created: seq<nat>, creator: seq<nat>, queenClass: nat)

  predicate Sized(h: Hive) {
    |h.phases| == |h.classes| == |h.created| == |h.creator| >= 1
  }

  /** The worker created in round i of p's loop. */
  function Target(p: nat, i: nat): nat {
    if p == 1 then i else p + i
  }

  function Init(numBees: nat, queenClass: nat): Hive {
    Hive(seq(numBees, k => if k > 0 then Absent else if numBees > 1 then Spawn(1) else Serving),
         seq(numBees, _ => 0), seq(numBees, _ => 0), seq(numBees, _ => 0), queenClass)
  }

  /** The loop of worker 1 ends at 1, that of the others at 0; the queen's is no loop. */
  predicate Creates(p: nat, i: nat) {
    if p == 1 then i > 1 else i > 0
  }

  /** The assertion before a worker is created. */
  predicate AssertionHolds(h: Hive, p: nat)
    requires Sized(h) && p < |h.phases|
  {
    h.phases[p].Create? && Creates(p, h.phases[p].i) ==> Target(p, h.phases[p].i) < |h.phases|
  }

  function Moved(h: Hive, p: nat, phase: Phase): (h': Hive)
    requires Sized(h) && p < |h.phases|
    ensures Sized(h') && |h'.phases| == |h.phases|
  {
    h.(phases := h.phases[p := phase])
  }

  /** One atomic step of bee p. */
  function Step(h: Hive, p: nat): (h': Hive)
    requires Sized(h) && p < |h.phases| && AssertionHolds(h, p)
    ensures Sized(h') && |h'.phases| == |h.phases|
  {
    match h.phases[p]
    case Start =>
      if p == 1 then Moved(h, p, Create(h.queenClass)).(classes := h.classes[p := 0])
      else if p + h.classes[p] >= |h.phases| then h.(classes := h.classes[p := h.classes[p] / 2])
      else Moved(h, p, Create(h.classes[p]))
    case Create(i) =>
      if Creates(p, i) then Moved(h, p, Spawn(i)).(classes := h.classes[Target(p, i) := i / 2])
      else Moved(h, p, Serving)
    case Spawn(i) =>
      var k := Target(p, i);
      var h1 := Moved(h, p, if p == 0 then Serving else Create(i / 2));
      if k >= |h.phases| then h1
      else
        h1.(phases := h1.phases[k := Start], created := h.created[k := h.created[k] + 1],
            creator := h.creator[k := p])
    case _ => h
  }

  // ---- the invariant ----

  /** j is one of the lower bits with which worker p creates another worker, if there are enough bees. */
  predicate Bit(p: nat, j: nat) {
    p > 0 && Pow2(j) && (if p == 1 then j > 1 else j < LowBit(p))
  }

  /** Worker p has not come to j yet. */
  predicate Pending(h: Hive, p: nat, j: nat)
    requires Sized(h) && p < |h.phases|
  {
    match h.phases[p]
    case Absent => true
    case Start => p == 1 || j <= h.classes[p]
    case Create(i) => j <= i
    case Spawn(i) => j <= i
    case Serving => false
  }

  /** A loop variable of worker p: one of its bits, or the end of the loop. */
  predicate LoopVar(p: nat, i: nat, n: nat) {
    Creates(p, i) ==> Bit(p, i) && Target(p, i) < n
  }

  predicate BeeOk(h: Hive, p: nat)
    requires Sized(h) && p < |h.phases|
  {
    var n := |h.phases|;
    && h.created[p] == (if p == 0 || h.phases[p].Absent? then 0 else 1)
    && (p > 0 && !h.phases[p].Absent? ==> h.creator[p] == if p == 1 then 0 else Parent(p))
    && match h.phases[p]
       case Absent => p > 0
       case Start => p > 0 && (p > 1 ==> h.classes[p] > 0 ==> Bit(p, h.classes[p]))
       case Create(i) => p > 0 && LoopVar(p, i, n)
       case Spawn(i) =>
         if p == 0 then i == 1 && n > 1
         else Creates(p, i) && Bit(p, i) && Target(p, i) < n && h.classes[Target(p, i)] == i / 2
       case Serving => true
  }

  predicate QueenOk(h: Hive)
    requires Sized(h)
  {
    var n := |h.phases|;
    && (n > 1 ==> Pow2(h.queenClass) && h.queenClass < n <= 2 * h.queenClass)
    && (n > 1 ==> (h.phases[1].Absent? <==> h.phases[0].Spawn?))
  }

  /** The workers that exist are those whose creator has come to them. */
  ghost predicate TreeOk(h: Hive)
    requires Sized(h)
  {
    forall p: nat, j: nat {:trigger Bit(p, j)} :: 0 < p < |h.phases| && Bit(p, j) && Target(p, j) < |h.phases| ==>
      (Pending(h, p, j) <==> h.phases[Target(p, j)].Absent?)
  }

  ghost predicate Inv(h: Hive) {
    && Sized(h) && QueenOk(h) && TreeOk(h)
    && forall p :: 0 <= p < |h.phases| ==> BeeOk(h, p)
  }

  /** Every worker but the first is created with exactly one bit by exactly one worker. */
  lemma UniqueOrigin(p: nat, j: nat)
    requires Bit(p, j)
    ensures Target(p, j) > 1 && Parent(Target(p, j)) == p && LowBit(Target(p, j)) == j
  {
    if p == 1 {
      Pow2LowBit(j);
    } else {
      AddLowBit(p, j);
    }
  }

  lemma HasOrigin(k: nat)
    requires k > 1
    ensures Bit(Parent(k), LowBit(k)) && Target(Parent(k), LowBit(k)) == k
  {
    var b := LowBit(k);
    if b != k {
      ParentLowBit(k);
      NotOne(k - b, b);
      hide LowBit, Pow2;
      assert Bit(k - b, b);
    }
  }

  lemma NotOne(p: nat, b: nat)
    requires p > 0 && LowBit(p) > b > 0
    ensures p != 1
  {
  }

  lemma InitInv(n: nat, queenClass: nat)
    requires n >= 1 && (n > 1 ==> Pow2(queenClass) && queenClass < n <= 2 * queenClass)
    ensures Inv(Init(n, queenClass))
  {
    var h := Init(n, queenClass);
    forall p: nat, j: nat | 0 < p < n && Bit(p, j) && Target(p, j) < n
      ensures Pending(h, p, j) <==> h.phases[Target(p, j)].Absent?
    {
      UniqueOrigin(p, j);
    }
  }

  lemma HalfBit(p: nat, b: nat, j: nat)
    requires Bit(p, b) && Bit(p, j) && j < b
    ensures j <= b / 2
  {
    Pow2Order(j, b);
  }

  /** The class of a worker is halved while it is too large: the bits given up have no worker. */
  lemma CorrectStep(h: Hive, p: nat)
    requires Inv(h) && 1 < p < |h.phases| && h.phases[p].Start? && p + h.classes[p] >= |h.phases|
    ensures Inv(Step(h, p))
  {
    var h', b := Step(h, p), h.classes[p];
    assert BeeOk(h, p);
    forall q: nat, j: nat | 0 < q < |h.phases| && Bit(q, j) && Target(q, j) < |h.phases|
      ensures Pending(h', q, j) <==> h'.phases[Target(q, j)].Absent?
    {
      assert Pending(h, q, j) <==> h.phases[Target(q, j)].Absent?;
      if q == p && j < b {
        HalfBit(p, b, j);
      }
    }
    forall q | 0 <= q < |h.phases| ensures BeeOk(h', q) {
      assert BeeOk(h, q);
      if h.phases[q].Spawn? && q > 0 {
        assert Pending(h, q, h.phases[q].i);
      }
    }
  }

  lemma StartStep(h: Hive, p: nat)
    requires Inv(h) && p < |h.phases| && h.phases[p].Start? && (p > 1 ==> p + h.classes[p] < |h.phases|)
    ensures Inv(Step(h, p))
  {
    var h' := Step(h, p);
    assert BeeOk(h, p);
    forall q: nat, j: nat | 0 < q < |h.phases| && Bit(q, j) && Target(q, j) < |h.phases|
      ensures Pending(h', q, j) <==> h'.phases[Target(q, j)].Absent?
    {
      assert Pending(h, q, j) <==> h.phases[Target(q, j)].Absent?;
      if p == q == 1 && j > h.queenClass {
        Pow2Order(h.queenClass, j);
      }
    }
    forall q | 0 <= q < |h.phases| ensures BeeOk(h', q) {
      assert BeeOk(h, q);
      if h.phases[q].Spawn? && q > 0 {
        UniqueOrigin(q, h.phases[q].i);
      }
    }
  }

  lemma CreateStep(h: Hive, p: nat)
    requires Inv(h) && p < |h.phases| && h.phases[p].Create?
    ensures AssertionHolds(h, p) && Inv(Step(h, p))
  {
    assert BeeOk(h, p);
    var h', i := Step(h, p), h.phases[p].i;
    if Creates(p, i) {
      UniqueOrigin(p, i);
      assert Pending(h, p, i) && h.phases[Target(p, i)].Absent?;
    }
    forall q: nat, j: nat | 0 < q < |h.phases| && Bit(q, j) && Target(q, j) < |h.phases|
      ensures Pending(h', q, j) <==> h'.phases[Target(q, j)].Absent?
    {
      assert Pending(h, q, j) <==> h.phases[Target(q, j)].Absent?;
    }
    forall q | 0 <= q < |h.phases| ensures BeeOk(h', q) {
      assert BeeOk(h, q);
      if h.phases[q].Spawn? && q > 0 {
        UniqueOrigin(q, h.phases[q].i);
      }
    }
  }

  lemma SpawnTree(h: Hive, p: nat)
    requires Inv(h) && p < |h.phases| && h.phases[p].Spawn?
    ensures TreeOk(Step(h, p))
  {
    assert BeeOk(h, p);
    var h', i := Step(h, p), h.phases[p].i;
    var k := Target(p, i);
    if p > 0 {
      UniqueOrigin(p, i);
      assert Pending(h, p, i) && h.phases[k].Absent?;
    }
    hide BeeOk;
    forall q: nat, j: nat | 0 < q < |h.phases| && Bit(q, j) && Target(q, j) < |h.phases|
      ensures Pending(h', q, j) <==> h'.phases[Target(q, j)].Absent?
    {
      assert Pending(h, q, j) <==> h.phases[Target(q, j)].Absent?;
      UniqueOrigin(q, j);
      if p > 0 && (q == p || q == k) && j < i {
        Pow2Order(j, i);
      }
    }
  }

  lemma SpawnStep(h: Hive, p: nat)
    requires Inv(h) && p < |h.phases| && h.phases[p].Spawn?
    ensures Inv(Step(h, p))
  {
    assert BeeOk(h, p);
    var h', i := Step(h, p), h.phases[p].i;
    var k := Target(p, i);
    if p > 0 {
      UniqueOrigin(p, i);
      assert Pending(h, p, i) && h.phases[k].Absent?;
      HalfLoopVar(p, i, |h.phases|);
    }
    SpawnTree(h, p);
    hide TreeOk, Bit, Parent, LowBit, Pow2;
    forall q | 0 <= q < |h.phases| ensures BeeOk(h', q) {
      assert BeeOk(h, q);
    }
  }

  lemma HalfLoopVar(p: nat, i: nat, n: nat)
    requires p > 0 && Creates(p, i) && Bit(p, i) && Target(p, i) < n
    ensures LoopVar(p, i / 2, n)
    ensures i / 2 > 0 ==> p == 1 || Bit(p, i / 2)
    ensures p > 0 && i / 2 > 0 ==> Bit(Target(p, i), i / 2)
  {
    UniqueOrigin(p, i);
  }

  lemma StepInv(h: Hive, p: nat)
    requires Inv(h) && p < |h.phases|
    ensures AssertionHolds(h, p) && Inv(Step(h, p))
  {
    match h.phases[p] {
      case Start =>
        if p > 1 && p + h.classes[p] >= |h.phases| {
          CorrectStep(h, p);
        } else {
          StartStep(h, p);
        }
      case Create(i) => CreateStep(h, p);
      case Spawn(i) => SpawnStep(h, p);
      case _ =>
    }
  }

  // ---- what the invariant says ----

  /** No worker is ever created twice, its creator is its parent in the tree, and no worker beyond the last is
      asked for. */
  lemma CreatedAtMostOnce(h: Hive, k: nat)
    requires Inv(h) && 0 < k < |h.phases|
    ensures h.created[k] <= 1 && (h.created[k] == 1 <==> !h.phases[k].Absent?)
    ensures h.created[k] == 1 ==> h.creator[k] == if k == 1 then 0 else Parent(k)
    ensures AssertionHolds(h, k)
  {
    assert BeeOk(h, k);
  }

  predicate Quiet(h: Hive) {
    forall p :: 0 <= p < |h.phases| ==> h.phases[p].Absent? || h.phases[p].Serving?
  }

  /** When no bee has anything left to do, every worker is there. */
  lemma {:induction false} AllCreated(h: Hive, k: nat)
    requires Inv(h) && Quiet(h) && 0 < k < |h.phases|
    ensures h.phases[k].Serving? && h.created[k] == 1
  {
    assert BeeOk(h, 0) && BeeOk(h, k);
    if k > 1 {
      HasOrigin(k);
      AllCreated(h, Parent(k));
      assert Pending(h, Parent(k), LowBit(k)) <==> h.phases[k].Absent?;
    }
  }

  /** Steps bee p can still take, at most. */
  function Steps(h: Hive, p: nat): nat
    requires Sized(h) && p < |h.phases|
  {
    var n := |h.phases|;
    match h.phases[p]
    case Absent => 4 * n + 4
    case Start => 2 * n + 3 + if p == 1 then n else h.classes[p]
    case Create(i) => 2 * i + 2
    case Spawn(i) => 2 * i + 1
    case Serving => 0
  }

  function Remaining(h: Hive, k: nat): nat
    requires Sized(h) && k <= |h.phases|
  {
    if k == 0 then 0 else Remaining(h, k - 1) + Steps(h, k - 1)
  }

  /** Every bee that has something to do can do it, and brings the hive nearer to its end. */
  lemma StartDrops(h: Hive, p: nat, q: nat)
    requires Inv(h) && p < |h.phases| && q < |h.phases| && h.phases[p].Start?
    ensures AssertionHolds(h, p)
    ensures Steps(Step(h, p), q) <= Steps(h, q)
    ensures q == p ==> Steps(Step(h, p), q) < Steps(h, q)
  {
    assert BeeOk(h, p) && BeeOk(h, q);
  }

  lemma CreateDrops(h: Hive, p: nat, q: nat)
    requires Inv(h) && p < |h.phases| && q < |h.phases| && h.phases[p].Create?
    ensures AssertionHolds(h, p)
    ensures Steps(Step(h, p), q) <= Steps(h, q)
    ensures q == p ==> Steps(Step(h, p), q) < Steps(h, q)
  {
    assert BeeOk(h, p) && BeeOk(h, q);
  }

  lemma SpawnDrops(h: Hive, p: nat, q: nat)
    requires Inv(h) && p < |h.phases| && q < |h.phases| && h.phases[p].Spawn?
    ensures AssertionHolds(h, p)
    ensures Steps(Step(h, p), q) <= Steps(h, q)
    ensures q == p ==> Steps(Step(h, p), q) < Steps(h, q)
  {
    assert BeeOk(h, p) && BeeOk(h, q);
  }

  lemma StepsDrop(h: Hive, p: nat, q: nat)
    requires Inv(h) && p < |h.phases| && q < |h.phases| && !h.phases[p].Absent? && !h.phases[p].Serving?
    ensures AssertionHolds(h, p)
    ensures Steps(Step(h, p), q) <= Steps(h, q)
    ensures q == p ==> Steps(Step(h, p), q) < Steps(h, q)
  {
    hide *;
    match h.phases[p] {
      case Start => StartDrops(h, p, q);
      case Create(_) => CreateDrops(h, p, q);
      case Spawn(_) => SpawnDrops(h, p, q);
    }
  }

  lemma {:induction false} RemainingDrops(h: Hive, p: nat, k: nat)
    requires Inv(h) && p < |h.phases| && k <= |h.phases| && !h.phases[p].Absent? && !h.phases[p].Serving?
    ensures AssertionHolds(h, p)
    ensures Remaining(Step(h, p), k) <= Remaining(h, k)
    ensures p < k ==> Remaining(Step(h, p), k) < Remaining(h, k)
  {
    StepInv(h, p);
    if k > 0 {
      RemainingDrops(h, p, k - 1);
      StepsDrop(h, p, k - 1);
    }
  }

  predicate Busy(h: Hive, p: nat) {
    p < |h.phases| && !h.phases[p].Absent? && !h.phases[p].Serving?
  }

  /** A run of steps of bees that have something to do. */
  ghost predicate BusyRun(h: Hive, schedule: seq<nat>, h': Hive)
    requires Sized(h)
    decreases |schedule|
  {
    if schedule == [] then h' == h
    else
      && Busy(h, schedule[0]) && AssertionHolds(h, schedule[0])
      && BusyRun(Step(h, schedule[0]), schedule[1..], h')
  }

  /** Start-up: however the threads are interleaved, it takes a bounded number of steps, no assertion fails, nobody
      is created twice, and when nothing is left to do each of the workers 1 to n-1 has been created once, by its
      parent in the tree. */
  lemma {:induction false} StartUp(h: Hive, schedule: seq<nat>, h': Hive)
    requires Inv(h) && BusyRun(h, schedule, h')
    ensures Inv(h') && |h'.phases| == |h.phases|
    ensures |schedule| <= Remaining(h, |h.phases|)
    ensures forall p :: 0 <= p < |h'.phases| ==> AssertionHolds(h', p)
    ensures forall k :: 0 < k < |h'.phases| ==> h'.created[k] <= 1
    ensures (forall p :: !Busy(h', p)) ==> forall k :: 0 < k < |h'.phases| ==>
              h'.created[k] == 1 && h'.creator[k] == if k == 1 then 0 else Parent(k)
    decreases |schedule|
  {
    if schedule == [] {
      forall k | 0 < k < |h'.phases| ensures h'.created[k] <= 1 {
        CreatedAtMostOnce(h', k);
      }
      forall p | 0 <= p < |h'.phases| ensures AssertionHolds(h', p) {
        StepInv(h', p);
      }
      if forall p :: !Busy(h', p) {
        forall p | 0 <= p < |h'.phases| ensures h'.phases[p].Absent? || h'.phases[p].Serving? {
          assert !Busy(h', p);
        }
        forall k | 0 < k < |h'.phases| ensures h'.created[k] == 1 && h'.creator[k] == if k == 1 then 0 else Parent(k) {
          AllCreated(h', k);
          CreatedAtMostOnce(h', k);
        }
      }
    } else {
      var p := schedule[0];
      StepInv(h, p);
      RemainingDrops(h, p, |h.phases|);
      hide Inv, Step, Busy, AssertionHolds, Parent;
      StartUp(Step(h, p), schedule[1..], h');
    }
  }

  /** Allocating a hive. */
  method AllocHive(numBees: nat) returns (h: Hive)
    requires 1 <= numBees <= WORD / 2
    ensures Inv(h) && |h.phases| == numBees
    ensures forall k :: 0 < k < numBees ==> h.created[k] == 0
  {
    var queenClass := QueenClass(numBees);
    h := Init(numBees, queenClass);
    InitInv(numBees, queenClass);
  }
}
