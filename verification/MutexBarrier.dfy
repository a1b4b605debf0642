/**
 The barrier made of three mutexes and a counter (init_mutex_barrier, take_mutex_barrier): n threads that
 call it again and again, as a state machine over their atomic steps.

 A mutex is a lock that any thread may release: threads do unlock what others have locked.
 */
module MutexBarrier {

  /** Where a thread stands in take_mutex_barrier; every constructor names the step that comes next.  `lock` is
      the local variable of that name, `v` the counter value just loaded. */
  datatype PC =
    | Outside
    | LockGate | UnlockGate | LockSacred
    | LoadInc | StoreInc(v: int) | CheckLast
    | RelockGate | OpenBarrier
    | Reread(lock: bool) | TryLock(lock: bool) | UnlockSacred(lock: bool)
    | LockBarrier | LoadDec | StoreDec(v: int) | CheckOne
    | ResetCount | ReopenGate | PassBarrier

  /** The counter and the mutexes lock_sacred (the gate), sacred and barrier.  The other fields record the
      history: completed rounds, whether all threads of the round have arrived, whether the barrier has been
      released, the last thread to arrive, the thread last seen inside each mutex, and how often each thread has
      entered and left the barrier. */
  datatype State = State(
    pcs: seq<PC>, count: int, gate: bool, sacred: bool, barrier: bool,
    round: nat, full: bool, released: bool, last: nat, gateBy: nat, sacredBy: nat, leaver: nat,
    entered: seq<nat>, left: seq<nat>)

  function Init(n: nat): State {
    State(seq(n, _ => Outside), 0, false, false, false, 0, false, false, 0, 0, 0, 0, seq(n, _ => 0), seq(n, _ => 0))
  }

  predicate Shaped(s: State) {
    |s.pcs| == |s.entered| == |s.left| >= 2
  }

  /** Thread i has to wait for a mutex. */
  predicate Blocked(s: State, i: nat)
    requires i < |s.pcs|
  {
    match s.pcs[i]
    case LockGate => s.gate
    case RelockGate => s.gate
    case LockSacred => s.sacred
    case LockBarrier => s.barrier
    case _ => false
  }

  /** Where a thread goes from pc. */
  function Next(s: State, pc: PC): PC {
    match pc
    case Outside => LockGate
    case LockGate => UnlockGate
    case UnlockGate => LockSacred
    case LockSacred => LoadInc
    case LoadInc => StoreInc(s.count)
    case StoreInc(_) => CheckLast
    case CheckLast => if s.count == |s.pcs| then RelockGate else Reread(true)
    case RelockGate => OpenBarrier
    case OpenBarrier => Reread(false)
    case Reread(lock) => if s.count == 1 then TryLock(lock) else UnlockSacred(lock)
    case TryLock(lock) => UnlockSacred(lock)
    case UnlockSacred(lock) => if lock then LockBarrier else Outside
    case LockBarrier => LoadDec
    case LoadDec => StoreDec(s.count)
    case StoreDec(_) => CheckOne
    case CheckOne => if s.count == 1 then ResetCount else PassBarrier
    case ResetCount => ReopenGate
    case ReopenGate => Outside
    case PassBarrier => Outside
  }

  /** One atomic step of thread i, which does not have to wait: what it does to the counter and the mutexes, and
      how the history goes on. */
  function Step(s: State, i: nat): (s': State)
    requires Shaped(s) && i < |s.pcs|
    ensures Shaped(s') && |s'.pcs| == |s.pcs|
  {
    var pc, next := s.pcs[i], Next(s, s.pcs[i]);
    State(
      s.pcs[i := next],
      if pc.StoreInc? then pc.v + 1 else if pc.StoreDec? then pc.v - 1 else if pc.ResetCount? then 0 else s.count,
      if pc.LockGate? || pc.RelockGate? then true else if pc.UnlockGate? || pc.ReopenGate? then false else s.gate,
      if pc.LockSacred? then true else if pc.UnlockSacred? then false else s.sacred,
      if pc.LockBarrier? || pc.TryLock? then true else if pc.OpenBarrier? || pc.PassBarrier? then false else s.barrier,
      if pc.ReopenGate? then s.round + 1 else s.round,
      if pc.StoreInc? then pc.v + 1 == |s.pcs| else if pc.ReopenGate? then false else s.full,
      if pc.StoreInc? then false else if pc.OpenBarrier? then true else s.released,
      if pc.StoreInc? then i else s.last,
      if pc.LockGate? || pc.RelockGate? then i else s.gateBy,
      if pc.LockSacred? then i else s.sacredBy,
      if pc.LockBarrier? then i else s.leaver,
      if pc.Outside? then s.entered[i := s.entered[i] + 1] else s.entered,
      if next.Outside? then s.left[i := s.left[i] + 1] else s.left)
  }

  /** The state after n threads have been scheduled in the given order; scheduling a waiting thread does
      nothing. */
  function Run(n: nat, schedule: seq<nat>): (s: State)
    requires n >= 2 && forall k :: 0 <= k < |schedule| ==> schedule[k] < n
    ensures Shaped(s) && |s.pcs| == n
  {
    if schedule == [] then Init(n)
    else
      var s, i := Run(n, schedule[..|schedule| - 1]), schedule[|schedule| - 1];
      if Blocked(s, i) then s else Step(s, i)
  }

  // ---- counting threads ----

  function Count(pcs: seq<PC>, p: PC -> bool): (c: nat)
    ensures c <= |pcs|
  {
    if pcs == [] then 0 else Count(pcs[..|pcs| - 1], p) + if p(pcs[|pcs| - 1]) then 1 else 0
  }

  lemma {:induction false} CountUpdate(pcs: seq<PC>, i: nat, pc: PC, p: PC -> bool)
    requires i < |pcs|
    ensures Count(pcs[i := pc], p) == Count(pcs, p) - (if p(pcs[i]) then 1 else 0) + (if p(pc) then 1 else 0)
  {
    var k := |pcs| - 1;
    if i == k {
      assert pcs[i := pc][..k] == pcs[..k];
    } else {
      CountUpdate(pcs[..k], i, pc, p);
      assert pcs[i := pc][..k] == pcs[..k][i := pc];
    }
  }

  lemma {:induction false} CountNone(pcs: seq<PC>, p: PC -> bool)
    ensures Count(pcs, p) == 0 <==> forall i :: 0 <= i < |pcs| ==> !p(pcs[i])
  {
    if pcs != [] {
      var init := pcs[..|pcs| - 1];
      CountNone(init, p);
      assert forall i :: 0 <= i < |init| ==> init[i] == pcs[i];
    }
  }

  lemma {:induction false} CountAll(pcs: seq<PC>, p: PC -> bool)
    ensures Count(pcs, p) == |pcs| <==> forall i :: 0 <= i < |pcs| ==> p(pcs[i])
  {
    if pcs != [] {
      var init := pcs[..|pcs| - 1];
      CountAll(init, p);
      assert forall i :: 0 <= i < |init| ==> init[i] == pcs[i];
    }
  }

  // ---- the invariant ----

  /** Not yet counted in the round. */
  predicate Before(pc: PC) {
    pc.Outside? || pc.LockGate? || pc.UnlockGate? || pc.LockSacred? || pc.LoadInc? || pc.StoreInc?
  }

  /** Counted, and going to wait. */
  predicate Arrived(pc: PC) {
    || pc.CheckLast? || (pc.Reread? && pc.lock) || (pc.TryLock? && pc.lock)
    || (pc.UnlockSacred? && pc.lock) || pc.LockBarrier?
  }

  /** The last thread to arrive on its way out. */
  predicate Tail(pc: PC) {
    (pc.Reread? || pc.TryLock? || pc.UnlockSacred?) && !pc.lock
  }

  predicate InSacred(pc: PC) {
    || pc.LoadInc? || pc.StoreInc? || pc.CheckLast? || pc.RelockGate? || pc.OpenBarrier?
    || pc.Reread? || pc.TryLock? || pc.UnlockSacred?
  }

  /** Waiting for the barrier, or still to be subtracted from the counter. */
  predicate Waiting(pc: PC) {
    pc.LockBarrier? || pc.LoadDec? || pc.StoreDec?
  }

  predicate Leaving(pc: PC) {
    pc.LoadDec? || pc.StoreDec? || pc.CheckOne? || pc.ResetCount? || pc.ReopenGate? || pc.PassBarrier?
  }

  predicate SacredHeld(s: State) {
    && (forall i :: 0 <= i < |s.pcs| && InSacred(s.pcs[i]) ==> s.sacred && s.sacredBy == i)
    && (s.sacred ==> s.sacredBy < |s.pcs| && InSacred(s.pcs[s.sacredBy]))
  }

  /** Thread i while the round fills up. */
  predicate FillThread(s: State, i: nat)
    requires Shaped(s) && i < |s.pcs|
  {
    var pc := s.pcs[i];
    && (Before(pc) || Arrived(pc) || Tail(pc))
    && (Before(pc) ==> s.left[i] == s.round && s.entered[i] == s.round + if pc.Outside? then 0 else 1)
    && (Arrived(pc) ==> s.left[i] == s.round && s.entered[i] == s.round + 1)
    && (Tail(pc) ==> s.left[i] + 1 == s.round == s.entered[i])
    && (pc.UnlockGate? ==> s.gate && s.gateBy == i)
    && (pc.StoreInc? ==> pc.v == s.count)
    && (pc.LockBarrier? || (pc.UnlockSacred? && pc.lock) ==> s.barrier)
  }

  predicate Fill(s: State)
    requires Shaped(s)
  {
    && (forall i :: 0 <= i < |s.pcs| ==> FillThread(s, i))
    && s.count == Count(s.pcs, Arrived) < |s.pcs|
    && (s.gate ==> s.gateBy < |s.pcs| && s.pcs[s.gateBy].UnlockGate?)
    && (s.round > 0 ==> s.barrier)
    && (!s.barrier ==> s.count <= 1)
  }

  /** All threads have arrived; the last one closes the gate and opens the barrier. */
  predicate Closing(s: State)
    requires Shaped(s)
  {
    && s.last < |s.pcs| && s.count == |s.pcs| && s.barrier
    && (s.pcs[s.last].CheckLast? || s.pcs[s.last].RelockGate? || s.pcs[s.last].OpenBarrier?)
    && s.gate == s.pcs[s.last].OpenBarrier?
    && (forall i :: 0 <= i < |s.pcs| ==>
         && (i != s.last ==> s.pcs[i].LockBarrier?)
         && s.left[i] == s.round && s.entered[i] == s.round + 1)
  }

  /** Thread i while the waiting threads leave one by one. */
  predicate DrainThread(s: State, i: nat)
    requires Shaped(s) && i < |s.pcs|
  {
    var pc := s.pcs[i];
    && (Waiting(pc) || Leaving(pc) || Tail(pc) || pc.Outside? || pc.LockGate?)
    && (if pc.Outside? || pc.LockGate? then
          s.left[i] == s.round + 1 && s.entered[i] == s.round + if pc.Outside? then 1 else 2
        else s.left[i] == s.round && s.entered[i] == s.round + 1)
    && (Leaving(pc) ==> s.barrier && s.leaver == i)
    && (pc.StoreDec? ==> pc.v == s.count)
    && (pc.ResetCount? || pc.ReopenGate? ==> Count(s.pcs, Waiting) == 0)
    && (pc.PassBarrier? ==> Count(s.pcs, Waiting) > 0)
    && (pc.TryLock? ==> s.barrier && Count(s.pcs, Waiting) == 0)
  }

  predicate Drain(s: State)
    requires Shaped(s)
  {
    && s.gate
    && (forall i :: 0 <= i < |s.pcs| ==> DrainThread(s, i))
    && (s.barrier ==> s.leaver < |s.pcs| && Leaving(s.pcs[s.leaver]))
    && (s.barrier || Count(s.pcs, Waiting) > 0)
    && s.count == if s.barrier && s.pcs[s.leaver].ReopenGate? then 0 else 1 + Count(s.pcs, Waiting)
  }

  predicate Inv(s: State) {
    && Shaped(s) && SacredHeld(s)
    && (if !s.full then Fill(s) else if !s.released then Closing(s) else Drain(s))
  }

  lemma InitInv(n: nat)
    requires n >= 2
    ensures Inv(Init(n))
  {
    CountNone(Init(n).pcs, Arrived);
  }

  lemma SacredStep(s: State, i: nat)
    requires Inv(s) && i < |s.pcs| && !Blocked(s, i)
    ensures SacredHeld(Step(s, i))
  {
    hide Fill, Closing, Drain;
    var s', pc := Step(s, i), s.pcs[i];
    assert InSacred(s'.pcs[i]) <==> pc.LockSacred? || (InSacred(pc) && !pc.UnlockSacred?);
    forall j | 0 <= j < |s'.pcs| && InSacred(s'.pcs[j]) ensures s'.sacred && s'.sacredBy == j {
      if j != i {
        assert InSacred(s.pcs[j]);
      }
    }
  }

  /** How a sum changes. */
  lemma Moved(s: State, i: nat, p: PC -> bool)
    requires Shaped(s) && i < |s.pcs|
    ensures var before, after := if p(s.pcs[i]) then 1 else 0, if p(Next(s, s.pcs[i])) then 1 else 0;
            Count(Step(s, i).pcs, p) == Count(s.pcs, p) - before + after
  {
    CountUpdate(s.pcs, i, Step(s, i).pcs[i], p);
  }

  // ---- filling ----

  /** While the barrier is still open and a thread that is not counted holds sacred, nobody is counted. */
  lemma NobodyArrived(s: State, i: nat)
    requires Inv(s) && !s.full && i < |s.pcs| && s.pcs[i].StoreInc? && !s.barrier
    ensures s.count == 0
  {
    CountNone(s.pcs, Arrived);
    forall j | 0 <= j < |s.pcs| ensures !Arrived(s.pcs[j]) {
      assert FillThread(s, j);
    }
  }

  lemma FillThreads(s: State, i: nat)
    requires Inv(s) && !s.full && i < |s.pcs| && !Blocked(s, i)
    requires !(s.pcs[i].StoreInc? && s.count + 1 == |s.pcs|) && (Arrived(s.pcs[i]) ==> s.count > 0)
    ensures forall j :: 0 <= j < |s.pcs| ==> FillThread(Step(s, i), j)
  {
    hide Count;
    var s' := Step(s, i);
    assert FillThread(s, i);
    assert FillThread(s', i);
    forall j | 0 <= j < |s.pcs| && j != i ensures FillThread(s', j) {
      assert FillThread(s, j);
    }
  }

  lemma FillKept(s: State, i: nat)
    requires Inv(s) && !s.full && i < |s.pcs| && !Blocked(s, i)
    requires !(s.pcs[i].StoreInc? && s.count + 1 == |s.pcs|)
    ensures Fill(Step(s, i)) && !Step(s, i).full
  {
    var s' := Step(s, i);
    assert FillThread(s, i);
    Moved(s, i, Arrived);
    CountNone(s.pcs, Arrived);
    if s.pcs[i].StoreInc? && !s.barrier {
      NobodyArrived(s, i);
    }
    FillThreads(s, i);
    hide Count, SacredHeld, FillThread;
  }

  /** The last increment: everybody else is waiting for the barrier. */
  lemma FillToClosing(s: State, i: nat)
    requires Inv(s) && !s.full && i < |s.pcs| && s.pcs[i].StoreInc? && s.count + 1 == |s.pcs|
    ensures Closing(Step(s, i))
  {
    var s' := Step(s, i);
    assert FillThread(s, i);
    Moved(s, i, Arrived);
    CountAll(s'.pcs, Arrived);
    forall j | 0 <= j < |s.pcs| ensures s.left[j] == s.round && s.entered[j] == s.round + 1
      ensures j != i ==> s.pcs[j].LockBarrier? && s.barrier
    {
      assert FillThread(s, j) && Arrived(s'.pcs[j]);
    }
    var other := if i == 0 then 1 else 0;
    assert s.pcs[other].LockBarrier?;
    assert s.gateBy < |s.pcs| ==> !s.pcs[s.gateBy].UnlockGate?;
  }

  lemma FillStep(s: State, i: nat)
    requires Inv(s) && !s.full && i < |s.pcs| && !Blocked(s, i)
    ensures Inv(Step(s, i))
  {
    SacredStep(s, i);
    assert FillThread(s, i);
    if s.pcs[i].StoreInc? && s.count + 1 == |s.pcs| {
      FillToClosing(s, i);
    } else {
      FillKept(s, i);
    }
  }

  // ---- closing ----

  lemma ClosingToDrain(s: State, i: nat)
    requires Shaped(s) && Closing(s) && i == s.last && s.pcs[i].OpenBarrier?
    ensures Drain(Step(s, i)) && Step(s, i).full == s.full && Step(s, i).released
  {
    hide Count;
    var s', n := Step(s, i), |s.pcs|;
    assert s'.pcs == s.pcs[i := Reread(false)] && s'.gate && !s'.barrier && s'.count == n && s'.round == s.round;
    OthersWaiting(s'.pcs, i, n);
    assert s'.pcs[..n] == s'.pcs;
    ClosingThreads(s, s', i);
    hide DrainThread;
  }

  lemma ClosingThreads(s: State, s': State, i: nat)
    requires Shaped(s) && Closing(s) && i == s.last && Shaped(s')
    requires s'.pcs == s.pcs[i := Reread(false)] && s'.round == s.round && s'.left == s.left && s'.entered == s.entered
    ensures forall j :: 0 <= j < |s'.pcs| ==> DrainThread(s', j)
  {
    hide Count;
  }

  lemma ClosingKept(s: State, i: nat)
    requires Shaped(s) && Closing(s) && i == s.last && !s.pcs[i].OpenBarrier? && !Blocked(s, i)
    ensures Closing(Step(s, i)) && Step(s, i).full == s.full && Step(s, i).released == s.released
  {
  }

  lemma ClosingStep(s: State, i: nat)
    requires Inv(s) && s.full && !s.released && i < |s.pcs| && !Blocked(s, i)
    ensures Inv(Step(s, i))
  {
    SacredStep(s, i);
    assert i == s.last;
    if s.pcs[i].OpenBarrier? {
      ClosingToDrain(s, i);
    } else {
      ClosingKept(s, i);
    }
    hide Closing, Drain, SacredHeld;
  }

  lemma {:induction false} OthersWaiting(pcs: seq<PC>, i: nat, k: nat)
    requires i < |pcs| && k <= |pcs| && !Waiting(pcs[i]) && forall j :: 0 <= j < |pcs| && j != i ==> pcs[j].LockBarrier?
    ensures Count(pcs[..k], Waiting) == if i < k then k - 1 else k
  {
    if k > 0 {
      OthersWaiting(pcs, i, k - 1);
      assert pcs[..k][..k - 1] == pcs[..k - 1];
    }
  }

  // ---- draining ----

  lemma DrainThreads(s: State, i: nat)
    requires Inv(s) && s.full && s.released && i < |s.pcs| && !Blocked(s, i) && !s.pcs[i].ReopenGate?
    requires Count(s.pcs, Waiting) == 0 <==> forall j :: 0 <= j < |s.pcs| ==> !Waiting(s.pcs[j])
    requires var w, w' := Count(s.pcs, Waiting), Count(Step(s, i).pcs, Waiting);
             w' == if s.pcs[i].StoreDec? then w - 1 else w
    ensures forall j :: 0 <= j < |s.pcs| ==> DrainThread(Step(s, i), j)
  {
    hide Count;
    var s' := Step(s, i);
    assert DrainThread(s, i);
    assert DrainThread(s', i);
    forall j | 0 <= j < |s.pcs| && j != i ensures DrainThread(s', j) {
      assert DrainThread(s, j);
    }
  }

  lemma DrainKept(s: State, i: nat)
    requires Inv(s) && s.full && s.released && i < |s.pcs| && !Blocked(s, i) && !s.pcs[i].ReopenGate?
    ensures Drain(Step(s, i)) && Step(s, i).full && Step(s, i).released
  {
    assert DrainThread(s, i);
    Moved(s, i, Waiting);
    CountNone(s.pcs, Waiting);
    DrainThreads(s, i);
    hide Count, SacredHeld, DrainThread;
  }

  /** The final leaver opens the gate: everybody is outside again, or at the gate, or the last thread's tail. */
  lemma DrainToFill(s: State, i: nat)
    requires Inv(s) && s.full && s.released && i < |s.pcs| && s.pcs[i].ReopenGate?
    ensures Fill(Step(s, i))
  {
    var s' := Step(s, i);
    assert DrainThread(s, i);
    CountNone(s.pcs, Waiting);
    CountNone(s'.pcs, Arrived);
    hide Count, SacredHeld;
    forall j | 0 <= j < |s.pcs| ensures FillThread(s', j) && !Arrived(s'.pcs[j]) {
      assert DrainThread(s, j);
    }
  }

  lemma DrainStep(s: State, i: nat)
    requires Inv(s) && s.full && s.released && i < |s.pcs| && !Blocked(s, i)
    ensures Inv(Step(s, i))
  {
    SacredStep(s, i);
    if s.pcs[i].ReopenGate? {
      DrainToFill(s, i);
    } else {
      DrainKept(s, i);
    }
  }

  lemma StepInv(s: State, i: nat)
    requires Inv(s) && i < |s.pcs| && !Blocked(s, i)
    ensures Inv(Step(s, i))
  {
    hide *;
    if !s.full {
      FillStep(s, i);
    } else if !s.released {
      ClosingStep(s, i);
    } else {
      DrainStep(s, i);
    }
  }

  /** Every reachable state, whatever the number of threads and the schedule. */
  lemma {:induction false} Reachable(n: nat, schedule: seq<nat>)
    requires n >= 2 && forall k :: 0 <= k < |schedule| ==> schedule[k] < n
    ensures Inv(Run(n, schedule))
  {
    if schedule == [] {
      InitInv(n);
    } else {
      var rest, i := schedule[..|schedule| - 1], schedule[|schedule| - 1];
      Reachable(n, rest);
      if !Blocked(Run(n, rest), i) {
        StepInv(Run(n, rest), i);
      }
    }
  }

  // ---- what the invariant says ----

  /** No thread has left the barrier more often than any other thread has entered it: nobody leaves round k
      before all have entered round k. */
  lemma NobodyLeavesEarly(s: State, i: nat, j: nat)
    requires Inv(s) && i < |s.pcs| && j < |s.pcs|
    ensures s.left[i] <= s.entered[j]
  {
    hide Count, SacredHeld;
    if s.full && s.released {
      assert DrainThread(s, i) && DrainThread(s, j);
    } else if !s.full {
      assert FillThread(s, i) && FillThread(s, j);
    }
  }

  /** When the gate is opened for a new round the counter is 0, nobody is waiting any more, and the barrier is
      locked. */
  lemma NewRoundStartsFresh(s: State, i: nat)
    requires Inv(s) && i < |s.pcs| && s.pcs[i].ReopenGate?
    ensures s.count == 0 && s.barrier && s.full
    ensures forall j :: 0 <= j < |s.pcs| ==> !Waiting(s.pcs[j]) && !Arrived(s.pcs[j])
  {
    CountNone(s.pcs, Waiting);
    hide Count, SacredHeld;
    assert !FillThread(s, i);
    assert DrainThread(s, i);
    forall j | 0 <= j < |s.pcs| ensures !Waiting(s.pcs[j]) && !Arrived(s.pcs[j]) {
      assert DrainThread(s, j);
    }
  }

  /** The last thread reads the counter while others are counting down.  Whatever it reads, its trylock finds the
      barrier locked; only the first thread of the first round finds it open. */
  lemma RacyRereadHarmless(s: State, i: nat)
    requires Inv(s) && i < |s.pcs| && s.pcs[i].TryLock?
    ensures !s.pcs[i].lock ==> s.barrier
    ensures !s.barrier ==> s.round == 0 && s.count == 1
  {
    CountNone(s.pcs, Arrived);
    hide Count, SacredHeld;
    if s.full && s.released {
      assert DrainThread(s, i);
    } else if !s.full {
      assert FillThread(s, i);
    }
  }

  /** A mutex is unlocked only while it is locked. */
  lemma UnlocksAreLocked(s: State, i: nat)
    requires Inv(s) && i < |s.pcs|
    ensures s.pcs[i].UnlockGate? || s.pcs[i].ReopenGate? ==> s.gate
    ensures s.pcs[i].UnlockSacred? ==> s.sacred
    ensures s.pcs[i].OpenBarrier? || s.pcs[i].PassBarrier? ==> s.barrier
  {
    hide Count;
    assert InSacred(s.pcs[i]) ==> s.sacred;
    if s.full && s.released {
      assert DrainThread(s, i);
    } else if !s.full {
      assert FillThread(s, i);
    }
  }

  /** The counter is never touched by two threads at once: whoever has loaded it finds it unchanged. */
  lemma NoLostUpdate(s: State, i: nat)
    requires Inv(s) && i < |s.pcs|
    ensures s.pcs[i].StoreInc? || s.pcs[i].StoreDec? ==> s.pcs[i].v == s.count
  {
    hide Count, SacredHeld;
    if s.full && s.released {
      assert DrainThread(s, i);
    } else if !s.full {
      assert FillThread(s, i);
    }
  }

  /** Thread i is inside the barrier and can go on. */
  predicate CanGoOn(s: State, i: nat) {
    i < |s.pcs| && !s.pcs[i].Outside? && !Blocked(s, i)
  }

  /** No deadlock: while every thread is inside the barrier, one of them can go on. */
  lemma NoDeadlock(s: State) returns (i: nat)
    requires Inv(s) && forall j :: 0 <= j < |s.pcs| ==> !s.pcs[j].Outside?
    ensures CanGoOn(s, i)
  {
    hide Count;
    if !s.full && s.sacred {
      i := s.sacredBy;
      assert FillThread(s, i);
    } else if !s.full {
      i := FillGoesOn(s);
    } else if !s.released {
      i := s.last;
    } else {
      i := DrainGoesOn(s);
    }
  }

  lemma FillGoesOn(s: State) returns (i: nat)
    requires Inv(s) && !s.full && !s.sacred && forall j :: 0 <= j < |s.pcs| ==> !s.pcs[j].Outside?
    ensures CanGoOn(s, i)
  {
    CountAll(s.pcs, Arrived);
    if s.gate {
      i := s.gateBy;
    } else {
      i :| 0 <= i < |s.pcs| && !Arrived(s.pcs[i]);
      assert FillThread(s, i);
    }
  }

  lemma DrainGoesOn(s: State) returns (i: nat)
    requires Inv(s) && s.full && s.released
    ensures CanGoOn(s, i)
  {
    CountNone(s.pcs, Waiting);
    if s.barrier {
      i := s.leaver;
    } else {
      i :| 0 <= i < |s.pcs| && Waiting(s.pcs[i]);
      assert DrainThread(s, i);
    }
  }

  // ---- every round is completed ----

  function Rank(pc: PC): nat {
    match pc
    case Outside => 0
    case PassBarrier => 1
    case ReopenGate => 1
    case ResetCount => 2
    case CheckOne => 3
    case StoreDec(_) => 4
    case LoadDec => 5
    case LockBarrier => 6
    case UnlockSacred(_) => 7
    case TryLock(_) => 8
    case Reread(_) => 9
    case OpenBarrier => 10
    case RelockGate => 11
    case CheckLast => 12
    case StoreInc(_) => 13
    case LoadInc => 14
    case LockSacred => 15
    case UnlockGate => 16
    case LockGate => 17
  }

  /** A bound on the steps all threads can still take without entering again. */
  function Measure(pcs: seq<PC>): nat {
    if pcs == [] then 0 else Measure(pcs[..|pcs| - 1]) + Rank(pcs[|pcs| - 1])
  }

  lemma {:induction false} MeasureUpdate(pcs: seq<PC>, i: nat, pc: PC)
    requires i < |pcs| && Rank(pc) < Rank(pcs[i])
    ensures Measure(pcs[i := pc]) < Measure(pcs)
  {
    var k := |pcs| - 1;
    if i == k {
      assert pcs[i := pc][..k] == pcs[..k];
    } else {
      MeasureUpdate(pcs[..k], i, pc);
      assert pcs[i := pc][..k] == pcs[..k][i := pc];
    }
  }

  /** A run of steps that threads inside the barrier really take. */
  predicate Effective(s: State, steps: seq<nat>)
    requires Shaped(s)
    decreases |steps|
  {
    steps == [] || (CanGoOn(s, steps[0]) && Effective(Step(s, steps[0]), steps[1..]))
  }

  function After(s: State, steps: seq<nat>): (r: State)
    requires Shaped(s) && Effective(s, steps)
    ensures Shaped(r)
    decreases |steps|
  {
    if steps == [] then s else After(Step(s, steps[0]), steps[1..])
  }

  /** Nobody can go on: the threads inside are waiting for the others to enter, no round is half drained. */
  lemma Stuck(s: State)
    requires Inv(s) && forall i :: !CanGoOn(s, i)
    ensures !s.full
    ensures exists i :: 0 <= i < |s.pcs| && s.pcs[i].Outside?
    ensures forall i :: 0 <= i < |s.pcs| ==> s.pcs[i].Outside? || s.pcs[i].LockBarrier?
  {
    if forall j :: 0 <= j < |s.pcs| ==> !s.pcs[j].Outside? {
      var i := NoDeadlock(s);
    }
    if s.full && s.released {
      var i := DrainGoesOn(s);
    }
    hide Count;
    assert s.full && !s.released ==> CanGoOn(s, s.last);
    assert !CanGoOn(s, s.gateBy) && !CanGoOn(s, s.sacredBy);
    forall i | 0 <= i < |s.pcs| ensures s.pcs[i].Outside? || s.pcs[i].LockBarrier? {
      assert !CanGoOn(s, i) && FillThread(s, i);
    }
  }

  /** All threads have entered the round under way. */
  predicate AllEntered(s: State) {
    forall i :: 0 <= i < |s.entered| ==> s.entered[i] > s.round
  }

  /** However the threads inside are scheduled, they can take only so many steps; when they are stuck, a round
      that all threads had entered has been completed. */
  lemma {:induction false} RoundCompletes(s: State, steps: seq<nat>)
    requires Inv(s) && Effective(s, steps)
    ensures |steps| <= Measure(s.pcs)
    ensures Inv(After(s, steps)) && After(s, steps).round >= s.round
    ensures s.full && After(s, steps).round == s.round ==> After(s, steps).full
    ensures After(s, steps).entered == s.entered
    ensures AllEntered(s) && (forall i :: !CanGoOn(After(s, steps), i)) ==> After(s, steps).round > s.round
    decreases |steps|
  {
    if steps != [] {
      var i := steps[0];
      StepInv(s, i);
      RankDrops(s, i);
      RoundGoesOn(s, i);
      NobodyEnters(s, i);
      hide Inv, Step, CanGoOn, Measure;
      RoundCompletes(Step(s, i), steps[1..]);
    }
    hide Inv, Step, CanGoOn, Measure;
    if AllEntered(s) && forall i :: !CanGoOn(After(s, steps), i) {
      OutsideNotEntered(After(s, steps));
    }
  }

  lemma NobodyEnters(s: State, i: nat)
    requires Shaped(s) && CanGoOn(s, i)
    ensures Step(s, i).entered == s.entered
  {
  }

  /** If nobody can go on, some thread has not entered the round under way. */
  lemma OutsideNotEntered(s: State)
    requires Inv(s) && forall i :: !CanGoOn(s, i)
    ensures exists i :: 0 <= i < |s.entered| && s.entered[i] <= s.round
  {
    Stuck(s);
    var i :| 0 <= i < |s.pcs| && s.pcs[i].Outside?;
    hide Count, CanGoOn;
    assert FillThread(s, i);
    assert s.entered[i] == s.round;
  }

  /** All have entered the round under way once the last one has arrived, or if nobody is outside and nobody is still
      finishing the round before. */
  lemma EnteredIf(s: State)
    requires Inv(s)
    requires s.full || forall i :: 0 <= i < |s.pcs| ==> !s.pcs[i].Outside? && !Tail(s.pcs[i])
    ensures AllEntered(s)
  {
    hide Count;
    forall i | 0 <= i < |s.entered| ensures s.entered[i] > s.round {
      assert !s.full ==> FillThread(s, i);
      assert s.full && s.released ==> DrainThread(s, i);
    }
  }

  lemma RankDrops(s: State, i: nat)
    requires Shaped(s) && CanGoOn(s, i)
    ensures Measure(Step(s, i).pcs) < Measure(s.pcs)
  {
    assert Rank(Next(s, s.pcs[i])) < Rank(s.pcs[i]);
    MeasureUpdate(s.pcs, i, Next(s, s.pcs[i]));
  }

  lemma RoundGoesOn(s: State, i: nat)
    requires Inv(s) && i < |s.pcs|
    ensures s.full ==> Step(s, i).full || Step(s, i).round == s.round + 1
    ensures Step(s, i).round >= s.round
  {
    hide Count, SacredHeld;
    if s.full && s.released {
      assert DrainThread(s, i);
    }
  }
}
