/**
 One set of a set-associative cache: a queue of addresses, the least recently used one first
 (GetPosWithinSet, UPDATE_LRU_QUEUE and what the access functions do with them).

 The lowest bit of an entry says that the block has been written without being fetched; an entry 0 is empty.
 */
module CacheSets {

  /** The address in an entry, without the invalid bit. */
  function Contents(v: nat): nat {
    v - v % 2
  }

  predicate Invalid(v: nat) {
    v % 2 == 1
  }

  /** The last position of address a, or -1. */
  function Pos(s: seq<nat>, a: nat): (p: int)
    ensures -1 <= p < |s|
    ensures p >= 0 ==> Contents(s[p]) == a
    ensures forall i :: p < i < |s| ==> Contents(s[i]) != a
  {
    if s == [] then -1
    else if Contents(s[|s| - 1]) == a then |s| - 1
    else Pos(s[..|s| - 1], a)
  }

  /** The entry at p is removed, and v is entered as the most recently used one. */
  function Touch(s: seq<nat>, p: nat, v: nat): (r: seq<nat>)
    requires p < |s|
    ensures |r| == |s|
  {
    s[..p] + s[p + 1..] + [v]
  }

  /** What a miss does: fetch the block, enter it as invalid, or leave the cache alone. */
  datatype Policy = Fetch | WriteValidate | WriteAround

  predicate Hit(s: seq<nat>, a: nat) {
    var p := Pos(s, a);
    p >= 0 && !Invalid(s[p])
  }

  /** The block was found, but marked as invalid. */
  predicate WasInvalid(s: seq<nat>, a: nat) {
    var p := Pos(s, a);
    p >= 0 && Invalid(s[p])
  }

  function Access(s: seq<nat>, policy: Policy, a: nat): (r: seq<nat>)
    requires |s| > 0
    ensures |r| == |s|
  {
    var p := Pos(s, a);
    if Hit(s, a) then Touch(s, p, s[p])
    else
      var victim := if WasInvalid(s, a) then p else 0;
      match policy
      case Fetch => Touch(s, victim, a)
      case WriteValidate => Touch(s, victim, a + 1 - a % 2)
      case WriteAround => s
  }

  // ---- what an access leaves, for every policy ----

  /** The entry that an access puts last, and the one it takes out for it. */
  lemma AccessTouches(s: seq<nat>, policy: Policy, a: nat)
    requires |s| > 0 && a % 2 == 0
    ensures var v := if Pos(s, a) >= 0 then Pos(s, a) else 0;
            var e := if Hit(s, a) || policy == Fetch then a else a + 1;
            && Access(s, policy, a) == (if !Hit(s, a) && policy == WriteAround then s else Touch(s, v, e))
            && Contents(e) == a && (Invalid(e) <==> e != a) && Touch(s, v, e)[|s| - 1] == e
            && (Hit(s, a) || WasInvalid(s, a) ==> Pos(s, a) >= 0)
  {
    var p := Pos(s, a);
    hide Pos;
    assert p >= 0 && !Invalid(s[p]) ==> s[p] == a;
  }

  /** A block that hit still does, and so does one that has been fetched; a write around leaves the set as it was, and
      write-validate leaves the block in the set, but invalid. */
  lemma AfterAccess(s: seq<nat>, policy: Policy, a: nat)
    requires |s| > 0 && a % 2 == 0
    ensures var r := Access(s, policy, a);
            && (Hit(s, a) || policy == Fetch ==> Hit(r, a))
            && (!Hit(s, a) && policy == WriteAround ==> r == s)
            && (!Hit(s, a) && policy == WriteValidate ==> !Hit(r, a) && WasInvalid(r, a))
  {
    hide Access, Touch, Hit, WasInvalid;
    AccessTouches(s, policy, a);
    if Hit(s, a) || policy != WriteAround {
      LastFound(Access(s, policy, a), a);
    }
  }

  lemma LastFound(s: seq<nat>, a: nat)
    requires s != []
    ensures Contents(s[|s| - 1]) == a ==> Pos(s, a) == |s| - 1
    ensures Contents(s[|s| - 1]) == a ==> (Hit(s, a) <==> !Invalid(s[|s| - 1])) && (WasInvalid(s, a) <==> !Hit(s, a))
  {
  }

  /** No block is in the set twice. */
  predicate OneEntry(s: seq<nat>) {
    forall i, j :: 0 <= i < j < |s| && Contents(s[i]) == Contents(s[j]) ==> Contents(s[i]) == 0
  }

  /** Whatever the policy: no block comes to be in the set twice, the block accessed becomes the newest one, unless a
      write goes around, and of the others only the oldest one can leave, and only for a block that was not there; those
      that stay keep their entries and their order. */
  lemma AccessOthers(s: seq<nat>, policy: Policy, a: nat)
    requires |s| > 0 && a % 2 == 0 && a > 0 && OneEntry(s)
    ensures var r := Access(s, policy, a);
            && OneEntry(r)
            && (Hit(s, a) || policy != WriteAround ==> Pos(r, a) == |r| - 1)
            && (forall b :: b > 0 && b != a ==>
                 (Pos(r, b) >= 0 <==>
                   Pos(s, b) >= 0 && !(Pos(s, b) == 0 && Pos(s, a) < 0 && policy != WriteAround)))
            && (forall b :: b > 0 && b != a && Pos(r, b) >= 0 ==> r[Pos(r, b)] == s[Pos(s, b)])
            && (forall b, c :: b > 0 && c > 0 && b != a && c != a && Pos(r, b) >= 0 && Pos(r, c) >= 0 ==>
                 (Pos(r, b) < Pos(r, c) <==> Pos(s, b) < Pos(s, c)))
  {
    hide Pos, Access, Touch, Hit, WasInvalid, OneEntry, Contents, Invalid;
    AccessTouches(s, policy, a);
    if Hit(s, a) || policy != WriteAround {
      var v := if Pos(s, a) >= 0 then Pos(s, a) else 0;
      forall b | b != a ensures Pos(s, b) < 0 || Pos(s, b) != Pos(s, a) {
        OtherPlace(s, a, b);
      }
      TouchOthers(s, v, if Hit(s, a) || policy == Fetch then a else a + 1, a);
      LastFound(Access(s, policy, a), a);
    }
  }

  lemma OtherPlace(s: seq<nat>, a: nat, b: nat)
    requires b != a
    ensures Pos(s, b) < 0 || Pos(s, b) != Pos(s, a)
  {
  }

  /** Taking out entry v, the only one a can have, and putting in e for block a. */
  lemma TouchOthers(s: seq<nat>, v: nat, e: nat, a: nat)
    requires v < |s| && OneEntry(s) && a > 0 && Contents(e) == a && (Pos(s, a) >= 0 ==> v == Pos(s, a))
    ensures var r := Touch(s, v, e);
            && OneEntry(r)
            && forall b :: b > 0 && b != a ==>
                 && Pos(r, b) == (if Pos(s, b) < 0 || Pos(s, b) == v then -1
                                  else if Pos(s, b) < v then Pos(s, b) else Pos(s, b) - 1)
                 && (Pos(r, b) >= 0 ==> r[Pos(r, b)] == s[Pos(s, b)])
  {
    hide Pos, Contents;
    var r := Touch(s, v, e);
    assert forall i :: 0 <= i < |r| ==> r[i] == if i < v then s[i] else if i < |r| - 1 then s[i + 1] else e;
    hide Touch;
    forall i | 0 <= i < |s| && i != v ensures Contents(s[i]) != a {
      if Contents(s[i]) == a {
        FoundAt(s, i, a);
      }
    }
    assert OneEntry(r);
    forall b | b > 0 && b != a
      ensures Pos(r, b) == if Pos(s, b) < 0 || Pos(s, b) == v then -1
                           else if Pos(s, b) < v then Pos(s, b) else Pos(s, b) - 1
    {
      hide OneEntry;
      var p := Pos(s, b);
      if p >= 0 && p != v {
        FoundAt(r, if p < v then p else p - 1, b);
      }
      var q := Pos(r, b);
      if q >= 0 {
        FoundAt(s, if q < v then q else q + 1, b);
      }
    }
  }

  lemma FoundAt(s: seq<nat>, i: nat, b: nat)
    requires i < |s| && OneEntry(s) && b > 0 && Contents(s[i]) == b
    ensures Pos(s, b) == i
  {
  }

  // ---- a trace of fetching accesses to one set ----

  function Zeros(k: nat): seq<nat> {
    seq(k, _ => 0)
  }

  /** The set after the trace, from an empty cache. */
  function SetAfter(trace: seq<nat>, k: nat): (s: seq<nat>)
    requires k > 0
    ensures |s| == k
  {
    if trace == [] then Zeros(k) else Access(SetAfter(trace[..|trace| - 1], k), Fetch, trace[|trace| - 1])
  }

  function Without(u: seq<nat>, a: nat): seq<nat> {
    var p := Pos(u, a);
    if p < 0 then u else u[..p] + u[p + 1..]
  }

  /** The distinct addresses of a trace in the order of their last use. */
  function Used(trace: seq<nat>): seq<nat> {
    if trace == [] then [] else
      var a := trace[|trace| - 1];
      Without(Used(trace[..|trace| - 1]), a) + [a]
  }

  /** The last k elements, with zeros in front if there are fewer. */
  function Newest(u: seq<nat>, k: nat): (s: seq<nat>)
    ensures |s| == k
  {
    if |u| >= k then u[|u| - k..] else Zeros(k - |u|) + u
  }

  /** Blocks: addresses with the invalid bit clear. */
  predicate Blocks(trace: seq<nat>) {
    forall i :: 0 <= i < |trace| ==> trace[i] % 2 == 0
  }

  predicate Distinct(u: seq<nat>) {
    forall i, j :: 0 <= i < j < |u| ==> u[i] != u[j]
  }

  lemma PosBlocks(u: seq<nat>, a: nat)
    requires Blocks(u)
    ensures Pos(u, a) >= 0 <==> a in u
    ensures Pos(u, a) >= 0 ==> u[Pos(u, a)] == a
  {
    if a in u {
      var i :| 0 <= i < |u| && u[i] == a;
      assert Contents(u[i]) == a;
    }
  }

  /** A block occurs at one position only. */
  lemma PosUnique(u: seq<nat>, a: nat, i: nat)
    requires Blocks(u) && Distinct(u) && i < |u| && u[i] == a
    ensures Pos(u, a) == i
  {
    PosBlocks(u, a);
  }

  lemma WithoutKeeps(u: seq<nat>, a: nat)
    requires Blocks(u) && Distinct(u)
    ensures Blocks(Without(u, a)) && Distinct(Without(u, a)) && a !in Without(u, a)
    ensures forall b :: b != a ==> (b in Without(u, a) <==> b in u)
  {
    PosBlocks(u, a);
    var p, w := Pos(u, a), Without(u, a);
    if p >= 0 {
      assert forall i :: 0 <= i < |w| ==> w[i] == u[if i < p then i else i + 1];
      forall b | b != a && b in u ensures b in w {
        var i :| 0 <= i < |u| && u[i] == b;
        assert w[if i < p then i else i - 1] == b;
      }
    }
  }

  lemma {:induction false} UsedDistinct(trace: seq<nat>)
    requires Blocks(trace)
    ensures Blocks(Used(trace)) && Distinct(Used(trace))
    ensures forall b :: b in Used(trace) <==> b in trace
  {
    hide Without, Blocks, Distinct, Pos;
    if trace == [] {
      NoneDistinct();
    } else {
      var init, a := trace[..|trace| - 1], trace[|trace| - 1];
      LastBlock(trace);
      UsedDistinct(init);
      WithoutAdd(Used(init), a);
      WithoutKeeps(Used(init), a);
      forall b ensures b in Used(trace) <==> b in trace {
        assert b in Used(trace) <==> b in Without(Used(init), a) || b == a;
      }
    }
  }

  lemma NoneDistinct()
    ensures Blocks([]) && Distinct([])
  {
  }

  lemma LastBlock(trace: seq<nat>)
    requires Blocks(trace) && trace != []
    ensures Blocks(trace[..|trace| - 1]) && trace[|trace| - 1] % 2 == 0
    ensures forall b :: b in trace <==> b in trace[..|trace| - 1] || b == trace[|trace| - 1]
  {
    assert trace == trace[..|trace| - 1] + [trace[|trace| - 1]];
  }

  lemma NewestAt(u: seq<nat>, k: nat)
    ensures forall i {:trigger Newest(u, k)[i]} ::
              0 <= i < k ==> Newest(u, k)[i] == if i + |u| >= k then u[i + |u| - k] else 0
  {
  }

  /** The set, as a window on the order of last use; block 0 is also found in a place not used yet. */
  lemma PosNewest(u: seq<nat>, k: nat, a: nat)
    ensures Pos(Newest(u, k), a) ==
      if Pos(u, a) >= 0 && Pos(u, a) >= |u| - k then Pos(u, a) - |u| + k
      else if a == 0 && |u| < k then k - |u| - 1
      else -1
  {
    NewestAt(u, k);
    var s, q := Newest(u, k), Pos(u, a);
    hide Newest;
    forall i | 0 <= i < k
      ensures Contents(s[i]) == a <==> if i + |u| >= k then Contents(u[i + |u| - k]) == a else a == 0
    {
    }
    if 0 <= q && q >= |u| - k {
      assert Contents(s[q - |u| + k]) == a;
    } else if a == 0 && |u| < k {
      assert Contents(s[k - |u| - 1]) == a;
    }
    var p := Pos(s, a);
    if p >= 0 && p + |u| >= k {
      assert Contents(u[p + |u| - k]) == a;
    }
  }

  lemma TouchNewest(u: seq<nat>, k: nat, a: nat)
    requires Blocks(u) && Distinct(u) && k > 0 && a % 2 == 0
    ensures Access(Newest(u, k), Fetch, a) == Newest(Without(u, a) + [a], k)
    ensures Hit(Newest(u, k), a) <==> (Pos(u, a) >= 0 && Pos(u, a) >= |u| - k) || (a == 0 && |u| < k)
  {
    hide *;
    PosNewest(u, k, a);
    PosBlocks(u, a);
    var s, q, v := Newest(u, k), Pos(u, a), Without(u, a);
    WithoutAt(u, a);
    if 0 <= q && q >= |u| - k {
      WindowAt(u, k, q - |u| + k);
      TouchFound(s, a, q - |u| + k);
      WindowTouch(u, v, k, q, a);
    } else if a == 0 && |u| < k {
      WindowAt(u, k, k - |u| - 1);
      TouchFound(s, a, k - |u| - 1);
      WindowFill(u, k);
    } else {
      TouchNew(s, a);
      WindowShift(u, v, k, q, a);
    }
  }

  lemma WithoutAt(u: seq<nat>, a: nat)
    ensures Without(u, a) == if Pos(u, a) < 0 then u else u[..Pos(u, a)] + u[Pos(u, a) + 1..]
  {
    hide Pos;
  }

  lemma WindowAt(u: seq<nat>, k: nat, i: nat)
    requires i < k
    ensures Newest(u, k)[i] == if i + |u| >= k then u[i + |u| - k] else 0
  {
  }

  lemma TouchFound(s: seq<nat>, a: nat, p: nat)
    requires p < |s| && Pos(s, a) == p && s[p] == a && a % 2 == 0
    ensures Hit(s, a) && Access(s, Fetch, a) == Touch(s, p, a)
  {
    hide Pos, Touch;
  }

  lemma TouchNew(s: seq<nat>, a: nat)
    requires |s| > 0 && Pos(s, a) == -1
    ensures !Hit(s, a) && Access(s, Fetch, a) == Touch(s, 0, a)
  {
    hide Pos, Touch;
  }

  /** An access to block 0 takes one of the places not used yet. */
  lemma WindowFill(u: seq<nat>, k: nat)
    requires |u| < k
    ensures Touch(Newest(u, k), k - |u| - 1, 0) == Newest(u + [0], k)
  {
    hide Newest;
    var p := k - |u| - 1;
    var r, w := Touch(Newest(u, k), p, 0), Newest(u + [0], k);
    forall i | 0 <= i < k ensures r[i] == w[i] {
      WindowAt(u + [0], k, i);
      if i < k - 1 {
        WindowAt(u, k, if i < p then i else i + 1);
      }
    }
  }

  /** Moving an element of the window to its end. */
  lemma WindowTouch(u: seq<nat>, v: seq<nat>, k: nat, q: nat, a: nat)
    requires k > 0 && q < |u| && q >= |u| - k && v == u[..q] + u[q + 1..]
    ensures Touch(Newest(u, k), q - |u| + k, a) == Newest(v + [a], k)
  {
    hide Newest;
    var p := q - |u| + k;
    var r, w := Touch(Newest(u, k), p, a), Newest(v + [a], k);
    forall i | 0 <= i < k ensures r[i] == w[i] {
      WindowAt(v + [a], k, i);
      if i < k - 1 {
        WindowAt(u, k, if i < p then i else i + 1);
      }
    }
  }

  /** A new element at the end of the window: the first one falls out. */
  lemma WindowShift(u: seq<nat>, v: seq<nat>, k: nat, q: int, a: nat)
    requires k > 0 && -1 <= q < |u| && (q >= 0 ==> q < |u| - k)
    requires v == if q < 0 then u else u[..q] + u[q + 1..]
    ensures Touch(Newest(u, k), 0, a) == Newest(v + [a], k)
  {
    if q >= 0 {
      assert v[|v| - k..] == u[|u| - k..];
    }
    assert Newest(v, k) == Newest(u, k);
    hide Newest, Touch;
    WindowAppend(v, k, a);
  }

  lemma WindowAppend(u: seq<nat>, k: nat, a: nat)
    requires k > 0
    ensures Touch(Newest(u, k), 0, a) == Newest(u + [a], k)
  {
    hide Newest;
    var r, w := Touch(Newest(u, k), 0, a), Newest(u + [a], k);
    forall i | 0 <= i < k ensures r[i] == w[i] {
      WindowAt(u + [a], k, i);
      if i < k - 1 {
        WindowAt(u, k, i + 1);
      }
    }
  }

  /** After any trace the set holds the distinct blocks in the order of their last use, truncated to the
      associativity. */
  lemma {:induction false} SetIsNewest(trace: seq<nat>, k: nat)
    requires Blocks(trace) && k > 0
    ensures SetAfter(trace, k) == Newest(Used(trace), k)
  {
    if trace != [] {
      var init, a := trace[..|trace| - 1], trace[|trace| - 1];
      SetIsNewest(init, k);
      UsedDistinct(init);
      TouchNewest(Used(init), k, a);
    }
  }

  /** The other blocks used since the last use of a. */
  function Since(trace: seq<nat>, a: nat): set<nat> {
    if trace == [] || trace[|trace| - 1] == a then {}
    else Since(trace[..|trace| - 1], a) + {trace[|trace| - 1]}
  }

  lemma {:induction false} SinceIsSuffix(trace: seq<nat>, a: nat)
    requires Blocks(trace) && a in trace
    ensures var u := Used(trace); Pos(u, a) >= 0 && Since(trace, a) == Elements(u[Pos(u, a) + 1..])
  {
    hide Pos, Without, Elements, Distinct;
    UsedDistinct(trace);
    var init, b, u := trace[..|trace| - 1], trace[|trace| - 1], Used(trace);
    assert trace == init + [b];
    if b == a {
      PosUnique(u, a, |u| - 1);
      assert u[|u|..] == [];
      NoElements();
    } else {
      SinceIsSuffix(init, a);
      UsedDistinct(init);
      SuffixStep(Used(init), a, b);
    }
  }

  lemma NoElements()
    ensures Elements([]) == {}
  {
  }

  function Elements(u: seq<nat>): set<nat> {
    set x | x in u
  }

  /** How what follows a changes when b is used. */
  lemma SuffixStep(u: seq<nat>, a: nat, b: nat)
    requires Blocks(u) && Distinct(u) && a in u && a != b && b % 2 == 0
    ensures var w := Without(u, b) + [b];
            && Pos(u, a) >= 0 && Pos(w, a) >= 0
            && Elements(w[Pos(w, a) + 1..]) == Elements(u[Pos(u, a) + 1..]) + {b}
  {
    hide Pos, Blocks, Distinct, Without, Elements;
    PosBlocks(u, a);
    PosBlocks(u, b);
    WithoutAdd(u, b);
    var w, p, q := Without(u, b) + [b], Pos(u, a), Pos(u, b);
    var p' := if 0 <= q < p then p - 1 else p;
    assert w[p'] == a;
    PosUnique(w, a, p');
    SuffixElements(u, p, q, b);
  }

  lemma WithoutAdd(u: seq<nat>, b: nat)
    requires Blocks(u) && Distinct(u) && b % 2 == 0
    ensures var w := Without(u, b) + [b]; Blocks(w) && Distinct(w)
    ensures Without(u, b) == if Pos(u, b) < 0 then u else u[..Pos(u, b)] + u[Pos(u, b) + 1..]
  {
    WithoutKeeps(u, b);
    hide Without, Pos;
    var r := Without(u, b);
    assert forall i :: 0 <= i < |r| ==> r[i] in r;
  }

  lemma SuffixElements(u: seq<nat>, p: nat, q: int, b: nat)
    requires p < |u| && -1 <= q < |u| && q != p && (q >= 0 ==> u[q] == b)
    ensures var w := (if q < 0 then u else u[..q] + u[q + 1..]) + [b];
            var p' := if 0 <= q < p then p - 1 else p;
            Elements(w[p' + 1..]) == Elements(u[p + 1..]) + {b}
  {
    var w := (if q < 0 then u else u[..q] + u[q + 1..]) + [b];
    if q < 0 {
      assert w[p + 1..] == u[p + 1..] + [b];
    } else if q < p {
      assert w[p..] == u[p + 1..] + [b];
    } else {
      assert w[p + 1..] == u[p + 1..q] + u[q + 1..] + [b];
      assert u[p + 1..] == u[p + 1..q] + [b] + u[q + 1..];
    }
  }

  lemma {:induction false} ElementsCount(u: seq<nat>)
    requires Distinct(u)
    ensures |Elements(u)| == |u|
  {
    if u != [] {
      var init := u[..|u| - 1];
      ElementsCount(init);
      assert Elements(u) == Elements(init) + {u[|u| - 1]};
      assert u[|u| - 1] !in init;
    }
  }

  lemma SuffixCount(u: seq<nat>, p: nat)
    requires Distinct(u) && p <= |u|
    ensures |Elements(u[p..])| == |u| - p
  {
    ElementsCount(u[p..]);
  }

  /** An access hits exactly when the block has been used before and fewer other blocks than the set has places
      have been used since; block 0 hits also while a place has not been used yet. */
  lemma HitByDistance(trace: seq<nat>, k: nat, a: nat)
    requires Blocks(trace) && k > 0 && a % 2 == 0
    ensures Hit(SetAfter(trace, k), a) <==>
      (a in trace && |Since(trace, a)| < k) || (a == 0 && |Elements(trace)| < k)
  {
    SetIsNewest(trace, k);
    UsedDistinct(trace);
    var u := Used(trace);
    TouchNewest(u, k, a);
    PosBlocks(u, a);
    SameElements(u, trace);
    ElementsCount(u);
    hide Pos, Blocks, Distinct, Hit, Used, SetAfter, Newest, Elements, Since;
    if a in trace {
      SinceIsSuffix(trace, a);
      SuffixCount(u, Pos(u, a) + 1);
    }
  }

  lemma SameElements(u: seq<nat>, v: seq<nat>)
    requires forall b :: b in u <==> b in v
    ensures Elements(u) == Elements(v)
  {
  }

  /** Inclusion: with more places per set every access that hits still hits. */
  lemma Inclusion(trace: seq<nat>, k: nat, k': nat, a: nat)
    requires Blocks(trace) && 0 < k <= k' && a % 2 == 0
    ensures Hit(SetAfter(trace, k), a) ==> Hit(SetAfter(trace, k'), a)
  {
    HitByDistance(trace, k, a);
    HitByDistance(trace, k', a);
  }

  // ---- direct-mapped caches ----

  /** The direct-mapped functions look at one entry. */
  predicate DirectHit(v: nat, a: nat) {
    Contents(v) == a && !Invalid(v)
  }

  function DirectAccess(v: nat, policy: Policy, a: nat): nat {
    if DirectHit(v, a) then v else
      match policy
      case Fetch => a
      case WriteValidate => a + 1 - a % 2
      case WriteAround => v
  }

  /** They do what the associative ones do with associativity 1, for every policy; only the invalidations are
      counted differently: also when the invalid entry is that of another block. */
  lemma DirectIsAssociative(v: nat, policy: Policy, a: nat)
    ensures Hit([v], a) <==> DirectHit(v, a)
    ensures Access([v], policy, a) == [DirectAccess(v, policy, a)]
    ensures WasInvalid([v], a) <==> Invalid(v) && Contents(v) == a
  {
    assert [v][..0] == [];
    assert Pos([v], a) == if Contents(v) == a then 0 else -1;
  }

  // ---- what goes wrong outside the assumptions ----

  /** Cache lines of one byte: the lowest bit of an odd address is taken for the invalid bit, and no odd address
      ever hits. */
  lemma OddAddressNeverHits(s: seq<nat>, a: nat)
    requires a % 2 == 1
    ensures !Hit(s, a)
  {
  }

  /** Block 0 is found in an empty cache, since an empty entry looks like it. */
  lemma BlockZeroHitsEmpty(k: nat)
    requires k > 0
    ensures Hit(Zeros(k), 0)
  {
    assert Contents(Zeros(k)[k - 1]) == 0;
  }
}
