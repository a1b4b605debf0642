/**
 One level of the simulated cache: all sets in one flat array (InitializeOneCacheLevel, the direct-mapped and
 the associative access functions).
 */
module CacheLevels {
  import opened CacheSets
  import Generators

  lemma LineBounds(line: nat, nr: nat, k: nat)
    requires line < nr
    ensures 0 <= line * k && line * k + k <= nr * k
  {
    Generators.MulMonotone(line + 1, nr, k);
    Generators.MulMonotone(0, line, k);
  }

  /** Different lines do not overlap. */
  lemma LinesApart(line: nat, other: nat, k: nat)
    requires line != other
    ensures line * k + k <= other * k || other * k + k <= line * k
  {
    if line < other {
      LineBounds(line, other, k);
    } else {
      LineBounds(other, line, k);
    }
  }

  method ShiftQueue(data: array<nat>, pElm0: nat, k: nat, removepos: nat, newvalue: nat)
    requires removepos < k && pElm0 + k <= data.Length
    modifies data
    ensures data[pElm0..pElm0 + k] == Touch(old(data[pElm0..pElm0 + k]), removepos, newvalue)
    ensures forall i :: 0 <= i < data.Length && !(pElm0 <= i < pElm0 + k) ==> data[i] == old(data[i])
  {
    ghost var set0 := data[pElm0..pElm0 + k];
    var pos := removepos;
    while pos < k - 1
      invariant removepos <= pos < k
      invariant forall i :: pElm0 + removepos <= i < pElm0 + pos ==> data[i] == old(data[i + 1])
      invariant forall i :: 0 <= i < data.Length && !(pElm0 + removepos <= i < pElm0 + pos) ==> data[i] == old(data[i])
    {
      data[pElm0 + pos] := data[pElm0 + pos + 1];
      pos := pos + 1;
    }
    data[pElm0 + pos] := newvalue;
    forall i | 0 <= i < k ensures data[pElm0 + i] == Touch(set0, removepos, newvalue)[i] {
    }
    assert data[pElm0..pElm0 + k] == Touch(set0, removepos, newvalue);
  }

  lemma SameSegment(was: seq<nat>, now: seq<nat>, p: nat, k: nat, o: nat)
    requires |was| == |now| && o + k <= |was| && (p + k <= o || o + k <= p)
    requires forall i :: 0 <= i < |now| && !(p <= i < p + k) ==> now[i] == was[i]
    ensures now[o..o + k] == was[o..o + k]
  {
  }

  /** The cases the access functions distinguish. */
  lemma AccessCases(s: seq<nat>, policy: Policy, a: nat)
    requires |s| > 0
    ensures var p, inv := Pos(s, a), WasInvalid(s, a);
            && (Hit(s, a) <==> p >= 0 && !inv) && (inv ==> p >= 0)
            && Access(s, policy, a) ==
                 if p >= 0 && !inv then Touch(s, p, s[p])
                 else if policy == WriteAround then s
                 else Touch(s, if inv then p else 0, if policy == Fetch then a else a + 1 - a % 2)
  {
    hide Pos, Touch;
  }

  class CacheLevel {
    const cachelinesize: nat
    const nrCachelines: nat
    const associativity: nat
    const data: array<nat>

    /** The sizes have been checked on initialisation; the cache starts empty. */
    constructor (cachelinesize: nat, nrCachelines: nat, associativity: nat)
      requires cachelinesize > 0 && nrCachelines > 0 && associativity > 0
      ensures Valid() && fresh(data)
      ensures this.cachelinesize == cachelinesize && this.nrCachelines == nrCachelines
      ensures this.associativity == associativity
      ensures forall line :: 0 <= line < nrCachelines ==> Set(line) == Zeros(associativity)
    {
      this.cachelinesize, this.nrCachelines, this.associativity := cachelinesize, nrCachelines, associativity;
      data := new nat[nrCachelines * associativity](_ => 0);
      new;
      forall line | 0 <= line < nrCachelines ensures Set(line) == Zeros(associativity) {
        LineBounds(line, nrCachelines, associativity);
      }
    }

    predicate Valid() {
      cachelinesize > 0 && nrCachelines > 0 && associativity > 0 && data.Length == nrCachelines * associativity
    }

    function Set(line: nat): (s: seq<nat>)
      requires Valid() && line < nrCachelines
      reads data
      ensures |s| == associativity
    {
      LineBounds(line, nrCachelines, associativity);
      data[line * associativity..line * associativity + associativity]
    }

    /** GET_ALIGNEDADDR. */
    function AlignedAddr(address: nat): (a: nat)
      requires Valid()
    {
      address - address % cachelinesize
    }

    /** GET_CACHELINE. */
    function Cacheline(address: nat): (line: nat)
      requires Valid()
      ensures line < nrCachelines
    {
      (address / cachelinesize) % nrCachelines
    }

    method GetPosWithinSet(line: nat, alignedAddr: nat) returns (pos: int, wasInvalid: bool)
      requires Valid() && line < nrCachelines
      ensures pos == Pos(Set(line), alignedAddr)
      ensures wasInvalid <==> WasInvalid(Set(line), alignedAddr)
    {
      LineBounds(line, nrCachelines, associativity);
      ghost var s := Set(line);
      var pElm0 := line * associativity;
      pos := associativity - 1;
      while pos >= 0 && Contents(data[pElm0 + pos]) != alignedAddr
        invariant -1 <= pos < associativity
        invariant forall i :: pos < i < associativity ==> Contents(s[i]) != alignedAddr
      {
        pos := pos - 1;
      }
      wasInvalid := pos >= 0 && Invalid(data[pElm0 + pos]);
      assert pos >= 0 ==> Contents(s[pos]) == alignedAddr;
    }

    /** UPDATE_LRU_QUEUE: the entries behind removepos move up, the new value goes to the end. */
    method UpdateLruQueue(line: nat, removepos: nat, newvalue: nat)
      requires Valid() && line < nrCachelines && removepos < associativity
      modifies data
      ensures Set(line) == Touch(old(Set(line)), removepos, newvalue)
      ensures forall other :: 0 <= other < nrCachelines && other != line ==> Set(other) == old(Set(other))
    {
      LineBounds(line, nrCachelines, associativity);
      var pElm0 := line * associativity;
      ghost var was := data[..];
      ShiftQueue(data, pElm0, associativity, removepos, newvalue);
      forall other | 0 <= other < nrCachelines && other != line ensures Set(other) == old(Set(other)) {
        LinesApart(line, other, associativity);
        LineBounds(other, nrCachelines, associativity);
        SameSegment(was, data[..], pElm0, associativity, other * associativity);
      }
    }

    method Entry(line: nat, pos: nat) returns (v: nat)
      requires Valid() && line < nrCachelines && pos < associativity
      ensures v == Set(line)[pos]
    {
      LineBounds(line, nrCachelines, associativity);
      v := data[line * associativity + pos];
    }

    /** The associative access functions; what follows on a miss is left to the caller. */
    method AssociativeAccess(policy: Policy, elemaddress: nat) returns (hit: bool, wasInvalid: bool)
      requires Valid()
      modifies data
      ensures var a, line := AlignedAddr(elemaddress), Cacheline(elemaddress);
              && hit == old(Hit(Set(line), a)) && wasInvalid == old(WasInvalid(Set(line), a))
              && Set(line) == Access(old(Set(line)), policy, a)
              && forall other :: 0 <= other < nrCachelines && other != line ==> Set(other) == old(Set(other))
    {
      var a, line := AlignedAddr(elemaddress), Cacheline(elemaddress);
      ghost var s := Set(line);
      AccessCases(s, policy, a);
      hide Pos, Hit, WasInvalid, Access, Touch;
      var pos;
      pos, wasInvalid := GetPosWithinSet(line, a);
      hit := pos >= 0 && !wasInvalid;
      if hit {
        var newvalue := Entry(line, pos);
        UpdateLruQueue(line, pos, newvalue);
      } else if policy != WriteAround {
        UpdateLruQueue(line, if wasInvalid then pos else 0, if policy == Fetch then a else a + 1 - a % 2);
      }
    }

    /** The direct-mapped access functions. */
    method DirectMappedAccess(policy: Policy, elemaddress: nat) returns (hit: bool, wasInvalid: bool)
      requires Valid() && associativity == 1
      modifies data
      ensures var a, line := AlignedAddr(elemaddress), Cacheline(elemaddress);
              && hit == old(Hit(Set(line), a)) && wasInvalid == old(Invalid(Set(line)[0]))
              && Set(line) == Access(old(Set(line)), policy, a)
              && forall other :: 0 <= other < nrCachelines && other != line ==> Set(other) == old(Set(other))
    {
      var a, line := AlignedAddr(elemaddress), Cacheline(elemaddress);
      ghost var s := Set(line);
      OneEntryEach();
      DirectIsAssociative(data[line], policy, a);
      wasInvalid := Invalid(data[line]);
      hit := Contents(data[line]) == a && !wasInvalid;
      if !hit && policy == Fetch {
        data[line] := a;
      } else if !hit && policy == WriteValidate {
        data[line] := a + 1 - a % 2;
      }
      OneEntryEach();
    }

    ghost function Sets(): (s: seq<seq<nat>>)
      requires Valid()
      reads data
      ensures |s| == nrCachelines && forall line :: 0 <= line < nrCachelines ==> s[line] == Set(line)
    {
      seq(nrCachelines, line requires 0 <= line < nrCachelines && Valid() reads data => Set(line))
    }

    /** The access function installed for the level: by associativity. */
    method Lookup(policy: Policy, elemaddress: nat) returns (hit: bool, wasInvalid: bool)
      requires Valid()
      modifies data
      ensures var a, line := AlignedAddr(elemaddress), Cacheline(elemaddress);
              && hit == Hit(old(Sets())[line], a)
              && Sets() == old(Sets())[line := Access(old(Sets())[line], policy, a)]
    {
      if associativity == 1 {
        hit, wasInvalid := DirectMappedAccess(policy, elemaddress);
      } else {
        hit, wasInvalid := AssociativeAccess(policy, elemaddress);
      }
    }

    lemma OneEntryEach()
      requires Valid() && associativity == 1
      ensures nrCachelines == data.Length && forall line :: 0 <= line < nrCachelines ==> Set(line) == [data[line]]
    {
      forall line | 0 <= line < nrCachelines ensures line * associativity == line {
      }
    }
  }
}
