/**
 The hash table: a finite map from keys to elements that remembers the order of insertion (HASH_FIND,
 HASH_ADD_KEYPTR_BYHASHVALUE, HASH_DELETE_HH, HASH_EXPAND_BUCKETS, HASH_SRT).
 */
module HashTables {
  import opened HashElements
  import opened HashBuckets
  import opened HashExpand
  import opened HashSort
  import opened MergeSort

  const INITIAL_NUM_BUCKETS: nat := 32

  ghost function Elems(app: seq<Element>): (A: set<Element>) {
    set e | e in app
  }

  ghost predicate UniqueKeys(app: seq<Element>) {
    forall i, j :: 0 <= i < j < |app| ==> app[i].item.key != app[j].item.key
  }

  ghost predicate Hashed(app: seq<Element>, hash: int -> nat) {
    forall i :: 0 <= i < |app| ==> app[i].hashv == hash(app[i].item.key)
  }

  /** The ceiling of n / b. */
  function CeilDiv(n: nat, b: nat): (q: nat)
    requires b > 0
    ensures n <= q * b < n + b
  {
    assert n == n / b * b + n % b && (n / b + 1) * b == n / b * b + b;
    n / b + if n % b != 0 then 1 else 0
  }

  class Table {
    const hash: int -> nat
    var head: Element?
    var tail: Element?
    var buckets: Buckets
    var numItems: nat
    var idealChainMaxlen: nat
    var nonidealItems: nat
    var ineffExpands: nat
    var noexpand: bool
    ghost var app: seq<Element>
    ghost var chains: seq<seq<Element>>
    ghost var grown: seq<nat>

    /** There is no table until the first element is added. */
    constructor (hash: int -> nat)
      ensures Valid() && app == [] && this.hash == hash
      ensures fresh(buckets.heads) && fresh(buckets.counts) && fresh(buckets.mults)
    {
      this.hash := hash;
      head, tail := null, null;
      numItems, idealChainMaxlen, nonidealItems, ineffExpands, noexpand := 0, 0, 0, 0, false;
      app, chains, grown := [], [], [];
      new;
      buckets := NewBuckets(0);
    }

    /** The list in application order, and the buckets. */
    ghost predicate Valid()
      reads this, app, buckets.heads, buckets.counts, buckets.mults
    {
      && AppList(head, tail, app) && numItems == |app| && UniqueKeys(app)
      && Hashed(app, hash)
      && (app != [] ==> Bucketed())
    }

    /** The chains, and the multipliers, which are those of the lengths the chains had after the last doubling. */
    ghost predicate Bucketed()
      reads this, app`hhNext, app`hhPrev, buckets.heads, buckets.counts, buckets.mults
    {
      && buckets.counts != buckets.mults && Placed(chains, Elems(app)) && Linked(buckets, chains, Elems(app))
      && Grown(buckets, grown, idealChainMaxlen)
    }

    /** The items in the order in which they were added, and those after the others that were sorted. */
    ghost function Contents(): seq<Item>
      reads this
    {
      Items(app)
    }

    /** The table, its buckets, and its elements. */
    ghost function Footprint(): set<object>
      reads this
    {
      {this, buckets.heads, buckets.counts, buckets.mults} + set o: object | o in app
    }

    /** HASH_MAKE_TABLE. */
    method MakeTable(e: Element)
      modifies this`tail, this`buckets, this`chains, this`grown, this`numItems, this`idealChainMaxlen,
               this`nonidealItems, this`ineffExpands, this`noexpand
      ensures Grown(buckets, grown, idealChainMaxlen)
      ensures tail == e && numItems == 0
      ensures Placed(chains, {}) && Linked(buckets, chains, {}) && buckets.counts != buckets.mults
      ensures fresh(buckets.heads) && fresh(buckets.counts) && fresh(buckets.mults)
    {
      tail := e;
      buckets := NewBuckets(INITIAL_NUM_BUCKETS);
      chains, grown := seq(INITIAL_NUM_BUCKETS, _ => []), seq(INITIAL_NUM_BUCKETS, _ => 0);
      numItems, idealChainMaxlen, nonidealItems, ineffExpands, noexpand := 0, 0, 0, 0, false;
    }

    /** What following the links leads to: lists that end. */
    ghost predicate Reaches(lists: seq<seq<Element>>, list: seq<Element>)
      reads this, buckets.heads, list`next
      reads set j, i | 0 <= j < |lists| && 0 <= i < |lists[j]| :: lists[j][i]
    {
      && |lists| == buckets.heads.Length == buckets.counts.Length && ListAhead(head, list)
      && forall j :: 0 <= j < |lists| ==> Ahead(buckets.heads[j], lists[j])
    }

    /** What HASH_FSCK checks: all links back, and all counts. */
    ghost predicate Consistent(lists: seq<seq<Element>>, list: seq<Element>)
      requires |lists| == buckets.counts.Length
      reads this, buckets.counts, list`prev
      reads set j, i | 0 <= j < |lists| && 0 <= i < |lists[j]| :: lists[j][i]
    {
      && (forall j :: 0 <= j < |lists| ==> LinkedBack(lists[j]) && buckets.counts[j] == |lists[j]|)
      && SumLengths(lists, |lists|) == numItems && ListBack(list) && |list| == numItems
    }

    /** HASH_FSCK: whatever the table, as long as its links lead to an end. */
    method Fsck(ghost lists: seq<seq<Element>>, ghost list: seq<Element>) returns (ok: bool)
      requires head != null ==> Reaches(lists, list)
      ensures ok <==> head == null || Consistent(lists, list)
    {
      ok := true;
      if head != null {
        var count := 0;
        for i := 0 to buckets.heads.Length
          invariant count == SumLengths(lists, i)
          invariant ok <==> forall j :: 0 <= j < i ==> LinkedBack(lists[j]) && buckets.counts[j] == |lists[j]|
        {
          var bktCount, linked := CheckChain(buckets.heads[i], lists[i]);
          ok := ok && linked && buckets.counts[i] == bktCount;
          count := count + bktCount;
        }
        ok := ok && count == numItems;
        var appCount, linked := CheckList(head, list);
        ok := ok && linked && appCount == numItems;
      }
    }

    /** Tables that have been built by the operations pass. */
    lemma ValidPasses()
      requires Valid() && head != null
      ensures Reaches(chains, app) && Consistent(chains, app)
    {
      hide Placed, UniqueKeys, Hashed, Elems, Grown;
      TableSizes(buckets, chains, Elems(app));
      ChainsAhead(buckets, chains, Elems(app));
      AllLengths(chains, Elems(app), |chains|);
      ElemsCount(app);
      ListNotEmpty(head, tail, app);
      ChainsBack(buckets, chains, Elems(app));
      ListBothWays(head, tail, app);
    }

    /** HASH_FIND: the element with the key, if there is one. */
    method Find(key: int) returns (out: Element?)
      requires Valid()
      ensures out != null ==> out in app && out.item.key == key
      ensures out == null ==> forall e :: e in app ==> e.item.key != key
    {
      out := null;
      if head != null {
        var hashval := hash(key);
        var bkt := hashval % buckets.heads.Length;
        out := FindInBucket(buckets.heads[bkt], key, hashval, chains[bkt]);
        FoundInBucket(chains, Elems(app), bkt);
      }
    }

    /** HASH_ADD: an element with a new key goes to the end of the list, and to the front of its bucket. */
    method Add(e: Element)
      requires Valid() && e !in app && e.hashv == hash(e.item.key)
      requires forall x :: x in app ==> x.item.key != e.item.key
      modifies this, app, e, buckets.heads, buckets.counts, buckets.mults
      ensures Valid() && app == old(app) + [e] && Contents() == old(Contents()) + [e.item]
      ensures fresh(Footprint() - old(Footprint()) - {e})
    {
      hide Placed, Linked, UniqueKeys, Hashed, Table.Valid, Items;
      ghost var was := app;
      ValidParts();
      if head == null {
        e.next, e.prev := null, null;
        MakeTable(e);
        NoElems();
        head := e;
      } else {
        AppendList(head, tail, e, app);
        tail := e;
      }
      AddToTable(e);
      AddedValid(was, e);
    }

    lemma ValidParts()
      requires Valid()
      ensures AppList(head, tail, app) && numItems == |app| && UniqueKeys(app) && Hashed(app, hash)
      ensures head != null ==> Bucketed() && tail != null
      ensures head == null ==> app == []
    {
      hide Placed, Linked, UniqueKeys, Hashed;
    }

    lemma AddedValid(was: seq<Element>, e: Element)
      requires UniqueKeys(was) && Hashed(was, hash) && app == was + [e] && e.hashv == hash(e.item.key)
      requires forall x :: x in was ==> x.item.key != e.item.key
      requires AppList(head, tail, app) && numItems == |app| && Bucketed()
      ensures Valid() && Contents() == Items(was) + [e.item]
    {
      hide Placed, Linked, AppList;
      ItemsConcat(was, [e]);
    }

    /** HASH_DELETE_HH: the element leaves both lists; with the last one the table goes away. */
    method Delete(e: Element, ghost i: nat)
      requires Valid() && i < |app| && app[i] == e
      modifies this`head, this`tail, this`numItems, this`app, this`chains, app, buckets.heads, buckets.counts
      ensures Valid() && app == RemovedAt(old(app), i) && Contents() == RemovedAt(old(Contents()), i)
      ensures Footprint() <= old(Footprint())
    {
      hide *;
      ghost var was := app;
      DeleteFacts(i);
      if e.prev == null && e.next == null {
        DeleteLast(i);
      } else {
        DeleteFromBoth(e, i);
        ValidAgain(was, i);
      }
    }

    lemma DeleteFacts(i: nat)
      requires Valid() && i < |app|
      ensures AppList(head, tail, app) && head != null && tail != null && Bucketed() && numItems == |app|
      ensures NoDup(app) && UniqueKeys(app) && Hashed(app, hash)
      ensures app[i].prev == null && app[i].next == null <==> |app| == 1
      ensures Items(RemovedAt(app, i)) == RemovedAt(Items(app), i) && Contents() == Items(app)
      ensures forall e :: e in app ==> e in Footprint()
      ensures {this, buckets.heads, buckets.counts, buckets.mults} <= Footprint()
    {
      hide AppList, Placed, Linked, UniqueKeys, Hashed;
      OnlyElement(head, tail, app, i);
      ElemsRemoved(app, i);
    }

    lemma ValidAgain(was: seq<Element>, i: nat)
      requires i < |was| && NoDup(was) && UniqueKeys(was) && Hashed(was, hash) && app == RemovedAt(was, i)
      requires AppList(head, tail, app) && numItems == |app| && Bucketed()
      ensures Valid() && Contents() == Items(app)
      ensures forall o :: o in Footprint() ==> o in {this, buckets.heads, buckets.counts, buckets.mults} || o in was
    {
      hide AppList, Placed, Linked, NoDup, Items;
      ElemsRemoved(was, i);
      HashedRemoved(was, hash, i);
      RemovedElements(was, i);
    }

    /** With the last element the table goes away. */
    method DeleteLast(ghost i: nat)
      requires i < |app| == 1
      modifies this`head, this`tail, this`numItems, this`app
      ensures Valid() && app == RemovedAt(old(app), i) && Contents() == Items(app) && Footprint() <= old(Footprint())
    {
      hide AppList, UniqueKeys, Hashed;
      head, tail, numItems := null, null, 0;
      app := RemovedAt(app, i);
      EmptyTable(hash);
    }

    method DeleteFromBoth(e: Element, ghost i: nat)
      requires AppList(head, tail, app) && head != null && tail != null && Bucketed() && numItems == |app|
      requires 1 < |app| && i < |app| && app[i] == e && NoDup(app) && UniqueKeys(app)
      modifies this`head, this`tail, this`numItems, this`app, this`chains, app, buckets.heads, buckets.counts
      ensures AppList(head, tail, app) && app == RemovedAt(old(app), i) && numItems == |app| && Bucketed()
    {
      hide AppList, NoDup, Placed, Linked, UniqueKeys;
      ghost var s := RemovedAt(app, i);
      DeleteFromList(e, i);
      assert AppList(head, tail, s);
      DeleteFromTable(e, i);
      assert AppList(head, tail, s);
    }

    method DeleteFromList(e: Element, ghost i: nat)
      requires AppList(head, tail, app) && head != null && tail != null && Bucketed() && 1 < |app| && i < |app|
      requires app[i] == e
      modifies this`head, this`tail, app`next, app`prev
      ensures AppList(head, tail, RemovedAt(app, i)) && Bucketed()
    {
      hide AppList, NoDup, Placed, Linked;
      ghost var A := Elems(app);
      head, tail := RemoveFromList(head, tail, e, app, i);
      assert Linked(buckets, chains, A);
    }

    method DeleteFromTable(e: Element, ghost i: nat)
      requires Bucketed() && i < |app| && app[i] == e && NoDup(app) && UniqueKeys(app) && numItems > 0
      modifies this`numItems, this`app, this`chains, app`hhNext, app`hhPrev, buckets.heads, buckets.counts
      ensures Bucketed() && app == RemovedAt(old(app), i) && numItems == old(numItems) - 1
    {
      TableSizes(buckets, chains, Elems(app));
      ElemsRemoved(app, i);
      var bkt := e.hashv % buckets.heads.Length;
      ghost var k := ChainIndex(chains, Elems(app), e);
      BucketsApart(chains, Elems(app), bkt);
      NotElsewhere(chains, Elems(app), bkt, k);
      ChainsAhead(buckets, chains, Elems(app));
      PlacedLess(chains, Elems(app), bkt, k);
      hide Placed, Linked, NoDup, UniqueKeys, Disjoint, RemovedAt;
      Unlink(buckets, e, bkt, k, chains, Elems(app));
      chains := chains[bkt := RemovedAt(chains[bkt], k)];
      app := RemovedAt(app, i);
      numItems := numItems - 1;
    }

    /** HASH_SRT. */
    method Srt(cmp: (Item, Item) -> int)
      requires Valid() && head != null
      modifies this`head, this`tail, this`app, app`next, app`prev
      ensures Valid() && multiset(app) == multiset(old(app)) && chains == old(chains) && buckets == old(buckets)
      ensures Contents() == Sort(old(Contents()), 1, Order(cmp))
    {
      hide Placed, Linked, UniqueKeys, Hashed, Sort, Items, AppList, Elems, NoDup;
      ListNotEmpty(head, tail, app);
      ghost var was := app;
      ghost var sorted := SortList(cmp);
      ListNotEmpty(head, tail, sorted);
      SameElems(was, sorted, hash);
      TakeOrder(sorted);
    }

    ghost method TakeOrder(sorted: seq<Element>)
      requires AppList(head, tail, sorted) && numItems == |sorted| && UniqueKeys(sorted) && Hashed(sorted, hash)
      requires Bucketed() && Elems(sorted) == Elems(app)
      modifies this`app
      ensures app == sorted && Valid()
    {
      hide Placed, Linked, UniqueKeys, Hashed, AppList, Elems;
      app := sorted;
    }

    method SortList(cmp: (Item, Item) -> int) returns (ghost sorted: seq<Element>)
      requires AppList(head, tail, app) && head != null && Bucketed()
      modifies this`head, this`tail, app`next, app`prev
      ensures AppList(head, tail, sorted) && multiset(sorted) == multiset(app) && Bucketed()
      ensures Items(sorted) == Sort(Items(app), 1, Order(cmp))
    {
      hide Placed, Linked, Sort, Items, AppList, Elems;
      ghost var A := Elems(app);
      assert Linked(buckets, chains, A);
      head, tail, sorted := HashSort.Srt(cmp, head, tail, app);
      assert Linked(buckets, chains, A);
    }

    /** HASH_ADD_TO_TABLE, with HASH_ADD_TO_BKT. */
    method AddToTable(e: Element)
      requires e !in app && buckets.counts != buckets.mults
      requires Placed(chains, Elems(app)) && Linked(buckets, chains, Elems(app))
      requires Grown(buckets, grown, idealChainMaxlen)
      modifies this`numItems, this`app, this`chains, this`grown, this`buckets, this`idealChainMaxlen,
               this`nonidealItems, this`ineffExpands, this`noexpand
      modifies e`hhNext, e`hhPrev, app`hhNext, app`hhPrev, buckets.heads, buckets.counts, buckets.mults
      ensures numItems == old(numItems) + 1 && app == old(app) + [e] && Bucketed()
      ensures buckets == old(buckets) || (fresh(buckets.heads) && fresh(buckets.counts) && fresh(buckets.mults))
      ensures |old(chains)| == |old(grown)| > 0
      ensures var n := |old(chains)|; var bkt := e.hashv % n;
              var limit := NextLimit(old(grown)[bkt], old(idealChainMaxlen));
              if |old(chains)[bkt]| + 1 >= limit && !old(noexpand) then
                |chains| == 2 * n && grown == Lengths(chains) && idealChainMaxlen == CeilDiv(numItems, 2 * n)
              else
                |chains| == n && grown == old(grown) && idealChainMaxlen == old(idealChainMaxlen)
    {
      TableSizes(buckets, chains, Elems(app));
      hide Placed, Linked, Excess, Elems;
      numItems := numItems + 1;
      var crowded := AddToBkt(e);
      if crowded && !noexpand {
        ExpandBuckets();
      }
    }

    /** The element goes to the front of its bucket; crowded when the bucket has reached its limit. */
    method AddToBkt(e: Element) returns (crowded: bool)
      requires e !in app && buckets.counts != buckets.mults
      requires Placed(chains, Elems(app)) && Linked(buckets, chains, Elems(app))
      requires Grown(buckets, grown, idealChainMaxlen)
      modifies this`app, this`chains, e`hhNext, e`hhPrev, app`hhPrev, buckets.heads, buckets.counts
      ensures app == old(app) + [e] && Bucketed() && |chains| == |old(chains)|
      ensures var bkt := e.hashv % |chains|;
              chains == old(chains)[bkt := [e] + old(chains)[bkt]] &&
              bkt < |grown| && crowded == (|chains[bkt]| >= NextLimit(grown[bkt], idealChainMaxlen))
    {
      TableSizes(buckets, chains, Elems(app));
      NotIn(app, e);
      var bkt := e.hashv % buckets.heads.Length;
      BucketsApart(chains, Elems(app), bkt);
      NotPlaced(chains, Elems(app), e);
      PlacedMore(chains, Elems(app), e);
      ghost var A := Elems(app);
      LinkFirst(buckets, e, bkt, chains, A);
      app, chains := app + [e], chains[bkt := [e] + chains[bkt]];
      BucketCount(buckets, chains, A + {e}, bkt);
      hide Placed, Linked, Elems, Disjoint;
      crowded := buckets.counts[bkt] >= (buckets.mults[bkt] + 1) * BKT_CAPACITY_THRESH;
    }

    method RehashAll()
      requires buckets.counts != buckets.mults && Placed(chains, Elems(app)) && Linked(buckets, chains, Elems(app))
      modifies this`chains, this`grown, this`buckets, this`nonidealItems, app`hhNext, app`hhPrev
      ensures grown == Lengths(chains)
      ensures Bucketed() && |chains| == 2 * |old(chains)| && nonidealItems == Excess(chains, idealChainMaxlen)
      ensures Multiplied(buckets, chains, idealChainMaxlen)
      ensures fresh(buckets.heads) && fresh(buckets.counts) && fresh(buckets.mults)
    {
      hide Placed, Linked, Excess, Ahead, NoDup, Chain, Multiplied;
      TableSizes(buckets, chains, Elems(app));
      ChainsAhead(buckets, chains, Elems(app));
      ghost var moved;
      buckets, nonidealItems, moved := Rehash(buckets.heads, idealChainMaxlen, chains, Elems(app));
      chains, grown := moved, Lengths(moved);
      MultipliedGrown(buckets, chains, idealChainMaxlen);
    }

    /** HASH_EXPAND_BUCKETS: the elements move to twice as many buckets; those that exceed the ideal length of
        their new chain are counted. */
    method ExpandBuckets()
      requires Bucketed()
      modifies this`chains, this`grown, this`buckets, this`idealChainMaxlen, this`nonidealItems, this`ineffExpands,
               this`noexpand
      modifies app`hhNext, app`hhPrev
      ensures grown == Lengths(chains)
      ensures Bucketed() && |chains| == 2 * |old(chains)|
      ensures idealChainMaxlen == CeilDiv(numItems, |chains|) && nonidealItems == Excess(chains, idealChainMaxlen)
      ensures Multiplied(buckets, chains, idealChainMaxlen)
      ensures ineffExpands == if nonidealItems > numItems / 2 then old(ineffExpands) + 1 else 0
      ensures noexpand == (old(noexpand) || ineffExpands > 1)
      ensures fresh(buckets.heads) && fresh(buckets.counts) && fresh(buckets.mults)
    {
      hide Placed, Linked, Excess, Ahead, NoDup, Chain, Multiplied;
      TableSizes(buckets, chains, Elems(app));
      hide Table.Bucketed;
      var n := 2 * buckets.heads.Length;
      idealChainMaxlen := numItems / n + if numItems % n != 0 then 1 else 0;
      assert idealChainMaxlen == CeilDiv(numItems, n);
      hide CeilDiv;
      RehashAll();
      assert |chains| == n;
      ineffExpands := if nonidealItems > numItems / 2 then ineffExpands + 1 else 0;
      if ineffExpands > 1 {
        noexpand := true;
      }
    }
  }

  lemma ElemsRemoved(app: seq<Element>, i: nat)
    requires NoDup(app) && i < |app| && UniqueKeys(app)
    ensures Elems(RemovedAt(app, i)) == Elems(app) - {app[i]} && UniqueKeys(RemovedAt(app, i))
    ensures Items(RemovedAt(app, i)) == RemovedAt(Items(app), i)
  {
    RemovedElements(app, i);
  }

  /** The same elements in another order: a list without repetitions keeps its keys unique. */
  lemma SameElems(s: seq<Element>, r: seq<Element>, hash: int -> nat)
    requires multiset(s) == multiset(r) && NoDup(r) && UniqueKeys(s) && Hashed(s, hash)
    ensures Elems(r) == Elems(s) && |r| == |s| && UniqueKeys(r) && Hashed(r, hash) && (r == [] <==> s == [])
  {
    assert |multiset(s)| == |s| && |multiset(r)| == |r|;
    forall e ensures e in r <==> e in s {
      assert e in multiset(r) <==> e in multiset(s);
    }
    forall i | 0 <= i < |r| ensures r[i].hashv == hash(r[i].item.key) {
      assert r[i] in s;
    }
    forall i, j | 0 <= i < j < |r| ensures r[i].item.key != r[j].item.key {
      assert r[i] in s && r[j] in s && r[i] != r[j];
    }
  }

  lemma HashedRemoved(app: seq<Element>, hash: int -> nat, i: nat)
    requires Hashed(app, hash) && i < |app|
    ensures Hashed(RemovedAt(app, i), hash)
    ensures |app| == 1 ==> RemovedAt(app, i) == []
  {
    var r := RemovedAt(app, i);
    assert forall k :: 0 <= k < |r| ==> r[k] == app[if k < i then k else k + 1];
  }

  lemma EmptyTable(hash: int -> nat)
    ensures AppList(null, null, []) && UniqueKeys([]) && Hashed([], hash)
  {
  }

  lemma OnlyElement(head: Element?, tail: Element?, app: seq<Element>, i: nat)
    requires AppList(head, tail, app) && i < |app|
    ensures app[i].prev == null && app[i].next == null <==> |app| == 1
    ensures head != null && tail != null && NoDup(app)
    ensures forall e :: e in RemovedAt(app, i) ==> e in app
  {
    assert app[i].prev == if i > 0 then app[i - 1] else null;
    assert app[i].next == if i < |app| - 1 then app[i + 1] else null;
  }

  lemma ListNotEmpty(head: Element?, tail: Element?, app: seq<Element>)
    requires AppList(head, tail, app)
    ensures NoDup(app) && (head != null <==> app != []) && (head != null <==> tail != null)
  {
  }

  lemma ChainIndex(chains: seq<seq<Element>>, A: set<Element>, e: Element) returns (k: nat)
    requires Placed(chains, A) && e in A
    ensures var j := e.hashv % |chains|; k < |chains[j]| && chains[j][k] == e
  {
    var j := e.hashv % |chains|;
    assert e in chains[j];
    k :| 0 <= k < |chains[j]| && chains[j][k] == e;
  }

  lemma TableSizes(b: Buckets, chains: seq<seq<Element>>, A: set<Element>)
    requires Placed(chains, A) && Linked(b, chains, A)
    ensures |chains| == b.heads.Length == b.counts.Length == b.mults.Length > 0
  {
  }

  lemma BucketCount(b: Buckets, chains: seq<seq<Element>>, A: set<Element>, j: nat)
    requires Linked(b, chains, A) && j < |chains|
    ensures |chains| == b.counts.Length == b.mults.Length && b.counts[j] == |chains[j]|
  {
  }

  lemma NotIn(app: seq<Element>, e: Element)
    requires e !in app
    ensures e !in Elems(app) && Elems(app + [e]) == Elems(app) + {e}
  {
  }

  lemma NoElems()
    ensures Elems([]) == {}
  {
  }

  function SumLengths(chains: seq<seq<Element>>, k: nat): nat
    requires k <= |chains|
  {
    if k == 0 then 0 else SumLengths(chains, k - 1) + |chains[k - 1]|
  }

  lemma {:induction false} ElemsCount(s: seq<Element>)
    requires NoDup(s)
    ensures |Elems(s)| == |s|
  {
    if s == [] {
      assert Elems(s) == {};
    } else {
      var init, e := s[..|s| - 1], s[|s| - 1];
      ElemsCount(init);
      assert s == init + [e];
      assert Elems(s) == Elems(init) + {e} && e !in Elems(init);
    }
  }

  ghost function Below(A: set<Element>, n: nat, k: nat): set<Element>
    requires n > 0
  {
    set e | e in A && e.hashv % n < k
  }

  /** The chains hold every element once. */
  lemma {:induction false} AllLengths(chains: seq<seq<Element>>, A: set<Element>, k: nat)
    requires Placed(chains, A) && k <= |chains| && forall j :: 0 <= j < |chains| ==> NoDup(chains[j])
    ensures SumLengths(chains, k) == |Below(A, |chains|, k)|
    ensures k == |chains| ==> SumLengths(chains, k) == |A|
  {
    hide Placed, NoDup, Elems, Below;
    AllBelow(chains, A);
    if k > 0 {
      AllLengths(chains, A, k - 1);
      NextBelow(chains, A, k - 1);
    }
  }

  lemma AllBelow(chains: seq<seq<Element>>, A: set<Element>)
    requires Placed(chains, A)
    ensures |chains| > 0 && Below(A, |chains|, 0) == {} && Below(A, |chains|, |chains|) == A
  {
  }

  lemma NextBelow(chains: seq<seq<Element>>, A: set<Element>, j: nat)
    requires Placed(chains, A) && j < |chains| && NoDup(chains[j])
    ensures |Below(A, |chains|, j + 1)| == |Below(A, |chains|, j)| + |chains[j]|
  {
    var n := |chains|;
    ElemsCount(chains[j]);
    FoundInBucket(chains, A, j);
    hide Placed, NoDup;
    assert Below(A, n, j + 1) == Below(A, n, j) + Elems(chains[j]);
    assert Below(A, n, j) !! Elems(chains[j]);
  }

  /** Every element of a chain links back to the one before. */
  ghost predicate LinkedBack(c: seq<Element>)
    reads c`hhPrev
  {
    LinkedBackTo(c, |c|)
  }

  ghost predicate LinkedBackTo(c: seq<Element>, k: nat)
    requires k <= |c|
    reads c`hhPrev
  {
    forall i {:trigger c[i].hhPrev} :: 0 <= i < k ==> c[i].hhPrev == if i > 0 then c[i - 1] else null
  }

  ghost predicate ListAhead(head: Element?, s: seq<Element>)
    reads s`next
  {
    && head == First(s)
    && forall i {:trigger s[i].next} :: 0 <= i < |s| ==> s[i].next == if i < |s| - 1 then s[i + 1] else null
  }

  ghost predicate ListBack(s: seq<Element>)
    reads s`prev
  {
    ListBackTo(s, |s|)
  }

  ghost predicate ListBackTo(s: seq<Element>, k: nat)
    requires k <= |s|
    reads s`prev
  {
    forall i {:trigger s[i].prev} :: 0 <= i < k ==> s[i].prev == if i > 0 then s[i - 1] else null
  }

  lemma ChainsBack(b: Buckets, chains: seq<seq<Element>>, A: set<Element>)
    requires Linked(b, chains, A)
    ensures forall j :: 0 <= j < |chains| ==> LinkedBack(chains[j]) && b.counts[j] == |chains[j]|
  {
  }

  lemma ListBothWays(head: Element?, tail: Element?, s: seq<Element>)
    requires AppList(head, tail, s)
    ensures ListAhead(head, s) && ListBack(s)
  {
  }

  /** Counts a chain, and checks its links back. */
  method CheckChain(h: Element?, ghost c: seq<Element>) returns (count: nat, linked: bool)
    requires Ahead(h, c)
    ensures count == |c| && (linked <==> LinkedBack(c))
  {
    count, linked := 0, true;
    var thh, prev: Element? := h, null;
    while thh != null
      invariant count <= |c| && thh == First(c[count..]) && prev == if count > 0 then c[count - 1] else null
      invariant linked <==> LinkedBackTo(c, count)
      decreases |c| - count
    {
      assert thh == c[count] && thh.hhPrev == c[count].hhPrev && thh.hhNext == c[count].hhNext;
      linked := linked && prev == thh.hhPrev;
      count := count + 1;
      prev := thh;
      thh := thh.hhNext;
    }
  }

  /** The same for the list in application order. */
  method CheckList(head: Element?, ghost s: seq<Element>) returns (count: nat, linked: bool)
    requires ListAhead(head, s)
    ensures count == |s| && (linked <==> ListBack(s))
  {
    count, linked := 0, true;
    var thh, prev: Element? := head, null;
    while thh != null
      invariant count <= |s| && thh == First(s[count..]) && prev == if count > 0 then s[count - 1] else null
      invariant linked <==> ListBackTo(s, count)
      decreases |s| - count
    {
      assert thh == s[count] && thh.prev == s[count].prev && thh.next == s[count].next;
      linked := linked && prev == thh.prev;
      count := count + 1;
      prev := thh;
      thh := thh.next;
    }
  }

  lemma FoundInBucket(chains: seq<seq<Element>>, A: set<Element>, j: nat)
    requires Placed(chains, A) && j < |chains|
    ensures forall e :: e in chains[j] ==> e in A
    ensures forall e :: e in A && e.hashv % |chains| == j ==> e in chains[j]
  {
    assert InBucket(chains[j], j, |chains|, A);
  }
}
