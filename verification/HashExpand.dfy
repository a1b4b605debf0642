/**
 Doubling the number of buckets (HASH_EXPAND_BUCKETS): every element moves from its old chain to the front of
 its new one.
 */
module HashExpand {
  import opened HashElements
  import opened HashBuckets

  const BKT_CAPACITY_THRESH: nat := 10

  /** The buckets of a table: the heads of their chains, their counts, and their expansion multipliers. */
  datatype Buckets = Buckets(heads: array<Element?>, counts: array<nat>, mults: array<nat>)

  /** Every element of A is in the chain its hash value selects, and no chain has others. */
  ghost predicate Placed(chains: seq<seq<Element>>, A: set<Element>) {
    && |chains| > 0
    && (forall j :: 0 <= j < |chains| ==> InBucket(chains[j], j, |chains|, A))
    && (forall e :: e in A ==> e in chains[e.hashv % |chains|])
  }

  /** The chains are linked, and counted. */
  ghost predicate Linked(b: Buckets, chains: seq<seq<Element>>, A: set<Element>)
    reads A`hhNext, A`hhPrev, b.heads, b.counts
  {
    && |chains| == b.heads.Length == b.counts.Length == b.mults.Length
    && (forall j, i :: 0 <= j < |chains| && 0 <= i < |chains[j]| ==> chains[j][i] in A)
    && (forall j :: 0 <= j < |chains| ==> Chain(b.heads[j], chains[j]) && b.counts[j] == |chains[j]|)
  }

  ghost predicate InBucket(c: seq<Element>, j: nat, n: nat, A: set<Element>)
    requires n > 0
  {
    forall i :: 0 <= i < |c| ==> c[i] in A && c[i].hashv % n == j
  }

  /** The elements beyond the ideal length of their chains. */
  ghost function Excess(chains: seq<seq<Element>>, ideal: nat): nat {
    if chains == [] then 0
    else Excess(chains[..|chains| - 1], ideal) + Over(|chains[|chains| - 1]|, ideal)
  }

  /** Their places. */
  ghost function Beyond(chains: seq<seq<Element>>, ideal: nat): set<(nat, nat)> {
    set j: nat, i: nat | j < |chains| && ideal <= i < |chains[j]| :: (j, i)
  }

  lemma {:induction false} ExcessIs(chains: seq<seq<Element>>, ideal: nat)
    ensures Excess(chains, ideal) == |Beyond(chains, ideal)|
  {
    if chains == [] {
      assert Beyond(chains, ideal) == {};
    } else {
      var k := |chains| - 1;
      var init, row := chains[..k], BeyondIn(k, |chains[k]|, ideal);
      ExcessIs(init, ideal);
      BeyondCount(k, |chains[k]|, ideal);
      assert Beyond(chains, ideal) == Beyond(init, ideal) + row;
      assert Beyond(init, ideal) !! row;
    }
  }

  ghost function BeyondIn(j: nat, n: nat, ideal: nat): set<(nat, nat)> {
    set i: nat | ideal <= i < n :: (j, i)
  }

  lemma {:induction false} BeyondCount(j: nat, n: nat, ideal: nat)
    ensures |BeyondIn(j, n, ideal)| == Over(n, ideal)
  {
    if n <= ideal {
      assert BeyondIn(j, n, ideal) == {};
    } else {
      BeyondCount(j, n - 1, ideal);
      assert BeyondIn(j, n, ideal) == BeyondIn(j, n - 1, ideal) + {(j, n - 1)};
    }
  }

  function Over(n: nat, ideal: nat): nat {
    if n > ideal then n - ideal else 0
  }

  /** How often an element has been added beyond a multiple of the ideal length: the multiplier of a chain of
      n elements that have been added one by one. */
  function Multiplier(n: nat, ideal: nat): (m: nat) {
    if n == 0 then 0 else
      var m := Multiplier(n - 1, ideal);
      if n > ideal && n > m * ideal then m + 1 else m
  }

  /** In closed form: none up to the ideal length, one for one element more, and for longer chains the ideal lengths
      they take up; with ideal length one, one less than the elements. */
  lemma {:induction false} MultiplierIs(n: nat, ideal: nat)
    requires ideal > 0
    ensures n <= ideal ==> Multiplier(n, ideal) == 0
    ensures n == ideal + 1 ==> Multiplier(n, ideal) == 1
    ensures n > ideal + 1 && ideal == 1 ==> Multiplier(n, ideal) == n - 1
    ensures n > ideal + 1 && ideal > 1 ==>
      var m := Multiplier(n, ideal); m > 1 && (m - 1) * ideal < n <= m * ideal
  {
    MultiplierNext(n, ideal);
    hide Multiplier;
    if n > 0 {
      MultiplierIs(n - 1, ideal);
      var m := Multiplier(n - 1, ideal);
      assert (m + 1) * ideal == m * ideal + ideal;
      if n <= ideal + 2 {
        assert 0 * ideal == 0 && 1 * ideal == ideal && 2 * ideal == ideal + ideal;
      }
    }
  }

  lemma MultiplierNext(n: nat, ideal: nat)
    ensures n == 0 ==> Multiplier(n, ideal) == 0
    ensures n > 0 ==>
      var m := Multiplier(n - 1, ideal); Multiplier(n, ideal) == if n > ideal && n > m * ideal then m + 1 else m
  {
  }

  /** The length at which a chain of n elements, as it was after the last doubling, asks for the next one: for ideal
      lengths below the capacity that is longer than it is. */
  function NextLimit(n: nat, ideal: nat): nat {
    (Multiplier(n, ideal) + 1) * BKT_CAPACITY_THRESH
  }

  lemma NextLimitIs(n: nat, ideal: nat)
    requires ideal > 0
    ensures n <= ideal ==> NextLimit(n, ideal) == BKT_CAPACITY_THRESH
    ensures n == ideal + 1 ==> NextLimit(n, ideal) == 2 * BKT_CAPACITY_THRESH
    ensures n > ideal + 1 && ideal == 1 ==> NextLimit(n, ideal) == n * BKT_CAPACITY_THRESH
    ensures ideal < BKT_CAPACITY_THRESH ==> NextLimit(n, ideal) > n
  {
    MultiplierIs(n, ideal);
    var m := Multiplier(n, ideal);
    if n > ideal + 1 && ideal > 1 && ideal < BKT_CAPACITY_THRESH {
      assert m * BKT_CAPACITY_THRESH >= m * ideal by {
        assert m * (BKT_CAPACITY_THRESH - ideal) >= 0;
      }
    }
  }

  /** The multipliers are those of chains of these lengths. */
  ghost predicate Grown(b: Buckets, grown: seq<nat>, ideal: nat)
    reads b.mults
  {
    |grown| == b.mults.Length && forall j :: 0 <= j < |grown| ==> b.mults[j] == Multiplier(grown[j], ideal)
  }

  function Lengths(chains: seq<seq<Element>>): (r: seq<nat>)
    ensures |r| == |chains| && forall j :: 0 <= j < |chains| ==> r[j] == |chains[j]|
  {
    seq(|chains|, j requires 0 <= j < |chains| => |chains[j]|)
  }

  lemma MultipliedGrown(b: Buckets, chains: seq<seq<Element>>, ideal: nat)
    requires Multiplied(b, chains, ideal)
    ensures Grown(b, Lengths(chains), ideal)
  {
    hide Multiplier;
  }

  ghost predicate Multiplied(b: Buckets, chains: seq<seq<Element>>, ideal: nat)
    reads b.mults
  {
    |chains| == b.mults.Length && forall j :: 0 <= j < |chains| ==> b.mults[j] == Multiplier(|chains[j]|, ideal)
  }

  lemma {:induction false} ExcessUpdate(chains: seq<seq<Element>>, j: nat, c: seq<Element>, ideal: nat)
    requires j < |chains|
    ensures Excess(chains[j := c], ideal) == Excess(chains, ideal) - Over(|chains[j]|, ideal) + Over(|c|, ideal)
    ensures Excess(chains, ideal) >= Over(|chains[j]|, ideal)
  {
    var k := |chains| - 1;
    if j == k {
      assert chains[j := c][..k] == chains[..k];
    } else {
      ExcessUpdate(chains[..k], j, c, ideal);
      assert chains[j := c][..k] == chains[..k][j := c];
    }
  }

  lemma {:induction false} NoExcess(chains: seq<seq<Element>>, ideal: nat)
    requires forall j :: 0 <= j < |chains| ==> chains[j] == []
    ensures Excess(chains, ideal) == 0
  {
    if chains != [] {
      NoExcess(chains[..|chains| - 1], ideal);
    }
  }

  lemma BucketsApart(chains: seq<seq<Element>>, A: set<Element>, j: nat)
    requires Placed(chains, A) && j < |chains|
    ensures forall k :: 0 <= k < |chains| && k != j ==> Disjoint(chains[k], chains[j])
  {
    forall k, i | 0 <= k < |chains| && k != j && 0 <= i < |chains[k]| ensures chains[k][i] !in chains[j] {
      assert InBucket(chains[k], k, |chains|, A) && InBucket(chains[j], j, |chains|, A);
    }
  }

  lemma PlacedMore(chains: seq<seq<Element>>, A: set<Element>, e: Element)
    requires Placed(chains, A)
    ensures var j := e.hashv % |chains|; Placed(chains[j := [e] + chains[j]], A + {e})
  {
    var n, j := |chains|, e.hashv % |chains|;
    var r := chains[j := [e] + chains[j]];
    forall k | 0 <= k < n ensures InBucket(r[k], k, n, A + {e}) {
      assert InBucket(chains[k], k, n, A);
    }
  }

  lemma NotPlaced(chains: seq<seq<Element>>, A: set<Element>, e: Element)
    requires Placed(chains, A) && e !in A
    ensures forall k :: 0 <= k < |chains| ==> e !in chains[k]
  {
    forall k | 0 <= k < |chains| ensures e !in chains[k] {
      assert InBucket(chains[k], k, |chains|, A);
    }
  }

  /** e is put to the front of chain j; the other chains stay as they are. */
  method LinkFirst(b: Buckets, e: Element, j: nat, ghost chains: seq<seq<Element>>, ghost A: set<Element>)
    requires Linked(b, chains, A) && j < |chains|
    requires forall k :: 0 <= k < |chains| ==> e !in chains[k]
    requires forall k :: 0 <= k < |chains| && k != j ==> Disjoint(chains[k], chains[j])
    modifies b.heads, b.counts, e`hhNext, e`hhPrev, A`hhPrev
    ensures Linked(b, chains[j := [e] + chains[j]], A + {e})
    ensures b.counts[j] == old(b.counts[j]) + 1
  {
    b.counts[j] := b.counts[j] + 1;
    var h := AddToBucket(b.heads[j], e, chains[j]);
    b.heads[j] := h;
  }

  /** One element goes to the front of its bucket. */
  method MoveElement(b: Buckets, thh: Element, ideal: nat, nonideal: nat, ghost chains: seq<seq<Element>>,
                     ghost A: set<Element>)
    returns (nonideal': nat, ghost chains': seq<seq<Element>>)
    requires Placed(chains, A) && Linked(b, chains, A) && thh !in A && nonideal == Excess(chains, ideal)
    requires b.counts != b.mults && Multiplied(b, chains, ideal) && |chains| > 0
    modifies b.heads, b.counts, b.mults, thh`hhNext, thh`hhPrev, A`hhPrev
    ensures Placed(chains', A + {thh}) && Linked(b, chains', A + {thh}) && Multiplied(b, chains', ideal)
    ensures nonideal' == Excess(chains', ideal) && |chains'| == |chains|
  {
    hide Excess, Placed, Disjoint, Multiplied;
    var j := thh.hashv % b.heads.Length;
    nonideal' := nonideal;
    BucketsApart(chains, A, j);
    NotPlaced(chains, A, thh);
    PlacedMore(chains, A, thh);
    ghost var c := [thh] + chains[j];
    ExcessUpdate(chains, j, c, ideal);
    LinkFirst(b, thh, j, chains, A);
    chains' := chains[j := c];
    LinkedCount(b, chains', A + {thh}, j);
    if b.counts[j] > ideal {
      nonideal' := nonideal' + 1;
    }
    Multiply(b, j, ideal, chains, c);
  }

  lemma SomeBuckets(chains: seq<seq<Element>>, A: set<Element>)
    requires Placed(chains, A)
    ensures |chains| > 0
  {
  }

  lemma LinkedCount(b: Buckets, chains: seq<seq<Element>>, A: set<Element>, j: nat)
    requires Linked(b, chains, A) && j < |chains|
    ensures |chains| == b.counts.Length && b.counts[j] == |chains[j]|
  {
  }

  /** The multiplier of the bucket that has grown. */
  method Multiply(b: Buckets, j: nat, ideal: nat, ghost chains: seq<seq<Element>>, ghost c: seq<Element>)
    requires Multiplied(b, chains, ideal) && j < |chains| == b.counts.Length && b.counts != b.mults
    requires b.counts[j] == |c| == |chains[j]| + 1
    modifies b.mults
    ensures Multiplied(b, chains[j := c], ideal)
  {
    if b.counts[j] > ideal && b.counts[j] > b.mults[j] * ideal {
      b.mults[j] := b.mults[j] + 1;
    }
  }

  // ---- removing an element ----

  lemma PlacedLess(chains: seq<seq<Element>>, A: set<Element>, j: nat, k: nat)
    requires Placed(chains, A) && j < |chains| && k < |chains[j]| && NoDup(chains[j])
    ensures Placed(chains[j := RemovedAt(chains[j], k)], A - {chains[j][k]})
  {
    var n, e, c := |chains|, chains[j][k], RemovedAt(chains[j], k);
    var r, B := chains[j := c], A - {chains[j][k]};
    RemovedElements(chains[j], k);
    hide RemovedAt, NoDup;
    NotElsewhere(chains, A, j, k);
    forall i | 0 <= i < n ensures InBucket(r[i], i, n, B) {
      assert InBucket(chains[i], i, n, A);
      assert forall m :: 0 <= m < |r[i]| ==> r[i][m] in r[i];
    }
    forall x | x in B ensures x in r[x.hashv % n] {
      assert x in chains[x.hashv % n];
    }
  }

  lemma NotElsewhere(chains: seq<seq<Element>>, A: set<Element>, j: nat, k: nat)
    requires Placed(chains, A) && j < |chains| && k < |chains[j]|
    ensures forall i :: 0 <= i < |chains| && i != j ==> chains[j][k] !in chains[i]
    ensures forall x :: x in chains[j] ==> x in A && x.hashv % |chains| == j
  {
    assert InBucket(chains[j], j, |chains|, A);
    forall i | 0 <= i < |chains| && i != j ensures chains[j][k] !in chains[i] {
      assert InBucket(chains[i], i, |chains|, A);
    }
  }

  lemma RemovedElements(c: seq<Element>, k: nat)
    requires k < |c| && NoDup(c)
    ensures forall x :: x in RemovedAt(c, k) <==> x in c && x != c[k]
    ensures NoDup(RemovedAt(c, k))
  {
    var r := RemovedAt(c, k);
    assert forall i :: 0 <= i < |r| ==> r[i] == c[if i < k then i else i + 1];
    forall x | x in c && x != c[k] ensures x in r {
      var i :| 0 <= i < |c| && c[i] == x;
      assert r[if i < k then i else i - 1] == x;
    }
  }

  /** e is taken out of chain j; the other chains stay as they are. */
  method Unlink(b: Buckets, e: Element, j: nat, ghost k: nat, ghost chains: seq<seq<Element>>, ghost A: set<Element>)
    requires Linked(b, chains, A) && j < |chains| && k < |chains[j]| && chains[j][k] == e
    requires forall i :: 0 <= i < |chains| && i != j ==> Disjoint(chains[i], chains[j]) && e !in chains[i]
    modifies b.heads, b.counts, A`hhNext, A`hhPrev
    ensures Linked(b, chains[j := RemovedAt(chains[j], k)], A - {e})
  {
    RemovedElements(chains[j], k);
    b.counts[j] := b.counts[j] - 1;
    var h := DelInBucket(b.heads[j], e, chains[j], k);
    b.heads[j] := h;
    ghost var r := chains[j := RemovedAt(chains[j], k)];
    forall i, m | 0 <= i < |r| && 0 <= m < |r[i]| ensures r[i][m] in A - {e} {
      assert r[i][m] in r[i];
    }
  }

  // ---- the old chains, as far as they have not been moved ----

  /** Still linked forward. */
  ghost predicate Ahead(h: Element?, r: seq<Element>)
    reads r`hhNext
  {
    && h == First(r)
    && forall i {:trigger r[i].hhNext} :: 0 <= i < |r| ==> r[i].hhNext == if i < |r| - 1 then r[i + 1] else null
  }

  /** M is what has been moved when buckets below i and the first p elements of bucket i are done. */
  ghost predicate Moved(M: set<Element>, old0: seq<seq<Element>>, A: set<Element>, i: nat, p: nat)
    requires i < |old0| ==> p <= |old0[i]|
  {
    && M <= A
    && (i >= |old0| ==> M == A)
    && (i < |old0| ==> forall e :: e in A ==> (e in M <==> e.hashv % |old0| < i || e in old0[i][..p]))
  }

  lemma NothingMoved(old0: seq<seq<Element>>, A: set<Element>)
    requires |old0| > 0
    ensures Moved({}, old0, A, 0, 0)
  {
  }

  lemma MoveOne(M: set<Element>, old0: seq<seq<Element>>, A: set<Element>, i: nat, p: nat)
    requires Placed(old0, A) && i < |old0| && p < |old0[i]| && NoDup(old0[i]) && Moved(M, old0, A, i, p)
    ensures old0[i][p] in A && old0[i][p] !in M && Moved(M + {old0[i][p]}, old0, A, i, p + 1)
  {
    var e := old0[i][p];
    assert InBucket(old0[i], i, |old0|, A);
    assert old0[i][..p + 1] == old0[i][..p] + [e];
  }

  lemma BucketMoved(M: set<Element>, old0: seq<seq<Element>>, A: set<Element>, i: nat)
    requires Placed(old0, A) && i < |old0| && Moved(M, old0, A, i, |old0[i]|)
    ensures Moved(M, old0, A, i + 1, 0)
  {
    assert old0[i][..|old0[i]|] == old0[i];
    forall e | e in A ensures e in M <==> e.hashv % |old0| < i + 1 {
      assert InBucket(old0[i], i, |old0|, A);
      assert e.hashv % |old0| == i ==> e in old0[i];
    }
  }

  lemma ChainsAhead(b: Buckets, chains: seq<seq<Element>>, A: set<Element>)
    requires Linked(b, chains, A)
    ensures forall k :: 0 <= k < |chains| ==> Ahead(b.heads[k], chains[k]) && NoDup(chains[k])
  {
  }

  /** All elements of one old bucket. */
  method MoveBucket(h: Element?, b: Buckets, ideal: nat, nonideal: nat, ghost i: nat, ghost old0: seq<seq<Element>>,
                    ghost A: set<Element>, ghost chains: seq<seq<Element>>, ghost M: set<Element>)
    returns (nonideal': nat, ghost chains': seq<seq<Element>>, ghost M': set<Element>)
    requires Placed(old0, A) && i < |old0| && NoDup(old0[i]) && Ahead(h, old0[i]) && Moved(M, old0, A, i, 0)
    requires Placed(chains, M) && Linked(b, chains, M) && nonideal == Excess(chains, ideal) && b.counts != b.mults
    requires Multiplied(b, chains, ideal)
    modifies b.heads, b.counts, b.mults, A`hhPrev, old0[i]`hhNext
    ensures Multiplied(b, chains', ideal)
    ensures Placed(chains', M') && Linked(b, chains', M') && nonideal' == Excess(chains', ideal)
    ensures |chains'| == |chains|
    ensures Moved(M', old0, A, i + 1, 0)
  {
    nonideal', chains', M' := nonideal, chains, M;
    var thh := h;
    ghost var p := 0;
    hide Placed, Linked, Excess, Moved, Multiplied;
    while thh != null
      invariant 0 <= p <= |old0[i]| && Ahead(thh, old0[i][p..])
      invariant Moved(M', old0, A, i, p)
      invariant Placed(chains', M') && Linked(b, chains', M') && nonideal' == Excess(chains', ideal)
      invariant |chains'| == |chains|
      invariant Multiplied(b, chains', ideal)
      decreases |old0[i]| - p
    {
      var nxt := thh.hhNext;
      SomeBuckets(chains', M');
      MoveOne(M', old0, A, i, p);
      MovedWithin(M', old0, A, i, p);
      nonideal', chains' := MoveElement(b, thh, ideal, nonideal', chains', M');
      M' := M' + {thh};
      thh := nxt;
      p := p + 1;
    }
    BucketMoved(M', old0, A, i);
  }

  lemma MovedWithin(M: set<Element>, old0: seq<seq<Element>>, A: set<Element>, i: nat, p: nat)
    requires (i < |old0| ==> p <= |old0[i]|) && Moved(M, old0, A, i, p)
    ensures M <= A
  {
  }

  method NewBuckets(n: nat) returns (b: Buckets)
    ensures fresh(b.heads) && fresh(b.counts) && fresh(b.mults) && b.counts != b.mults
    ensures b.heads.Length == b.counts.Length == b.mults.Length == n
    ensures forall j :: 0 <= j < n ==> b.heads[j] == null && b.counts[j] == 0 && b.mults[j] == 0
  {
    var heads := new Element?[n](_ => null);
    var counts := new nat[n](_ => 0);
    var mults := new nat[n](_ => 0);
    b := Buckets(heads, counts, mults);
  }

  /** All buckets: the elements move to twice as many new ones. */
  method Rehash(heads: array<Element?>, ideal: nat, ghost old0: seq<seq<Element>>, ghost A: set<Element>)
    returns (b: Buckets, nonideal: nat, ghost chains: seq<seq<Element>>)
    requires Placed(old0, A) && |old0| == heads.Length
    requires forall k :: 0 <= k < |old0| ==> Ahead(heads[k], old0[k]) && NoDup(old0[k])
    modifies A`hhNext, A`hhPrev
    ensures fresh(b.heads) && fresh(b.counts) && fresh(b.mults) && b.counts != b.mults
    ensures |chains| == 2 * |old0| && Placed(chains, A) && Linked(b, chains, A)
    ensures nonideal == Excess(chains, ideal) && Multiplied(b, chains, ideal)
  {
    var n := 2 * heads.Length;
    b := NewBuckets(n);
    nonideal := 0;
    chains := seq(n, _ => []);
    ghost var M: set<Element> := {};
    NothingMoved(old0, A);
    NoExcess(chains, ideal);
    assert Placed(chains, M) && Linked(b, chains, M) && Multiplied(b, chains, ideal);
    hide Placed, Linked, Excess, Moved, NoDup, Ahead, Multiplied;
    for i := 0 to heads.Length
      invariant forall k :: i <= k < |old0| ==> Ahead(heads[k], old0[k])
      invariant Moved(M, old0, A, i, 0)
      invariant Placed(chains, M) && Linked(b, chains, M) && nonideal == Excess(chains, ideal) && |chains| == n
      invariant Multiplied(b, chains, ideal)
    {
      nonideal, chains, M := RehashBucket(heads, i, b, ideal, nonideal, old0, A, chains, M);
    }
    AllMoved(M, old0, A);
  }

  /** The next bucket; those behind it stay linked. */
  method RehashBucket(heads: array<Element?>, i: nat, b: Buckets, ideal: nat, nonideal: nat,
                      ghost old0: seq<seq<Element>>,
                      ghost A: set<Element>, ghost chains: seq<seq<Element>>, ghost M: set<Element>)
    returns (nonideal': nat, ghost chains': seq<seq<Element>>, ghost M': set<Element>)
    requires Placed(old0, A) && i < |old0| == heads.Length && NoDup(old0[i]) && b.heads != heads && b.counts != b.mults
    requires forall k :: i <= k < |old0| ==> Ahead(heads[k], old0[k])
    requires Moved(M, old0, A, i, 0)
    requires Placed(chains, M) && Linked(b, chains, M) && nonideal == Excess(chains, ideal)
    requires Multiplied(b, chains, ideal)
    modifies b.heads, b.counts, b.mults, A`hhPrev, A`hhNext
    ensures Multiplied(b, chains', ideal)
    ensures forall k :: i < k < |old0| ==> Ahead(heads[k], old0[k])
    ensures Moved(M', old0, A, i + 1, 0)
    ensures Placed(chains', M') && Linked(b, chains', M') && nonideal' == Excess(chains', ideal)
    ensures |chains'| == |chains|
  {
    BucketsApart(old0, A, i);
    WithinAll(old0, A, i);
    hide Placed, Linked, Excess, Moved, NoDup, Ahead, Multiplied;
    nonideal', chains', M' := MoveBucket(heads[i], b, ideal, nonideal, i, old0, A, chains, M);
  }

  lemma WithinAll(old0: seq<seq<Element>>, A: set<Element>, i: nat)
    requires Placed(old0, A) && i < |old0|
    ensures forall e :: e in old0[i] ==> e in A
  {
    assert InBucket(old0[i], i, |old0|, A);
  }

  lemma AllMoved(M: set<Element>, old0: seq<seq<Element>>, A: set<Element>)
    requires Moved(M, old0, A, |old0|, 0)
    ensures M == A
  {
  }
}
