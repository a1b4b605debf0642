/**
 Bottom-up merge sort on sequences: what HASH_SRT does to the order of the elements.
 */
module MergeSort {

  ghost predicate Total<T(!new)>(le: (T, T) -> bool) {
    && (forall a, b :: le(a, b) || le(b, a))
    && (forall a, b, c :: le(a, b) && le(b, c) ==> le(a, c))
  }

  ghost predicate Sorted<T>(s: seq<T>, le: (T, T) -> bool) {
    forall i, j :: 0 <= i < j < |s| ==> le(s[i], s[j])
  }

  /** Of two equal elements the one of p comes first. */
  function Merge<T>(p: seq<T>, q: seq<T>, le: (T, T) -> bool): (r: seq<T>)
    ensures |r| == |p| + |q|
    decreases |p| + |q|
  {
    if p == [] then q
    else if q == [] then p
    else if le(p[0], q[0]) then [p[0]] + Merge(p[1..], q, le)
    else [q[0]] + Merge(p, q[1..], le)
  }

  function Cut(n: nat, size: nat): nat {
    if n < size then n else size
  }

  /** One pass: each two neighbouring runs of the given size are merged. */
  function Pass<T>(s: seq<T>, size: nat, le: (T, T) -> bool): (r: seq<T>)
    requires size > 0
    ensures |r| == |s|
    decreases |s|
  {
    if s == [] then [] else
      var i := Cut(|s|, size);
      var j := i + Cut(|s| - i, size);
      Merge(s[..i], s[i..j], le) + Pass(s[j..], size, le)
  }

  /** Passes with runs of doubled size, until a pass has made one merge at most. */
  function Sort<T>(s: seq<T>, size: nat, le: (T, T) -> bool): (r: seq<T>)
    requires size > 0
    ensures |r| == |s|
    decreases if |s| > 2 * size then |s| - 2 * size else 0
  {
    if |s| <= 2 * size then Pass(s, size, le) else Sort(Pass(s, size, le), 2 * size, le)
  }

  // ---- elements ----

  lemma {:induction false} MergeElements<T>(p: seq<T>, q: seq<T>, le: (T, T) -> bool)
    ensures multiset(Merge(p, q, le)) == multiset(p) + multiset(q)
    decreases |p| + |q|
  {
    if p != [] && q != [] {
      FirstElement(p);
      FirstElement(q);
      if le(p[0], q[0]) {
        MergeElements(p[1..], q, le);
      } else {
        MergeElements(p, q[1..], le);
      }
    }
  }

  lemma FirstElement<T>(s: seq<T>)
    requires s != []
    ensures multiset(s) == multiset([s[0]]) + multiset(s[1..])
  {
    assert s == [s[0]] + s[1..];
  }

  lemma {:induction false} PassElements<T>(s: seq<T>, size: nat, le: (T, T) -> bool)
    requires size > 0
    ensures multiset(Pass(s, size, le)) == multiset(s)
    decreases |s|
  {
    if s != [] {
      var i := Cut(|s|, size);
      var j := i + Cut(|s| - i, size);
      MergeElements(s[..i], s[i..j], le);
      PassElements(s[j..], size, le);
      ThreeParts(s, i, j);
      hide Merge, Cut;
    }
  }

  lemma ThreeParts<T>(s: seq<T>, i: nat, j: nat)
    requires i <= j <= |s|
    ensures s == s[..i] + s[i..j] + s[j..]
    ensures multiset(s) == multiset(s[..i]) + multiset(s[i..j]) + multiset(s[j..])
  {
    assert s == s[..i] + s[i..j] + s[j..];
  }

  lemma {:induction false} SortElements<T>(s: seq<T>, size: nat, le: (T, T) -> bool)
    requires size > 0
    ensures multiset(Sort(s, size, le)) == multiset(s)
    decreases if |s| > 2 * size then |s| - 2 * size else 0
  {
    PassElements(s, size, le);
    if |s| > 2 * size {
      SortElements(Pass(s, size, le), 2 * size, le);
    }
  }

  // ---- order ----

  lemma {:induction false} MergeSorted<T(!new)>(p: seq<T>, q: seq<T>, le: (T, T) -> bool)
    requires Total(le) && Sorted(p, le) && Sorted(q, le)
    ensures Sorted(Merge(p, q, le), le)
    decreases |p| + |q|
  {
    if p != [] && q != [] {
      var x, rest := if le(p[0], q[0]) then p[0] else q[0],
                     if le(p[0], q[0]) then Merge(p[1..], q, le) else Merge(p, q[1..], le);
      if le(p[0], q[0]) {
        MergeSorted(p[1..], q, le);
        MergeElements(p[1..], q, le);
      } else {
        MergeSorted(p, q[1..], le);
        MergeElements(p, q[1..], le);
      }
      LeastFirst(x, rest, p, q, le);
    }
  }

  /** x is at most everything that is left of p and q. */
  lemma LeastFirst<T(!new)>(x: T, rest: seq<T>, p: seq<T>, q: seq<T>, le: (T, T) -> bool)
    requires Total(le) && Sorted(p, le) && Sorted(q, le) && p != [] && q != [] && Sorted(rest, le)
    requires x == if le(p[0], q[0]) then p[0] else q[0]
    requires multiset(rest) == if le(p[0], q[0]) then multiset(p[1..]) + multiset(q) else multiset(p) + multiset(q[1..])
    ensures Sorted([x] + rest, le)
  {
    forall j | 0 <= j < |rest| ensures le(x, rest[j]) {
      assert rest[j] in multiset(rest);
      assert rest[j] in multiset(p) || rest[j] in multiset(q) by {
        assert p == [p[0]] + p[1..] && q == [q[0]] + q[1..];
      }
      if rest[j] in multiset(p) {
        var k :| 0 <= k < |p| && p[k] == rest[j];
        assert le(p[0], p[k]) || k == 0;
      } else {
        var k :| 0 <= k < |q| && q[k] == rest[j];
        assert le(q[0], q[k]) || k == 0;
      }
      assert le(x, x);
    }
  }

  /** Runs of the given size are sorted, one after the other. */
  ghost predicate Runs<T>(s: seq<T>, size: nat, le: (T, T) -> bool)
    requires size > 0
    decreases |s|
  {
    s == [] || (var i := Cut(|s|, size); Sorted(s[..i], le) && Runs(s[i..], size, le))
  }

  lemma {:induction false} SingleRuns<T>(s: seq<T>, le: (T, T) -> bool)
    ensures Runs(s, 1, le)
    decreases |s|
  {
    if s != [] {
      SingleRuns(s[1..], le);
    }
  }

  lemma FirstRun<T>(s: seq<T>, size: nat, le: (T, T) -> bool)
    requires size > 0 && Runs(s, size, le)
    ensures Sorted(s[..Cut(|s|, size)], le) && Runs(s[Cut(|s|, size)..], size, le)
  {
    hide Sorted;
    if s == [] {
      assert s[..0] == [];
      NoneSorted(le);
    }
  }

  lemma NoneSorted<T>(le: (T, T) -> bool)
    ensures Sorted([], le)
  {
  }

  lemma TwoRuns<T>(s: seq<T>, size: nat, le: (T, T) -> bool)
    requires size > 0 && Runs(s, size, le)
    ensures var i := Cut(|s|, size); var j := i + Cut(|s| - i, size);
            Sorted(s[..i], le) && Sorted(s[i..j], le) && Runs(s[j..], size, le)
  {
    hide Sorted, Runs;
    FirstRun(s, size, le);
    var i := Cut(|s|, size);
    var j, t := i + Cut(|s| - i, size), s[i..];
    FirstRun(t, size, le);
    assert t[..j - i] == s[i..j] && t[j - i..] == s[j..];
  }

  lemma RunsJoin<T>(m: seq<T>, rest: seq<T>, size: nat, le: (T, T) -> bool)
    requires size > 0 && m != [] && |m| <= size && (|m| < size ==> rest == []) && Sorted(m, le) && Runs(rest, size, le)
    ensures Runs(m + rest, size, le)
  {
    assert (m + rest)[..|m|] == m && (m + rest)[|m|..] == rest;
  }

  /** A pass merges runs into runs of twice the size. */
  lemma {:induction false} PassRuns<T(!new)>(s: seq<T>, size: nat, le: (T, T) -> bool)
    requires size > 0 && Total(le) && Runs(s, size, le)
    ensures Runs(Pass(s, size, le), 2 * size, le)
    decreases |s|
  {
    if s != [] {
      var i := Cut(|s|, size);
      var j := i + Cut(|s| - i, size);
      TwoRuns(s, size, le);
      MergeSorted(s[..i], s[i..j], le);
      PassRuns(s[j..], size, le);
      hide Merge, Sorted, Total;
      RunsJoin(Merge(s[..i], s[i..j], le), Pass(s[j..], size, le), 2 * size, le);
    }
  }

  /** The result is sorted. */
  lemma {:induction false} SortSorted<T(!new)>(s: seq<T>, size: nat, le: (T, T) -> bool)
    requires size > 0 && Total(le) && Runs(s, size, le)
    ensures Sorted(Sort(s, size, le), le)
    decreases if |s| > 2 * size then |s| - 2 * size else 0
  {
    PassRuns(s, size, le);
    var r := Pass(s, size, le);
    if |s| > 2 * size {
      SortSorted(r, 2 * size, le);
    } else {
      assert r[..|r|] == r;
    }
  }

  // ---- stability ----

  /** The elements that are neither before nor after k, in their order. */
  function Equals<T>(s: seq<T>, k: T, le: (T, T) -> bool): seq<T> {
    if s == [] then []
    else (if le(s[0], k) && le(k, s[0]) then [s[0]] else []) + Equals(s[1..], k, le)
  }

  lemma {:induction false} EqualsConcat<T>(a: seq<T>, b: seq<T>, k: T, le: (T, T) -> bool)
    ensures Equals(a + b, k, le) == Equals(a, k, le) + Equals(b, k, le)
  {
    hide Equals;
    if a == [] {
      NoneEqual(k, le);
      assert a + b == b;
    } else {
      EqualsConcat(a[1..], b, k, le);
      EqualsHead(a, k, le);
      EqualsHead(a + b, k, le);
      assert (a + b)[1..] == a[1..] + b;
    }
  }

  lemma EqualsFirst<T>(x: T, r: seq<T>, k: T, le: (T, T) -> bool)
    ensures Equals([x] + r, k, le) == (if le(x, k) && le(k, x) then [x] else []) + Equals(r, k, le)
  {
    assert ([x] + r)[1..] == r;
  }

  /** Merging sorted runs keeps the order of equal elements, those of p first. */
  lemma {:induction false} MergeStable<T(!new)>(p: seq<T>, q: seq<T>, k: T, le: (T, T) -> bool)
    requires Total(le) && Sorted(p, le) && Sorted(q, le)
    ensures Equals(Merge(p, q, le), k, le) == Equals(p, k, le) + Equals(q, k, le)
    decreases |p| + |q|
  {
    MergeFirst(p, q, le);
    hide Equals, Sorted, Total, Merge;
    if p == [] || q == [] {
      NoneEqual(k, le);
    } else {
      TailSorted(p, le);
      TailSorted(q, le);
      EqualsHead(p, k, le);
      EqualsHead(q, k, le);
      if le(p[0], q[0]) {
        MergeStable(p[1..], q, k, le);
        EqualsFirst(p[0], Merge(p[1..], q, le), k, le);
      } else {
        MergeStable(p, q[1..], k, le);
        EqualsFirst(q[0], Merge(p, q[1..], le), k, le);
        if le(q[0], k) && le(k, q[0]) {
          NoEquals(p, k, q[0], le);
        }
      }
    }
  }

  lemma MergeFirst<T>(p: seq<T>, q: seq<T>, le: (T, T) -> bool)
    ensures Merge(p, q, le) ==
      if p == [] then q
      else if q == [] then p
      else if le(p[0], q[0]) then [p[0]] + Merge(p[1..], q, le)
      else [q[0]] + Merge(p, q[1..], le)
  {
  }

  lemma NoneEqual<T>(k: T, le: (T, T) -> bool)
    ensures Equals([], k, le) == []
  {
  }

  lemma EqualsHead<T>(s: seq<T>, k: T, le: (T, T) -> bool)
    requires s != []
    ensures Equals(s, k, le) == (if le(s[0], k) && le(k, s[0]) then [s[0]] else []) + Equals(s[1..], k, le)
  {
  }

  lemma TailSorted<T>(s: seq<T>, le: (T, T) -> bool)
    requires Sorted(s, le) && s != []
    ensures Sorted(s[1..], le)
  {
  }

  /** If q's first element goes before p's, no element of p equals it. */
  lemma {:induction false} NoEquals<T(!new)>(p: seq<T>, k: T, x: T, le: (T, T) -> bool)
    requires Total(le) && Sorted(p, le) && le(x, k) && le(k, x)
    requires p == [] || !le(p[0], x)
    ensures Equals(p, k, le) == []
  {
    if p != [] {
      if p[1..] != [] {
        assert le(p[0], p[1]);
        assert !le(p[1], x);
      }
      NoEquals(p[1..], k, x, le);
    }
  }

  lemma {:induction false} PassStable<T(!new)>(s: seq<T>, size: nat, k: T, le: (T, T) -> bool)
    requires size > 0 && Total(le) && Runs(s, size, le)
    ensures Equals(Pass(s, size, le), k, le) == Equals(s, k, le)
    decreases |s|
  {
    if s != [] {
      var i := Cut(|s|, size);
      var j := i + Cut(|s| - i, size);
      TwoRuns(s, size, le);
      MergeStable(s[..i], s[i..j], k, le);
      PassStable(s[j..], size, k, le);
      ThreeParts(s, i, j);
      EqualsConcat(Merge(s[..i], s[i..j], le), Pass(s[j..], size, le), k, le);
      EqualsConcat(s[..i], s[i..j], k, le);
      EqualsConcat(s[..i] + s[i..j], s[j..], k, le);
      hide Merge, Sorted, Total, Equals, Runs;
    }
  }

  /** Equal elements keep their order. */
  lemma {:induction false} SortStable<T(!new)>(s: seq<T>, size: nat, k: T, le: (T, T) -> bool)
    requires size > 0 && Total(le) && Runs(s, size, le)
    ensures Equals(Sort(s, size, le), k, le) == Equals(s, k, le)
    decreases if |s| > 2 * size then |s| - 2 * size else 0
  {
    PassStable(s, size, k, le);
    if |s| > 2 * size {
      PassRuns(s, size, le);
      SortStable(Pass(s, size, le), 2 * size, k, le);
    }
  }
}
