/**
 HASH_SRT: the application-order list is sorted in place, by relinking its elements.
 */
module HashSort {
  import opened HashElements
  import opened MergeSort
  import Generators

  /** A list under construction: linked both ways, the next link of its tail still open. */
  ghost predicate Built(list: Element?, tail: Element?, out: seq<Element>)
    reads out`next, out`prev
  {
    NoDup(out) && list == First(out) && tail == Last(out) && Forward(out) && Backward(out)
  }

  /** A rest of a list: linked up to null. */
  ghost predicate Rest(q: Element?, r: seq<Element>)
    reads r`next
  {
    NoDup(r) && q == First(r) && Forward(r) && (r != [] ==> r[|r| - 1].next == null)
  }

  /** A run: the elements still to be taken from it are linked. */
  ghost predicate Run(p: Element?, run: seq<Element>)
    reads run`next
  {
    NoDup(run) && (run != [] ==> p == run[0]) && Forward(run)
  }

  /** e is put behind the tail. */
  method Append(e: Element, list: Element?, tail: Element?, ghost out: seq<Element>)
    returns (list': Element?, tail': Element?)
    requires Built(list, tail, out) && e !in out
    modifies out`next, e`prev
    ensures Built(list', tail', out + [e])
  {
    list' := list;
    if tail != null {
      tail.next := e;
    } else {
      list' := e;
    }
    e.prev := tail;
    tail' := e;
  }

  /** The state of a merge: the list built, what is left of the first run, and what is left behind it. */
  ghost predicate Merging(list: Element?, tail: Element?, p: Element?, q: Element?,
                          out: seq<Element>, run: seq<Element>, rest: seq<Element>)
    reads out`next, out`prev, run`next, rest`next
  {
    && Built(list, tail, out) && Run(p, run) && Rest(q, rest)
    && Disjoint(out, run) && Disjoint(out, rest) && Disjoint(run, rest)
  }

  /** The next element is taken from the first run. */
  method TakeP(list: Element?, tail: Element?, p: Element, q: Element?,
               ghost out: seq<Element>, ghost run: seq<Element>, ghost rest: seq<Element>)
    returns (list': Element?, tail': Element?, p': Element?)
    requires Merging(list, tail, p, q, out, run, rest) && run != []
    modifies out`next, p`prev
    ensures Merging(list', tail', p', q, out + [run[0]], run[1..], rest)
  {
    assert run[0] !in out && run[0] !in rest;
    assert tail != null ==> tail == out[|out| - 1] && tail !in run && tail !in rest;
    p' := p.next;
    list', tail' := Append(p, list, tail, out);
  }

  /** The next element is taken from behind it. */
  method TakeQ(list: Element?, tail: Element?, p: Element?, q: Element,
               ghost out: seq<Element>, ghost run: seq<Element>, ghost rest: seq<Element>)
    returns (list': Element?, tail': Element?, q': Element?)
    requires Merging(list, tail, p, q, out, run, rest)
    modifies out`next, q`prev
    ensures rest != [] && Merging(list', tail', p, q', out + [rest[0]], run, rest[1..])
  {
    assert rest != [] && rest[0] !in out && rest[0] !in run;
    assert tail != null ==> tail == out[|out| - 1] && tail !in run && tail !in rest;
    q' := q.next;
    list', tail' := Append(q, list, tail, out);
  }

  /** The comparison function of the application as an order: at most zero means "not after". */
  function Order(cmp: (Item, Item) -> int): (Item, Item) -> bool {
    (a, b) => cmp(a, b) <= 0
  }

  lemma MergeTakesP(p: seq<Item>, q: seq<Item>, le: (Item, Item) -> bool)
    requires p != [] && (q == [] || le(p[0], q[0]))
    ensures Merge(p, q, le) == [p[0]] + Merge(p[1..], q, le)
  {
    if q == [] {
      assert p[1..] == [] || Merge(p[1..], [], le) == p[1..];
    }
  }

  lemma MergeTakesQ(p: seq<Item>, q: seq<Item>, le: (Item, Item) -> bool)
    requires q != [] && (p == [] || !le(p[0], q[0]))
    ensures Merge(p, q, le) == [q[0]] + Merge(p, q[1..], le)
  {
  }

  /** What the merge still has to put out: the rest of the first run against as many elements behind it. */
  ghost function Remaining(run: seq<Element>, rest: seq<Element>, qsize: nat, cmp: (Item, Item) -> int): seq<Item> {
    Merge(Items(run), Items(rest[..Cut(|rest|, qsize)]), Order(cmp))
  }

  lemma RemainingP(run: seq<Element>, rest: seq<Element>, qsize: nat, cmp: (Item, Item) -> int)
    requires run != [] && (qsize == 0 || rest == [] || cmp(run[0].item, rest[0].item) <= 0)
    ensures Remaining(run, rest, qsize, cmp) == [run[0].item] + Remaining(run[1..], rest, qsize, cmp)
  {
    var p, q := Items(run), Items(rest[..Cut(|rest|, qsize)]);
    MergeTakesP(p, q, Order(cmp));
    assert p[1..] == Items(run[1..]);
  }

  lemma RemainingQ(run: seq<Element>, rest: seq<Element>, qsize: nat, cmp: (Item, Item) -> int)
    requires qsize > 0 && rest != [] && (run == [] || cmp(run[0].item, rest[0].item) > 0)
    ensures Remaining(run, rest, qsize, cmp) == [rest[0].item] + Remaining(run, rest[1..], qsize - 1, cmp)
  {
    var k := Cut(|rest|, qsize);
    var p, q := Items(run), Items(rest[..k]);
    MergeTakesQ(p, q, Order(cmp));
    assert q[1..] == Items(rest[1..][..k - 1]);
  }

  /** What a merge must not lose, at any point. */
  ghost predicate Same(out: seq<Element>, run: seq<Element>, rest: seq<Element>, all: multiset<Element>) {
    multiset(out) + multiset(run) + multiset(rest) == all
  }

  ghost function Members(all: multiset<Element>): set<Element> {
    set e | e in all
  }

  lemma OneItem(out: seq<Element>, e: Element)
    ensures Items(out + [e]) == Items(out) + [e.item]
  {
  }

  lemma SameP(out: seq<Element>, run: seq<Element>, rest: seq<Element>, all: multiset<Element>)
    requires Same(out, run, rest, all) && run != []
    ensures Same(out + [run[0]], run[1..], rest, all)
  {
    assert run == [run[0]] + run[1..];
  }

  lemma SameQ(out: seq<Element>, run: seq<Element>, rest: seq<Element>, all: multiset<Element>)
    requires Same(out, run, rest, all) && rest != []
    ensures Same(out + [rest[0]], run, rest[1..], all)
  {
    assert rest == [rest[0]] + rest[1..];
  }

  method StepP(cmp: (Item, Item) -> int, list: Element?, tail: Element?, p: Element, q: Element?, ghost qsize: nat,
               ghost out: seq<Element>, ghost run: seq<Element>, ghost rest: seq<Element>, ghost all: multiset<Element>)
    returns (list': Element?, tail': Element?, p': Element?)
    requires Merging(list, tail, p, q, out, run, rest) && Same(out, run, rest, all)
    requires run != [] && (qsize == 0 || rest == [] || cmp(run[0].item, rest[0].item) <= 0)
    modifies Members(all)`next, Members(all)`prev
    ensures Merging(list', tail', p', q, out + [run[0]], run[1..], rest) && Same(out + [run[0]], run[1..], rest, all)
    ensures Items(out + [run[0]]) + Remaining(run[1..], rest, qsize, cmp) ==
      Items(out) + Remaining(run, rest, qsize, cmp)
  {
    hide Remaining, Same, Merging, Items, Members;
    StillThere(out, run, rest, all);
    MergeHeads(list, tail, p, q, out, run, rest);
    RemainingP(run, rest, qsize, cmp);
    SameP(out, run, rest, all);
    OneItem(out, run[0]);
    list', tail', p' := TakeP(list, tail, p, q, out, run, rest);
  }

  method StepQ(cmp: (Item, Item) -> int, list: Element?, tail: Element?, p: Element?, q: Element, ghost qsize: nat,
               ghost out: seq<Element>, ghost run: seq<Element>, ghost rest: seq<Element>, ghost all: multiset<Element>)
    returns (list': Element?, tail': Element?, q': Element?)
    requires Merging(list, tail, p, q, out, run, rest) && Same(out, run, rest, all)
    requires qsize > 0 && rest != [] && (run == [] || cmp(run[0].item, rest[0].item) > 0)
    modifies Members(all)`next, Members(all)`prev
    ensures Merging(list', tail', p, q', out + [rest[0]], run, rest[1..]) && Same(out + [rest[0]], run, rest[1..], all)
    ensures Items(out + [rest[0]]) + Remaining(run, rest[1..], qsize - 1, cmp) ==
      Items(out) + Remaining(run, rest, qsize, cmp)
  {
    hide Remaining, Same, Merging, Items, Members;
    StillThere(out, run, rest, all);
    MergeHeads(list, tail, p, q, out, run, rest);
    RemainingQ(run, rest, qsize, cmp);
    SameQ(out, run, rest, all);
    OneItem(out, rest[0]);
    list', tail', q' := TakeQ(list, tail, p, q, out, run, rest);
  }

  /** One element is chosen and put out. */
  method MergeStep(cmp: (Item, Item) -> int, list: Element?, tail: Element?, p: Element?, q: Element?, psize: nat,
                   qsize: nat,
                   ghost out: seq<Element>, ghost run: seq<Element>, ghost rest: seq<Element>,
                   ghost all: multiset<Element>)
    returns (list': Element?, tail': Element?, p': Element?, q': Element?, psize': nat, qsize': nat,
             ghost out': seq<Element>, ghost run': seq<Element>, ghost rest': seq<Element>)
    requires Merging(list, tail, p, q, out, run, rest) && psize == |run| && Same(out, run, rest, all)
    requires psize != 0 || (qsize != 0 && q != null)
    modifies Members(all)`next, Members(all)`prev
    ensures Merging(list', tail', p', q', out', run', rest') && psize' == |run'| && Same(out', run', rest', all)
    ensures Items(out') + Remaining(run', rest', qsize', cmp) == Items(out) + Remaining(run, rest, qsize, cmp)
    ensures (run != [] && run' == run[1..] && rest' == rest && qsize' == qsize) ||
            (run' == run && rest != [] && rest' == rest[1..] && qsize' == qsize - 1)
  {
    hide Merging, Remaining, Members, Same, Items;
    list', tail', p', q', psize', qsize', out', run', rest' := list, tail, p, q, psize, qsize, out, run, rest;
    MergeHeads(list, tail, p, q, out, run, rest);
    if psize != 0 && (qsize == 0 || q == null || cmp(p.item, q.item) <= 0) {
      list', tail', p' := StepP(cmp, list, tail, p, q, qsize, out, run, rest, all);
      psize' := psize - 1;
      out', run' := out + [run[0]], run[1..];
    } else {
      list', tail', q' := StepQ(cmp, list, tail, p, q, qsize, out, run, rest, all);
      qsize' := qsize - 1;
      out', rest' := out + [rest[0]], rest[1..];
    }
  }

  lemma MergeHeads(list: Element?, tail: Element?, p: Element?, q: Element?, out: seq<Element>, run: seq<Element>,
                   rest: seq<Element>)
    requires Merging(list, tail, p, q, out, run, rest)
    ensures (run != [] ==> p == run[0]) && (q == null <==> rest == []) && (rest != [] ==> q == rest[0])
  {
  }

  /** Merges the run of psize elements at p with the up to insize elements at q behind it. */
  method MergeRuns(cmp: (Item, Item) -> int, list: Element?, tail: Element?, p: Element?, q: Element?, psize: nat,
                   insize: nat,
                   ghost out: seq<Element>, ghost run: seq<Element>, ghost rest: seq<Element>,
                   ghost all: multiset<Element>)
    returns (list': Element?, tail': Element?, q': Element?, ghost out': seq<Element>, ghost rest': seq<Element>)
    requires Merging(list, tail, p, q, out, run, rest) && psize == |run| && Same(out, run, rest, all)
    modifies Members(all)`next, Members(all)`prev
    ensures Built(list', tail', out') && Rest(q', rest') && Disjoint(out', rest') && Same(out', [], rest', all)
    ensures rest' == rest[Cut(|rest|, insize)..]
    ensures Items(out') == Items(out) + Remaining(run, rest, insize, cmp)
  {
    list', tail', q', out', rest' := list, tail, q, out, rest;
    var p', ps: nat, qs: nat := p, psize, insize;
    ghost var run' := run;
    hide Remaining, Same, Merging, Built, Rest, Disjoint, Items, Members;
    while ps != 0 || (qs != 0 && q' != null)
      invariant Merging(list', tail', p', q', out', run', rest') && ps == |run'| && Same(out', run', rest', all)
      invariant Items(out') + Remaining(run', rest', qs, cmp) == Items(out) + Remaining(run, rest, insize, cmp)
      invariant qs <= insize && insize - qs <= |rest| && rest' == rest[insize - qs..]
      decreases ps + qs
    {
      list', tail', p', q', ps, qs, out', run', rest' :=
        MergeStep(cmp, list', tail', p', q', ps, qs, out', run', rest', all);
    }
    MergeEnd(list', tail', p', q', out', run', rest', qs, cmp);
  }

  lemma StillThere(out: seq<Element>, run: seq<Element>, rest: seq<Element>, all: multiset<Element>)
    requires Same(out, run, rest, all)
    ensures forall e :: e in Members(all) <==> e in out || e in run || e in rest
  {
  }

  lemma MergeEnd(list: Element?, tail: Element?, p: Element?, q: Element?, out: seq<Element>, run: seq<Element>,
                 rest: seq<Element>,
                 qs: nat, cmp: (Item, Item) -> int)
    requires Merging(list, tail, p, q, out, run, rest) && run == [] && (qs == 0 || q == null)
    ensures Built(list, tail, out) && Rest(q, rest) && Disjoint(out, rest)
    ensures Remaining(run, rest, qs, cmp) == [] && (qs == 0 || rest == [])
  {
  }

  // ---- one pass ----

  /** The first run: up to insize elements from p on. */
  method SplitRun(p: Element, insize: nat, ghost rem: seq<Element>) returns (q: Element?, psize: nat)
    requires Rest(p, rem) && insize > 0
    ensures psize == Cut(|rem|, insize) && q == First(rem[psize..])
  {
    q, psize := p, 0;
    var i := 0;
    while i < insize && q != null
      invariant 0 <= i == psize <= insize && psize <= |rem| && q == First(rem[psize..])
    {
      psize := psize + 1;
      q := q.next;
      i := i + 1;
    }
  }

  lemma SplitMerging(list: Element?, tail: Element?, p: Element?, q: Element?, out: seq<Element>, rem: seq<Element>,
                     i: nat)
    requires Merging(list, tail, null, p, out, [], rem) && i <= |rem| && q == First(rem[i..])
    ensures Merging(list, tail, p, q, out, rem[..i], rem[i..])
  {
    var run, rest := rem[..i], rem[i..];
    forall k | 0 <= k < |rest| - 1 ensures rest[k].next == rest[k + 1] {
      assert rem[i + k].next == rem[i + k + 1];
    }
    forall k | 0 <= k < |run| - 1 ensures run[k].next == run[k + 1] {
      assert rem[k].next == rem[k + 1];
    }
    assert Disjoint(out, run) && Disjoint(out, rest) && Disjoint(run, rest);
    assert rest != [] ==> rest[|rest| - 1] == rem[|rem| - 1];
  }

  lemma MergedAgain(list: Element?, tail: Element?, q: Element?, out: seq<Element>, rest: seq<Element>)
    requires Built(list, tail, out) && Rest(q, rest) && Disjoint(out, rest)
    ensures Merging(list, tail, null, q, out, [], rest)
  {
  }

  ghost function Passed(rem: seq<Element>, insize: nat, cmp: (Item, Item) -> int): seq<Item>
    requires insize > 0
  {
    Pass(Items(rem), insize, Order(cmp))
  }

  /** A pass merges its first two runs and goes on behind them. */
  lemma PassedRuns(rem: seq<Element>, insize: nat, cmp: (Item, Item) -> int)
    requires insize > 0 && rem != []
    ensures var i := Cut(|rem|, insize); var rest := rem[i..];
            Passed(rem, insize, cmp) ==
              Remaining(rem[..i], rest, insize, cmp) + Passed(rest[Cut(|rest|, insize)..], insize, cmp)
  {
    var i := Cut(|rem|, insize);
    var j, rest := i + Cut(|rem| - i, insize), rem[i..];
    assert Items(rem)[..i] == Items(rem[..i]);
    assert Items(rem)[i..j] == Items(rest[..j - i]);
    assert Items(rem)[j..] == Items(rest[j - i..]);
  }

  lemma SameSplit(out: seq<Element>, rem: seq<Element>, i: nat, all: multiset<Element>)
    requires Same(out, [], rem, all) && i <= |rem|
    ensures Same(out, rem[..i], rem[i..], all)
  {
    assert rem == rem[..i] + rem[i..];
  }

  /** Two runs are merged. */
  method MergePair(cmp: (Item, Item) -> int, list: Element?, tail: Element?, p: Element, insize: nat,
                   ghost out: seq<Element>, ghost rem: seq<Element>, ghost all: multiset<Element>)
    returns (list': Element?, tail': Element?, p': Element?, ghost out': seq<Element>, ghost rem': seq<Element>)
    requires Merging(list, tail, null, p, out, [], rem) && Same(out, [], rem, all) && insize > 0
    modifies Members(all)`next, Members(all)`prev
    ensures Merging(list', tail', null, p', out', [], rem') && Same(out', [], rem', all)
    ensures Items(out') + Passed(rem', insize, cmp) == Items(out) + Passed(rem, insize, cmp)
    ensures |rem'| == |rem| - Cut(|rem|, 2 * insize) < |rem|
  {
    hide Merging, Remaining, Passed, Same, Items, Built, Rest, Disjoint, First, Members;
    MergeHeads(list, tail, null, p, out, [], rem);
    RestOf(list, tail, p, out, rem);
    var q, psize := SplitRun(p, insize, rem);
    SplitMerging(list, tail, p, q, out, rem, psize);
    SameSplit(out, rem, psize, all);
    PassedRuns(rem, insize, cmp);
    list', tail', p', out', rem' :=
      MergeRuns(cmp, list, tail, p, q, psize, insize, out, rem[..psize], rem[psize..], all);
    MergedAgain(list', tail', p', out', rem');
  }

  lemma RestOf(list: Element?, tail: Element?, p: Element?, out: seq<Element>, rem: seq<Element>)
    requires Merging(list, tail, null, p, out, [], rem)
    ensures Rest(p, rem)
  {
  }

  /** One pass over the list; nmerges is the number of pairs of runs. */
  method PassOnce(cmp: (Item, Item) -> int, head: Element, insize: nat, ghost s: seq<Element>,
                  ghost all: multiset<Element>)
    returns (list: Element?, tail: Element?, nmerges: nat, ghost s': seq<Element>)
    requires Rest(head, s) && Same([], [], s, all) && insize > 0
    modifies Members(all)`next, Members(all)`prev
    ensures AppList(list, tail, s') && Same(s', [], [], all) && Items(s') == Passed(s, insize, cmp)
    ensures MergeCount(|s|, 0, nmerges, 2 * insize)
  {
    hide Merging, Passed, Same, Items, Built, Rest, Disjoint, MergeCount, AppList, Members;
    var p: Element? := head;
    list, tail, nmerges := null, null, 0;
    s' := [];
    ghost var rem := s;
    NothingBuilt(head, s);
    NothingMerged(|s|, 2 * insize);
    while p != null
      invariant Merging(list, tail, null, p, s', [], rem) && Same(s', [], rem, all)
      invariant Items(s') + Passed(rem, insize, cmp) == Items([]) + Passed(s, insize, cmp)
      invariant MergeCount(|s|, |rem|, nmerges, 2 * insize) && |rem| <= |s|
      decreases |rem|
    {
      MergeHeads(list, tail, null, p, s', [], rem);
      ghost var left := |rem|;
      list, tail, p, s', rem := MergePair(cmp, list, tail, p, insize, s', rem, all);
      OneMoreMerge(|s|, left, |rem|, nmerges, 2 * insize);
      nmerges := nmerges + 1;
    }
    MergeHeads(list, tail, null, p, s', [], rem);
    NothingPassed(insize, cmp);
    assert Items(s') + [] == Items(s') && [] + Passed(s, insize, cmp) == Passed(s, insize, cmp);
    CloseList(list, tail, s', all);
  }

  lemma NothingPassed(insize: nat, cmp: (Item, Item) -> int)
    requires insize > 0
    ensures Passed([], insize, cmp) == [] && Items([]) == []
  {
  }

  /** The open link of the tail. */
  method CloseList(list: Element?, tail: Element?, ghost s: seq<Element>, ghost all: multiset<Element>)
    requires Merging(list, tail, null, null, s, [], []) && Same(s, [], [], all)
    modifies Members(all)`next
    ensures AppList(list, tail, s)
  {
    StillThere(s, [], [], all);
    if tail != null {
      tail.next := null;
    }
  }

  lemma NothingBuilt(head: Element, s: seq<Element>)
    requires Rest(head, s)
    ensures Merging(null, null, null, head, [], [], s) && s != []
  {
  }

  /** With `left` of n elements not passed yet, nmerges pieces of the given size have been merged; the last one
      may be shorter. */
  predicate MergeCount(n: nat, left: nat, nmerges: nat, size: nat) {
    if left == 0 && n > 0 then (nmerges - 1) * size < n <= nmerges * size else n - left == nmerges * size
  }

  lemma NothingMerged(n: nat, size: nat)
    requires n > 0
    ensures MergeCount(n, n, 0, size)
  {
  }

  lemma OneMoreMerge(n: nat, left: nat, left': nat, nmerges: nat, size: nat)
    requires size > 0 && 0 < left <= n && MergeCount(n, left, nmerges, size) && left' == left - Cut(left, size)
    ensures MergeCount(n, left', nmerges + 1, size)
  {
    assert (nmerges + 1) * size == nmerges * size + size;
    assert (nmerges + 1 - 1) * size == nmerges * size;
  }

  /** There was one merge at most exactly if the list was not longer than one pair of runs. */
  lemma OneMerge(n: nat, nmerges: nat, size: nat)
    requires size > 0 && n > 0 && MergeCount(n, 0, nmerges, size)
    ensures nmerges <= 1 <==> n <= size
  {
    if nmerges >= 2 {
      Generators.MulMonotone(1, nmerges - 1, size);
    }
  }

  // ---- the function of the source ----

  lemma ListIsRest(head: Element?, tail: Element?, s: seq<Element>)
    requires AppList(head, tail, s)
    ensures Rest(head, s)
  {
  }

  ghost function SortedItems(s: seq<Element>, insize: nat, cmp: (Item, Item) -> int): seq<Item>
    requires insize > 0
  {
    Sort(Items(s), insize, Order(cmp))
  }

  lemma SortedStep(s: seq<Element>, s': seq<Element>, insize: nat, cmp: (Item, Item) -> int)
    requires insize > 0 && Items(s') == Passed(s, insize, cmp)
    ensures |s'| == |s|
    ensures SortedItems(s, insize, cmp) == if |s| <= 2 * insize then Items(s') else SortedItems(s', 2 * insize, cmp)
  {
  }

  /** HASH_SRT: sorts the application-order list in place; the elements stay the same, and their links within
      the buckets are not touched. */
  method Srt(cmp: (Item, Item) -> int, head: Element, ghost tail: Element?, ghost s: seq<Element>)
    returns (head': Element, tail': Element, ghost s': seq<Element>)
    requires AppList(head, tail, s)
    modifies s`next, s`prev
    ensures AppList(head', tail', s') && multiset(s') == multiset(s)
    ensures Items(s') == Sort(Items(s), 1, Order(cmp))
  {
    ghost var all := multiset(s);
    var insize, looping: bool, list: Element? := 1, true, head;
    var t: Element? := null;
    s' := s;
    while looping
      invariant insize > 0 && Same(s', [], [], all) && s' != []
      invariant if looping then Rest(list, s') && SortedItems(s', insize, cmp) == SortedItems(s, 1, cmp)
                else AppList(list, t, s') && Items(s') == SortedItems(s, 1, cmp)
      decreases if looping then 1 else 0, |s'| - insize
    {
      var nmerges;
      ghost var was := s';
      list, t, nmerges, s' := PassOnce(cmp, list, insize, s', all);
      SortedStep(was, s', insize, cmp);
      OneMerge(|was|, nmerges, 2 * insize);
      if nmerges <= 1 {
        looping := false;
      } else {
        ListIsRest(list, t, s');
      }
      insize := insize * 2;
    }
    head', tail' := list, t;
  }

  /** For a comparison function that is a total order up to equality, what Srt makes of a list is sorted, has the
      same items, and keeps the order of items that compare equal. */
  lemma SortedStably(items: seq<Item>, cmp: (Item, Item) -> int)
    requires Total(Order(cmp))
    ensures var r := Sort(items, 1, Order(cmp));
            && (forall i, j :: 0 <= i < j < |r| ==> cmp(r[i], r[j]) <= 0)
            && multiset(r) == multiset(items)
            && forall k :: Equals(r, k, Order(cmp)) == Equals(items, k, Order(cmp))
  {
    var le, r := Order(cmp), Sort(items, 1, Order(cmp));
    SingleRuns(items, le);
    SortSorted(items, 1, le);
    SortElements(items, 1, le);
    forall i, j | 0 <= i < j < |r| ensures cmp(r[i], r[j]) <= 0 {
      assert le(r[i], r[j]);
    }
    forall k ensures Equals(r, k, le) == Equals(items, k, le) {
      SortStable(items, 1, k, le);
    }
  }
}
