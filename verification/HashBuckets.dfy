/**
 The two lists an element of a hash table is in: its bucket's chain (hh_next, hh_prev) and the list in
 application order (HASH_ADD_TO_BKT, HASH_DEL_IN_BKT, HASH_FIND_IN_BKT, HASH_APPEND_LIST and the relinking
 of HASH_DELETE_HH).
 */
module HashBuckets {
  import opened HashElements

  /** A bucket's chain, linked both ways. */
  ghost predicate Chain(h: Element?, c: seq<Element>)
    reads c`hhNext, c`hhPrev
  {
    && NoDup(c) && h == First(c)
    && (forall i {:trigger c[i].hhNext} :: 0 <= i < |c| ==> c[i].hhNext == if i < |c| - 1 then c[i + 1] else null)
    && (forall i {:trigger c[i].hhPrev} :: 0 <= i < |c| ==> c[i].hhPrev == if i > 0 then c[i - 1] else null)
  }

  function RemovedAt<T>(c: seq<T>, i: nat): (r: seq<T>)
    requires i < |c|
    ensures |r| == |c| - 1
  {
    c[..i] + c[i + 1..]
  }

  /** HASH_ADD_TO_BKT: e goes to the front. */
  method AddToBucket(h: Element?, e: Element, ghost c: seq<Element>) returns (h': Element)
    requires Chain(h, c) && e !in c
    modifies e`hhNext, e`hhPrev, c`hhPrev
    ensures h' == e && Chain(h', [e] + c)
  {
    e.hhNext := h;
    e.hhPrev := null;
    if h != null {
      h.hhPrev := e;
    }
    h' := e;
    ghost var r := [e] + c;
    assert forall i :: 0 < i < |r| ==> r[i] == c[i - 1];
    forall i | 0 <= i < |r| ensures r[i].hhNext == if i < |r| - 1 then r[i + 1] else null {
      if i > 0 { assert c[i - 1].hhNext == if i - 1 < |c| - 1 then c[i] else null; }
    }
  }

  /** HASH_DEL_IN_BKT. */
  method DelInBucket(h: Element?, e: Element, ghost c: seq<Element>, ghost i: nat) returns (h': Element?)
    requires Chain(h, c) && i < |c| && c[i] == e
    modifies c`hhNext, c`hhPrev
    ensures Chain(h', RemovedAt(c, i))
  {
    h' := h;
    assert e.hhNext == if i < |c| - 1 then c[i + 1] else null;
    assert e.hhPrev == if i > 0 then c[i - 1] else null;
    if h == e {
      h' := e.hhNext;
    }
    if e.hhPrev != null {
      e.hhPrev.hhNext := e.hhNext;
    }
    if e.hhNext != null {
      e.hhNext.hhPrev := e.hhPrev;
    }
    ghost var r := RemovedAt(c, i);
    assert forall k :: 0 <= k < |r| ==> r[k] == c[if k < i then k else k + 1];
  }

  /** HASH_FIND_IN_BKT: the element with that hash value and key, if the chain has one. */
  method FindInBucket(h: Element?, key: int, hashval: nat, ghost c: seq<Element>) returns (out: Element?)
    requires Chain(h, c)
    ensures out != null ==> out in c && out.hashv == hashval && out.item.key == key
    ensures out == null ==> forall e :: e in c ==> !(e.hashv == hashval && e.item.key == key)
  {
    out := h;
    ghost var i := 0;
    while out != null && !(out.hashv == hashval && out.item.key == key)
      invariant 0 <= i <= |c| && out == if i < |c| then c[i] else null
      invariant forall k :: 0 <= k < i ==> !(c[k].hashv == hashval && c[k].item.key == key)
      decreases |c| - i
    {
      out := out.hhNext;
      i := i + 1;
    }
  }

  /** HASH_APPEND_LIST: e goes to the end of the list. */
  method AppendList(head: Element, tail: Element, e: Element, ghost s: seq<Element>)
    requires AppList(head, tail, s) && e !in s
    modifies e`next, e`prev, tail`next
    ensures AppList(head, e, s + [e])
  {
    e.next := null;
    e.prev := tail;
    tail.next := e;
  }

  /** The relinking of HASH_DELETE_HH. */
  method RemoveFromList(head: Element, tail: Element, e: Element, ghost s: seq<Element>, ghost i: nat)
    returns (head': Element?, tail': Element?)
    requires AppList(head, tail, s) && i < |s| && s[i] == e && |s| > 1
    modifies s`next, s`prev
    ensures AppList(head', tail', RemovedAt(s, i))
  {
    head', tail' := head, tail;
    assert e.prev == if i > 0 then s[i - 1] else null;
    assert e.next == if i < |s| - 1 then s[i + 1] else null;
    if e == tail {
      tail' := e.prev;
    }
    if e.prev != null {
      e.prev.next := e.next;
    } else {
      head' := e.next;
    }
    if e.next != null {
      e.next.prev := e.prev;
    }
    ghost var r := RemovedAt(s, i);
    assert forall k :: 0 <= k < |r| ==> r[k] == s[if k < i then k else k + 1];
  }
}
