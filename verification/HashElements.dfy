/**
 Elements of a hash table: the handle's links in application order (next, prev) and within a bucket (hh_next,
 hh_prev), and lists of elements.
 */
module HashElements {

  /** What the application stores: a key and data. */
  datatype Item = Item(key: int, data: int)

  class Element {
    const item: Item
    const hashv: nat
    var next: Element?
    var prev: Element?
    var hhNext: Element?
    var hhPrev: Element?

    constructor (item: Item, hashv: nat)
      ensures this.item == item && this.hashv == hashv
    {
      this.item, this.hashv := item, hashv;
      next, prev, hhNext, hhPrev := null, null, null, null;
    }
  }

  ghost function Items(s: seq<Element>): (r: seq<Item>)
    ensures |r| == |s|
  {
    seq(|s|, i requires 0 <= i < |s| => s[i].item)
  }

  lemma ItemsConcat(a: seq<Element>, b: seq<Element>)
    ensures Items(a + b) == Items(a) + Items(b)
  {
  }

  ghost predicate NoDup(s: seq<Element>) {
    forall i, j :: 0 <= i < j < |s| ==> s[i] != s[j]
  }

  ghost predicate Disjoint(a: seq<Element>, b: seq<Element>) {
    forall i :: 0 <= i < |a| ==> a[i] !in b
  }

  ghost function First(s: seq<Element>): Element? {
    if s == [] then null else s[0]
  }

  ghost function Last(s: seq<Element>): Element? {
    if s == [] then null else s[|s| - 1]
  }

  /** Linked through next; where the last element points to is left open. */
  ghost predicate Forward(s: seq<Element>)
    reads s`next
  {
    forall i {:trigger s[i].next} :: 0 <= i < |s| - 1 ==> s[i].next == s[i + 1]
  }

  ghost predicate Backward(s: seq<Element>)
    reads s`prev
  {
    forall i {:trigger s[i].prev} :: 0 <= i < |s| ==> s[i].prev == if i > 0 then s[i - 1] else null
  }

  /** A list in application order, with its tail. */
  ghost predicate AppList(head: Element?, tail: Element?, s: seq<Element>)
    reads s`next, s`prev
  {
    && NoDup(s) && head == First(s) && tail == Last(s) && Forward(s) && Backward(s)
    && (s != [] ==> s[|s| - 1].next == null)
  }
}
