/**
 The hash table as a finite map that remembers the order of insertion, under any sequence of operations.
 */
module HashRefinement {
  import opened Wrappers
  import opened HashElements
  import opened HashBuckets
  import opened HashTables

  // ---- the simple form ----

  datatype Op = AddItem(item: Item) | FindKey(key: int) | DeleteKey(key: int)

  /** The first position of the key, or the length. */
  function IndexOf(c: seq<Item>, key: int): (i: nat)
    ensures i <= |c| && (i < |c| ==> c[i].key == key)
    ensures forall j :: 0 <= j < i ==> c[j].key != key
  {
    if c == [] || c[0].key == key then 0
    else
      assert forall j :: 0 < j < |c| ==> c[j] == c[1..][j - 1];
      1 + IndexOf(c[1..], key)
  }

  function Lookup(c: seq<Item>, key: int): Option<Item> {
    if IndexOf(c, key) < |c| then Some(c[IndexOf(c, key)]) else None
  }

  function Apply(c: seq<Item>, op: Op): seq<Item> {
    match op
    case AddItem(item) => c + [item]
    case FindKey(_) => c
    case DeleteKey(key) => if IndexOf(c, key) < |c| then RemovedAt(c, IndexOf(c, key)) else c
  }

  function Answer(c: seq<Item>, op: Op): Option<Item> {
    match op
    case AddItem(_) => None
    case FindKey(key) => Lookup(c, key)
    case DeleteKey(key) => Lookup(c, key)
  }

  /** Only items with new keys are added. */
  predicate Legal(c: seq<Item>, op: Op) {
    op.AddItem? ==> Lookup(c, op.item.key).None?
  }

  predicate AllLegal(c: seq<Item>, ops: seq<Op>)
    decreases |ops|
  {
    ops == [] || (Legal(c, ops[0]) && AllLegal(Apply(c, ops[0]), ops[1..]))
  }

  function ApplyAll(c: seq<Item>, ops: seq<Op>): seq<Item>
    decreases |ops|
  {
    if ops == [] then c else ApplyAll(Apply(c, ops[0]), ops[1..])
  }

  function AnswerAll(c: seq<Item>, ops: seq<Op>): seq<Option<Item>>
    decreases |ops|
  {
    if ops == [] then [] else [Answer(c, ops[0])] + AnswerAll(Apply(c, ops[0]), ops[1..])
  }

  predicate KeysUnique(c: seq<Item>) {
    forall i, j :: 0 <= i < j < |c| ==> c[i].key != c[j].key
  }

  /** The map the items stand for. */
  ghost function MapOf(c: seq<Item>): (m: map<int, Item>)
    ensures forall key :: key in m <==> Lookup(c, key).Some?
    ensures forall key :: key in m ==> m[key] == Lookup(c, key).value
  {
    map key | key in (set i | 0 <= i < |c| :: c[i].key) :: Lookup(c, key).value
  }

  /** The simple form is a finite map: adding, deleting and looking up are what they are for maps. */
  lemma ApplyIsMap(c: seq<Item>, op: Op)
    requires KeysUnique(c) && Legal(c, op)
    ensures KeysUnique(Apply(c, op))
    ensures match op
            case AddItem(item) => MapOf(Apply(c, op)) == MapOf(c)[item.key := item]
            case FindKey(key) => Answer(c, op) == (if key in MapOf(c) then Some(MapOf(c)[key]) else None)
            case DeleteKey(key) =>
              && MapOf(Apply(c, op)) == MapOf(c) - {key}
              && Answer(c, op) == if key in MapOf(c) then Some(MapOf(c)[key]) else None
  {
    hide MapOf;
    match op {
      case AddItem(item) => AddIsMap(c, item);
      case FindKey(_) =>
      case DeleteKey(key) => DeleteIsMap(c, key);
    }
  }

  /** The items of r come from c, in the order they have there, but for a new one at the end. */
  predicate InOrder(c: seq<Item>, r: seq<Item>) {
    forall i, j :: 0 <= i < j < |r| ==> Ordered(c, r[i], r[j])
  }

  predicate Ordered(c: seq<Item>, a: Item, b: Item) {
    IndexOf(c, a.key) < |c| && IndexOf(c, a.key) < IndexOf(c, b.key)
  }

  lemma ApplyKeepsOrder(c: seq<Item>, op: Op)
    requires KeysUnique(c) && Legal(c, op)
    ensures InOrder(c, Apply(c, op))
  {
    var r := Apply(c, op);
    forall i, j | 0 <= i < j < |r| ensures Ordered(c, r[i], r[j]) {
      if op.DeleteKey? && IndexOf(c, op.key) < |c| {
        var k := IndexOf(c, op.key);
        UniqueIndex(c, if i < k then i else i + 1);
        UniqueIndex(c, if j < k then j else j + 1);
      } else {
        UniqueIndex(c, i);
        if j < |c| {
          UniqueIndex(c, j);
        }
      }
    }
  }

  lemma UniqueIndex(c: seq<Item>, i: nat)
    requires KeysUnique(c) && i < |c|
    ensures IndexOf(c, c[i].key) == i
  {
  }

  lemma AddIsMap(c: seq<Item>, item: Item)
    requires KeysUnique(c) && Lookup(c, item.key).None?
    ensures KeysUnique(c + [item]) && MapOf(c + [item]) == MapOf(c)[item.key := item]
  {
    hide MapOf, IndexOf;
    var r := c + [item];
    forall key ensures Lookup(r, key) == if key == item.key then Some(item) else Lookup(c, key) {
      SameIndex(c, r, key);
    }
    assert KeysUnique(r);
    hide Lookup, KeysUnique;
    var m, m' := MapOf(c)[item.key := item], MapOf(r);
    assert forall key :: (key in m' <==> key in m) && (key in m ==> m'[key] == m[key]);
  }

  lemma DeleteIsMap(c: seq<Item>, gone: int)
    requires KeysUnique(c)
    ensures var r := Apply(c, DeleteKey(gone)); KeysUnique(r) && MapOf(r) == MapOf(c) - {gone}
  {
    hide MapOf, IndexOf;
    var k, r := IndexOf(c, gone), Apply(c, DeleteKey(gone));
    if k < |c| {
      assert forall i :: 0 <= i < |r| ==> r[i] == c[if i < k then i else i + 1];
      forall key ensures Lookup(r, key) == if key == gone then None else Lookup(c, key) {
        DeletedIndex(c, r, k, key);
      }
    }
    assert KeysUnique(r);
    assert k == |c| ==> Lookup(c, gone) == None;
    hide Lookup, KeysUnique;
    var m, m' := MapOf(c) - {gone}, MapOf(r);
    assert forall key :: (key in m' <==> key in m) && (key in m ==> m'[key] == m[key]);
  }

  lemma SameIndex(c: seq<Item>, r: seq<Item>, key: int)
    requires |r| == |c| + 1 && r[..|c|] == c
    ensures IndexOf(c, key) < |c| ==> IndexOf(r, key) == IndexOf(c, key) && Lookup(r, key) == Lookup(c, key)
    ensures IndexOf(c, key) == |c| && r[|c|].key == key ==> Lookup(r, key) == Some(r[|c|])
    ensures IndexOf(c, key) == |c| && r[|c|].key != key ==> Lookup(r, key) == None
  {
    var i, j := IndexOf(c, key), IndexOf(r, key);
    assert forall d :: 0 <= d < |c| ==> r[d] == c[d];
    if j < |c| {
      assert c[j].key == key;
    }
  }

  lemma DeletedIndex(c: seq<Item>, r: seq<Item>, k: nat, key: int)
    requires KeysUnique(c) && k < |c| && r == RemovedAt(c, k)
    requires forall i :: 0 <= i < |r| ==> r[i] == c[if i < k then i else i + 1]
    ensures Lookup(r, key) == if key == c[k].key then None else Lookup(c, key)
  {
    var i, j := IndexOf(c, key), IndexOf(r, key);
    if key != c[k].key && i < |c| {
      assert r[if i < k then i else i - 1].key == key;
    }
    if j < |r| {
      assert c[if j < k then j else j + 1].key == key;
    }
  }

  // ---- the table ----

  lemma ValidKeys(t: Table)
    requires t.Valid()
    ensures UniqueKeys(t.app)
  {
  }

  lemma ItemKeys(app: seq<Element>, key: int)
    requires UniqueKeys(app)
    ensures KeysUnique(Items(app))
    ensures Lookup(Items(app), key).None? <==> forall e :: e in app ==> e.item.key != key
    ensures forall i :: 0 <= i < |app| && app[i].item.key == key ==>
      IndexOf(Items(app), key) == i && Lookup(Items(app), key) == Some(app[i].item)
  {
    var c := Items(app);
    var k := IndexOf(c, key);
    if k < |c| {
      assert app[k] in app;
    }
    forall e | e in app && k == |c| ensures e.item.key != key {
      var i :| 0 <= i < |app| && app[i] == e;
      assert c[i].key != key;
    }
    forall i | 0 <= i < |app| && app[i].item.key == key ensures k == i {
      assert c[i].key == key;
    }
  }

  /** One operation does to the contents what it does in the simple form. */
  method Perform(t: Table, op: Op) returns (answer: Option<Item>)
    requires t.Valid() && Legal(t.Contents(), op)
    modifies t.Footprint()
    ensures t.Valid() && fresh(t.Footprint() - old(t.Footprint()))
    ensures t.Contents() == Apply(old(t.Contents()), op) && answer == Answer(old(t.Contents()), op)
  {
    answer := None;
    match op {
      case AddItem(item) =>
        PerformAdd(t, item);
      case FindKey(key) =>
        var out := t.Find(key);
        answer := Found(t, key, out);
      case DeleteKey(key) =>
        answer := PerformDelete(t, key);
    }
  }

  method PerformAdd(t: Table, item: Item)
    requires t.Valid() && Lookup(t.Contents(), item.key).None?
    modifies t.Footprint()
    ensures t.Valid() && fresh(t.Footprint() - old(t.Footprint())) && t.Contents() == old(t.Contents()) + [item]
  {
    hide Table.Valid, UniqueKeys, Items, Lookup, IndexOf;
    ValidKeys(t);
    ItemKeys(t.app, item.key);
    var e := new Element(item, t.hash(item.key));
    t.Add(e);
  }

  method Found(t: Table, key: int, out: Element?) returns (answer: Option<Item>)
    requires t.Valid()
    requires out != null ==> out in t.app && out.item.key == key
    requires out == null ==> forall e :: e in t.app ==> e.item.key != key
    ensures answer == Lookup(t.Contents(), key)
  {
    hide Table.Valid, UniqueKeys, Items, Lookup, IndexOf;
    ValidKeys(t);
    ItemKeys(t.app, key);
    answer := if out == null then None else Some(out.item);
  }

  method PerformDelete(t: Table, key: int) returns (answer: Option<Item>)
    requires t.Valid()
    modifies t.Footprint()
    ensures t.Valid() && t.Footprint() <= old(t.Footprint())
    ensures t.Contents() == Apply(old(t.Contents()), DeleteKey(key)) && answer == Lookup(old(t.Contents()), key)
  {
    hide Table.Valid, UniqueKeys, IndexOf, RemovedAt;
    var out := t.Find(key);
    answer := Found(t, key, out);
    ValidKeys(t);
    if out != null {
      ItemKeys(t.app, key);
      ghost var i :| 0 <= i < |t.app| && t.app[i] == out;
      t.Delete(out, i);
    }
  }

  /** Refinement: whatever the hash function is, and however often the buckets are doubled, any sequence of operations
      gives the answers, and leaves the contents, that it has in the simple form. */
  method PerformAll(t: Table, ops: seq<Op>) returns (answers: seq<Option<Item>>)
    requires t.Valid() && AllLegal(t.Contents(), ops)
    modifies t.Footprint()
    ensures t.Valid() && fresh(t.Footprint() - old(t.Footprint()))
    ensures t.Contents() == ApplyAll(old(t.Contents()), ops) && answers == AnswerAll(old(t.Contents()), ops)
  {
    hide Table.Valid, Table.Contents, ApplyAll, AnswerAll, AllLegal, Apply, Answer, Legal;
    answers := [];
    Unrolled(t.Contents(), ops);
    for k := 0 to |ops|
      invariant t.Valid() && fresh(t.Footprint() - old(t.Footprint())) && AllLegal(t.Contents(), ops[k..])
      invariant ApplyAll(t.Contents(), ops[k..]) == ApplyAll(old(t.Contents()), ops)
      invariant answers + AnswerAll(t.Contents(), ops[k..]) == AnswerAll(old(t.Contents()), ops)
    {
      UnrollOne(t.Contents(), ops, k, answers);
      var answer := Perform(t, ops[k]);
      answers := answers + [answer];
    }
    Unrolled(t.Contents(), ops[|ops|..]);
  }

  lemma Unrolled(c: seq<Item>, ops: seq<Op>)
    ensures ops[0..] == ops
    ensures ops == [] ==> ApplyAll(c, ops) == c && AnswerAll(c, ops) == []
  {
  }

  lemma UnrollOne(c: seq<Item>, ops: seq<Op>, k: nat, answers: seq<Option<Item>>)
    requires k < |ops| && AllLegal(c, ops[k..])
    ensures Legal(c, ops[k]) && AllLegal(Apply(c, ops[k]), ops[k + 1..])
    ensures ApplyAll(c, ops[k..]) == ApplyAll(Apply(c, ops[k]), ops[k + 1..])
    ensures answers + AnswerAll(c, ops[k..]) ==
      (answers + [Answer(c, ops[k])]) + AnswerAll(Apply(c, ops[k]), ops[k + 1..])
  {
    assert ops[k..][1..] == ops[k + 1..];
  }

  /** A new table, and the map it stands for after any operations. */
  method FromEmpty(hash: int -> nat, ops: seq<Op>) returns (t: Table, answers: seq<Option<Item>>)
    requires AllLegal([], ops)
    ensures t.Valid() && t.Contents() == ApplyAll([], ops) && answers == AnswerAll([], ops)
  {
    t := new Table(hash);
    assert t.Contents() == [];
    answers := PerformAll(t, ops);
  }
}
