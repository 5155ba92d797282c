/** Child lists as they stand in memory: a head pointer, and nodes linked both ways and edited in place. */
module NodeList {
  import opened Bytes
  import Json

  /** A `cJSON` struct: its links, its key, and its type and value (an empty container for arrays and objects). */
  class Node {
    var next: Node?
    var prev: Node?
    var child: Node?
    var key: Text
    const content: Json.Json

    constructor (content: Json.Json)
      ensures this.content == content && Detached(this) && child == null && key == []
    {
      this.content := content;
      next, prev, child, key := null, null, null, [];
    }
  }

  /**
    The children of `parent` are `kids`, in order: the head has no predecessor, the last no successor, every
    other link goes to the neighbour, and no node is listed twice.
   */
  ghost predicate Chain(parent: Node, kids: seq<Node>)
    reads parent`child, kids`next, kids`prev
  {
    parent.child == Kid(kids, 0)
    && (forall i :: 0 <= i < |kids| ==> kids[i].prev == Kid(kids, i - 1) && kids[i].next == Kid(kids, i + 1))
    && Unlike(kids)
  }

  ghost predicate Unlike(kids: seq<Node>) {
    forall i, j :: 0 <= i < j < |kids| ==> kids[i] != kids[j]
  }

  ghost predicate Detached(item: Node)
    reads item`next, item`prev
  {
    item.next == null && item.prev == null
  }

  /** The child at place `i`, if there is one. */
  function Kid(kids: seq<Node>, i: int): (n: Node?)
    ensures n != null <==> 0 <= i < |kids|
  {
    if 0 <= i < |kids| then kids[i] else null
  }

  function Inserted(kids: seq<Node>, i: nat, item: Node): seq<Node> {
    if i < |kids| then kids[..i] + [item] + kids[i..] else kids + [item]
  }

  function Removed(kids: seq<Node>, i: nat): seq<Node>
    requires i < |kids|
  {
    kids[..i] + kids[i + 1..]
  }

  /** The links determine the list: a parent has one chain at most. */
  lemma ChainUnique(parent: Node, a: seq<Node>, b: seq<Node>)
    requires Chain(parent, a) && Chain(parent, b)
    ensures a == b
  {
    ChainPrefix(parent, a, b, |a|);
    ChainPrefix(parent, b, a, |b|);
  }

  lemma {:induction false} ChainPrefix(parent: Node, a: seq<Node>, b: seq<Node>, n: nat)
    requires Chain(parent, a) && Chain(parent, b) && n <= |a|
    ensures n <= |b| && forall k :: 0 <= k < n ==> a[k] == b[k]
  {
    hide Unlike;
    if n > 0 {
      ChainPrefix(parent, a, b, n - 1);
      assert n > 1 ==> a[n - 2] == b[n - 2];
      assert Kid(a, n - 1) == Kid(b, n - 1);
    }
  }

  /** Removing undoes inserting, and inserting undoes removing. */
  lemma InsertRemove(kids: seq<Node>, i: nat, item: Node)
    requires i <= |kids|
    ensures Removed(Inserted(kids, i, item), i) == kids
    ensures i < |kids| ==> Inserted(Removed(kids, i), i, kids[i]) == kids
  {
    assert kids[..i] + kids[i..] == kids;
    RemovedInserted(kids[..i], item, kids[i..]);
    if i < |kids| {
      assert kids == kids[..i] + [kids[i]] + kids[i + 1..];
      RemovedInserted(kids[..i], kids[i], kids[i + 1..]);
    }
  }

  lemma RemovedInserted(a: seq<Node>, item: Node, b: seq<Node>)
    ensures Inserted(a + b, |a|, item) == a + [item] + b && Removed(a + [item] + b, |a|) == a + b
  {
    assert (a + b)[..|a|] == a && (a + b)[|a|..] == b;
    assert (a + [item] + b)[..|a|] == a && (a + [item] + b)[|a| + 1..] == b;
    assert a + [item] + [] == a + [item];
  }

  lemma Apart(kids: seq<Node>, i: int, j: int)
    requires Unlike(kids)
    ensures i != j && Kid(kids, i) != null ==> Kid(kids, i) != Kid(kids, j)
  {
  }

  /**
    The links of `kids`, `item` aside, are those of a chain except that the successor at `a` is `next` and the
    predecessor at `b` is `prev`.
   */
  ghost predicate Rewired(kids: seq<Node>, item: Node, a: int, next: Node?, b: int, prev: Node?)
    reads kids
  {
    forall k :: 0 <= k < |kids| && kids[k] != item ==>
      kids[k].next == (if k == a then next else Kid(kids, k + 1))
      && kids[k].prev == (if k == b then prev else Kid(kids, k - 1))
  }

  /** The writes hit nodes, not places: since no node is listed twice, each hits one place. */
  lemma Rewiring(kids: seq<Node>, item: Node, a: int, next: Node?, b: int, prev: Node?)
    requires Unlike(kids)
    requires forall k :: 0 <= k < |kids| && kids[k] != item ==>
               kids[k].next == if kids[k] == Kid(kids, a) then next else Kid(kids, k + 1)
    requires forall k :: 0 <= k < |kids| && kids[k] != item ==>
               kids[k].prev == if kids[k] == Kid(kids, b) then prev else Kid(kids, k - 1)
    ensures Rewired(kids, item, a, next, b, prev)
  {
    hide Unlike;
    forall k | 0 <= k < |kids|
      ensures (kids[k] == Kid(kids, a) <==> k == a) && (kids[k] == Kid(kids, b) <==> k == b)
    {
      Apart(kids, k, a);
      Apart(kids, k, b);
    }
  }

  lemma RemovedAt(kids: seq<Node>, i: nat)
    requires Unlike(kids) && i < |kids|
    ensures var r := Removed(kids, i);
            Unlike(r) && |r| == |kids| - 1 && forall k :: 0 <= k < |r| ==> r[k] == kids[if k < i then k else k + 1]
    ensures kids[i] !in Removed(kids, i) && forall k :: 0 <= k < |kids| && k != i ==> kids[k] != kids[i]
  {
  }

  lemma RemovedChain(parent: Node, kids: seq<Node>, i: nat)
    requires Unlike(kids) && i < |kids|
    requires Rewired(kids, kids[i], i - 1, Kid(kids, i + 1), i + 1, Kid(kids, i - 1))
    requires parent.child == if i == 0 then Kid(kids, 1) else Kid(kids, 0)
    ensures Chain(parent, Removed(kids, i))
  {
    RemovedAt(kids, i);
    hide Unlike, Removed;
    var r := Removed(kids, i);
    forall k | 0 <= k < |r| ensures r[k].prev == Kid(r, k - 1) && r[k].next == Kid(r, k + 1) {
      assert r[k] == kids[if k < i then k else k + 1];
    }
  }

  lemma InsertedAt(kids: seq<Node>, i: nat, item: Node)
    requires Unlike(kids) && i < |kids| && item !in kids
    ensures var r := Inserted(kids, i, item);
            Unlike(r) && |r| == |kids| + 1 && r[i] == item
            && forall k :: 0 <= k < |r| && k != i ==> r[k] == kids[if k < i then k else k - 1]
    ensures forall k :: 0 <= k < |kids| ==> kids[k] != item
  {
  }

  lemma InsertedChain(parent: Node, kids: seq<Node>, i: nat, item: Node)
    requires Unlike(kids) && i < |kids| && item !in kids
    requires Rewired(kids, item, i - 1, item, i, item)
    requires item.prev == Kid(kids, i - 1) && item.next == kids[i]
    requires parent.child == if i == 0 then item else Kid(kids, 0)
    ensures Chain(parent, Inserted(kids, i, item))
  {
    InsertedAt(kids, i, item);
    hide Unlike, Inserted;
    var r := Inserted(kids, i, item);
    forall k | 0 <= k < |r| ensures r[k].prev == Kid(r, k - 1) && r[k].next == Kid(r, k + 1) {
      assert k != i ==> r[k] == kids[if k < i then k else k - 1];
    }
  }

  lemma ReplacedChain(parent: Node, kids: seq<Node>, i: nat, item: Node)
    requires Unlike(kids) && i < |kids| && item !in kids
    requires Rewired(kids, kids[i], i - 1, item, i + 1, item)
    requires item.prev == Kid(kids, i - 1) && item.next == Kid(kids, i + 1)
    requires parent.child == if i == 0 then item else Kid(kids, 0)
    ensures Chain(parent, kids[i := item])
  {
    var r := kids[i := item];
    forall k | 0 <= k < |r| ensures r[k].prev == Kid(r, k - 1) && r[k].next == Kid(r, k + 1) {
      assert k != i ==> r[k] == kids[k];
    }
  }

  method GetArrayItem(parent: Node, index: nat, ghost kids: seq<Node>) returns (item: Node?)
    requires Chain(parent, kids)
    ensures item == Kid(kids, index)
  {
    item := parent.child;
    var left: nat := index;
    ghost var i := 0;
    while item != null && left > 0
      invariant item == Kid(kids, i) && i + left == index && i <= |kids|
      decreases left
    {
      left := left - 1;
      item := item.next;
      i := i + 1;
    }
  }

  method SuffixObject(prev: Node, item: Node)
    modifies prev`next, item`prev
    ensures prev.next == item && item.prev == prev
  {
    prev.next := item;
    item.prev := prev;
  }

  /** Links `item` behind `last`, the end of the list if there is one. */
  method LinkBehind(parent: Node, last: Node?, item: Node, ghost kids: seq<Node>)
    requires Chain(parent, kids) && Detached(item) && item !in kids && last == Kid(kids, |kids| - 1)
    modifies parent`child, kids`next, item`prev
    ensures Chain(parent, kids + [item])
  {
    if last == null {
      parent.child := item;
    } else {
      SuffixObject(last, item);
    }
  }

  method AddItemToArray(parent: Node, item: Node, ghost kids: seq<Node>)
    requires Chain(parent, kids) && Detached(item) && item !in kids
    modifies parent`child, kids`next, kids`prev, item`prev
    ensures Chain(parent, kids + [item])
  {
    var child := parent.child;
    if child == null {
      parent.child := item;
    } else {
      ghost var i := 0;
      while child.next != null
        invariant i < |kids| && child == kids[i]
        decreases |kids| - i
      {
        child := child.next;
        i := i + 1;
      }
      SuffixObject(child, item);
    }
  }

  /** `cJSON_AddItemToObject`: the key, then the link. */
  method AddItemToObject(parent: Node, key: Text, item: Node, ghost kids: seq<Node>)
    requires Chain(parent, kids) && Detached(item) && item !in kids
    modifies parent`child, kids`next, kids`prev, item`prev, item`key
    ensures Chain(parent, kids + [item]) && item.key == key
  {
    item.key := key;
    AddItemToArray(parent, item, kids);
  }

  method InsertItemInArray(parent: Node, which: int, newitem: Node, ghost kids: seq<Node>)
    requires Chain(parent, kids) && Detached(newitem) && newitem !in kids
    modifies parent`child, kids`next, kids`prev, newitem`next, newitem`prev
    ensures Chain(parent, if which < 0 then kids else Inserted(kids, which, newitem))
    ensures which < 0 ==> Detached(newitem)
  {
    if which < 0 {
      return;
    }
    var afterInserted := GetArrayItem(parent, which, kids);
    if afterInserted == null {
      AddItemToArray(parent, newitem, kids);
      return;
    }
    hide Unlike;
    Apart(kids, which, which - 1);
    Apart(kids, 0, which);
    newitem.next := afterInserted;
    newitem.prev := afterInserted.prev;
    afterInserted.prev := newitem;
    if afterInserted == parent.child {
      parent.child := newitem;
    } else {
      newitem.prev.next := newitem;
    }
    Rewiring(kids, newitem, which - 1, newitem, which, newitem);
    InsertedChain(parent, kids, which, newitem);
  }

  /** `i` is where `item` stands among the children. */
  method DetachItemViaPointer(parent: Node, item: Node?, ghost kids: seq<Node>, ghost i: nat) returns (detached: Node?)
    requires Chain(parent, kids) && item == Kid(kids, i)
    modifies parent`child, kids`next, kids`prev
    ensures detached == item
    ensures Chain(parent, if item == null then kids else Removed(kids, i))
    ensures item != null ==> Detached(item)
  {
    if item == null {
      return null;
    }
    hide Unlike;
    Apart(kids, i, i - 1);
    Apart(kids, i, i + 1);
    Apart(kids, i - 1, i + 1);
    Apart(kids, 0, i);
    if item.prev != null {
      item.prev.next := item.next;
    }
    if item.next != null {
      item.next.prev := item.prev;
    }
    if item == parent.child {
      parent.child := item.next;
    }
    item.prev := null;
    item.next := null;
    detached := item;
    Rewiring(kids, item, i - 1, Kid(kids, i + 1), i + 1, Kid(kids, i - 1));
    RemovedChain(parent, kids, i);
  }

  method DetachItemFromArray(parent: Node, which: int, ghost kids: seq<Node>) returns (detached: Node?)
    requires Chain(parent, kids)
    modifies parent`child, kids`next, kids`prev
    ensures detached == Kid(kids, which)
    ensures Chain(parent, if 0 <= which < |kids| then Removed(kids, which) else kids)
    ensures detached != null ==> Detached(detached)
  {
    if which < 0 {
      return null;
    }
    var item := GetArrayItem(parent, which, kids);
    detached := DetachItemViaPointer(parent, item, kids, which);
  }

  /** Detaching undoes inserting: every link is as it was before. */
  method InsertThenDetach(parent: Node, which: nat, item: Node, ghost kids: seq<Node>) returns (detached: Node?)
    requires Chain(parent, kids) && Detached(item) && item !in kids
    modifies parent`child, kids`next, kids`prev, item`next, item`prev
    ensures which <= |kids| ==> detached == item && Detached(item) && Chain(parent, kids)
    ensures which <= |kids| ==> parent.child == old(parent.child)
    ensures which <= |kids| ==>
              forall k :: 0 <= k < |kids| ==> kids[k].next == old(kids[k].next) && kids[k].prev == old(kids[k].prev)
  {
    InsertItemInArray(parent, which, item, kids);
    detached := DetachItemFromArray(parent, which, Inserted(kids, which, item));
    if which <= |kids| {
      InsertRemove(kids, which, item);
    }
  }

  /** Inserting undoes detaching: the chain, and with it every link, is as it was before. */
  method DetachThenInsert(parent: Node, which: nat, ghost kids: seq<Node>)
    requires Chain(parent, kids)
    modifies parent`child, kids`next, kids`prev
    ensures Chain(parent, kids)
  {
    hide *;
    ChainUnlike(parent, kids);
    var item := DetachItemFromArray(parent, which, kids);
    if item != null {
      KidIs(kids, which);
      RemovedAt(kids, which);
      InsertRemove(kids, which, item);
      ghost var rest := Removed(kids, which);
      InsertItemInArray(parent, which, item, rest);
    }
  }

  lemma ChainUnlike(parent: Node, kids: seq<Node>)
    requires Chain(parent, kids)
    ensures Unlike(kids)
  {
  }

  lemma KidIs(kids: seq<Node>, i: nat)
    ensures Kid(kids, i) != null ==> i < |kids| && Kid(kids, i) == kids[i] && kids[i] in kids
  {
  }

  /** The replaced item comes out detached; the source then frees it. */
  method ReplaceItemViaPointer(parent: Node, item: Node?, replacement: Node, ghost kids: seq<Node>, ghost i: nat)
    returns (ok: bool)
    requires Chain(parent, kids) && item == Kid(kids, i)
    requires replacement == item || (Detached(replacement) && replacement !in kids)
    modifies parent`child, kids`next, kids`prev, replacement`next, replacement`prev
    ensures ok <==> item != null
    ensures Chain(parent, if item == null then kids else kids[i := replacement])
    ensures item != null && replacement != item ==> Detached(item)
  {
    if item == null {
      return false;
    }
    if replacement == item {
      assert kids[i := replacement] == kids;
      return true;
    }
    TakePlace(parent, item, replacement, kids, i);
    item.next := null;
    item.prev := null;
    ReplacedChain(parent, kids, i, replacement);
    ok := true;
  }

  /** `replacement` takes the place of `item` in the chain. */
  method TakePlace(parent: Node, item: Node, replacement: Node, ghost kids: seq<Node>, ghost i: nat)
    requires Chain(parent, kids) && i < |kids| && item == Kid(kids, i)
    requires replacement !in kids
    modifies parent`child, kids`next, kids`prev, replacement`next, replacement`prev
    ensures Rewired(kids, item, i - 1, replacement, i + 1, replacement)
    ensures replacement.prev == Kid(kids, i - 1) && replacement.next == Kid(kids, i + 1)
    ensures parent.child == if i == 0 then replacement else Kid(kids, 0)
  {
    ghost var before, after := Kid(kids, i - 1), Kid(kids, i + 1);
    assert item.prev == before && item.next == after;
    assert (before == null || before in kids) && (after == null || after in kids);
    hide Unlike, Kid, Rewired;
    assert forall k :: 0 <= k < |kids| ==> kids[k] != replacement;
    Apart(kids, i, i - 1);
    Apart(kids, i, i + 1);
    Apart(kids, i - 1, i + 1);
    Apart(kids, 0, i);
    replacement.next := item.next;
    replacement.prev := item.prev;
    if replacement.next != null {
      replacement.next.prev := replacement;
    }
    if replacement.prev != null {
      replacement.prev.next := replacement;
    }
    if parent.child == item {
      parent.child := replacement;
    }
    Rewiring(kids, item, i - 1, replacement, i + 1, replacement);
  }
}
