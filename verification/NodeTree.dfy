/** Linked nodes read as a tree: what adding to an object and duplicating do to it. */
module NodeTree {
  import opened Bytes
  import opened Json
  import opened NodeList

  /** Which nodes make a tree, and in what order; the last child comes off first. */
  datatype Shape = Shape(node: Node, kids: Shapes)

  datatype Shapes = Nil | Snoc(init: Shapes, last: Shape)

  ghost function Roots(kids: Shapes): (r: seq<Node>)
    ensures |r| == Count(kids)
    ensures forall n <- r :: n in Tops(kids)
  {
    if kids.Nil? then [] else Roots(kids.init) + [kids.last.node]
  }

  ghost function Tops(kids: Shapes): set<Node> {
    if kids.Nil? then {} else Tops(kids.init) + {kids.last.node}
  }

  ghost function Count(kids: Shapes): nat {
    if kids.Nil? then 0 else Count(kids.init) + 1
  }

  ghost function Nodes(s: Shape): set<Node> {
    {s.node} + NodesOf(s.kids)
  }

  ghost function NodesOf(kids: Shapes): (r: set<Node>)
    ensures Tops(kids) <= r
  {
    if kids.Nil? then {} else NodesOf(kids.init) + Nodes(kids.last)
  }

  /** The nodes below `kids`. */
  ghost function Below(kids: Shapes): (r: set<Node>)
    ensures r <= NodesOf(kids)
  {
    if kids.Nil? then {} else Below(kids.init) + NodesOf(kids.last.kids)
  }

  /** No node stands in two places. */
  ghost predicate Proper(s: Shape) {
    s.node !in NodesOf(s.kids) && ProperKids(s.kids)
  }

  ghost predicate ProperKids(kids: Shapes) {
    kids.Snoc? ==> ProperKids(kids.init) && Proper(kids.last) && NodesOf(kids.init) !! Nodes(kids.last)
  }

  /** The links in memory are those of `s`; the links of its root to siblings are not part of it. */
  ghost predicate Linked(s: Shape)
    reads s.node`child, NodesOf(s.kids)
    decreases s
  {
    Chain(s.node, Roots(s.kids)) && LinkedKids(s.kids)
  }

  ghost predicate LinkedKids(kids: Shapes)
    reads Tops(kids)`child, Below(kids)
    decreases kids
  {
    kids.Snoc? ==> LinkedKids(kids.init) && Linked(kids.last)
  }

  /** The tree these nodes stand for. */
  ghost function Value(s: Shape): Json
    reads NodesOf(s.kids)
    decreases s
  {
    match s.node.content
    case Arr(_) => Arr(ToItems(Fields(s.kids)))
    case Obj(_) => Obj(ToMembers(Fields(s.kids)))
    case c => c
  }

  /** The keys and values of the children. */
  ghost function Fields(kids: Shapes): (f: seq<(Text, Json)>)
    reads Tops(kids)`key, Below(kids)
    ensures |f| == Count(kids)
    decreases kids
  {
    if kids.Nil? then [] else Fields(kids.init) + [(kids.last.node.key, Value(kids.last))]
  }

  function ToItems(fields: seq<(Text, Json)>): Items {
    if fields == [] then INil else ICons(fields[0].1, ToItems(fields[1..]))
  }

  function ToMembers(fields: seq<(Text, Json)>): Members {
    if fields == [] then MNil else MCons(fields[0].0, fields[0].1, ToMembers(fields[1..]))
  }

  /** `item` behind the children of `s`. */
  ghost function Added(s: Shape, item: Shape): Shape {
    Shape(s.node, Snoc(s.kids, item))
  }

  lemma {:induction false} RootsApart(kids: Shapes)
    requires ProperKids(kids)
    ensures Tops(kids) !! Below(kids) && NodesOf(kids) == Tops(kids) + Below(kids)
  {
    if kids.Snoc? {
      RootsApart(kids.init);
    }
  }

  lemma AddedLinked(s: Shape, t: Shape)
    requires Chain(s.node, Roots(s.kids) + [t.node]) && LinkedKids(s.kids) && Linked(t)
    requires Proper(s) && Proper(t) && Nodes(s) !! Nodes(t)
    ensures Proper(Added(s, t)) && Linked(Added(s, t))
    ensures Fields(Added(s, t).kids) == Fields(s.kids) + [(t.node.key, Value(t))]
  {
  }

  lemma {:induction false} InMemory(kids: Shapes)
    ensures forall n <- NodesOf(kids) :: allocated(n)
    ensures Tops(kids) <= NodesOf(kids) && Below(kids) <= NodesOf(kids)
  {
    if kids.Snoc? {
      InMemory(kids.init);
      InMemory(kids.last.kids);
      assert NodesOf(kids) == NodesOf(kids.init) + ({kids.last.node} + NodesOf(kids.last.kids));
    }
  }

  /** Editing the links between siblings leaves everything below them alone. */
  lemma Separation(s: Shape, t: Shape)
    requires Proper(s) && Proper(t) && Nodes(s) !! Nodes(t) && Linked(s)
    ensures forall i :: 0 <= i < |Roots(s.kids)| ==>
              var n := Roots(s.kids)[i]; n !in Below(s.kids) && n !in NodesOf(t.kids) && n != t.node
    ensures s.node !in Below(s.kids) && s.node !in Tops(s.kids) && s.node !in NodesOf(t.kids) && s.node != t.node
    ensures t.node !in Below(s.kids) && t.node !in Tops(s.kids) && t.node !in NodesOf(t.kids)
    ensures Chain(s.node, Roots(s.kids)) && LinkedKids(s.kids)
  {
    RootsApart(s.kids);
  }

  /** `cJSON_AddItemToObject` on trees: the object gets one more member, at the end. */
  method AddToObject(parent: Node, key: Text, item: Node, ghost s: Shape, ghost t: Shape)
    requires parent == s.node && Proper(s) && Linked(s)
    requires item == t.node && Proper(t) && Linked(t) && Detached(item) && Nodes(s) !! Nodes(t)
    modifies parent`child, Tops(s.kids)`next, Tops(s.kids)`prev, item`prev, item`key
    ensures Proper(Added(s, t)) && Linked(Added(s, t))
    ensures Fields(Added(s, t).kids) == old(Fields(s.kids)) + [(key, old(Value(t)))]
  {
    hide *;
    ghost var kids := s.kids;
    Separation(s, t);
    InMemory(kids);
    InMemory(t.kids);
    AddItemToObject(parent, key, item, Roots(kids));
    assert Linked(t);
    assert LinkedKids(kids);
    assert Value(t) == old(Value(t));
    assert Fields(kids) == old(Fields(kids));
    AddedLinked(s, t);
  }

  // ---- Walking the children ----

  ghost function Size(s: Shape): nat {
    1 + SizeOf(s.kids)
  }

  ghost function SizeOf(kids: Shapes): nat {
    if kids.Nil? then 0 else SizeOf(kids.init) + Size(kids.last)
  }

  ghost function Kth(kids: Shapes, i: nat): (s: Shape)
    requires i < Count(kids)
    ensures Size(s) <= SizeOf(kids)
  {
    if i + 1 == Count(kids) then kids.last else Kth(kids.init, i)
  }

  lemma {:induction false} KthFacts(kids: Shapes, i: nat)
    requires LinkedKids(kids) && i < Count(kids)
    ensures Linked(Kth(kids, i)) && Roots(kids)[i] == Kth(kids, i).node
    ensures Fields(kids)[i] == (Kth(kids, i).node.key, Value(Kth(kids, i)))
  {
    if i + 1 < Count(kids) {
      KthFacts(kids.init, i);
    }
  }

  /** One round of a loop over the children. */
  lemma KidStep(s: Shape, i: nat)
    requires Linked(s) && i < Count(s.kids)
    ensures var k := Kth(s.kids, i);
            Kid(Roots(s.kids), i) == k.node && Linked(k) && k.node.next == Kid(Roots(s.kids), i + 1)
            && Fields(s.kids)[..i + 1] == Fields(s.kids)[..i] + [(k.node.key, Value(k))]
    ensures Size(Kth(s.kids, i)) < Size(s)
  {
    KthFacts(s.kids, i);
  }

  /** Before and after a loop over the children. */
  lemma KidsEnd(s: Shape, i: nat)
    requires Linked(s) && i <= Count(s.kids)
    ensures s.node.child == Kid(Roots(s.kids), 0) && Fields(s.kids)[..0] == []
    ensures Kid(Roots(s.kids), i) == null ==> Fields(s.kids)[..i] == Fields(s.kids)
  {
  }

  lemma ValueOf(s: Shape)
    ensures s.node.content.Arr? ==> Value(s) == Arr(ToItems(Fields(s.kids)))
    ensures s.node.content.Obj? ==> Value(s) == Obj(ToMembers(Fields(s.kids)))
    ensures !s.node.content.Arr? && !s.node.content.Obj? ==> Value(s) == s.node.content
  {
  }

  /** The tree a reader that follows the links finds, as the printer does. */
  method Walk(node: Node, ghost s: Shape) returns (j: Json)
    requires node == s.node && Linked(s)
    ensures j == old(Value(s))
    decreases Size(s)
  {
    hide *;
    KidsEnd(s, 0);
    InMemory(s.kids);
    ValueOf(s);
    ghost var all := Fields(s.kids);
    var fields: seq<(Text, Json)> := [];
    var child := node.child;
    while child != null
      invariant |fields| <= Count(s.kids) && child == Kid(Roots(s.kids), |fields|)
      invariant Linked(s) && Fields(s.kids) == all && fields == all[..|fields|]
      decreases Count(s.kids) - |fields|
    {
      ghost var i := |fields|;
      KidStep(s, i);
      var value := Walk(child, Kth(s.kids, i));
      fields := fields + [(child.key, value)];
      child := child.next;
    }
    KidsEnd(s, |fields|);
    match node.content
    case Arr(_) => j := Arr(ToItems(fields));
    case Obj(_) => j := Obj(ToMembers(fields));
    case _ => j := node.content;
  }

  /** `item`, whose key is set already, goes behind `last`. */
  method LinkBehindTree(parent: Node, last: Node?, item: Node, ghost s: Shape, ghost t: Shape)
    requires parent == s.node && Proper(s) && Linked(s) && last == Kid(Roots(s.kids), |Roots(s.kids)| - 1)
    requires item == t.node && Proper(t) && Linked(t) && Detached(item) && Nodes(s) !! Nodes(t)
    modifies parent`child, Tops(s.kids)`next, item`prev
    ensures Proper(Added(s, t)) && Linked(Added(s, t))
    ensures Fields(Added(s, t).kids) == old(Fields(s.kids)) + [(item.key, old(Value(t)))]
  {
    hide *;
    ghost var kids := s.kids;
    Separation(s, t);
    InMemory(kids);
    InMemory(t.kids);
    LinkBehind(parent, last, item, Roots(kids));
    assert Linked(t);
    assert LinkedKids(kids);
    assert Value(t) == old(Value(t));
    assert Fields(kids) == old(Fields(kids));
    AddedLinked(s, t);
  }

  /** Copies the child at `i` of `s` behind the copies made so far, `t`. */
  method DuplicateKid(newitem: Node, next: Node?, child: Node, ghost s: Shape, ghost i: nat, ghost t: Shape)
    returns (newchild: Node, ghost c: Shape)
    requires Linked(s) && i < Count(s.kids) && child == Kth(s.kids, i).node
    requires newitem == t.node && Proper(t) && Linked(t) && next == Kid(Roots(t.kids), |Roots(t.kids)| - 1)
    modifies newitem`child, Tops(t.kids)`next
    ensures newchild == c.node && fresh(Nodes(c)) && Proper(Added(t, c)) && Linked(Added(t, c))
    ensures Fields(Added(t, c).kids) == old(Fields(t.kids)) + [(child.key, old(Value(Kth(s.kids, i))))]
    decreases Size(s), 0
  {
    hide *;
    KidStep(s, i);
    InMemory(t.kids);
    NodesSplit(t);
    newchild, c := Duplicate(child, Kth(s.kids, i));
    NodesSplit(c);
    LinkBehindTree(newitem, next, newchild, t, c);
  }

  lemma NodesSplit(s: Shape)
    requires Proper(s)
    ensures s.node in Nodes(s) && s.node !in Tops(s.kids)
    ensures Nodes(s) == {s.node} + NodesOf(s.kids) && Tops(s.kids) <= Nodes(s)
  {
  }

  /**
    `cJSON_Duplicate` with `recurse`: a tree of new nodes with the same value, while the original stays as it is
    (nothing old is modified).
   */
  method Duplicate(item: Node, ghost s: Shape) returns (newitem: Node, ghost t: Shape)
    requires item == s.node && Linked(s)
    ensures newitem == t.node && Proper(t) && Linked(t) && fresh(Nodes(t)) && Detached(newitem)
    ensures Value(t) == old(Value(s)) && newitem.key == item.key
    decreases Size(s), 1
  {
    hide *;
    KidsEnd(s, 0);
    InMemory(s.kids);
    ghost var all := Fields(s.kids);
    newitem := new Node(item.content);
    newitem.key := item.key;
    t := Shape(newitem, Nil);
    LeafFacts(t);
    var child := item.child;
    var next: Node? := null;
    ghost var i := 0;
    while child != null
      invariant i <= Count(s.kids) && child == Kid(Roots(s.kids), i) && Linked(s) && Fields(s.kids) == all
      invariant t.node == newitem && Detached(newitem) && newitem.key == item.key
      invariant Proper(t) && Linked(t) && fresh(Nodes(t))
      invariant Fields(t.kids) == all[..i]
      invariant next == Kid(Roots(t.kids), |Roots(t.kids)| - 1)
      decreases Count(s.kids) - i
    {
      KidStep(s, i);
      NodesSplit(t);
      ghost var c;
      next, c := DuplicateKid(newitem, next, child, s, i, t);
      AddedFacts(t, c);
      t := Added(t, c);
      KidStep(s, i);
      child := child.next;
      i := i + 1;
    }
    KidsEnd(s, i);
    ValueOf(s);
    ValueOf(t);
  }

  lemma LeafFacts(s: Shape)
    requires s.kids.Nil? && s.node.child == null
    ensures Proper(s) && Linked(s) && Nodes(s) == {s.node} && Roots(s.kids) == [] && Fields(s.kids) == []
    ensures !s.node.content.Arr? && !s.node.content.Obj? ==> Value(s) == s.node.content
  {
  }

  lemma AddedFacts(s: Shape, t: Shape)
    ensures Added(s, t).node == s.node && Nodes(Added(s, t)) == Nodes(s) + Nodes(t)
    ensures Kid(Roots(Added(s, t).kids), |Roots(Added(s, t).kids)| - 1) == t.node
  {
  }
}
