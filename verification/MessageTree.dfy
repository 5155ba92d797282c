/** The tree `encode_message` links together, node by node, and the text it prints. */
module MessageTree {
  import opened Bytes
  import Numbers
  import opened Json
  import opened NodeList
  import opened NodeTree
  import opened Messages
  import PrintBuffer

  /** A node on its own. */
  ghost function Leaf(n: Node): Shape {
    Shape(n, Nil)
  }

  /** `version`, `data` and `type` under the root, once `data` looks like `d`. */
  ghost function RootShape(root: Node, version: Node, d: Shape, kind: Node): Shape {
    Shape(root, Snoc(Snoc(Snoc(Nil, Leaf(version)), d), Leaf(kind)))
  }

  lemma Listed(a: (Text, Json), b: (Text, Json), c: (Text, Json))
    ensures ToMembers([a]) == MCons(a.0, a.1, MNil)
    ensures ToMembers([a, b]) == MCons(a.0, a.1, MCons(b.0, b.1, MNil))
    ensures ToMembers([a, b, c]) == MCons(a.0, a.1, MCons(b.0, b.1, MCons(c.0, c.1, MNil)))
  {
    assert [a][1..] == [] && [a, b][1..] == [b] && [b][1..] == [];
    assert [a, b, c][1..] == [b, c] && [b, c][1..] == [c] && [c][1..] == [];
    assert ToMembers([c]) == MCons(c.0, c.1, MNil);
  }

  lemma DataListed(m: Message)
    requires !m.Invalid? && !m.KeepAlive?
    ensures DataMembers(m)
         == ToMembers(if m.HardErrorValve? then [(MESSAGE, Str(m.text)), (VALVE_NO, Num(m.valveNo as real))]
                      else [(MESSAGE, Str(m.text))])
  {
    var f := (MESSAGE, Str(m.text));
    var g := (VALVE_NO, Num(if m.HardErrorValve? then m.valveNo as real else 0.0));
    Listed(f, g, g);
  }

  /** The message's fields go into `data`, which is linked under the root already. */
  method FillData(data: Node, m: Message) returns (ghost d: Shape)
    requires !m.Invalid? && data.content == Obj(MNil) && data.child == null
    modifies data`child
    ensures Proper(d) && Linked(d) && d.node == data && fresh(NodesOf(d.kids))
    ensures Value(d) == Obj(DataMembers(m))
  {
    d := Leaf(data);
    if m.KeepAlive? {
      return;
    }
    ghost var f, g := (MESSAGE, Str(m.text)), (VALVE_NO, Num(if m.HardErrorValve? then m.valveNo as real else 0.0));
    hide ToMembers, TypeName, DataMembers;
    assert Obj(DataMembers(m)) == Obj(ToMembers(if m.HardErrorValve? then [f, g] else [f])) by {
      DataListed(m);
    }
    var text := new Node(Str(m.text));
    AddToObject(data, MESSAGE, text, d, Leaf(text));
    d := Added(d, Leaf(text));
    assert Fields(d.kids) == [f];
    if m.HardErrorValve? {
      var valve := new Node(Num(m.valveNo as real));
      AddToObject(data, VALVE_NO, valve, d, Leaf(valve));
      d := Added(d, Leaf(valve));
      assert Fields(d.kids) == [f, g];
    }
  }

  /** The root object with its three members, as the source adds them: `data` goes in empty and is filled later. */
  method BuildTree(m: Message) returns (root: Node, ghost s: Shape)
    requires !m.Invalid?
    ensures Proper(s) && Linked(s) && s.node == root && fresh(Nodes(s))
    ensures Value(s) == Tree(m)
  {
    var version, data, kind;
    root, version, data, kind := LinkRoot(TypeName(m));
    hide *;
    ghost var d := FillData(data, m);
    s := RootShape(root, version, d, kind);
    RootLinked(root, version, d, kind, m);
  }

  method LinkRoot(name: Text) returns (root: Node, version: Node, data: Node, kind: Node)
    ensures Chain(root, [version, data, kind])
    ensures fresh(root) && fresh(version) && fresh(data) && fresh(kind)
    ensures root != version && root != data && root != kind && version != data && version != kind && data != kind
    ensures version.child == null && data.child == null && kind.child == null
    ensures root.content == data.content == Obj(MNil)
    ensures version.content == Num(FORMAT_VERSION) && kind.content == Str(name)
    ensures version.key == VERSION && data.key == DATA && kind.key == TYPE
  {
    hide Chain;
    version := new Node(Num(FORMAT_VERSION));
    root := new Node(Obj(MNil));
    EmptyChain(root);
    AddItemToObject(root, VERSION, version, []);
    assert [] + [version] == [version];
    data := new Node(Obj(MNil));
    AddItemToObject(root, DATA, data, [version]);
    assert [version] + [data] == [version, data];
    kind := new Node(Str(name));
    AddItemToObject(root, TYPE, kind, [version, data]);
    assert [version, data] + [kind] == [version, data, kind];
  }

  lemma EmptyChain(n: Node)
    requires n.child == null
    ensures Chain(n, [])
  {
  }

  lemma RootLinked(root: Node, version: Node, d: Shape, kind: Node, m: Message)
    requires !m.Invalid? && Chain(root, [version, d.node, kind])
    requires root !in Nodes(d) && version !in Nodes(d) && kind !in Nodes(d)
    requires root != version && root != kind && version != kind
    requires Proper(d) && Linked(d) && Value(d) == Obj(DataMembers(m))
    requires version.child == null && kind.child == null && root.content == Obj(MNil)
    requires version.content == Num(FORMAT_VERSION) && kind.content == Str(TypeName(m))
    requires version.key == VERSION && d.node.key == DATA && kind.key == TYPE
    ensures var s := RootShape(root, version, d, kind);
            Proper(s) && Linked(s) && Value(s) == Tree(m)
    ensures Nodes(RootShape(root, version, d, kind)) == {root, version, kind} + Nodes(d)
  {
    Listed((VERSION, Num(FORMAT_VERSION)), (DATA, Value(d)), (TYPE, Str(TypeName(m))));
    var one := Snoc(Nil, Leaf(version));
    var two := Snoc(one, d);
    var three := Snoc(two, Leaf(kind));
    LeafFacts(Leaf(version));
    LeafFacts(Leaf(kind));
    NilFacts();
    SnocFacts(Nil, Leaf(version));
    SnocFacts(one, d);
    SnocFacts(two, Leaf(kind));
    hide NodesOf, ProperKids, LinkedKids, Fields, Roots, ToMembers;
    assert Roots(three) == [version, d.node, kind];
    assert Fields(three) == [(VERSION, Num(FORMAT_VERSION)), (DATA, Value(d)), (TYPE, Str(TypeName(m)))];
  }

  lemma NilFacts()
    ensures NodesOf(Nil) == {} && ProperKids(Nil) && LinkedKids(Nil) && Roots(Nil) == [] && Fields(Nil) == []
  {
  }

  lemma SnocFacts(kids: Shapes, last: Shape)
    ensures var more := Snoc(kids, last);
            NodesOf(more) == NodesOf(kids) + Nodes(last)
            && (ProperKids(more) <==> ProperKids(kids) && Proper(last) && NodesOf(kids) !! Nodes(last))
            && (LinkedKids(more) <==> LinkedKids(kids) && Linked(last))
            && Roots(more) == Roots(kids) + [last.node]
            && Fields(more) == Fields(kids) + [(last.node.key, Value(last))]
  {
  }

  /** The C string `t` stands at the start of `a`. */
  ghost predicate Holds(a: array<byte>, t: Text)
    reads a
  {
    |t| < a.Length && a[..|t|] == t && a[|t|] == NUL && NulFree(t)
  }

  /** `strnlen`. */
  method Strnlen(a: array<byte>, limit: nat, ghost t: Text) returns (n: nat)
    requires Holds(a, t)
    ensures n == Least(|t|, limit)
  {
    n := 0;
    while n < limit && a[n] != NUL
      invariant n <= |t| && n <= limit
    {
      assert a[n] == a[..|t| + 1][n];
      n := n + 1;
    }
    assert n < |t| ==> a[n] == t[n];
  }

  lemma PrintedHolds(m: Message)
    requires !m.Invalid?
    ensures Encoded(m) == Render(Tree(m), false, 0) && PrintBuffer.Slack(Tree(m)) == 2
  {
  }

  lemma HoldsText(a: array<byte>, t: Text)
    requires |t| < a.Length && a[..|t|] == t && a[|t|] == NUL && NulFree(t)
    ensures Holds(a, t)
  {
  }

  /**
    `encode_message`: the printed tree, and its length as far as a frame may be long. It fails for an invalid
    message, and if the printer's buffer would have to outgrow `int`.
   */
  method EncodeMessage(message: Message) returns (len: int, encodedMessage: Option<array<byte>>)
    requires WellFormed(message)
    ensures encodedMessage.Some? <==> !message.Invalid? && |Encoded(message)| + 2 <= Numbers.INT_MAX
    ensures encodedMessage.Some? ==>
              fresh(encodedMessage.value) && Holds(encodedMessage.value, Encoded(message))
              && len == Least(|Encoded(message)|, MAX_ENCODED_LEN)
    ensures encodedMessage.None? ==> len == -1
  {
    hide *;
    if message.Invalid? {
      return -1, None;
    }
    var root;
    ghost var s;
    root, s := BuildTree(message);
    var tree := Walk(root, s);
    TreePrintable(message);
    RenderNulFree(tree, false, 0);
    PrintedHolds(message);
    var text := PrintBuffer.Print(tree, false);
    if text.None? {
      return -1, None;
    }
    HoldsText(text.value, Encoded(message));
    var n := Strnlen(text.value, MAX_ENCODED_LEN, Encoded(message));
    return n, text;
  }
}
