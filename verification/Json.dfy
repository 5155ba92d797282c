/** JSON trees and the text the printer writes for them, formatted or not. */
module Json {
  import opened Bytes
  import JsonStrings
  import Numbers

  /** A cJSON node without its links: children are lists in chain order, with their keys inside an object. */
  datatype Json =
    | Null
    | Bool(b: bool)
    | Num(v: real)
    | Str(s: Text)
    | Arr(items: Items)
    | Obj(members: Members)

  datatype Items = INil | ICons(head: Json, tail: Items)

  datatype Members = MNil | MCons(key: Text, value: Json, rest: Members)

  const NULL_TEXT: Text := Lit("null")
  const TRUE_TEXT: Text := Lit("true")
  const FALSE_TEXT: Text := Lit("false")

  /** How deep containers nest. */
  function Height(j: Json): nat {
    match j
    case Arr(items) => 1 + ItemsHeight(items)
    case Obj(members) => 1 + MembersHeight(members)
    case _ => 0
  }

  function Max(a: nat, b: nat): nat {
    if a >= b then a else b
  }

  function ItemsHeight(items: Items): nat {
    match items
    case INil => 0
    case ICons(h, t) => Max(Height(h), ItemsHeight(t))
  }

  function MembersHeight(members: Members): nat {
    match members
    case MNil => 0
    case MCons(_, v, rest) => Max(Height(v), MembersHeight(rest))
  }

  predicate IsPrintableNumber(v: real) {
    v == v.Floor as real && -Numbers.PRINT_LIMIT < v.Floor < Numbers.PRINT_LIMIT
  }

  /** C strings hold no NUL, and numbers are integers that `%1.15g` prints in plain digits. */
  predicate Printable(j: Json) {
    match j
    case Num(v) => IsPrintableNumber(v)
    case Str(s) => NulFree(s)
    case Arr(items) => PrintableItems(items)
    case Obj(members) => PrintableMembers(members)
    case _ => true
  }

  predicate PrintableItems(items: Items) {
    items.ICons? ==> Printable(items.head) && PrintableItems(items.tail)
  }

  predicate PrintableMembers(members: Members) {
    members.MCons? ==> NulFree(members.key) && Printable(members.value) && PrintableMembers(members.rest)
  }

  /** Keys and strings are C strings. */
  predicate CStrings(j: Json) {
    match j
    case Str(s) => NulFree(s)
    case Arr(items) => CStringItems(items)
    case Obj(members) => CStringMembers(members)
    case _ => true
  }

  predicate CStringItems(items: Items) {
    items.ICons? ==> CStrings(items.head) && CStringItems(items.tail)
  }

  predicate CStringMembers(members: Members) {
    members.MCons? ==> NulFree(members.key) && CStrings(members.value) && CStringMembers(members.rest)
  }

  // ---- Rendering ----

  function Tabs(n: nat): (t: Text)
    ensures |t| == n && forall k :: 0 <= k < n ==> t[k] == TAB
  {
    seq(n, _ => TAB)
  }

  function Indent(fmt: bool, depth: nat): Text {
    if fmt then Tabs(depth) else []
  }

  function Newline(fmt: bool): Text {
    if fmt then [LF] else []
  }

  function Colon(fmt: bool): Text {
    if fmt then [COLON, TAB] else [COLON]
  }

  function Separator(fmt: bool): Text {
    if fmt then [COMMA, SPACE] else [COMMA]
  }

  /** The text of `j` inside `depth` containers. */
  function Render(j: Json, fmt: bool, depth: nat): (t: Text)
    ensures |t| > 0
    decreases j, 0
  {
    match j
    case Null => NULL_TEXT
    case Bool(b) => if b then TRUE_TEXT else FALSE_TEXT
    case Num(v) => Numbers.Decimal(v.Floor)
    case Str(s) => JsonStrings.Quoted(s)
    case Arr(items) => [LBRACKET] + (RenderItems(items, fmt, depth + 1) + [RBRACKET])
    case Obj(members) =>
      [LBRACE] + (Newline(fmt) + (RenderMembers(members, fmt, depth + 1) + (Indent(fmt, depth) + [RBRACE])))
  }

  function RenderItems(items: Items, fmt: bool, depth: nat): Text
    decreases items, 0
  {
    match items
    case INil => []
    case ICons(h, t) =>
      Render(h, fmt, depth) + if t.INil? then [] else Separator(fmt) + RenderItems(t, fmt, depth)
  }

  function RenderMembers(members: Members, fmt: bool, depth: nat): Text
    decreases members, 0
  {
    match members
    case MNil => []
    case MCons(key, value, rest) =>
      Indent(fmt, depth)
      + (JsonStrings.Quoted(key) + (Colon(fmt) + (Render(value, fmt, depth) + AfterValue(rest, fmt, depth))))
  }

  /** What follows a member's value: the comma and the other members, or just the line's end. */
  function AfterValue(rest: Members, fmt: bool, depth: nat): Text
    decreases rest, 1
  {
    if rest.MNil? then Newline(fmt) else [COMMA] + (Newline(fmt) + RenderMembers(rest, fmt, depth))
  }

  /** Every rendering starts with a visible byte that closes no container. */
  lemma FirstByte(j: Json, fmt: bool, depth: nat)
    ensures var c := Render(j, fmt, depth)[0];
            c > SPACE && c != RBRACKET && c != RBRACE && c != SLASH
  {
  }

  // ---- The layout, told apart from how it is written ----

  function Joined(parts: seq<Text>, separator: Text): Text {
    if parts == [] then []
    else if |parts| == 1 then parts[0]
    else parts[0] + (separator + Joined(parts[1..], separator))
  }

  function ElementTexts(items: Items, fmt: bool, depth: nat): seq<Text>
    decreases items, 1
  {
    if items.INil? then [] else [Render(items.head, fmt, depth)] + ElementTexts(items.tail, fmt, depth)
  }

  /** A member on its line: `depth` tabs, the key, a colon, a tab and the value. */
  function Line(key: Text, value: Json, depth: nat): Text {
    seq(depth, _ => '\t' as int) + (JsonStrings.Quoted(key) + (Lit(":\t") + Render(value, true, depth)))
  }

  function LineTexts(members: Members, depth: nat): seq<Text> {
    if members.MNil? then [] else [Line(members.key, members.value, depth)] + LineTexts(members.rest, depth)
  }

  function Pair(key: Text, value: Json, depth: nat): Text {
    JsonStrings.Quoted(key) + (Lit(":") + Render(value, false, depth))
  }

  function PairTexts(members: Members, depth: nat): seq<Text> {
    if members.MNil? then [] else [Pair(members.key, members.value, depth)] + PairTexts(members.rest, depth)
  }

  lemma {:induction false} ElementsJoined(items: Items, fmt: bool, depth: nat)
    ensures RenderItems(items, fmt, depth) == Joined(ElementTexts(items, fmt, depth), Lit(if fmt then ", " else ","))
    ensures |ElementTexts(items, fmt, depth)| == 0 <==> items.INil?
  {
    assert Separator(fmt) == Lit(if fmt then ", " else ",");
    if items.ICons? {
      ElementsJoined(items.tail, fmt, depth);
      assert ElementTexts(items, fmt, depth)[1..] == ElementTexts(items.tail, fmt, depth);
      assert Render(items.head, fmt, depth) + [] == Render(items.head, fmt, depth);
    }
  }

  lemma {:induction false} LinesJoined(members: Members, depth: nat)
    ensures RenderMembers(members, true, depth)
         == Joined(LineTexts(members, depth), Lit(",\n")) + if members.MNil? then [] else Lit("\n")
    ensures |LineTexts(members, depth)| == 0 <==> members.MNil?
  {
    if members.MCons? {
      LinesJoined(members.rest, depth);
      hide Joined, RenderMembers;
      var tabs, key, value := Tabs(depth), JsonStrings.Quoted(members.key), Render(members.value, true, depth);
      var rest := LineTexts(members.rest, depth);
      assert tabs == seq(depth, _ => '\t' as int);
      JoinedCons(Line(members.key, members.value, depth), rest, Lit(",\n"));
      assert LineTexts(members, depth) == [Line(members.key, members.value, depth)] + rest;
      LineIs(members, depth);
      var line := Line(members.key, members.value, depth);
      if members.rest.MNil? {
        assert rest == [];
      } else {
        var body := Joined(rest, Lit(",\n"));
        assert line + (Lit(",\n") + (body + Lit("\n"))) == line + (Lit(",\n") + body) + Lit("\n");
      }
    }
  }

  lemma JoinedCons(first: Text, rest: seq<Text>, separator: Text)
    ensures Joined([first] + rest, separator)
         == if rest == [] then first else first + (separator + Joined(rest, separator))
  {
    assert ([first] + rest)[1..] == rest;
  }

  lemma LineIs(members: Members, depth: nat)
    requires members.MCons?
    ensures RenderMembers(members, true, depth)
         == Line(members.key, members.value, depth)
            + if members.rest.MNil? then Lit("\n") else Lit(",\n") + RenderMembers(members.rest, true, depth)
  {
    hide Render, RenderMembers;
    var tabs, key, value := Tabs(depth), JsonStrings.Quoted(members.key), Render(members.value, true, depth);
    var after := AfterValue(members.rest, true, depth);
    assert tabs == seq(depth, _ => '\t' as int);
    assert Colon(true) == Lit(":\t");
    assert after == if members.rest.MNil? then Lit("\n") else Lit(",\n") + RenderMembers(members.rest, true, depth) by {
      assert Newline(true) == Lit("\n") && [COMMA] + Lit("\n") == Lit(",\n");
      var rest := RenderMembers(members.rest, true, depth);
      assert [COMMA] + (Lit("\n") + rest) == [COMMA] + Lit("\n") + rest;
    }
    assert RenderMembers(members, true, depth) == tabs + (key + (Colon(true) + (value + after))) by {
      MembersAre(members, true, depth);
    }
    assert tabs + (key + (Lit(":\t") + (value + after))) == tabs + (key + (Lit(":\t") + value)) + after;
  }

  lemma MembersAre(members: Members, fmt: bool, depth: nat)
    requires members.MCons?
    ensures RenderMembers(members, fmt, depth)
         == Indent(fmt, depth)
            + (JsonStrings.Quoted(members.key)
               + (Colon(fmt) + (Render(members.value, fmt, depth) + AfterValue(members.rest, fmt, depth))))
  {
  }

  lemma {:induction false} PairTextsJoined(members: Members, depth: nat)
    ensures RenderMembers(members, false, depth) == Joined(PairTexts(members, depth), Lit(","))
    ensures |PairTexts(members, depth)| == 0 <==> members.MNil?
  {
    if members.MCons? {
      PairTextsJoined(members.rest, depth);
      var rest := PairTexts(members.rest, depth);
      JoinedCons(Pair(members.key, members.value, depth), rest, Lit(","));
      PairIs(members, depth);
      hide Joined, RenderMembers;
      assert PairTexts(members, depth) == [Pair(members.key, members.value, depth)] + rest;
    }
  }

  lemma PairIs(members: Members, depth: nat)
    requires members.MCons?
    ensures RenderMembers(members, false, depth)
         == Pair(members.key, members.value, depth)
            + if members.rest.MNil? then [] else Lit(",") + RenderMembers(members.rest, false, depth)
  {
    MembersAre(members, false, depth);
    hide Render, RenderMembers;
    var key, value := JsonStrings.Quoted(members.key), Render(members.value, false, depth);
    var after := AfterValue(members.rest, false, depth);
    assert Colon(false) == Lit(":");
    assert after == if members.rest.MNil? then [] else Lit(",") + RenderMembers(members.rest, false, depth) by {
      var rest := RenderMembers(members.rest, false, depth);
      assert [] + rest == rest && [COMMA] == Lit(",");
    }
    assert [] + (key + (Lit(":") + (value + after))) == key + (Lit(":") + value) + after;
  }

  /**
    Elements are separated by a comma, and a blank when formatted. Formatted, each member stands on a line of its own,
    behind as many tabs as containers are open, and the closing brace on another, behind one tab less.
   */
  lemma Layout(items: Items, members: Members, fmt: bool, depth: nat)
    ensures Render(Arr(items), fmt, depth)
         == Lit("[") + Joined(ElementTexts(items, fmt, depth + 1), Lit(if fmt then ", " else ",")) + Lit("]")
    ensures Render(Obj(members), false, depth) == Lit("{") + Joined(PairTexts(members, depth + 1), Lit(",")) + Lit("}")
    ensures Render(Obj(members), true, depth)
         == Lit("{\n") + Joined(LineTexts(members, depth + 1), Lit(",\n")) + (if members.MNil? then [] else Lit("\n"))
            + seq(depth, _ => '\t' as int) + Lit("}")
  {
    ElementsJoined(items, fmt, depth + 1);
    LinesJoined(members, depth + 1);
    PairTextsJoined(members, depth + 1);
    ArrayIs(items, fmt, depth);
    ObjectIs(members, depth);
    hide Render, Joined;
  }

  lemma ArrayIs(items: Items, fmt: bool, depth: nat)
    ensures Render(Arr(items), fmt, depth) == Lit("[") + RenderItems(items, fmt, depth + 1) + Lit("]")
  {
    var body := RenderItems(items, fmt, depth + 1);
    assert [LBRACKET] == Lit("[") && [RBRACKET] == Lit("]");
    assert [LBRACKET] + (body + [RBRACKET]) == [LBRACKET] + body + [RBRACKET];
  }

  lemma ObjectIs(members: Members, depth: nat)
    ensures Render(Obj(members), false, depth) == Lit("{") + RenderMembers(members, false, depth + 1) + Lit("}")
    ensures Render(Obj(members), true, depth)
         == Lit("{\n") + RenderMembers(members, true, depth + 1) + seq(depth, _ => '\t' as int) + Lit("}")
  {
    var plain, body := RenderMembers(members, false, depth + 1), RenderMembers(members, true, depth + 1);
    assert [LBRACE] == Lit("{") && [RBRACE] == Lit("}") && [LBRACE] + [LF] == Lit("{\n");
    assert Tabs(depth) == seq(depth, _ => '\t' as int);
    assert [LBRACE] + ([] + (plain + ([] + [RBRACE]))) == [LBRACE] + plain + [RBRACE];
    assert [LBRACE] + ([LF] + (body + (Tabs(depth) + [RBRACE]))) == [LBRACE] + [LF] + body + Tabs(depth) + [RBRACE];
  }

  lemma ScalarLayout(b: bool, n: int, t: Text, fmt: bool, depth: nat)
    ensures Render(Null, fmt, depth) == Lit("null") && Render(Bool(b), fmt, depth) == Lit(if b then "true" else "false")
    ensures Render(Num(n as real), fmt, depth) == Numbers.Decimal(n)
    ensures Render(Str(t), fmt, depth) == Lit("\"") + JsonStrings.Escape(t) + Lit("\"")
  {
    assert [QUOTE] == Lit("\"");
  }

  // ---- A rendering holds no NUL, so `strlen` measures it ----

  lemma {:induction false} RenderNulFree(j: Json, fmt: bool, depth: nat)
    requires Printable(j)
    ensures NulFree(Render(j, fmt, depth))
  {
    match j
    case Str(s) => QuotedNulFree(s);
    case Arr(items) =>
      ItemsNulFree(items, fmt, depth + 1);
      NulFreeAppend(RenderItems(items, fmt, depth + 1), [RBRACKET]);
      NulFreeAppend([LBRACKET], RenderItems(items, fmt, depth + 1) + [RBRACKET]);
    case Obj(members) =>
      MembersNulFree(members, fmt, depth + 1);
      var body := RenderMembers(members, fmt, depth + 1);
      var close := Indent(fmt, depth) + [RBRACE];
      NulFreeAppend(body, close);
      NulFreeAppend(Newline(fmt), body + close);
      NulFreeAppend([LBRACE], Newline(fmt) + (body + close));
    case _ => ScalarNulFree(j, fmt, depth);
  }

  lemma ScalarNulFree(j: Json, fmt: bool, depth: nat)
    requires j.Null? || j.Bool? || j.Num?
    ensures NulFree(Render(j, fmt, depth))
  {
  }

  lemma QuotedNulFree(t: Text)
    ensures NulFree(JsonStrings.Quoted(t))
  {
    JsonStrings.EscapedIsPrintable(t);
  }

  lemma NulFreeAppend(a: Text, b: Text)
    requires NulFree(a) && NulFree(b)
    ensures NulFree(a + b)
  {
  }

  lemma {:induction false} ItemsNulFree(items: Items, fmt: bool, depth: nat)
    requires PrintableItems(items)
    ensures NulFree(RenderItems(items, fmt, depth))
  {
    if items.ICons? {
      RenderNulFree(items.head, fmt, depth);
      ItemsNulFree(items.tail, fmt, depth);
      NulFreeAppend(Separator(fmt), RenderItems(items.tail, fmt, depth));
    }
  }

  lemma {:induction false} MembersNulFree(members: Members, fmt: bool, depth: nat)
    requires PrintableMembers(members)
    ensures NulFree(RenderMembers(members, fmt, depth))
    ensures NulFree(AfterValue(members, fmt, depth))
  {
    if members.MCons? {
      var value := Render(members.value, fmt, depth);
      QuotedNulFree(members.key);
      RenderNulFree(members.value, fmt, depth);
      MembersNulFree(members.rest, fmt, depth);
      var after := AfterValue(members.rest, fmt, depth);
      NulFreeAppend(value, after);
      NulFreeAppend(Colon(fmt), value + after);
      NulFreeAppend(JsonStrings.Quoted(members.key), Colon(fmt) + (value + after));
      NulFreeAppend(Indent(fmt, depth), JsonStrings.Quoted(members.key) + (Colon(fmt) + (value + after)));
      NulFreeAppend(Newline(fmt), RenderMembers(members, fmt, depth));
    }
  }
}
