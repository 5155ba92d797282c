/** `cJSON_Minify`: an in-place filter, and its inverse relation to formatted printing. */
module Minify {
  import opened Bytes
  import opened JsonStrings
  import opened Json

  function Glue(a: Text, r: Option<Text>): Option<Text> {
    if r.Some? then Some(a + r.value) else None
  }

  lemma GlueGlue(a: Text, b: Text, r: Option<Text>)
    ensures Glue(a, Glue(b, r)) == Glue(a + b, r)
  {
    if r.Some? {
      Assoc(a, b, r.value);
    }
  }

  predicate IsBlank(c: byte) {
    c == SPACE || c == TAB || c == CR || c == LF
  }

  /** Where a line comment ends: at a line feed or NUL, or nowhere in this memory. */
  function LineEnd(m: Text, i: nat): (e: nat)
    ensures i <= e
    decreases |m| - i
  {
    if i < |m| && m[i] != LF && m[i] != NUL then LineEnd(m, i + 1) else i
  }

  /** Past the end of a block comment; a NUL ends it too, and then the byte behind that is passed over as well. */
  function CommentEnd(m: Text, i: nat): (e: nat)
    ensures i <= e && (i < |m| ==> i < e)
    decreases |m| - i
  {
    if i >= |m| then i
    else if m[i] == NUL || (m[i] == STAR && i + 1 < |m| && m[i + 1] == SLASH) then i + 2
    else CommentEnd(m, i + 1)
  }

  /**
    What the filter makes of memory `m` from `i` on, up to the NUL it stops at; nothing if it leaves the memory. An
    unclosed string or block comment takes it past the first NUL.
   */
  function Minified(m: Text, i: nat): Option<Text>
    decreases |m| - i, 1
  {
    if i >= |m| then None
    else if m[i] == NUL then Some([])
    else if IsBlank(m[i]) then Minified(m, i + 1)
    else if Opens(m, i, SLASH) then
      var e := LineEnd(m, i + 2);
      Minified(m, e)
    else if Opens(m, i, STAR) then
      var e := CommentEnd(m, i + 1);
      Minified(m, e)
    else if m[i] == QUOTE then Glue([QUOTE], StringMinified(m, i + 1))
    else Glue([m[i]], Minified(m, i + 1))
  }

  /** A comment of the kind that `c` tells opens here. */
  predicate Opens(m: Text, i: nat, c: byte)
    requires i < |m|
  {
    m[i] == SLASH && i + 1 < |m| && m[i + 1] == c
  }

  function StringMinified(m: Text, i: nat): Option<Text>
    decreases |m| - i, 0
  {
    if i >= |m| then None
    else if m[i] == QUOTE || m[i] == NUL then Glue([m[i]], Minified(m, i + 1))
    else if m[i] == BACKSLASH then
      if i + 1 >= |m| then None else Glue([BACKSLASH, m[i + 1]], StringMinified(m, i + 2))
    else Glue([m[i]], StringMinified(m, i + 1))
  }

  // ---- Minifying a rendering ----

  lemma {:induction false} BlanksVanish(t: Text, i: nat, w: Text)
    requires At(t, i, w) && forall k :: 0 <= k < |w| ==> IsBlank(w[k])
    ensures Minified(t, i) == Minified(t, i + |w|)
    decreases |w|
  {
    if w != [] {
      AtByte(t, i, w, 0);
      assert w == [w[0]] + w[1..];
      AtAppend(t, i, [w[0]], w[1..]);
      BlanksVanish(t, i + 1, w[1..]);
    }
  }

  predicate IsPlain(c: byte) {
    !IsBlank(c) && c != SLASH && c != QUOTE && c != NUL
  }

  lemma {:induction false} PlainStays(t: Text, i: nat, x: Text)
    requires At(t, i, x) && forall k :: 0 <= k < |x| ==> IsPlain(x[k])
    ensures Minified(t, i) == Glue(x, Minified(t, i + |x|))
    decreases |x|
  {
    if x == [] {
      GlueNothing(Minified(t, i));
    } else {
      AtByte(t, i, x, 0);
      assert x == [x[0]] + x[1..];
      AtAppend(t, i, [x[0]], x[1..]);
      PlainStays(t, i + 1, x[1..]);
      GlueGlue([x[0]], x[1..], Minified(t, i + |x|));
    }
  }

  lemma GlueNone(a: Text)
    ensures Glue(a, None).None?
  {
  }

  lemma GlueNothing(r: Option<Text>)
    ensures Glue([], r) == r
  {
    if r.Some? {
      assert [] + r.value == r.value;
    }
  }

  lemma {:induction false} BodyStays(t: Text, i: nat, x: Text)
    requires At(t, i, Escape(x))
    ensures StringMinified(t, i) == Glue(Escape(x), StringMinified(t, i + |Escape(x)|))
    decreases |x|
  {
    if x == [] {
      GlueNothing(StringMinified(t, i));
    } else {
      var head, tail := EscapeByte(x[0]), Escape(x[1..]);
      AtAppend(t, i, head, tail);
      ByteStays(t, i, x[0]);
      BodyStays(t, i + |head|, x[1..]);
      GlueGlue(head, tail, StringMinified(t, i + |head| + |tail|));
    }
  }

  lemma ByteStays(t: Text, i: nat, c: byte)
    requires At(t, i, EscapeByte(c))
    ensures StringMinified(t, i) == Glue(EscapeByte(c), StringMinified(t, i + |EscapeByte(c)|))
  {
    hide Minified;
    var x := EscapeByte(c);
    AtByte(t, i, x, 0);
    if |x| > 1 {
      AtByte(t, i, x, 1);
    }
    if |x| == 6 {
      AtByte(t, i, x, 2);
      AtByte(t, i, x, 3);
      AtByte(t, i, x, 4);
      AtByte(t, i, x, 5);
      HexStays(t, i + 2);
      assert StringMinified(t, i) == Glue([BACKSLASH, LOWER_U], StringMinified(t, i + 2));
      hide StringMinified;
      assert t[i + 2..i + 6] == x[2..];
      GlueGlue([BACKSLASH, LOWER_U], x[2..], StringMinified(t, i + 6));
      assert x == [BACKSLASH, LOWER_U] + x[2..];
    }
  }

  lemma OneStays(t: Text, i: nat)
    requires i < |t| && t[i] != QUOTE && t[i] != BACKSLASH && t[i] != NUL
    ensures StringMinified(t, i) == Glue([t[i]], StringMinified(t, i + 1))
  {
    hide Minified;
  }

  lemma HexStays(t: Text, i: nat)
    requires i + 4 <= |t| && forall k :: i <= k < i + 4 ==> t[k] != QUOTE && t[k] != BACKSLASH && t[k] != NUL
    ensures StringMinified(t, i) == Glue(t[i..i + 4], StringMinified(t, i + 4))
  {
    hide Minified;
    var rest := StringMinified(t, i + 4);
    OneStays(t, i);
    OneStays(t, i + 1);
    OneStays(t, i + 2);
    OneStays(t, i + 3);
    hide StringMinified;
    assert t[i..i + 4] == [t[i]] + ([t[i + 1]] + ([t[i + 2]] + [t[i + 3]]));
    GlueGlue([t[i + 2]], [t[i + 3]], rest);
    GlueGlue([t[i + 1]], [t[i + 2]] + [t[i + 3]], rest);
    GlueGlue([t[i]], [t[i + 1]] + ([t[i + 2]] + [t[i + 3]]), rest);
  }

  lemma QuotedStays(t: Text, i: nat, x: Text)
    requires At(t, i, Quoted(x))
    ensures Minified(t, i) == Glue(Quoted(x), Minified(t, i + |Quoted(x)|))
  {
    hide At, Escape;
    var body := Escape(x);
    AtBound(t, i, Quoted(x));
    AtAppend(t, i, [QUOTE] + body, [QUOTE]);
    AtAppend(t, i, [QUOTE], body);
    AtByte(t, i, [QUOTE], 0);
    AtByte(t, i + 1 + |body|, [QUOTE], 0);
    BodyStays(t, i + 1, x);
    var rest := Minified(t, i + |Quoted(x)|);
    GlueGlue(body, [QUOTE], rest);
    GlueGlue([QUOTE], body + [QUOTE], rest);
    Assoc([QUOTE], body, [QUOTE]);
  }

  /** Minifying a formatted rendering keeps exactly its unformatted text. */
  lemma {:induction false} ValueMinifies(t: Text, i: nat, j: Json, fmt: bool, d: nat)
    requires At(t, i, Render(j, fmt, d))
    ensures Minified(t, i) == Glue(Render(j, false, d), Minified(t, i + |Render(j, fmt, d)|))
    decreases j, 2
  {
    hide At, Minified;
    AtBound(t, i, Render(j, fmt, d));
    match j
    case Str(x) => QuotedStays(t, i, x);
    case Arr(items) => ArrayMinifies(t, i, items, fmt, d);
    case Obj(members) => ObjectMinifies(t, i, members, fmt, d);
    case _ => PlainStays(t, i, Render(j, fmt, d));
  }

  lemma {:induction false} ArrayMinifies(t: Text, i: nat, items: Items, fmt: bool, d: nat)
    requires At(t, i, Render(Arr(items), fmt, d))
    ensures Minified(t, i) == Glue(Render(Arr(items), false, d), Minified(t, i + |Render(Arr(items), fmt, d)|))
    decreases items, 1
  {
    hide At, Minified, RenderItems;
    AtBound(t, i, Render(Arr(items), fmt, d));
    var body, plain := RenderItems(items, fmt, d + 1), RenderItems(items, false, d + 1);
    AtAppend(t, i, [LBRACKET], body + [RBRACKET]);
    AtAppend(t, i + 1, body, [RBRACKET]);
    var end := i + 1 + |body|;
    PlainStays(t, i, [LBRACKET]);
    ItemsMinify(t, i + 1, items, fmt, d + 1);
    PlainStays(t, end, [RBRACKET]);
    var rest := Minified(t, end + 1);
    GlueGlue(plain, [RBRACKET], rest);
    GlueGlue([LBRACKET], plain + [RBRACKET], rest);
  }

  lemma {:induction false} ItemsMinify(t: Text, i: nat, items: Items, fmt: bool, d: nat)
    requires At(t, i, RenderItems(items, fmt, d))
    ensures Minified(t, i) == Glue(RenderItems(items, false, d), Minified(t, i + |RenderItems(items, fmt, d)|))
    decreases items, 0
  {
    hide At, Minified, Render;
    AtBound(t, i, RenderItems(items, fmt, d));
    if items.INil? {
      GlueNothing(Minified(t, i));
    } else if items.tail.INil? {
      assert RenderItems(items, fmt, d) == Render(items.head, fmt, d);
      assert RenderItems(items, false, d) == Render(items.head, false, d);
      ValueMinifies(t, i, items.head, fmt, d);
    } else {
      var head, tail := Render(items.head, fmt, d), RenderItems(items.tail, fmt, d);
      AtAppend(t, i, head, Separator(fmt) + tail);
      AtAppend(t, i + |head|, Separator(fmt), tail);
      ValueMinifies(t, i, items.head, fmt, d);
      SeparatorMinifies(t, i + |head|, fmt);
      var q := i + |head| + |Separator(fmt)|;
      ItemsMinify(t, q, items.tail, fmt, d);
      var rest := Minified(t, q + |tail|);
      GlueGlue([COMMA], RenderItems(items.tail, false, d), rest);
      GlueGlue(Render(items.head, false, d), [COMMA] + RenderItems(items.tail, false, d), rest);
    }
  }

  lemma SeparatorMinifies(t: Text, i: nat, fmt: bool)
    requires At(t, i, Separator(fmt))
    ensures Minified(t, i) == Glue([COMMA], Minified(t, i + |Separator(fmt)|))
  {
    var blank: Text := if fmt then [SPACE] else [];
    assert Separator(fmt) == [COMMA] + blank;
    AtAppend(t, i, [COMMA], blank);
    PlainStays(t, i, [COMMA]);
    BlanksVanish(t, i + 1, blank);
  }

  lemma {:induction false} ObjectMinifies(t: Text, i: nat, members: Members, fmt: bool, d: nat)
    requires At(t, i, Render(Obj(members), fmt, d))
    ensures Minified(t, i)
         == Glue(Render(Obj(members), false, d), Minified(t, i + |Render(Obj(members), fmt, d)|))
    decreases members, 1
  {
    hide At, Minified, RenderMembers, Newline, Indent;
    AtBound(t, i, Render(Obj(members), fmt, d));
    var body, plain := RenderMembers(members, fmt, d + 1), RenderMembers(members, false, d + 1);
    AtAppend(t, i, [LBRACE], Newline(fmt) + (body + (Indent(fmt, d) + [RBRACE])));
    AtAppend(t, i + 1, Newline(fmt), body + (Indent(fmt, d) + [RBRACE]));
    var m := i + 1 + |Newline(fmt)|;
    AtAppend(t, m, body, Indent(fmt, d) + [RBRACE]);
    var n := m + |body|;
    AtAppend(t, n, Indent(fmt, d), [RBRACE]);
    var end := n + |Indent(fmt, d)|;
    PlainStays(t, i, [LBRACE]);
    LayoutVanishes(t, i + 1, n, fmt, d);
    MembersMinify(t, m, members, fmt, d + 1);
    PlainStays(t, end, [RBRACE]);
    var rest := Minified(t, end + 1);
    GlueGlue(plain, [RBRACE], rest);
    GlueGlue([LBRACE], plain + [RBRACE], rest);
    PlainObject(members, d);
  }

  lemma PlainObject(members: Members, d: nat)
    ensures Render(Obj(members), false, d) == [LBRACE] + (RenderMembers(members, false, d + 1) + [RBRACE])
  {
    hide RenderMembers;
    var plain := RenderMembers(members, false, d + 1);
    assert [] + [RBRACE] == [RBRACE];
    assert [] + (plain + [RBRACE]) == plain + [RBRACE];
  }

  /** Line breaks and indentation leave nothing behind. */
  lemma LayoutVanishes(t: Text, i: nat, n: nat, fmt: bool, d: nat)
    requires At(t, i, Newline(fmt)) && At(t, n, Indent(fmt, d))
    ensures Minified(t, i) == Minified(t, i + |Newline(fmt)|)
    ensures Minified(t, n) == Minified(t, n + |Indent(fmt, d)|)
  {
    hide Minified;
    BlanksVanish(t, i, Newline(fmt));
    BlanksVanish(t, n, Indent(fmt, d));
  }

  lemma {:induction false} MembersMinify(t: Text, i: nat, members: Members, fmt: bool, d: nat)
    requires At(t, i, RenderMembers(members, fmt, d))
    ensures Minified(t, i)
         == Glue(RenderMembers(members, false, d), Minified(t, i + |RenderMembers(members, fmt, d)|))
    decreases members, 0
  {
    hide At, Minified, Render, Quoted, Indent, Colon, AfterValue;
    AtBound(t, i, RenderMembers(members, fmt, d));
    if members.MNil? {
      GlueNothing(Minified(t, i));
    } else {
      var q, v, after := Quoted(members.key), Render(members.value, fmt, d), AfterValue(members.rest, fmt, d);
      AtAppend(t, i, Indent(fmt, d), q + (Colon(fmt) + (v + after)));
      var k := i + |Indent(fmt, d)|;
      AtAppend(t, k, q, Colon(fmt) + (v + after));
      var c := k + |q|;
      AtAppend(t, c, Colon(fmt), v + after);
      var e := c + |Colon(fmt)|;
      AtAppend(t, e, v, after);
      IndentVanishes(t, i, fmt, d);
      QuotedStays(t, k, members.key);
      ColonMinifies(t, c, fmt);
      ValueMinifies(t, e, members.value, fmt, d);
      AfterMinifies(t, e + |v|, members.rest, fmt, d);
      var rest := Minified(t, e + |v| + |after|);
      var v', after' := Render(members.value, false, d), AfterValue(members.rest, false, d);
      GlueGlue(v', after', rest);
      GlueGlue([COLON], v' + after', rest);
      GlueGlue(q, [COLON] + (v' + after'), rest);
      PlainMembers(members, d);
    }
  }

  lemma PlainMembers(members: Members, d: nat)
    requires members.MCons?
    ensures RenderMembers(members, false, d)
         == Quoted(members.key) + ([COLON] + (Render(members.value, false, d) + AfterValue(members.rest, false, d)))
  {
    hide Render, Quoted, AfterValue;
    var v, after := Render(members.value, false, d), AfterValue(members.rest, false, d);
    var line := Quoted(members.key) + ([COLON] + (v + after));
    assert [] + line == line;
  }

  lemma IndentVanishes(t: Text, i: nat, fmt: bool, d: nat)
    requires At(t, i, Indent(fmt, d))
    ensures Minified(t, i) == Minified(t, i + |Indent(fmt, d)|)
  {
    hide Minified;
    BlanksVanish(t, i, Indent(fmt, d));
  }

  lemma ColonMinifies(t: Text, i: nat, fmt: bool)
    requires At(t, i, Colon(fmt))
    ensures Minified(t, i) == Glue([COLON], Minified(t, i + |Colon(fmt)|))
  {
    var blank: Text := if fmt then [TAB] else [];
    assert Colon(fmt) == [COLON] + blank;
    AtAppend(t, i, [COLON], blank);
    PlainStays(t, i, [COLON]);
    BlanksVanish(t, i + 1, blank);
  }

  lemma {:induction false} AfterMinifies(t: Text, i: nat, rest: Members, fmt: bool, d: nat)
    requires At(t, i, AfterValue(rest, fmt, d))
    ensures Minified(t, i) == Glue(AfterValue(rest, false, d), Minified(t, i + |AfterValue(rest, fmt, d)|))
    decreases rest, 1
  {
    hide At, Minified, RenderMembers;
    AtBound(t, i, AfterValue(rest, fmt, d));
    if rest.MNil? {
      BlanksVanish(t, i, Newline(fmt));
      GlueNothing(Minified(t, i));
    } else {
      var body := RenderMembers(rest, fmt, d);
      AtAppend(t, i, [COMMA], Newline(fmt) + body);
      AtAppend(t, i + 1, Newline(fmt), body);
      PlainStays(t, i, [COMMA]);
      BlanksVanish(t, i + 1, Newline(fmt));
      var m := i + 1 + |Newline(fmt)|;
      MembersMinify(t, m, rest, fmt, d);
      GlueGlue([COMMA], RenderMembers(rest, false, d), Minified(t, m + |body|));
      assert [] + RenderMembers(rest, false, d) == RenderMembers(rest, false, d);
    }
  }

  /** `cJSON_Minify` of `cJSON_Print` is `cJSON_PrintUnformatted`; minified text stays as it is. */
  lemma MinifyInvertsFormatting(j: Json, fmt: bool, rest: Text)
    ensures Minified(Render(j, fmt, 0) + ([NUL] + rest), 0) == Some(Render(j, false, 0))
  {
    hide Render;
    var t := Render(j, fmt, 0);
    var m := t + ([NUL] + rest);
    assert m[..|t|] == t;
    assert At(m, 0, t);
    ValueMinifies(m, 0, j, fmt, 0);
    assert m[|t|] == NUL;
    assert Minified(m, |t|) == Some([]) by {
      StopsAtNul(m, |t|);
    }
    assert Render(j, false, 0) + [] == Render(j, false, 0);
  }

  lemma StopsAtNul(m: Text, i: nat)
    requires i < |m| && m[i] == NUL
    ensures Minified(m, i) == Some([])
  {
  }

  // ---- What goes and what stays, by character codes ----

  lemma {:induction false} LineEndFirst(m: Text, i: nat, j: nat)
    requires i <= j < |m| && (m[j] == '\n' as int || m[j] == 0)
    requires forall k :: i <= k < j ==> m[k] != '\n' as int && m[k] != 0
    ensures LineEnd(m, i) == j
    decreases j - i
  {
    if i < j {
      LineEndFirst(m, i + 1, j);
    }
  }

  ghost predicate ClosesComment(m: Text, k: nat) {
    k + 1 < |m| && m[k] == '*' as int && m[k + 1] == '/' as int
  }

  lemma {:induction false} CommentEndFirst(m: Text, i: nat, j: nat)
    requires i <= j && ClosesComment(m, j)
    requires forall k :: i <= k < j ==> m[k] != 0 && !ClosesComment(m, k)
    ensures CommentEnd(m, i) == j + 2
    decreases j - i
  {
    if i < j {
      assert !ClosesComment(m, i);
      CommentEndFirst(m, i + 1, j);
    }
  }

  /** Blanks go; so does a line comment up to its line feed, and a block comment with the first mark that closes it. */
  lemma Dropped(m: Text, i: nat, j: nat)
    requires i < |m|
    ensures m[i] in [' ' as int, '\t' as int, '\r' as int, '\n' as int] ==> Minified(m, i) == Minified(m, i + 1)
    ensures i + 2 <= j < |m| && m[i] == '/' as int && m[i + 1] == '/' as int && m[j] == '\n' as int
            && (forall k :: i + 2 <= k < j ==> m[k] != '\n' as int && m[k] != 0) ==>
              Minified(m, i) == Minified(m, j + 1)
    ensures i + 1 <= j && i + 1 < |m| && m[i] == '/' as int && m[i + 1] == '*' as int && ClosesComment(m, j)
            && (forall k :: i + 1 <= k < j ==> m[k] != 0 && !ClosesComment(m, k)) ==>
              Minified(m, i) == Minified(m, j + 2)
  {
    if i + 2 <= j < |m| && m[i] == '/' as int && m[i + 1] == '/' as int && m[j] == '\n' as int
       && forall k :: i + 2 <= k < j ==> m[k] != '\n' as int && m[k] != 0
    {
      LineEndFirst(m, i + 2, j);
      assert Minified(m, j) == Minified(m, j + 1);
    }
    if i + 1 <= j && i + 1 < |m| && m[i] == '/' as int && m[i + 1] == '*' as int && ClosesComment(m, j)
       && forall k :: i + 1 <= k < j ==> m[k] != 0 && !ClosesComment(m, k)
    {
      CommentEndFirst(m, i + 1, j);
    }
  }

  /** A string literal stays, whatever is in it, up to the first quote that no backslash stands before. */
  lemma {:induction false} BodyKept(m: Text, i: nat, e: nat)
    requires i <= e < |m| && ClosingQuote(m[..e + 1], i) == Some(e) && NulFree(m[..e])
    ensures StringMinified(m, i) == Glue(m[i..e + 1], Minified(m, e + 1))
    decreases e - i
  {
    var s := m[..e + 1];
    assert s[i] == m[i];
    assert i < e ==> m[..e][i] == m[i];
    hide Minified;
    if m[i] == QUOTE {
      assert m[i..e + 1] == [m[i]];
    } else if m[i] == BACKSLASH {
      BodyKept(m, i + 2, e);
      assert m[i..e + 1] == [m[i], m[i + 1]] + m[i + 2..e + 1];
      GlueGlue([m[i], m[i + 1]], m[i + 2..e + 1], Minified(m, e + 1));
    } else {
      BodyKept(m, i + 1, e);
      assert m[i..e + 1] == [m[i]] + m[i + 1..e + 1];
      GlueGlue([m[i]], m[i + 1..e + 1], Minified(m, e + 1));
    }
  }

  lemma Stays(m: Text, i: nat, e: nat)
    requires i < |m| && m[i] != 0
    ensures m[i] == '"' as int && i < e < |m| && ClosingQuote(m[..e + 1], i + 1) == Some(e)
            && NulFree(m[..e]) ==>
              Minified(m, i) == Glue(m[i..e + 1], Minified(m, e + 1))
    ensures m[i] !in [' ' as int, '\t' as int, '\r' as int, '\n' as int, '/' as int, '"' as int] ==>
              Minified(m, i) == Glue([m[i]], Minified(m, i + 1))
    ensures m[i] == '/' as int && (i + 1 == |m| || (m[i + 1] != '/' as int && m[i + 1] != '*' as int)) ==>
              Minified(m, i) == Glue([m[i]], Minified(m, i + 1))
  {
    if m[i] == '"' as int && i < e < |m| && ClosingQuote(m[..e + 1], i + 1) == Some(e) && NulFree(m[..e]) {
      BodyKept(m, i + 1, e);
      GlueGlue([QUOTE], m[i + 1..e + 1], Minified(m, e + 1));
      assert m[i..e + 1] == [QUOTE] + m[i + 1..e + 1];
    }
  }

  // ---- A run that ends does not depend on what lies behind its end ----

  lemma {:induction false} LineEndLocal(m: Text, rest: Text, i: nat)
    requires LineEnd(m, i) < |m|
    ensures LineEnd(m + rest, i) == LineEnd(m, i)
    decreases |m| - i
  {
    if m[i] != LF && m[i] != NUL {
      LineEndLocal(m, rest, i + 1);
    }
  }

  lemma {:induction false} CommentEndLocal(m: Text, rest: Text, i: nat)
    requires CommentEnd(m, i) < |m|
    ensures CommentEnd(m + rest, i) == CommentEnd(m, i)
    decreases |m| - i
  {
    if m[i] != NUL && !(m[i] == STAR && i + 1 < |m| && m[i + 1] == SLASH) {
      CommentEndLocal(m, rest, i + 1);
    }
  }

  lemma {:induction false} MinifiedLocal(m: Text, rest: Text, i: nat)
    requires Minified(m, i).Some?
    ensures Minified(m + rest, i) == Minified(m, i)
    decreases |m| - i, 1
  {
    hide StringMinified;
    if m[i] == NUL {
    } else if IsBlank(m[i]) {
      MinifiedLocal(m, rest, i + 1);
    } else if Opens(m, i, SLASH) {
      LineEndLocal(m, rest, i + 2);
      MinifiedLocal(m, rest, LineEnd(m, i + 2));
    } else if Opens(m, i, STAR) {
      CommentEndLocal(m, rest, i + 1);
      MinifiedLocal(m, rest, CommentEnd(m, i + 1));
    } else if m[i] == QUOTE {
      LiteralLocal(m, rest, i + 1);
    } else {
      MinifiedLocal(m, rest, i + 1);
    }
  }

  lemma {:induction false} LiteralLocal(m: Text, rest: Text, i: nat)
    requires StringMinified(m, i).Some?
    ensures StringMinified(m + rest, i) == StringMinified(m, i)
    decreases |m| - i, 0
  {
    hide Minified;
    if m[i] == QUOTE || m[i] == NUL {
      MinifiedLocal(m, rest, i + 1);
    } else if m[i] == BACKSLASH {
      LiteralLocal(m, rest, i + 2);
    } else {
      LiteralLocal(m, rest, i + 1);
    }
  }

  // ---- The filter as it runs: `r` reads, `w` writes and never overtakes ----

  /** From `w` on memory still holds what it held. */
  ghost predicate Unread(a: array<byte>, m: Text, r: nat, w: nat)
    reads a
  {
    w <= r && w <= |m| == a.Length && a[w..] == m[w..]
  }

  /** `*into++ = *json++`. */
  method CopyByte(a: array<byte>, ghost m: Text, r: nat, w: nat)
    requires Unread(a, m, r, w) && r < |m|
    modifies a
    ensures Unread(a, m, r + 1, w + 1) && a[..w + 1] == old(a[..w]) + [m[r]]
  {
    UnreadAt(a, m, r, w);
    ghost var behind := a[w + 1..];
    a[w] := a[r];
    assert a[w + 1..] == behind;
    assert m[w + 1..] == m[w..][1..];
  }

  lemma UnreadAt(a: array<byte>, m: Text, r: nat, w: nat)
    requires Unread(a, m, r, w)
    ensures r < a.Length ==> a[r] == m[r]
    ensures r + 1 < a.Length ==> a[r + 1] == m[r + 1]
  {
    if r < a.Length {
      assert a[w..][r - w] == m[w..][r - w];
    }
    if r + 1 < a.Length {
      assert a[w..][r + 1 - w] == m[w..][r + 1 - w];
    }
  }

  method SkipLine(a: array<byte>, ghost m: Text, start: nat, ghost w: nat) returns (r: nat)
    requires Unread(a, m, start, w)
    ensures r == LineEnd(m, start)
  {
    r := start;
    UnreadAt(a, m, r, w);
    while r < a.Length && a[r] != NUL && a[r] != LF
      invariant start <= r && LineEnd(m, start) == LineEnd(m, r)
      invariant r < a.Length ==> a[r] == m[r]
      decreases |m| - r
    {
      r := r + 1;
      UnreadAt(a, m, r, w);
    }
  }

  /** Whatever ended it, two more bytes are passed over. */
  method SkipComment(a: array<byte>, ghost m: Text, start: nat, ghost w: nat) returns (r: nat)
    requires Unread(a, m, start, w)
    ensures r == CommentEnd(m, start)
  {
    r := start;
    UnreadAt(a, m, r, w);
    while r < a.Length && a[r] != NUL && !(a[r] == STAR && r + 1 < a.Length && a[r + 1] == SLASH)
      invariant start <= r && CommentEnd(m, start) == CommentEnd(m, r)
      invariant (r < a.Length ==> a[r] == m[r]) && (r + 1 < a.Length ==> a[r + 1] == m[r + 1])
      decreases |m| - r
    {
      r := r + 1;
      UnreadAt(a, m, r, w);
    }
    if r < a.Length {
      r := r + 2;
    }
  }

  /** One byte of a string literal, or a backslash and the byte behind it, whatever that is. */
  method CopyStringByte(a: array<byte>, ghost m: Text, start: nat, into: nat) returns (inside: bool, r: nat, w: nat)
    requires Unread(a, m, start, into) && start < |m| && m[start] != NUL && m[start] != QUOTE
    modifies a
    ensures !inside ==> StringMinified(m, start).None?
    ensures inside ==> start < r && into <= w && Unread(a, m, r, w) && a[..into] == old(a[..into])
    ensures inside ==> StringMinified(m, start) == Glue(a[into..w], StringMinified(m, r))
  {
    hide StringMinified, Glue;
    LiteralStep(m, start);
    UnreadAt(a, m, start, into);
    var escaped := a[start] == BACKSLASH;
    r, w := start, into;
    ghost var head := a[..into];
    if escaped {
      if r + 1 == a.Length {
        return false, r, w;
      }
      CopyByte(a, m, r, w);
      r, w := r + 1, w + 1;
      assert a[..w] == head + [m[start]];
    }
    CopyByte(a, m, r, w);
    inside, r, w := true, r + 1, w + 1;
    ghost var step := if escaped then [m[start], m[start + 1]] else [m[start]];
    assert a[..w] == head + step;
    assert a[into..w] == step && a[..into] == head;
  }

  /** The rest of a string literal, with the quote or NUL that ends it. */
  method CopyString(a: array<byte>, ghost m: Text, start: nat, into: nat) returns (inside: bool, r: nat, w: nat)
    requires Unread(a, m, start, into)
    modifies a
    ensures !inside ==> StringMinified(m, start).None?
    ensures inside ==> start < r && into <= w && Unread(a, m, r, w) && a[..into] == old(a[..into])
    ensures inside ==> StringMinified(m, start) == Glue(a[into..w], Minified(m, r))
  {
    hide Minified, StringMinified, Glue;
    inside, r, w := true, start, into;
    ghost var head, done := a[..into], [];
    GlueNothing(StringMinified(m, start));
    UnreadAt(a, m, r, w);
    while r < a.Length && a[r] != NUL && a[r] != QUOTE
      invariant start <= r && w == into + |done| && Unread(a, m, r, w) && a[..w] == head + done && inside
      invariant StringMinified(m, start) == Glue(done, StringMinified(m, r))
      invariant r < a.Length ==> a[r] == m[r]
      decreases |m| - r
    {
      ghost var before := w;
      inside, r, w := CopyStringByte(a, m, r, w);
      if !inside {
        GlueNone(done);
        return;
      }
      GlueGlue(done, a[before..w], StringMinified(m, r));
      assert a[..w] == a[..before] + a[before..w];
      done := done + a[before..w];
      UnreadAt(a, m, r, w);
    }
    LiteralStep(m, r);
    if r >= a.Length {
      GlueNone(done);
      return false, r, w;
    }
    CopyByte(a, m, r, w);
    GlueGlue(done, [m[r]], Minified(m, r + 1));
    assert a[into..w + 1] == done + [m[r]] by {
      assert a[..w + 1] == head + (done + [m[r]]);
    }
    r, w := r + 1, w + 1;
  }

  lemma LiteralStep(m: Text, i: nat)
    ensures i >= |m| ==> StringMinified(m, i).None?
    ensures i < |m| && (m[i] == QUOTE || m[i] == NUL) ==> StringMinified(m, i) == Glue([m[i]], Minified(m, i + 1))
    ensures i + 1 == |m| && m[i] == BACKSLASH ==> StringMinified(m, i).None?
    ensures i + 1 < |m| && m[i] == BACKSLASH ==>
              StringMinified(m, i) == Glue([m[i], m[i + 1]], StringMinified(m, i + 2))
    ensures i < |m| && m[i] != QUOTE && m[i] != NUL && m[i] != BACKSLASH ==>
              StringMinified(m, i) == Glue([m[i]], StringMinified(m, i + 1))
  {
    hide Minified;
  }

  /** One unfolding of the filter's function, in terms of what the loop tests. */
  lemma FilterStep(m: Text, i: nat)
    ensures i >= |m| ==> Minified(m, i).None?
    ensures i < |m| && m[i] == NUL ==> Minified(m, i) == Some([])
    ensures i < |m| && IsBlank(m[i]) ==> Minified(m, i) == Minified(m, i + 1)
    ensures i < |m| && Opens(m, i, SLASH) ==> Minified(m, i) == Minified(m, LineEnd(m, i))
    ensures i < |m| && Opens(m, i, STAR) ==> Minified(m, i) == Minified(m, CommentEnd(m, i))
    ensures i < |m| && InToken(m, i) && m[i] == QUOTE ==>
              Minified(m, i) == Glue([QUOTE], StringMinified(m, i + 1))
    ensures i < |m| && InToken(m, i) && m[i] != QUOTE ==> Minified(m, i) == Glue([m[i]], Minified(m, i + 1))
  {
    hide StringMinified;
    if i < |m| && m[i] == SLASH && i + 1 < |m| {
      assert LineEnd(m, i) == LineEnd(m, i + 1);
      assert m[i + 1] == SLASH ==> LineEnd(m, i + 1) == LineEnd(m, i + 2);
      assert CommentEnd(m, i) == CommentEnd(m, i + 1);
    }
  }

  predicate InToken(m: Text, i: nat)
    requires i < |m|
  {
    m[i] != NUL && !IsBlank(m[i]) && !Opens(m, i, SLASH) && !Opens(m, i, STAR)
  }

  /** A string literal, or one other byte. */
  method CopyToken(a: array<byte>, ghost m: Text, start: nat, into: nat) returns (inside: bool, r: nat, w: nat)
    requires Unread(a, m, start, into) && start < |m| && InToken(m, start)
    modifies a
    ensures !inside ==> Minified(m, start).None?
    ensures inside ==> start < r && into <= w && Unread(a, m, r, w) && a[..into] == old(a[..into])
    ensures inside ==> Minified(m, start) == Glue(a[into..w], Minified(m, r))
  {
    hide Minified, StringMinified;
    FilterStep(m, start);
    UnreadAt(a, m, start, into);
    ghost var head := a[..into];
    var quote := a[start] == QUOTE;
    CopyByte(a, m, start, into);
    inside, r, w := true, start + 1, into + 1;
    ghost var first := [m[start]];
    assert a[..w] == head + first;
    if quote {
      inside, r, w := CopyString(a, m, r, w);
      if !inside {
        return;
      }
      ghost var body := a[into + 1..w];
      GlueGlue(first, body, Minified(m, r));
      assert a[..w] == a[..into + 1] + body;
      assert a[into..w] == first + body by {
        assert a[into] == a[..into + 1][into];
      }
    }
    assert a[..into] == head by {
      assert a[..into] == a[..into + 1][..into];
    }
  }

  /**
    `cJSON_Minify` on a block of memory. It stays inside the block exactly when the filter's function is defined, and
    then leaves what that says and a NUL, and the bytes behind the NUL as they were; it stops where the source would
    leave the block.
   */
  method MinifyInPlace(a: array<byte>) returns (inside: bool)
    modifies a
    ensures inside <==> Minified(old(a[..]), 0).Some?
    ensures inside ==> var out := Minified(old(a[..]), 0).value;
                       |out| < a.Length && a[..|out|] == out && a[|out|] == NUL
                       && a[|out| + 1..] == old(a[|out| + 1..])
  {
    hide Minified, StringMinified;
    ghost var m := a[..];
    var r, w := 0, 0;
    inside := true;
    GlueNothing(Minified(m, 0));
    UnreadAt(a, m, r, w);
    while r < a.Length && a[r] != NUL
      invariant Unread(a, m, r, w) && inside
      invariant Minified(m, 0) == Glue(a[..w], Minified(m, r))
      invariant (r < a.Length ==> a[r] == m[r]) && (r + 1 < a.Length ==> a[r + 1] == m[r + 1])
      decreases |m| - r
    {
      FilterStep(m, r);
      if a[r] == SPACE || a[r] == TAB || a[r] == CR || a[r] == LF {
        r := r + 1;
      } else if a[r] == SLASH && r + 1 < a.Length && a[r + 1] == SLASH {
        r := SkipLine(a, m, r, w);
      } else if a[r] == SLASH && r + 1 < a.Length && a[r + 1] == STAR {
        r := SkipComment(a, m, r, w);
      } else {
        ghost var done, into := a[..w], w;
        inside, r, w := CopyToken(a, m, r, w);
        if !inside {
          return;
        }
        GlueGlue(done, a[into..w], Minified(m, r));
        assert a[..w] == done + a[into..w];
      }
      UnreadAt(a, m, r, w);
    }
    FilterStep(m, r);
    if r >= a.Length {
      return false;
    }
    ghost var out := a[..w];
    assert out + [] == out;
    assert a[w..] == m[w..];
    a[w] := NUL;
    assert a[..w] == out;
    assert a[w + 1..] == m[w..][1..] == m[w + 1..];
  }
}
