/** Parsing inverts printing, formatted or not, exactly up to the nesting limit. */
module RoundTrip {
  import opened Bytes
  import opened JsonStrings
  import Numbers
  import opened Json
  import opened Parser

  lemma {:induction false} BlankEndAt(s: Text, o: nat, p: nat)
    requires o <= p < |s|
    requires forall k :: o <= k < p ==> s[k] <= SPACE
    requires s[p] > SPACE
    ensures BlankEnd(s, o) == p
    decreases p - o
  {
    if o < p {
      BlankEndAt(s, o + 1, p);
    }
  }

  /** Blanks `w` that a visible byte follows are skipped. */
  lemma SkipOver(s: Text, o: nat, w: Text)
    requires At(s, o, w) && o + |w| < |s| && s[o + |w|] > SPACE
    requires forall k :: 0 <= k < |w| ==> w[k] <= SPACE
    ensures SkipBlanks(s, o) == o + |w|
  {
    forall k | o <= k < o + |w| ensures s[k] <= SPACE {
      AtByte(s, o, w, k - o);
    }
    BlankEndAt(s, o, o + |w|);
  }

  lemma VisibleStays(s: Text, o: nat)
    requires o < |s| && s[o] > SPACE
    ensures SkipBlanks(s, o) == o
  {
    BlankEndAt(s, o, o);
  }

  /** The outcome a rendering of height `height` has at `depth`: its value, or refusal past the limit. */
  ghost predicate Outcome<T>(r: Parsed<T>, depth: nat, height: nat, value: T, end: nat) {
    if depth + height <= NESTING_LIMIT then r == Ok(value, end) else r.Fail?
  }

  lemma ScalarParses(s: Text, o: nat, j: Json, fmt: bool, d: nat, depth: nat)
    requires Terminated(s) && Printable(j) && (j.Null? || j.Bool? || j.Num? || j.Str?)
    requires At(s, o, Render(j, fmt, d)) && o + |Render(j, fmt, d)| < |s|
    requires j.Num? ==> !Numbers.IsNumberByte(s[o + |Render(j, fmt, d)|])
    ensures ParseValue(s, o, depth) == Ok(j, o + |Render(j, fmt, d)|)
  {
    AtByte(s, o, Render(j, fmt, d), 0);
    match j
    case Null =>
    case Bool(b) =>
      NotAt(s, o, NULL_TEXT);
      if b {
        NotAt(s, o, FALSE_TEXT);
      }
    case Num(v) =>
      NotLiteral(s, o);
      Numbers.NumberAtDecimal(s, o, v.Floor);
    case Str(x) =>
      NotLiteral(s, o);
      ParseQuoted(s, o, x);
      CStringOfNulFree(x);
  }

  /**
    The main lemma: wherever a rendering stands in a buffer, the parser at nesting depth `depth` reads back
    the tree and stops behind it when it nests no deeper than the limit allows, and fails otherwise.
   */
  lemma {:induction false} ValueParses(s: Text, o: nat, j: Json, fmt: bool, d: nat, depth: nat)
    requires Terminated(s) && Printable(j) && depth <= NESTING_LIMIT
    requires At(s, o, Render(j, fmt, d)) && o + |Render(j, fmt, d)| < |s|
    requires j.Num? ==> !Numbers.IsNumberByte(s[o + |Render(j, fmt, d)|])
    ensures Outcome(ParseValue(s, o, depth), depth, Height(j), j, o + |Render(j, fmt, d)|)
    decreases j, 2
  {
    hide At;
    match j
    case Arr(items) => ArrayParses(s, o, items, fmt, d, depth);
    case Obj(members) => ObjectParses(s, o, members, fmt, d, depth);
    case _ => ScalarParses(s, o, j, fmt, d, depth);
  }

  lemma {:induction false} ArrayParses(s: Text, o: nat, items: Items, fmt: bool, d: nat, depth: nat)
    requires Terminated(s) && PrintableItems(items) && depth <= NESTING_LIMIT
    requires At(s, o, Render(Arr(items), fmt, d)) && o + |Render(Arr(items), fmt, d)| < |s|
    ensures Outcome(ParseValue(s, o, depth), depth, Height(Arr(items)), Arr(items), o + |Render(Arr(items), fmt, d)|)
    decreases items, 1
  {
    hide At, SkipBlanks, Render, ParseValue, ParseItems, ParseArray;
    OpenArray(s, o, items, fmt, d);
    ItemsVisible(s, o + 1, items, fmt, d + 1);
    VisibleStays(s, o + 1);
    DispatchContainer(s, o, depth);
    ArrayStep(s, o, depth);
    if depth < NESTING_LIMIT && items.ICons? {
      ItemsParse(s, o, o + 1, items, fmt, d + 1, depth + 1, o + 1 + |RenderItems(items, fmt, d + 1)|);
    }
  }

  lemma OpenArray(s: Text, o: nat, items: Items, fmt: bool, d: nat)
    requires At(s, o, Render(Arr(items), fmt, d))
    ensures s[o] == LBRACKET
    ensures var body := RenderItems(items, fmt, d + 1);
            At(s, o + 1, body) && At(s, o + 1 + |body|, [RBRACKET])
            && o + |Render(Arr(items), fmt, d)| == o + |body| + 2
  {
    hide At;
    var body := RenderItems(items, fmt, d + 1);
    AtAppend(s, o, [LBRACKET], body + [RBRACKET]);
    AtAppend(s, o + 1, body, [RBRACKET]);
    AtByte(s, o, [LBRACKET], 0);
  }

  lemma ItemsVisible(s: Text, p: nat, items: Items, fmt: bool, d: nat)
    requires At(s, p, RenderItems(items, fmt, d)) && At(s, p + |RenderItems(items, fmt, d)|, [RBRACKET])
    ensures p < |s| && s[p] > SPACE && (items.ICons? <==> s[p] != RBRACKET)
  {
    hide At;
    if items.ICons? {
      FirstByte(items.head, fmt, d);
      AtByte(s, p, RenderItems(items, fmt, d), 0);
    } else {
      AtByte(s, p, [RBRACKET], 0);
    }
  }

  lemma {:induction false} ItemsParse(s: Text, o: nat, p: nat, items: Items, fmt: bool, d: nat, depth: nat, end: nat)
    requires Terminated(s) && items.ICons? && PrintableItems(items) && depth <= NESTING_LIMIT
    requires At(s, p, RenderItems(items, fmt, d)) && end == p + |RenderItems(items, fmt, d)|
    requires At(s, end, [RBRACKET]) && end + 1 < |s|
    requires o + 1 < |s| && SkipBlanks(s, o + 1) == p
    ensures Outcome(ParseItems(s, o, depth), depth, ItemsHeight(items), items, end + 1)
    decreases items, 0
  {
    hide At, SkipBlanks, Render, RenderItems, ParseValue, ParseItems, Height, Printable, Numbers.IsNumberByte;
    ItemsStep(s, o, depth);
    ItemsStart(s, p, items, fmt, d);
    var e := p + |Render(items.head, fmt, d)|;
    VisibleStays(s, e);
    ValueParses(s, p, items.head, fmt, d, depth);
    if items.tail.ICons? {
      ItemsParse(s, e, e + |Separator(fmt)|, items.tail, fmt, d, depth, end);
    }
  }

  /** Behind an element stands the closing bracket, or a separator and the next element. */
  lemma ItemsStart(s: Text, p: nat, items: Items, fmt: bool, d: nat)
    requires items.ICons? && At(s, p, RenderItems(items, fmt, d))
    requires At(s, p + |RenderItems(items, fmt, d)|, [RBRACKET])
    ensures At(s, p, Render(items.head, fmt, d))
    ensures var e := p + |Render(items.head, fmt, d)|;
            var q := e + |Separator(fmt)|;
            e < |s| && s[e] > SPACE && !Numbers.IsNumberByte(s[e])
            && (items.tail.INil? ==> s[e] == RBRACKET && e == p + |RenderItems(items, fmt, d)|)
            && (items.tail.ICons? ==>
                  s[e] == COMMA && e + 1 < |s| && SkipBlanks(s, e + 1) == q
                  && At(s, q, RenderItems(items.tail, fmt, d))
                  && q + |RenderItems(items.tail, fmt, d)| == p + |RenderItems(items, fmt, d)|)
  {
    hide At, SkipBlanks, Render;
    var text := Render(items.head, fmt, d);
    var e := p + |text|;
    if items.tail.INil? {
      assert RenderItems(items, fmt, d) == text;
      AtByte(s, e, [RBRACKET], 0);
    } else {
      var after := RenderItems(items.tail, fmt, d);
      AtAppend(s, p, text, Separator(fmt) + after);
      AtAppend(s, e, Separator(fmt), after);
      AtByte(s, e, Separator(fmt), 0);
      SeparatorSkipped(s, e, items.tail, fmt, d);
    }
  }

  lemma SeparatorSkipped(s: Text, e: nat, tail: Items, fmt: bool, d: nat)
    requires tail.ICons? && At(s, e, Separator(fmt))
    requires At(s, e + |Separator(fmt)|, RenderItems(tail, fmt, d))
    requires At(s, e + |Separator(fmt)| + |RenderItems(tail, fmt, d)|, [RBRACKET])
    ensures e + 1 < |s| && SkipBlanks(s, e + 1) == e + |Separator(fmt)|
  {
    hide At;
    ItemsVisible(s, e + |Separator(fmt)|, tail, fmt, d);
    var blank: Text := if fmt then [SPACE] else [];
    assert Separator(fmt) == [COMMA] + blank;
    AtAppend(s, e, [COMMA], blank);
    SkipOver(s, e + 1, blank);
  }

  /** The text of the members `members` and of the brace that closes them stands at `start`. */
  ghost predicate BodyAt(s: Text, start: nat, members: Members, fmt: bool, d: nat) {
    var m := start + |Newline(fmt)|;
    var close := m + |RenderMembers(members, fmt, d + 1)|;
    At(s, start, Newline(fmt)) && At(s, m, RenderMembers(members, fmt, d + 1))
    && At(s, close, Indent(fmt, d)) && At(s, close + |Indent(fmt, d)|, [RBRACE])
  }

  function BodyEnd(start: nat, members: Members, fmt: bool, d: nat): nat {
    start + |Newline(fmt)| + |RenderMembers(members, fmt, d + 1)| + |Indent(fmt, d)| + 1
  }

  lemma {:induction false} ObjectParses(s: Text, o: nat, members: Members, fmt: bool, d: nat, depth: nat)
    requires Terminated(s) && PrintableMembers(members) && depth <= NESTING_LIMIT
    requires At(s, o, Render(Obj(members), fmt, d)) && o + |Render(Obj(members), fmt, d)| < |s|
    ensures Outcome(ParseValue(s, o, depth), depth, Height(Obj(members)), Obj(members),
                    o + |Render(Obj(members), fmt, d)|)
    decreases members, 1
  {
    hide At, SkipBlanks, Render, RenderMembers, ParseValue, ParseMembers, ParseObject, Quoted, BodyAt, BodyEnd, ValueAt;
    OpenObject(s, o, members, fmt, d);
    DispatchContainer(s, o, depth);
    ObjectStep(s, o, depth);
    if members.MNil? {
      EmptyBody(s, o + 1, fmt, d);
    } else {
      MemberStart(s, o + 1, members, fmt, d);
      VisibleStays(s, SkipBlanks(s, o + 1));
      if depth < NESTING_LIMIT {
        MembersParse(s, SkipBlanks(s, o + 1) - 1, o + 1, members, fmt, d, depth + 1);
      }
    }
  }

  lemma EmptyBody(s: Text, start: nat, fmt: bool, d: nat)
    requires BodyAt(s, start, MNil, fmt, d)
    ensures var p := BodyEnd(start, MNil, fmt, d) - 1;
            start < |s| && p < |s| && SkipBlanks(s, start) == p && s[p] == RBRACE
  {
    hide At, SkipBlanks;
    CloseSkipped(s, start, fmt, d);
  }

  lemma OpenObject(s: Text, o: nat, members: Members, fmt: bool, d: nat)
    requires At(s, o, Render(Obj(members), fmt, d))
    ensures s[o] == LBRACE && BodyAt(s, o + 1, members, fmt, d)
    ensures BodyEnd(o + 1, members, fmt, d) == o + |Render(Obj(members), fmt, d)|
  {
    hide At;
    var close := Indent(fmt, d) + [RBRACE];
    var body := RenderMembers(members, fmt, d + 1);
    AtAppend(s, o, [LBRACE], Newline(fmt) + (body + close));
    AtAppend(s, o + 1, Newline(fmt), body + close);
    AtAppend(s, o + 1 + |Newline(fmt)|, body, close);
    AtAppend(s, o + 1 + |Newline(fmt)| + |body|, Indent(fmt, d), [RBRACE]);
    AtByte(s, o, [LBRACE], 0);
  }

  /** Only blanks stand between a last value, or an opening brace, and the closing brace. */
  lemma CloseSkipped(s: Text, o: nat, fmt: bool, d: nat)
    requires At(s, o, Newline(fmt)) && At(s, o + |Newline(fmt)|, Indent(fmt, d))
    requires At(s, o + |Newline(fmt)| + |Indent(fmt, d)|, [RBRACE])
    ensures var p := o + |Newline(fmt)| + |Indent(fmt, d)|;
            p < |s| && SkipBlanks(s, o) == p && s[p] == RBRACE && !Numbers.IsNumberByte(s[o])
  {
    hide At;
    var blanks := Newline(fmt) + Indent(fmt, d);
    AtAppend(s, o, Newline(fmt), Indent(fmt, d));
    AtByte(s, o + |blanks|, [RBRACE], 0);
    SkipOver(s, o, blanks);
    if fmt {
      AtByte(s, o, Newline(fmt), 0);
    }
  }

  lemma MembersRendered(members: Members, fmt: bool, d: nat)
    requires members.MCons?
    ensures RenderMembers(members, fmt, d)
         == Indent(fmt, d) + (Quoted(members.key) + (Colon(fmt)
            + (Render(members.value, fmt, d) + AfterValue(members.rest, fmt, d))))
  {
  }

  /** In front of a member stand only the line break and the indentation; its parts follow each other. */
  lemma MemberStart(s: Text, start: nat, members: Members, fmt: bool, d: nat)
    requires members.MCons? && BodyAt(s, start, members, fmt, d)
    ensures var p := start + |Newline(fmt)| + |Indent(fmt, d + 1)|;
            p < |s| && SkipBlanks(s, start) == p && s[p] == QUOTE && At(s, p, Quoted(members.key))
            && ValueAt(s, p + |Quoted(members.key)|, members, fmt, d)
            && p + |Quoted(members.key)| + |Colon(fmt)| + |Render(members.value, fmt, d + 1)|
               + |AfterValue(members.rest, fmt, d + 1)|
               == start + |Newline(fmt)| + |RenderMembers(members, fmt, d + 1)|
  {
    hide *;
    BodyParts(s, start, members, fmt, d);
    MembersRendered(members, fmt, d + 1);
    var value := Render(members.value, fmt, d + 1);
    var after := AfterValue(members.rest, fmt, d + 1);
    var q := Quoted(members.key);
    var m := start + |Newline(fmt)|;
    var w := Newline(fmt) + Indent(fmt, d + 1);
    var p := start + |w|;
    AtAppend(s, m, Indent(fmt, d + 1), q + (Colon(fmt) + (value + after)));
    AtAppend(s, p, q, Colon(fmt) + (value + after));
    AtAppend(s, p + |q|, Colon(fmt), value + after);
    AtAppend(s, p + |q| + |Colon(fmt)|, value, after);
    AtAppend(s, start, Newline(fmt), Indent(fmt, d + 1));
    ValueParts(s, p + |q|, members, fmt, d);
    QuotedFirst(members.key);
    AtByte(s, p, q, 0);
    BlankLayout(fmt, d + 1);
    SkipOver(s, start, w);
  }

  lemma BodyParts(s: Text, start: nat, members: Members, fmt: bool, d: nat)
    requires BodyAt(s, start, members, fmt, d)
    ensures At(s, start, Newline(fmt)) && At(s, start + |Newline(fmt)|, RenderMembers(members, fmt, d + 1))
  {
  }

  lemma ValueParts(s: Text, c: nat, members: Members, fmt: bool, d: nat)
    requires members.MCons?
    requires At(s, c, Colon(fmt)) && At(s, c + |Colon(fmt)|, Render(members.value, fmt, d + 1))
    requires At(s, c + |Colon(fmt)| + |Render(members.value, fmt, d + 1)|, AfterValue(members.rest, fmt, d + 1))
    ensures ValueAt(s, c, members, fmt, d)
  {
    hide At;
  }

  lemma QuotedFirst(t: Text)
    ensures |Quoted(t)| > 0 && Quoted(t)[0] == QUOTE && QUOTE > SPACE
  {
  }

  lemma BlankLayout(fmt: bool, d: nat)
    ensures var w := Newline(fmt) + Indent(fmt, d); forall k :: 0 <= k < |w| ==> w[k] <= SPACE
  {
  }

  /** A member's colon, value and remainder stand at `c`. */
  ghost predicate ValueAt(s: Text, c: nat, members: Members, fmt: bool, d: nat)
    requires members.MCons?
  {
    var v := c + |Colon(fmt)|;
    var e := v + |Render(members.value, fmt, d + 1)|;
    At(s, c, Colon(fmt)) && At(s, v, Render(members.value, fmt, d + 1))
    && At(s, e, AfterValue(members.rest, fmt, d + 1))
  }

  lemma {:induction false} MembersParse(s: Text, o: nat, start: nat, members: Members, fmt: bool, d: nat, depth: nat)
    requires Terminated(s) && members.MCons? && PrintableMembers(members) && depth <= NESTING_LIMIT
    requires BodyAt(s, start, members, fmt, d) && BodyEnd(start, members, fmt, d) < |s|
    requires o + 1 < |s| && start < |s| && SkipBlanks(s, o + 1) == SkipBlanks(s, start)
    ensures Outcome(ParseMembers(s, o, depth), depth, MembersHeight(members), members,
                    BodyEnd(start, members, fmt, d))
    decreases members, 0
  {
    hide At, SkipBlanks, Render, RenderMembers, ParseValue, ParseString, ParseMembers, CString;
    MemberStart(s, start, members, fmt, d);
    var p := SkipBlanks(s, start);
    var c := p + |Quoted(members.key)|;
    var v := c + |Colon(fmt)|;
    var e := v + |Render(members.value, fmt, d + 1)|;
    ParseQuoted(s, p, members.key);
    CStringOfNulFree(members.key);
    ColonSkipped(s, c, members.value, fmt, d + 1);
    MembersStep(s, o, depth, members.key, c);
    AfterValueStart(s, start, e, members, fmt, d);
    ValueParses(s, v, members.value, fmt, d + 1, depth);
    if members.rest.MCons? {
      MembersParse(s, e, e + 1, members.rest, fmt, d, depth);
    }
  }

  lemma ColonSkipped(s: Text, c: nat, value: Json, fmt: bool, d: nat)
    requires At(s, c, Colon(fmt)) && At(s, c + |Colon(fmt)|, Render(value, fmt, d))
    ensures c + 1 < |s| && s[c] == COLON && SkipBlanks(s, c) == c
    ensures SkipBlanks(s, c + 1) == c + |Colon(fmt)|
  {
    hide At;
    AtByte(s, c, Colon(fmt), 0);
    VisibleStays(s, c);
    FirstByte(value, fmt, d);
    AtByte(s, c + |Colon(fmt)|, Render(value, fmt, d), 0);
    var blank: Text := if fmt then [TAB] else [];
    assert Colon(fmt) == [COLON] + blank;
    AtAppend(s, c, [COLON], blank);
    SkipOver(s, c + 1, blank);
  }

  /** Behind a value stands a comma and the next member, or only blanks and the closing brace. */
  lemma AfterValueStart(s: Text, start: nat, e: nat, members: Members, fmt: bool, d: nat)
    requires members.MCons? && BodyAt(s, start, members, fmt, d) && BodyEnd(start, members, fmt, d) <= |s|
    requires At(s, e, AfterValue(members.rest, fmt, d + 1))
    requires e + |AfterValue(members.rest, fmt, d + 1)| + |Indent(fmt, d)| + 1 == BodyEnd(start, members, fmt, d)
    ensures e < |s| && !Numbers.IsNumberByte(s[e])
    ensures members.rest.MNil? ==>
              SkipBlanks(s, e) == BodyEnd(start, members, fmt, d) - 1
              && s[BodyEnd(start, members, fmt, d) - 1] == RBRACE
    ensures members.rest.MCons? ==>
              s[e] == COMMA && SkipBlanks(s, e) == e && e + 1 < |s|
              && BodyAt(s, e + 1, members.rest, fmt, d)
              && BodyEnd(e + 1, members.rest, fmt, d) == BodyEnd(start, members, fmt, d)
  {
    hide At, SkipBlanks, Render, RenderMembers;
    if members.rest.MNil? {
      CloseSkipped(s, e, fmt, d);
    } else {
      var body := RenderMembers(members.rest, fmt, d + 1);
      AtAppend(s, e, [COMMA], Newline(fmt) + body);
      AtAppend(s, e + 1, Newline(fmt), body);
      AtByte(s, e, [COMMA], 0);
      VisibleStays(s, e);
    }
  }

  /**
    Printing and parsing back: `cJSON_Parse` of either rendering returns the same tree and ends behind the
    text, with or without demanding the end of input, when containers nest at most 1000 deep; it fails when
    they nest deeper.
   */
  lemma PrintParse(j: Json, fmt: bool, requireEnd: bool)
    requires Printable(j)
    ensures var t := Render(j, fmt, 0); var r := Parse(t, requireEnd);
            if Height(j) <= NESTING_LIMIT then r == Ok(j, |t|) else r.Fail?
  {
    var t := Render(j, fmt, 0);
    var s := t + [NUL];
    assert At(s, 0, t);
    FirstByte(j, fmt, 0);
    NotAt(s, 0, BOM);
    hide Render, ParseValue;
    VisibleStays(s, 0);
    ValueParses(s, 0, j, fmt, 0, 0);
    NulSkipped(s, |t|);
    hide SkipBlanks;
  }

  lemma NulSkipped(s: Text, o: nat)
    requires |s| == o + 1 && s[o] == NUL
    ensures SkipBlanks(s, o) == o
  {
    assert BlankEnd(s, o + 1) == |s|;
  }
}
