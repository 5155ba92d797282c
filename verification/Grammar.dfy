/**
  Which texts the parser accepts, and as which trees: a grammar by characters, told without the parser's offsets, and
  proved to describe it exactly.
 */
module Grammar {
  import opened Bytes
  import opened JsonStrings
  import Numbers
  import opened Numerals
  import opened Json
  import opened Parser
  import opened Spelling
  import RoundTrip

  /** Blanks and control bytes. */
  predicate Blank(t: Text) {
    forall k :: 0 <= k < |t| ==> t[k] <= ' ' as int
  }

  /** A numeral of at most 63 bytes that starts with a digit or a minus. */
  ghost predicate NumberText(t: Text, v: real) {
    0 < |t| <= 63 && (t[0] == '-' as int || '0' as int <= t[0] <= '9' as int)
    && exists n :: WellWritten(n) && Written(n) == t && StandsFor(n, v)
  }

  /** A literal; the tree holds what stands before a NUL in it. */
  ghost predicate StringText(t: Text, x: Text) {
    exists raw :: LiteralText(t, raw) && CString(raw) == x
  }

  predicate Between(t: Text, open: char, close: char)
    requires open as int < 256 && close as int < 256
  {
    |t| >= 2 && t[0] == open as int && t[|t| - 1] == close as int
  }

  ghost predicate ValueText(t: Text, j: Json)
    decreases j, 1
  {
    match j
    case Null => t == Lit("null")
    case Bool(b) => t == if b then Lit("true") else Lit("false")
    case Num(v) => NumberText(t, v)
    case Str(x) => StringText(t, x)
    case Arr(items) =>
      Between(t, '[', ']') && if items.INil? then Blank(t[1..|t| - 1]) else ItemsText(t[1..|t| - 1], items)
    case Obj(members) =>
      Between(t, '{', '}') && if members.MNil? then Blank(t[1..|t| - 1]) else MembersText(t[1..|t| - 1], members)
  }

  /** Values with commas between them, and blanks around each. */
  ghost predicate ItemsText(t: Text, items: Items)
    requires items.ICons?
    decreases items, 3
  {
    exists i, j, k :: ItemAt(t, items, i, j, k)
  }

  /** The first value stands from `i` to `j`, and blanks behind it up to `k`. */
  ghost predicate ItemAt(t: Text, items: Items, i: nat, j: nat, k: nat)
    requires items.ICons?
    decreases items, 2
  {
    i <= j <= k <= |t| && Blank(t[..i]) && ValueText(t[i..j], items.head) && Blank(t[j..k])
    && if items.tail.INil? then k == |t| else k < |t| && t[k] == ',' as int && ItemsText(t[k + 1..], items.tail)
  }

  /** Where a member's key, colon and value stand: the key from `key` to `behind`, the value from `value` to `end`. */
  datatype Cuts = Cuts(key: nat, behind: nat, colon: nat, value: nat, end: nat, next: nat)

  /** Members with commas between them: literals for keys, a colon and a value, with blanks around each. */
  ghost predicate MembersText(t: Text, members: Members)
    requires members.MCons?
    decreases members, 3
  {
    exists c :: MemberAt(t, members, c)
  }

  ghost predicate MemberAt(t: Text, members: Members, c: Cuts)
    requires members.MCons?
    decreases members, 2
  {
    c.key <= c.behind <= c.colon < c.value <= c.end <= c.next <= |t|
    && Blank(t[..c.key]) && StringText(t[c.key..c.behind], members.key) && Blank(t[c.behind..c.colon])
    && t[c.colon] == ':' as int && Blank(t[c.colon + 1..c.value]) && ValueText(t[c.value..c.end], members.value)
    && Blank(t[c.end..c.next])
    && if members.rest.MNil? then c.next == |t|
       else c.next < |t| && t[c.next] == ',' as int && MembersText(t[c.next + 1..], members.rest)
  }

  // ---- What is accepted is in the grammar ----

  lemma BlanksBetween(s: Text, o: nat)
    requires o < |s|
    ensures o <= SkipBlanks(s, o) && Blank(s[o..SkipBlanks(s, o)])
  {
  }

  lemma BlankSlice(s: Text, o: nat, e: nat, i: nat, j: nat)
    requires o <= e <= |s| && i <= j <= e - o && Blank(s[o + i..o + j])
    ensures Blank(s[o..e][i..j])
  {
    SliceOf(s, o, e, i, j);
  }

  lemma NumberSound(s: Text, o: nat)
    requires Terminated(s) && o < |s| && ParseNumber(s, o).Ok? && (s[o] == MINUS || Numbers.IsDigit(s[o]))
    ensures ParseNumber(s, o).value.Num? && NumberText(s[o..ParseNumber(s, o).off], ParseNumber(s, o).value.v)
  {
    var k := Numbers.NumberRun(s, o, 63);
    RunTaken(s, o, k);
    var run := s[o..o + k];
    var n, tail := NumeralRead(run);
    ReadsNumeral(n, tail);
    hide *;
    NumberTaken(s, o, k, n, tail);
  }

  lemma NumberTaken(s: Text, o: nat, k: nat, n: Numeral, tail: Text)
    requires Terminated(s) && o < |s| && ParseNumber(s, o).Ok? && (s[o] == MINUS || Numbers.IsDigit(s[o]))
    requires k == Numbers.NumberRun(s, o, 63) && o + k <= |s| && s[o..o + k] == Written(n) + tail && WellWritten(n)
    requires Numbers.NumberAt(s, o) == Numbers.Strtod(s[o..o + k])
    requires Numbers.Strtod(s[o..o + k]).0 == |Written(n)| && StandsFor(n, Numbers.Strtod(s[o..o + k]).1)
    ensures ParseNumber(s, o).value.Num? && NumberText(s[o..ParseNumber(s, o).off], ParseNumber(s, o).value.v)
  {
    hide Numbers.NumberAt, Numbers.Strtod, Numbers.NumberRun, Written, WellWritten, StandsFor;
    var e := ParseNumber(s, o).off;
    SliceOf(s, o, o + k, 0, e - o);
    assert s[o..e] == Written(n);
  }

  /** Only what follows the blanks behind `o` matters to the element loop. */
  lemma SameItems(s: Text, o: nat, q: nat, depth: nat)
    requires Terminated(s) && o + 1 < |s| && q + 1 < |s| && SkipBlanks(s, o + 1) == SkipBlanks(s, q + 1)
    ensures ParseItems(s, o, depth) == ParseItems(s, q, depth)
  {
    hide SkipBlanks, ParseValue;
  }

  lemma SameMembers(s: Text, o: nat, q: nat, depth: nat)
    requires Terminated(s) && o + 1 < |s| && q + 1 < |s| && SkipBlanks(s, o + 1) == SkipBlanks(s, q + 1)
    ensures ParseMembers(s, o, depth) == ParseMembers(s, q, depth)
  {
    hide SkipBlanks, ParseString, ParseMember;
  }

  lemma SkippedTwice(s: Text, o: nat)
    requires Terminated(s) && o < |s| && s[SkipBlanks(s, o)] > SPACE
    ensures SkipBlanks(s, SkipBlanks(s, o)) == SkipBlanks(s, o)
  {
    RoundTrip.VisibleStays(s, SkipBlanks(s, o));
  }

  lemma {:induction false} ValueSound(s: Text, o: nat, depth: nat)
    requires Terminated(s) && o < |s| && ParseValue(s, o, depth).Ok? && depth <= NESTING_LIMIT
    ensures var r := ParseValue(s, o, depth);
            ValueText(s[o..r.off], r.value) && depth + Height(r.value) <= NESTING_LIMIT
    decreases |s| - o, 3
  {
    hide ParseArray, ParseObject, ParseNumber, ParseString, NumberText, StringText, ItemsText, MembersText;
    if s[o] == LBRACKET {
      DispatchContainer(s, o, depth);
      ArraySound(s, o, depth);
    } else if s[o] == LBRACE {
      DispatchContainer(s, o, depth);
      ObjectSound(s, o, depth);
    } else {
      ScalarSound(s, o, depth);
    }
  }

  lemma ScalarSound(s: Text, o: nat, depth: nat)
    requires Terminated(s) && o < |s| && ParseValue(s, o, depth).Ok? && s[o] != LBRACKET && s[o] != LBRACE
    ensures var r := ParseValue(s, o, depth); ValueText(s[o..r.off], r.value) && Height(r.value) == 0
  {
    hide ParseArray, ParseObject, ParseNumber, ParseString, NumberText, StringText, ItemsText, MembersText;
    if s[o] == QUOTE {
      if ParseString(s, o).Ok? {
        var e := ParseString(s, o).off;
        LiteralIff(s, o, e, ParseString(s, o).value);
        LiteralString(s[o..e], ParseString(s, o).value);
      }
    } else if ParseNumber(s, o).Ok? && (s[o] == MINUS || Numbers.IsDigit(s[o])) {
      NumberSound(s, o);
    }
  }

  lemma LiteralString(t: Text, raw: Text)
    requires LiteralText(t, raw)
    ensures StringText(t, CString(raw))
  {
  }

  lemma Enclosing(s: Text, o: nat, e: nat)
    requires o + 2 <= e <= |s|
    ensures var t := s[o..e]; |t| == e - o && t[0] == s[o] && t[|t| - 1] == s[e - 1] && t[1..|t| - 1] == s[o + 1..e - 1]
  {
    SliceOf(s, o, e, 1, e - o - 1);
  }

  lemma {:induction false} ArraySound(s: Text, o: nat, depth: nat)
    requires Terminated(s) && o < |s| && s[o] == LBRACKET && ParseArray(s, o, depth).Ok?
    ensures var r := ParseArray(s, o, depth);
            ValueText(s[o..r.off], r.value) && depth + Height(r.value) <= NESTING_LIMIT
    decreases |s| - o, 2
  {
    hide ParseArray, ParseItems, SkipBlanks, ItemsText;
    ArrayStep(s, o, depth);
    var e := ParseArray(s, o, depth).off;
    var p := SkipBlanks(s, o + 1);
    if s[p] == RBRACKET {
      BlanksBetween(s, o + 1);
    } else {
      InnerVisible(s, o, depth + 1);
      SkippedTwice(s, o + 1);
      SameItems(s, p - 1, o, depth + 1);
      ItemsSound(s, o, depth + 1);
    }
    Enclosing(s, o, e);
  }

  lemma InnerVisible(s: Text, o: nat, depth: nat)
    requires Terminated(s) && o + 1 < |s|
    ensures var p := SkipBlanks(s, o + 1);
            o < p && (s[p] <= SPACE ==> ParseItems(s, p - 1, depth).Fail? && ParseMembers(s, p - 1, depth).Fail?)
  {
    var p := SkipBlanks(s, o + 1);
    if s[p] <= SPACE {
      assert BlankEnd(s, o + 1) == |s|;
      assert SkipBlanks(s, p) == p;
      NulNoValue(s, p, depth);
      hide ParseValue, ParseString, ParseMember;
    }
  }

  lemma NulNoValue(s: Text, p: nat, depth: nat)
    requires Terminated(s) && p < |s| && s[p] == NUL
    ensures ParseValue(s, p, depth).Fail? && ParseString(s, p).Fail?
  {
    NotLiteral(s, p);
  }

  lemma {:induction false} ItemsSound(s: Text, o: nat, depth: nat)
    requires Terminated(s) && o + 1 < |s| && ParseItems(s, o, depth).Ok? && depth <= NESTING_LIMIT
    ensures var r := ParseItems(s, o, depth);
            r.value.ICons? && o + 2 <= r.off && s[r.off - 1] == RBRACKET
            && ItemsText(s[o + 1..r.off - 1], r.value) && depth + ItemsHeight(r.value) <= NESTING_LIMIT
    decreases |s| - o, 1
  {
    hide ParseItems, ParseValue, SkipBlanks, ValueText, ItemsText, Blank;
    ItemsStep(s, o, depth);
    var r := ParseItems(s, o, depth);
    var p := SkipBlanks(s, o + 1);
    var v := ParseValue(s, p, depth);
    var q := SkipBlanks(s, v.off);
    BlanksBetween(s, o + 1);
    BlanksBetween(s, v.off);
    ValueSound(s, p, depth);
    if s[q] == COMMA {
      ItemsSound(s, q, depth);
    }
    ItemsPlaced(s, o, r.off, r.value, p, v.off, q);
  }

  /** The pieces of a list, by where they stand in the buffer. */
  lemma ItemsPlaced(s: Text, o: nat, e: nat, items: Items, p: nat, v: nat, q: nat)
    requires items.ICons? && o + 1 <= p <= v <= q < e <= |s| && Blank(s[o + 1..p]) && Blank(s[v..q])
    requires ValueText(s[p..v], items.head)
    requires if items.tail.INil? then q == e - 1
             else q + 1 < e && s[q] == COMMA && ItemsText(s[q + 1..e - 1], items.tail)
    ensures ItemsText(s[o + 1..e - 1], items)
  {
    hide ValueText, Blank;
    var t := s[o + 1..e - 1];
    var i, j, k := p - (o + 1), v - (o + 1), q - (o + 1);
    SliceOf(s, o + 1, e - 1, 0, i);
    SliceOf(s, o + 1, e - 1, i, j);
    SliceOf(s, o + 1, e - 1, j, k);
    if items.tail.ICons? {
      SliceOf(s, o + 1, e - 1, k + 1, |t|);
      assert t[k] == s[q];
      assert t[k + 1..] == t[k + 1..|t|];
    }
    assert t[..i] == t[0..i];
    hide ItemsText;
    assert ItemAt(t, items, i, j, k);
    ItemsCut(t, items, i, j, k);
  }

  lemma ItemsCut(t: Text, items: Items, i: nat, j: nat, k: nat)
    requires items.ICons? && ItemAt(t, items, i, j, k)
    ensures ItemsText(t, items)
  {
    hide ItemAt;
  }

  lemma {:induction false} ObjectSound(s: Text, o: nat, depth: nat)
    requires Terminated(s) && o < |s| && s[o] == LBRACE && ParseObject(s, o, depth).Ok?
    ensures var r := ParseObject(s, o, depth);
            ValueText(s[o..r.off], r.value) && depth + Height(r.value) <= NESTING_LIMIT
    decreases |s| - o, 2
  {
    hide ParseObject, ParseMembers, SkipBlanks, MembersText;
    ObjectStep(s, o, depth);
    var e := ParseObject(s, o, depth).off;
    var p := SkipBlanks(s, o + 1);
    if s[p] == RBRACE {
      BlanksBetween(s, o + 1);
    } else {
      InnerVisible(s, o, depth + 1);
      SkippedTwice(s, o + 1);
      SameMembers(s, p - 1, o, depth + 1);
      MembersSound(s, o, depth + 1);
    }
    Enclosing(s, o, e);
  }

  lemma {:induction false} MembersSound(s: Text, o: nat, depth: nat)
    requires Terminated(s) && o + 1 < |s| && ParseMembers(s, o, depth).Ok? && depth <= NESTING_LIMIT
    ensures var r := ParseMembers(s, o, depth);
            r.value.MCons? && o + 2 <= r.off && s[r.off - 1] == RBRACE
            && MembersText(s[o + 1..r.off - 1], r.value) && depth + MembersHeight(r.value) <= NESTING_LIMIT
    decreases |s| - o, 1
  {
    hide ParseMembers, ParseValue, SkipBlanks, ValueText, StringText, MembersText, Blank, CString, Height;
    var r := ParseMembers(s, o, depth);
    var c := MemberParts(s, o, depth);
    ValueSound(s, c.value, depth);
    if s[c.next] == COMMA {
      MembersSound(s, c.next, depth);
    }
    MembersPlaced(s, o, r.off, r.value, c);
  }

  /** Where the parser finds the parts of a member, and what it goes on with. */
  lemma MemberParts(s: Text, o: nat, depth: nat) returns (c: Cuts)
    requires Terminated(s) && o + 1 < |s| && ParseMembers(s, o, depth).Ok?
    ensures o + 1 <= c.key <= c.behind <= c.colon < c.value <= c.end <= c.next < |s|
    ensures var r := ParseMembers(s, o, depth);
            var v := ParseValue(s, c.value, depth);
            r.value.MCons? && v == Ok(r.value.value, c.end) && StringText(s[c.key..c.behind], r.value.key)
            && if s[c.next] == COMMA then
                 c.next + 1 < |s| && ParseMembers(s, c.next, depth) == Ok(r.value.rest, r.off)
               else s[c.next] == RBRACE && r.value.rest.MNil? && r.off == c.next + 1
    ensures Blank(s[o + 1..c.key]) && Blank(s[c.behind..c.colon]) && Blank(s[c.colon + 1..c.value])
    ensures Blank(s[c.end..c.next]) && s[c.colon] == COLON
  {
    hide ParseMembers, ParseValue, ParseString, SkipBlanks, StringText, Blank, CString, LiteralText;
    KeyStep(s, o, depth);
    var key := ParseString(s, SkipBlanks(s, o + 1));
    var p := SkipBlanks(s, o + 1);
    MembersStep(s, o, depth, key.value, key.off);
    var colon := SkipBlanks(s, key.off);
    var at := SkipBlanks(s, colon + 1);
    var v := ParseValue(s, at, depth);
    c := Cuts(p, key.off, colon, at, v.off, SkipBlanks(s, v.off));
    BlanksBetween(s, o + 1);
    BlanksBetween(s, key.off);
    BlanksBetween(s, colon + 1);
    BlanksBetween(s, v.off);
    LiteralIff(s, p, key.off, key.value);
    LiteralString(s[p..key.off], key.value);
  }

  lemma ByteOf(s: Text, b: nat, e: nat, i: nat)
    requires b <= e <= |s| && i < e - b
    ensures s[b..e][i] == s[b + i]
  {
  }

  lemma Shifted(s: Text, b: nat, e: nat, c: Cuts)
    requires b <= c.key <= c.behind <= c.colon < c.value <= c.end <= c.next <= e <= |s|
    ensures var t := s[b..e];
            t[..c.key - b] == s[b..c.key] && t[c.key - b..c.behind - b] == s[c.key..c.behind]
            && t[c.behind - b..c.colon - b] == s[c.behind..c.colon]
            && t[c.colon + 1 - b..c.value - b] == s[c.colon + 1..c.value]
            && t[c.value - b..c.end - b] == s[c.value..c.end] && t[c.end - b..c.next - b] == s[c.end..c.next]
            && t[c.colon - b] == s[c.colon] && (c.next < e ==> t[c.next - b] == s[c.next])
            && (c.next < e ==> t[c.next - b + 1..] == s[c.next + 1..e])
  {
    hide *;
    ShiftedKey(s, b, e, c);
    ShiftedValue(s, b, e, c);
  }

  lemma ShiftedKey(s: Text, b: nat, e: nat, c: Cuts)
    requires b <= c.key <= c.behind <= c.colon < e <= |s|
    ensures var t := s[b..e];
            t[..c.key - b] == s[b..c.key] && t[c.key - b..c.behind - b] == s[c.key..c.behind]
            && t[c.behind - b..c.colon - b] == s[c.behind..c.colon] && t[c.colon - b] == s[c.colon]
  {
    var t := s[b..e];
    SliceOf(s, b, e, 0, c.key - b);
    assert t[..c.key - b] == t[0..c.key - b];
    SliceOf(s, b, e, c.key - b, c.behind - b);
    SliceOf(s, b, e, c.behind - b, c.colon - b);
    ByteOf(s, b, e, c.colon - b);
  }

  lemma ShiftedValue(s: Text, b: nat, e: nat, c: Cuts)
    requires b <= c.colon < c.value <= c.end <= c.next <= e <= |s|
    ensures var t := s[b..e];
            t[c.colon + 1 - b..c.value - b] == s[c.colon + 1..c.value]
            && t[c.value - b..c.end - b] == s[c.value..c.end] && t[c.end - b..c.next - b] == s[c.end..c.next]
            && (c.next < e ==> t[c.next - b] == s[c.next] && t[c.next - b + 1..] == s[c.next + 1..e])
  {
    var t := s[b..e];
    SliceOf(s, b, e, c.colon + 1 - b, c.value - b);
    SliceOf(s, b, e, c.value - b, c.end - b);
    SliceOf(s, b, e, c.end - b, c.next - b);
    if c.next < e {
      ByteOf(s, b, e, c.next - b);
      SliceOf(s, b, e, c.next - b + 1, e - b);
      assert t[c.next - b + 1..] == t[c.next - b + 1..e - b];
    }
  }

  lemma MembersPlaced(s: Text, o: nat, e: nat, members: Members, c: Cuts)
    requires members.MCons? && e <= |s|
    requires o + 1 <= c.key <= c.behind <= c.colon < c.value <= c.end <= c.next < e
    requires Blank(s[o + 1..c.key]) && StringText(s[c.key..c.behind], members.key) && Blank(s[c.behind..c.colon])
    requires s[c.colon] == COLON && Blank(s[c.colon + 1..c.value]) && ValueText(s[c.value..c.end], members.value)
    requires Blank(s[c.end..c.next])
    requires if members.rest.MNil? then c.next == e - 1
             else c.next + 1 < e && s[c.next] == COMMA && MembersText(s[c.next + 1..e - 1], members.rest)
    ensures MembersText(s[o + 1..e - 1], members)
  {
    hide ValueText, StringText, Blank, MembersText;
    var b := o + 1;
    var t := s[b..e - 1];
    var d := Cuts(c.key - b, c.behind - b, c.colon - b, c.value - b, c.end - b, c.next - b);
    Shifted(s, b, e - 1, c);
    assert MemberAt(t, members, d);
    MembersCut(t, members, d);
  }

  lemma MembersCut(t: Text, members: Members, c: Cuts)
    requires members.MCons? && MemberAt(t, members, c)
    ensures MembersText(t, members)
  {
    hide MemberAt;
  }

  // ---- And everything in the grammar is accepted ----

  lemma SkipTo(s: Text, o: nat, e: nat)
    requires o <= e < |s| && Blank(s[o..e]) && s[e] > SPACE
    ensures SkipBlanks(s, o) == e
  {
    RoundTrip.SkipOver(s, o, s[o..e]);
  }

  /** A value's text starts visibly, and closes nothing. */
  lemma ValueStart(t: Text, j: Json)
    requires ValueText(t, j)
    ensures |t| > 0 && SPACE < t[0] < 128 && t[0] != RBRACKET && t[0] != RBRACE
  {
    hide ItemsText, MembersText;
  }

  lemma KeyStart(t: Text, x: Text)
    requires StringText(t, x)
    ensures |t| >= 2 && t[0] == QUOTE
  {
  }

  predicate NumeralBytes(t: Text) {
    forall k :: 0 <= k < |t| ==> t[k] in Lit("0123456789+-eE.")
  }

  lemma NumeralBytesAppend(a: Text, b: Text)
    requires NumeralBytes(a) && NumeralBytes(b)
    ensures NumeralBytes(a + b)
  {
  }

  lemma DigitBytes(t: Text)
    requires AllDigits(t)
    ensures NumeralBytes(t)
  {
    forall k | 0 <= k < |t| ensures t[k] in Lit("0123456789+-eE.") {
      NumberBytes(t[k]);
    }
  }

  lemma ExponentBytes(t: Text)
    requires IsExponent(t)
    ensures NumeralBytes(t)
  {
    var s := if t[1] == '+' as int || t[1] == '-' as int then 2 else 1;
    DigitBytes(t[s..]);
    NumberBytes(t[0]);
    NumberBytes(t[1]);
    assert forall k :: s <= k < |t| ==> t[k] == t[s..][k - s];
  }

  lemma WrittenBytes(n: Numeral)
    requires WellWritten(n)
    ensures NumeralBytes(Written(n))
  {
    DigitBytes(n.whole);
    DigitBytes(n.fraction);
    if n.exponent != [] {
      ExponentBytes(n.exponent);
    }
    NumberBytes('+' as int);
    NumberBytes('-' as int);
    NumberBytes('.' as int);
    var dot: Text := if n.dotted then Lit(".") else [];
    assert NumeralBytes(n.sign) && NumeralBytes(dot);
    hide NumeralBytes;
    NumeralBytesAppend(n.sign, n.whole);
    NumeralBytesAppend(n.sign + n.whole, dot);
    NumeralBytesAppend(n.sign + n.whole + dot, n.fraction);
    NothingBytes();
    NumeralBytesAppend(n.sign + n.whole + dot + n.fraction, n.exponent);
  }

  lemma NothingBytes()
    ensures NumeralBytes([])
  {
  }

  lemma OneValue(n: Numeral, v: real, w: real)
    requires WellWritten(n) && StandsFor(n, v) && StandsFor(n, w)
    ensures v == w
  {
    hide Value, Ten, ExponentOf;
    var x := ExponentOf(n) - |n.fraction|;
    if x < 0 {
      TenIs(-x);
      var t := Ten(-x) as real;
      assert v * t == w * t;
      SameFactor(v, w, t);
    }
  }

  lemma SameFactor(v: real, w: real, t: real)
    requires v * t == w * t && t > 0.0
    ensures v == w
  {
    assert v == v * t / t;
    assert w == w * t / t;
  }

  lemma NumberComplete(s: Text, o: nat, t: Text, v: real)
    requires Terminated(s) && At(s, o, t) && o + |t| < |s| && NumberText(t, v) && !Numbers.IsNumberByte(s[o + |t|])
    ensures ParseNumber(s, o) == Ok(Num(v), o + |t|)
  {
    var n :| WellWritten(n) && Written(n) == t && StandsFor(n, v);
    WrittenBytes(n);
    NumberBytes(s[o + |t|]);
    assert forall i :: o <= i < o + |t| ==> s[i] == t[i - o];
    assert t + [] == t;
    Unextended(n);
    hide *;
    NumeralAt(s, o, t);
    NumberAtIs(s, o, |t|, n, []);
    OneValue(n, v, Numbers.NumberAt(s, o).1);
    NumberParsed(s, o);
  }

  lemma Unextended(n: Numeral)
    ensures !Extends(n, [])
  {
  }

  lemma NumeralAt(s: Text, o: nat, t: Text)
    requires At(s, o, t)
    ensures o + |t| <= |s| && s[o..o + |t|] == t
  {
  }

  lemma NumberParsed(s: Text, o: nat)
    requires Terminated(s) && o < |s|
    ensures var n := Numbers.NumberAt(s, o); n.0 > 0 ==> ParseNumber(s, o) == Ok(Num(n.1), o + n.0)
  {
    hide Numbers.NumberAt;
  }

  lemma ScalarComplete(s: Text, o: nat, t: Text, j: Json, depth: nat)
    requires Terminated(s) && At(s, o, t) && o + |t| < |s| && ValueText(t, j) && !j.Arr? && !j.Obj?
    requires j.Num? ==> !Numbers.IsNumberByte(s[o + |t|])
    ensures ParseValue(s, o, depth) == Ok(j, o + |t|)
  {
    hide NumberText, StringText, ParseNumber, ParseString, ParseArray, ParseObject, ItemsText, MembersText;
    ValueStart(t, j);
    AtByte(s, o, t, 0);
    match j
    case Null =>
    case Bool(b) =>
      NotAt(s, o, NULL_TEXT);
      if b {
        NotAt(s, o, FALSE_TEXT);
      }
    case Num(v) =>
      NumberStart(t, v);
      NotLiteral(s, o);
      NumberComplete(s, o, t, v);
    case Str(x) =>
      KeyStart(t, x);
      NotLiteral(s, o);
      var raw := LiteralAt(s, o, t, x);
  }

  lemma NumberStart(t: Text, v: real)
    requires NumberText(t, v)
    ensures |t| > 0 && (t[0] == MINUS || Numbers.IsDigit(t[0]))
  {
  }

  lemma LiteralAt(s: Text, o: nat, t: Text, x: Text) returns (raw: Text)
    requires At(s, o, t) && StringText(t, x)
    ensures o < |s| && ParseString(s, o) == Ok(raw, o + |t|) && CString(raw) == x
  {
    hide Paired, Spelled, ParseString, CString;
    KeyStart(t, x);
    raw :| LiteralText(t, raw) && CString(raw) == x;
    LiteralIff(s, o, o + |t|, raw);
  }

  lemma {:induction false} ValueComplete(s: Text, o: nat, t: Text, j: Json, depth: nat)
    requires Terminated(s) && At(s, o, t) && o + |t| < |s| && ValueText(t, j) && depth + Height(j) <= NESTING_LIMIT
    requires j.Num? ==> !Numbers.IsNumberByte(s[o + |t|])
    ensures ParseValue(s, o, depth) == Ok(j, o + |t|)
    decreases j, 2
  {
    hide ItemsText, MembersText, ParseValue, ParseArray, ParseObject;
    match j
    case Arr(items) => ArrayComplete(s, o, t, items, depth);
    case Obj(members) => ObjectComplete(s, o, t, members, depth);
    case _ => ScalarComplete(s, o, t, j, depth);
  }

  lemma {:induction false} ArrayComplete(s: Text, o: nat, t: Text, items: Items, depth: nat)
    requires Terminated(s) && At(s, o, t) && o + |t| < |s| && ValueText(t, Arr(items))
    requires depth + 1 + ItemsHeight(items) <= NESTING_LIMIT
    ensures ParseValue(s, o, depth) == Ok(Arr(items), o + |t|)
    decreases items, 1
  {
    hide ItemsText, ParseValue, ParseArray, ParseItems, SkipBlanks;
    var e := o + |t|;
    Enclosing(s, o, e);
    assert s[o] == LBRACKET && s[e - 1] == RBRACKET;
    DispatchContainer(s, o, depth);
    ArrayStep(s, o, depth);
    if items.INil? {
      SkipTo(s, o + 1, e - 1);
    } else {
      ItemsVisible(s, o, e, items);
      SkippedTwice(s, o + 1);
      SameItems(s, SkipBlanks(s, o + 1) - 1, o, depth + 1);
      ItemsComplete(s, o, e, items, depth + 1);
    }
  }

  /** In front of the first value stand only blanks. */
  lemma ItemsVisible(s: Text, o: nat, e: nat, items: Items)
    requires o + 2 <= e <= |s| && items.ICons? && ItemsText(s[o + 1..e - 1], items)
    ensures var p := SkipBlanks(s, o + 1); o < p < e && s[p] > SPACE && s[p] != RBRACKET
  {
    hide *;
    var b := o + 1;
    var i, j, k := ItemsUncut(s[b..e - 1], items);
    ShiftedItem(s, b, e - 1, i, j, k);
    ValueStart(s[b + i..b + j], items.head);
    assert s[b + i] == s[b + i..b + j][0];
    SkipTo(s, b, b + i);
  }

  lemma {:induction false} ItemsComplete(s: Text, o: nat, e: nat, items: Items, depth: nat)
    requires Terminated(s) && o + 2 <= e < |s| && s[e - 1] == RBRACKET && items.ICons?
    requires ItemsText(s[o + 1..e - 1], items) && depth + ItemsHeight(items) <= NESTING_LIMIT
    ensures ParseItems(s, o, depth) == Ok(items, e)
    decreases items, 0
  {
    hide ParseItems, ParseValue, SkipBlanks, ValueText, ItemsText, Blank, Numbers.IsNumberByte;
    var p, v, q := ItemsParts(s, o, e, items);
    assert s[p..v] == s[p..p + |s[p..v]|];
    ValueComplete(s, p, s[p..v], items.head, depth);
    if items.tail.ICons? {
      ItemsComplete(s, q, e, items.tail, depth);
    }
    ItemsJoin(s, o, e, items, depth, p, v, q);
  }

  lemma ItemsJoin(s: Text, o: nat, e: nat, items: Items, depth: nat, p: nat, v: nat, q: nat)
    requires Terminated(s) && o + 1 < |s| && p < v <= q < e < |s| && items.ICons?
    requires SkipBlanks(s, o + 1) == p && ParseValue(s, p, depth) == Ok(items.head, v) && SkipBlanks(s, v) == q
    requires if items.tail.INil? then s[q] == RBRACKET && q + 1 == e
             else s[q] == COMMA && q + 1 < |s| && ParseItems(s, q, depth) == Ok(items.tail, e)
    ensures ParseItems(s, o, depth) == Ok(items, e)
  {
    hide ParseItems, ParseValue, SkipBlanks;
    ItemsStep(s, o, depth);
  }

  lemma ItemsParts(s: Text, o: nat, e: nat, items: Items) returns (p: nat, v: nat, q: nat)
    requires o + 2 <= e < |s| && s[e - 1] == RBRACKET && items.ICons? && ItemsText(s[o + 1..e - 1], items)
    ensures o + 1 <= p < v <= q < e && SkipBlanks(s, o + 1) == p && SkipBlanks(s, v) == q
    ensures ValueText(s[p..v], items.head) && !Numbers.IsNumberByte(s[v])
    ensures if items.tail.INil? then q == e - 1
            else q + 2 <= e && s[q] == COMMA && ItemsText(s[q + 1..e - 1], items.tail)
  {
    hide *;
    var b := o + 1;
    var i, j, k := ItemsUncut(s[b..e - 1], items);
    ShiftedItem(s, b, e - 1, i, j, k);
    p, v, q := b + i, b + j, b + k;
    ValueStart(s[p..v], items.head);
    assert s[p] == s[p..v][0];
    SkipTo(s, b, p);
    Ends(s, q);
    SkipTo(s, v, q);
    NotNumber(s, v, q);
  }

  lemma ItemsUncut(t: Text, items: Items) returns (i: nat, j: nat, k: nat)
    requires items.ICons? && ItemsText(t, items)
    ensures i <= j <= k <= |t| && Blank(t[..i]) && ValueText(t[i..j], items.head) && Blank(t[j..k])
    ensures if items.tail.INil? then k == |t| else k < |t| && t[k] == COMMA && ItemsText(t[k + 1..], items.tail)
  {
    i, j, k :| ItemAt(t, items, i, j, k);
  }

  lemma ShiftedItem(s: Text, b: nat, e: nat, i: nat, j: nat, k: nat)
    requires b <= e <= |s| && i <= j <= k <= e - b
    ensures var t := s[b..e];
            |t| == e - b && t[..i] == s[b..b + i] && t[i..j] == s[b + i..b + j] && t[j..k] == s[b + j..b + k]
            && (k < e - b ==> t[k] == s[b + k] && t[k + 1..] == s[b + k + 1..e])
  {
    var t := s[b..e];
    SliceOf(s, b, e, 0, i);
    assert t[..i] == t[0..i];
    SliceOf(s, b, e, i, j);
    SliceOf(s, b, e, j, k);
    if k < e - b {
      ByteOf(s, b, e, k);
      SliceOf(s, b, e, k + 1, e - b);
      assert t[k + 1..] == t[k + 1..e - b];
    }
  }

  lemma Ends(s: Text, q: nat)
    requires q < |s|
    ensures s[q] == COMMA || s[q] == RBRACKET || s[q] == RBRACE || s[q] == COLON ==> s[q] > SPACE
    ensures s[q] == QUOTE ==> s[q] > SPACE
  {
  }

  lemma {:induction false} ObjectComplete(s: Text, o: nat, t: Text, members: Members, depth: nat)
    requires Terminated(s) && At(s, o, t) && o + |t| < |s| && ValueText(t, Obj(members))
    requires depth + 1 + MembersHeight(members) <= NESTING_LIMIT
    ensures ParseValue(s, o, depth) == Ok(Obj(members), o + |t|)
    decreases members, 1
  {
    hide MembersText, ParseValue, ParseObject, ParseMembers, SkipBlanks;
    var e := o + |t|;
    Enclosing(s, o, e);
    assert s[o] == LBRACE && s[e - 1] == RBRACE;
    DispatchContainer(s, o, depth);
    ObjectStep(s, o, depth);
    if members.MNil? {
      SkipTo(s, o + 1, e - 1);
    } else {
      var c := MemberCuts(s, o, e, members);
      SkippedTwice(s, o + 1);
      SameMembers(s, SkipBlanks(s, o + 1) - 1, o, depth + 1);
      MembersComplete(s, o, e, members, depth + 1);
    }
  }

  /** Where the parts of the first member stand, and that blanks in between are skipped. */
  lemma MemberCuts(s: Text, o: nat, e: nat, members: Members) returns (c: Cuts)
    requires o + 2 <= e < |s| && s[e - 1] == RBRACE && members.MCons? && MembersText(s[o + 1..e - 1], members)
    ensures o + 1 <= c.key < c.behind <= c.colon < c.value < c.end <= c.next < e
    ensures SkipBlanks(s, o + 1) == c.key && s[c.key] == QUOTE && StringText(s[c.key..c.behind], members.key)
    ensures SkipBlanks(s, c.behind) == c.colon && s[c.colon] == COLON && SkipBlanks(s, c.colon + 1) == c.value
    ensures ValueText(s[c.value..c.end], members.value) && SkipBlanks(s, c.end) == c.next
    ensures !Numbers.IsNumberByte(s[c.end])
    ensures if members.rest.MNil? then c.next == e - 1
            else c.next + 2 <= e && s[c.next] == COMMA && MembersText(s[c.next + 1..e - 1], members.rest)
  {
    hide *;
    var b := o + 1;
    c := MemberPlaces(s, o, e, members);
    KeyStart(s[c.key..c.behind], members.key);
    ValueStart(s[c.value..c.end], members.value);
    assert s[c.key] == s[c.key..c.behind][0] && s[c.value] == s[c.value..c.end][0];
    Ends(s, c.key);
    Ends(s, c.colon);
    Ends(s, c.next);
    SkipTo(s, b, c.key);
    SkipTo(s, c.behind, c.colon);
    SkipTo(s, c.colon + 1, c.value);
    SkipTo(s, c.end, c.next);
    NotNumber(s, c.end, c.next);
  }

  lemma MemberPlaces(s: Text, o: nat, e: nat, members: Members) returns (c: Cuts)
    requires o + 2 <= e <= |s| && members.MCons? && MembersText(s[o + 1..e - 1], members)
    ensures o + 1 <= c.key <= c.behind <= c.colon < c.value <= c.end <= c.next < e
    ensures Blank(s[o + 1..c.key]) && StringText(s[c.key..c.behind], members.key) && Blank(s[c.behind..c.colon])
    ensures s[c.colon] == COLON && Blank(s[c.colon + 1..c.value]) && ValueText(s[c.value..c.end], members.value)
    ensures Blank(s[c.end..c.next])
    ensures if members.rest.MNil? then c.next == e - 1
            else c.next + 1 < e && s[c.next] == COMMA && MembersText(s[c.next + 1..e - 1], members.rest)
  {
    hide *;
    var b := o + 1;
    var d := MembersUncut(s[b..e - 1], members);
    c := Cuts(d.key + b, d.behind + b, d.colon + b, d.value + b, d.end + b, d.next + b);
    Shifted(s, b, e - 1, c);
  }

  lemma MembersUncut(t: Text, members: Members) returns (c: Cuts)
    requires members.MCons? && MembersText(t, members)
    ensures c.key <= c.behind <= c.colon < c.value <= c.end <= c.next <= |t|
    ensures Blank(t[..c.key]) && StringText(t[c.key..c.behind], members.key) && Blank(t[c.behind..c.colon])
    ensures t[c.colon] == COLON && Blank(t[c.colon + 1..c.value]) && ValueText(t[c.value..c.end], members.value)
    ensures Blank(t[c.end..c.next])
    ensures if members.rest.MNil? then c.next == |t|
            else c.next < |t| && t[c.next] == COMMA && MembersText(t[c.next + 1..], members.rest)
  {
    c :| MemberAt(t, members, c);
  }

  lemma {:induction false} MembersComplete(s: Text, o: nat, e: nat, members: Members, depth: nat)
    requires Terminated(s) && o + 2 <= e < |s| && s[e - 1] == RBRACE && members.MCons?
    requires MembersText(s[o + 1..e - 1], members) && depth + MembersHeight(members) <= NESTING_LIMIT
    ensures ParseMembers(s, o, depth) == Ok(members, e)
    decreases members, 0
  {
    hide ParseMembers, ParseValue, ParseString, SkipBlanks, ValueText, StringText, MembersText, CString;
    hide Blank, Numbers.IsNumberByte;
    var c := MemberCuts(s, o, e, members);
    var raw := LiteralAt(s, c.key, s[c.key..c.behind], members.key);
    ValueComplete(s, c.value, s[c.value..c.end], members.value, depth);
    if members.rest.MCons? {
      MembersComplete(s, c.next, e, members.rest, depth);
    }
    MembersJoin(s, o, e, members, depth, c, raw);
  }

  lemma MembersJoin(s: Text, o: nat, e: nat, members: Members, depth: nat, c: Cuts, raw: Text)
    requires Terminated(s) && o + 1 < |s| && members.MCons? && CString(raw) == members.key
    requires c.key < c.behind <= c.colon < c.value < c.end <= c.next < e < |s|
    requires SkipBlanks(s, o + 1) == c.key && ParseString(s, c.key) == Ok(raw, c.behind)
    requires SkipBlanks(s, c.behind) == c.colon && s[c.colon] == COLON && SkipBlanks(s, c.colon + 1) == c.value
    requires ParseValue(s, c.value, depth) == Ok(members.value, c.end) && SkipBlanks(s, c.end) == c.next
    requires if members.rest.MNil? then s[c.next] == RBRACE && c.next + 1 == e
             else s[c.next] == COMMA && c.next + 1 < |s| && ParseMembers(s, c.next, depth) == Ok(members.rest, e)
    ensures ParseMembers(s, o, depth) == Ok(members, e)
  {
    hide ParseMembers, ParseValue, ParseString, SkipBlanks, CString;
    MembersStep(s, o, depth, raw, c.behind);
  }

  lemma NotNumber(s: Text, v: nat, q: nat)
    requires v <= q < |s| && Blank(s[v..q]) && (s[q] == COMMA || s[q] == RBRACKET || s[q] == RBRACE)
    ensures !Numbers.IsNumberByte(s[v])
  {
    assert v < q ==> s[v] == s[v..q][0];
  }

  // ---- Whole texts ----

  /** A value stands from `v` to `e`, behind a byte order mark up to `b`, if there is one, and blanks. */
  ghost predicate Leads(text: Text, j: Json, b: nat, v: nat, e: nat) {
    b <= v <= e <= |text| && (text[..b] == [] || text[..b] == [0xEF, 0xBB, 0xBF]) && Blank(text[b..v])
    && ValueText(text[v..e], j) && Height(j) <= 1000
  }

  /** A text that holds one value, and blanks. */
  ghost predicate Document(text: Text, j: Json) {
    exists b: nat, v: nat, e: nat :: Leads(text, j, b, v, e) && Blank(text[e..])
  }

  lemma ParsedLeads(text: Text) returns (b: nat, v: nat)
    requires NulFree(text) && Parse(text, false).Ok?
    ensures Leads(text, Parse(text, false).value, b, v, Parse(text, false).off)
  {
    hide ParseValue, SkipBlanks, ValueText, Blank;
    var s := text + [NUL];
    b := BomEnd(s);
    v := SkipBlanks(s, b);
    BlanksBetween(s, b);
    var e := Parse(text, false).off;
    ValueSound(s, v, 0);
    assert s[v..e] == text[v..e] && s[b..v] == text[b..v];
    assert b == 3 ==> text[..3] == s[..3] == BOM;
  }

  lemma LeadsParsed(text: Text, j: Json, b: nat, v: nat, e: nat)
    requires Leads(text, j, b, v, e)
    requires j.Num? && e < |text| ==> !Numbers.IsNumberByte(text[e])
    ensures Parse(text, false) == Ok(j, e)
  {
    hide ParseValue, SkipBlanks, ValueText;
    var s := text + [NUL];
    ValueStart(text[v..e], j);
    assert s[v..e] == text[v..e] && s[b..v] == text[b..v] && s[v] == text[v..e][0];
    MarkEnds(text, b, v, e);
    SkipTo(s, b, v);
    assert At(s, v, text[v..e]);
    ValueComplete(s, v, text[v..e], j, 0);
  }

  lemma MarkEnds(text: Text, b: nat, v: nat, e: nat)
    requires b <= v < e <= |text| && text[v] < 128 && Blank(text[b..v])
    requires text[..b] == [] || text[..b] == [0xEF, 0xBB, 0xBF]
    ensures BomEnd(text + [NUL]) == b
  {
    var s := text + [NUL];
    if b == 0 {
      assert v > 0 ==> text[0] == text[b..v][0];
      NotAt(s, 0, BOM);
    } else {
      assert s[..3] == text[..3];
    }
  }

  lemma EndParsed(text: Text)
    requires NulFree(text) && Parse(text, false).Ok?
    ensures var r := Parse(text, false);
            Parse(text, true).Ok? <==> Blank(text[r.off..])
    ensures Parse(text, true).Ok? ==> Parse(text, true) == Ok(Parse(text, false).value, |text|)
  {
    hide ParseValue, ValueText;
    var s := text + [NUL];
    var e := Parse(text, false).off;
    var q := SkipBlanks(s, e);
    assert forall k :: e <= k < |text| ==> s[k] == text[k] == text[e..][k - e];
    if Blank(text[e..]) {
      assert BlankEnd(s, e) == |s|;
    }
  }

  /**
    A C string is accepted as a tree exactly if it is a document of that tree: one value of the grammar that nests at
    most 1000 deep, with blanks around it, and perhaps a byte order mark in front.
   */
  lemma ParseIff(text: Text, j: Json)
    requires NulFree(text)
    ensures Parse(text, true) == Ok(j, |text|) <==> Document(text, j)
    ensures Parse(text, true).Ok? ==> Parse(text, true).off == |text|
  {
    hide Parse, Leads, Blank;
    if Parse(text, true).Ok? {
      WithoutEnd(text);
      var b, v := ParsedLeads(text);
      EndParsed(text);
      assert Leads(text, Parse(text, false).value, b, v, Parse(text, false).off);
    }
    if Document(text, j) {
      var b, v, e := DocumentCut(text, j);
      BlankNotNumber(text, e);
      LeadsParsed(text, j, b, v, e);
      EndParsed(text);
    }
  }

  lemma WithoutEnd(text: Text)
    requires Parse(text, true).Ok?
    ensures Parse(text, false).Ok?
  {
    hide ParseValue, SkipBlanks;
  }

  lemma DocumentCut(text: Text, j: Json) returns (b: nat, v: nat, e: nat)
    requires Document(text, j)
    ensures Leads(text, j, b, v, e) && e <= |text| && Blank(text[e..])
  {
    b, v, e :| Leads(text, j, b, v, e) && Blank(text[e..]);
  }

  lemma BlankNotNumber(text: Text, e: nat)
    requires e <= |text| && Blank(text[e..])
    ensures e < |text| ==> !Numbers.IsNumberByte(text[e])
  {
    assert e < |text| ==> text[e] == text[e..][0];
  }
}
