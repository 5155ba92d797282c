/** Which lists of messages come back from one stream, exactly. */
module Streams {
  import opened Bytes
  import opened JsonStrings
  import Numbers
  import opened Json
  import opened Parser
  import opened Lexing
  import opened Messages
  import opened Framer
  import opened Wire
  import RoundTrip

  // ---- Scanning whole texts ----

  function Lexed(t: Text, st: Lex): Lex {
    Scan(t, 0, |t|, st)
  }

  lemma LexedAppend(a: Text, b: Text, st: Lex)
    ensures Lexed(a + b, st) == Lexed(b, Lexed(a, st))
  {
    hide Scan;
    var t := a + b;
    ScanSplit(t, 0, |a|, |t|, st);
    assert t[0..|a|] == a[0..|a|];
    ScanSame(t, 0, a, 0, |a|, st);
    assert t[|a|..|a| + |b|] == b[0..|b|];
    ScanSame(t, |a|, b, 0, |b|, Scan(a, 0, |a|, st));
  }

  lemma LexedAbsorbed(t: Text, st: Lex)
    requires st.Closed? || st.Stop?
    ensures Lexed(t, st) == st
  {
    ScanAbsorbed(t, 0, |t|, st);
  }

  /** A text that stays inside has prefixes that do. */
  lemma LexedPrefix(t: Text, n: nat, st: Lex)
    requires n <= |t| && Inside(st) && Inside(Lexed(t, st))
    ensures Inside(Lexed(t[..n], st))
  {
    hide Scan;
    ScanInside(t, 0, n, |t|, st);
    assert t[..n][0..n] == t[0..n];
    ScanSame(t, 0, t[..n], 0, n, st);
  }

  lemma {:induction false} StaysOut(s: Text, i: nat, j: nat, st: Lex)
    requires i <= j <= |s| && Inside(st)
    ensures Inside(Scan(s, i, j, st)) || Scan(s, i, j, st).Closed? || Scan(s, i, j, st).Stop?
    decreases j - i
  {
    if i < j {
      if Inside(Shift(st, s[i])) {
        StaysOut(s, i + 1, j, Shift(st, s[i]));
      } else {
        ScanAbsorbed(s, i + 1, j, Shift(st, s[i]));
      }
    }
  }

  // ---- Encodings, scanned ----

  /** An encoding is an object up to its last byte; in other containers it leaves the scanner where it was. */
  lemma EncodedLexed(m: Message, d: nat)
    requires WellFormed(m) && !m.Invalid?
    ensures Encoded(m) != [] && Lexed(Encoded(m)[..|Encoded(m)| - 1], Out(0)) == Out(1)
    ensures d >= 1 ==> Lexed(Encoded(m), Out(d)) == Out(d)
  {
    hide *;
    var t := Encoded(m);
    var s := t + [NUL];
    EncodedParses(m, []);
    assert t + [] == t;
    ParsedEncoding(s, |t|, d, Tree(m));
    TextOnly(t, |t| - 1, Out(0));
    if d >= 1 {
      TextOnly(t, |t|, Out(d));
      assert t[..|t|] == t;
    }
  }

  lemma TextOnly(t: Text, n: nat, st: Lex)
    requires n <= |t|
    ensures Lexed(t[..n], st) == Scan(t + [NUL], 0, n, st)
  {
    hide Scan;
    assert t[..n][0..n] == (t + [NUL])[0..n];
    ScanSame(t[..n], 0, t + [NUL], 0, n, st);
  }

  lemma ParsedEncoding(s: Text, e: nat, d: nat, j: Json)
    requires Terminated(s) && s[0] == LBRACE && ParseValue(s, 0, 0) == Ok(j, e)
    ensures 0 < e <= |s| && Scan(s, 0, e - 1, Out(0)) == Out(1) && s[e - 1] == RBRACE
    ensures d >= 1 ==> Scan(s, 0, e, Out(d)) == Out(d)
  {
    hide ParseValue, ParseObject, Scan;
    DispatchContainer(s, 0, 0);
    ObjectScan(s, 0, 0, 0);
    if d >= 1 {
      ValueScan(s, 0, 0, d);
    }
  }

  /** Whatever follows an encoding, the parser reads its tree. */
  lemma EncodedParses(m: Message, y: Text)
    requires WellFormed(m) && !m.Invalid?
    ensures var s := Encoded(m) + y + [NUL];
            Terminated(s) && s[0] == LBRACE && ParseValue(s, 0, 0) == Ok(Tree(m), |Encoded(m)|)
  {
    hide Render, ParseValue;
    var t := Encoded(m);
    var s := t + y + [NUL];
    TreePrintable(m);
    EncodedIs(m);
    EncodedStart(m);
    assert s[0..|t|] == t;
    RoundTrip.ValueParses(s, 0, Tree(m), false, 0, 0);
  }

  /** What follows an encoding in its frame is not looked at. */
  lemma DecodeWithTail(m: Message, y: Text)
    requires WellFormed(m) && !m.Invalid? && NulFree(Encoded(m) + y)
    ensures Decode(Encoded(m) + y) == Some(m)
  {
    hide Encoded, ParseValue, DecodeTree;
    EncodedParses(m, y);
    var s := Encoded(m) + y + [NUL];
    NotAt(s, 0, BOM);
    RoundTrip.VisibleStays(s, 0);
    CStringOfNulFree(Encoded(m) + y);
    DecodeOfTree(m);
  }

  // ---- What a frame that decodes looks like ----

  lemma FrameParsed(f: Text)
    requires NulFree(f) && f != [] && f[0] == LBRACE && Decode(f).Some?
    ensures var s := f + [NUL]; var r := ParseValue(s, 0, 0);
            Terminated(s) && r.Ok? && DecodeTree(r.value).Some?
  {
    hide ParseValue, DecodeTree;
    var s := f + [NUL];
    CStringOfNulFree(f);
    NotAt(s, 0, BOM);
    RoundTrip.VisibleStays(s, 0);
  }

  lemma DecodedClosed(f: Text)
    requires NulFree(f) && f != [] && f[0] == LBRACE && Decode(f).Some?
    ensures Lexed(f, Out(0)) == Closed
  {
    hide ParseValue, DecodeTree, Decode, Scan;
    FrameParsed(f);
    var s := f + [NUL];
    var e := ParseValue(s, 0, 0).off;
    ParsedEncoding(s, e, 0, ParseValue(s, 0, 0).value);
    ScanSplit(s, 0, e - 1, e, Out(0));
    OneScan(s, e - 1, Out(1));
    ScanSplit(s, 0, e, |f|, Out(0));
    ScanAbsorbed(s, e, |f|, Closed);
    TextOnly(f, |f|, Out(0));
    assert f[..|f|] == f;
  }

  /** Its first member's key stands behind blanks only. */
  lemma DecodedKey(f: Text) returns (p: nat)
    requires NulFree(f) && f != [] && f[0] == LBRACE && Decode(f).Some?
    ensures 1 <= p < |f| && f[p] == QUOTE && forall k :: 1 <= k < p ==> f[k] <= SPACE
  {
    hide ParseValue, ParseObject, ParseMembers, DecodeTree, Decode, ParseString;
    FrameParsed(f);
    var s := f + [NUL];
    DispatchContainer(s, 0, 0);
    ObjectStep(s, 0, 0);
    NothingToDecode();
    p := SkipBlanks(s, 1);
    KeyStep(s, p - 1, 1);
    SkipTwice(s, 1);
    KeyQuoted(s, p);
    forall k | 1 <= k < p ensures f[k] <= SPACE {
      assert s[k] == f[k];
    }
  }

  lemma NothingToDecode()
    ensures DecodeTree(Obj(MNil)).None?
  {
  }

  // ---- The bytes of an encoding ----

  ghost predicate Visible(t: Text) {
    forall k :: 0 <= k < |t| ==> t[k] >= SPACE
  }

  lemma VisibleAppend(a: Text, b: Text)
    ensures Visible(a + b) <==> Visible(a) && Visible(b)
  {
    if Visible(a + b) {
      assert forall k :: 0 <= k < |a| ==> a[k] == (a + b)[k];
      assert forall k :: 0 <= k < |b| ==> b[k] == (a + b)[|a| + k];
    }
  }

  ghost predicate Free(t: Text, c: byte) {
    forall k :: 0 <= k < |t| ==> t[k] != c
  }

  lemma FreeAppend(a: Text, b: Text, c: byte)
    requires Free(a, c) && Free(b, c)
    ensures Free(a + b, c)
  {
  }

  function Key(key: Text): Text {
    [QUOTE] + key + [QUOTE, COLON]
  }

  /** An encoding up to its data object's first member. */
  function Head(): Text {
    [LBRACE] + (Key(VERSION) + ([ZERO as int + 2, COMMA] + (Key(DATA) + [LBRACE])))
  }

  /** From the data object's end on. */
  function Tail(m: Message): Text
    requires !m.Invalid?
  {
    [RBRACE, COMMA] + (Key(TYPE) + ([QUOTE] + TypeName(m) + [QUOTE, RBRACE]))
  }

  /** The valve number, behind the text. */
  function Number(m: Message): Text {
    if m.HardErrorValve? then [COMMA] + (Key(VALVE_NO) + Numbers.Decimal(m.valveNo)) else []
  }

  lemma OuterParts(m: Message)
    requires !m.Invalid?
    ensures Encoded(m) == Head() + (RenderMembers(DataMembers(m), false, 2) + Tail(m))
  {
    hide *;
    NamesPlain(m);
    var name, data := TypeName(m), DataMembers(m);
    EncodedMembers(m);
    var last := MCons(TYPE, Str(name), MNil);
    MemberText(TYPE, Str(name), MNil, 1);
    MemberText(DATA, Obj(data), last, 1);
    MemberText(VERSION, Num(FORMAT_VERSION), MCons(DATA, Obj(data), last), 1);
    ObjectRendered(data, 1);
    VersionSize();
    StringRendered(name, 1);
    PlainQuoted(name);
    ObjectRendered(MCons(VERSION, Num(FORMAT_VERSION), MCons(DATA, Obj(data), last)), 0);
    PiecesJoin(VERSION, DATA, TYPE, name, RenderMembers(data, false, 2));
    HeadTail(m);
  }

  lemma EncodedMembers(m: Message)
    requires !m.Invalid?
    ensures Encoded(m)
         == Render(Obj(MCons(VERSION, Num(FORMAT_VERSION), MCons(DATA, Obj(DataMembers(m)),
                       MCons(TYPE, Str(TypeName(m)), MNil)))), false, 0)
  {
    hide Render;
  }

  lemma HeadTail(m: Message)
    requires !m.Invalid?
    ensures Head() == [LBRACE] + (([QUOTE] + VERSION + [QUOTE, COLON])
                      + ([ZERO as int + 2, COMMA] + (([QUOTE] + DATA + [QUOTE, COLON]) + [LBRACE])))
    ensures Tail(m) == [RBRACE, COMMA] + (([QUOTE] + TYPE + [QUOTE, COLON]) + ([QUOTE] + TypeName(m) + [QUOTE, RBRACE]))
  {
  }

  lemma PiecesJoin(version: Text, data: Text, kind: Text, name: Text, inner: Text)
    ensures var v, d := [QUOTE] + version + [QUOTE, COLON], [QUOTE] + data + [QUOTE, COLON];
            var k := [QUOTE] + kind + [QUOTE, COLON];
            var last := [COMMA] + (k + ([QUOTE] + name + [QUOTE]) + []);
            [LBRACE] + ((v + [ZERO as int + 2] + ([COMMA] + (d + ([LBRACE] + (inner + [RBRACE])) + last))) + [RBRACE])
            == ([LBRACE] + (v + ([ZERO as int + 2, COMMA] + (d + [LBRACE]))))
               + (inner + ([RBRACE, COMMA] + (k + ([QUOTE] + name + [QUOTE, RBRACE]))))
  {
  }

  lemma DataParts(m: Message, d: nat)
    requires !m.Invalid? && !m.KeepAlive?
    ensures RenderMembers(DataMembers(m), false, d)
         == (Key(MESSAGE) + [QUOTE]) + (Escape(m.text) + ([QUOTE] + Number(m)))
  {
    hide *;
    NamesPlain(m);
    StringRendered(m.text, d);
    DataMembersAre(m);
    QuotedIs(m.text);
    if m.HardErrorValve? {
      NumberRendered(m.valveNo, d);
      MemberText(VALVE_NO, Num(m.valveNo as real), MNil, d);
      MemberText(MESSAGE, Str(m.text), MCons(VALVE_NO, Num(m.valveNo as real), MNil), d);
      KeyIs(VALVE_NO);
    } else {
      MemberText(MESSAGE, Str(m.text), MNil, d);
    }
    KeyIs(MESSAGE);
    DataJoin(Key(MESSAGE), Escape(m.text), Number(m));
  }

  lemma DataJoin(key: Text, body: Text, number: Text)
    ensures key + ([QUOTE] + body + [QUOTE]) + number == (key + [QUOTE]) + (body + ([QUOTE] + number))
    ensures number + [] == number
  {
  }

  lemma KeyIs(key: Text)
    ensures Key(key) == [QUOTE] + key + [QUOTE, COLON]
  {
  }

  lemma QuotedIs(t: Text)
    ensures Quoted(t) == [QUOTE] + Escape(t) + [QUOTE]
  {
  }

  lemma NumberRendered(n: int, d: nat)
    ensures Render(Num(n as real), false, d) == Numbers.Decimal(n)
  {
  }

  lemma DataMembersAre(m: Message)
    ensures m.HardErrorValve? ==>
              DataMembers(m) == MCons(MESSAGE, Str(m.text), MCons(VALVE_NO, Num(m.valveNo as real), MNil))
              && Number(m) == [COMMA] + (Key(VALVE_NO) + Numbers.Decimal(m.valveNo))
    ensures m.HardErrorOther? || m.SoftError? ==> DataMembers(m) == MCons(MESSAGE, Str(m.text), MNil) && Number(m) == []
  {
  }

  /** What stands before the text a message carries, and behind it. */
  function Front(m: Message): Text {
    if m.KeepAlive? then Head() else Head() + (Key(MESSAGE) + [QUOTE])
  }

  function Back(m: Message): Text
    requires !m.Invalid?
  {
    if m.KeepAlive? then Tail(m) else ([QUOTE] + Number(m)) + Tail(m)
  }

  lemma EncodedParts(m: Message)
    requires !m.Invalid?
    ensures Encoded(m) == Front(m) + (Escape(Carried(m)) + Back(m))
  {
    hide Encoded, Escape, Head, Tail, Number, Render, RenderMembers, Key, DataMembers;
    OuterParts(m);
    EscapedNothing();
    if m.KeepAlive? {
      NoData();
      NothingRendered(2);
      assert [] + Tail(m) == Tail(m);
    } else {
      DataParts(m, 2);
      PartsJoin(Head(), Key(MESSAGE) + [QUOTE], Escape(m.text), [QUOTE] + Number(m), Tail(m));
    }
  }

  lemma EscapedNothing()
    ensures Escape([]) == []
  {
  }

  lemma PartsJoin(a: Text, b: Text, c: Text, d: Text, e: Text)
    ensures a + ((b + (c + d)) + e) == (a + b) + (c + (d + e))
  {
  }

  lemma KeyBytes(key: Text)
    requires Plain(key)
    ensures Visible(Key(key)) && Free(Key(key), RBRACE) && Free(Key(key), LBRACE)
  {
  }

  lemma HeadBytes()
    ensures Visible(Head()) && Free(Head(), RBRACE) && |Head()| >= 3 && Head()[..3] == [LBRACE, QUOTE, 118]
  {
    NamesPlain(KeepAlive);
    KeyBytes(VERSION);
    KeyBytes(DATA);
    VersionStarts();
    hide Key, Plain;
    var inner := [ZERO as int + 2, COMMA] + (Key(DATA) + [LBRACE]);
    assert Visible(inner) && Free(inner, RBRACE);
    FreeAppend(Key(VERSION), inner, RBRACE);
    FreeAppend([LBRACE], Key(VERSION) + inner, RBRACE);
  }

  lemma FrontBytes(m: Message)
    requires !m.Invalid?
    ensures Visible(Front(m)) && Free(Front(m), RBRACE)
    ensures |Front(m)| >= 3 && Front(m)[..3] == [LBRACE, QUOTE, 118]
  {
    HeadBytes();
    NamesPlain(m);
    KeyBytes(MESSAGE);
    hide Head, Key, Plain;
    FreeAppend(Key(MESSAGE), [QUOTE], RBRACE);
    FreeAppend(Head(), Key(MESSAGE) + [QUOTE], RBRACE);
  }

  lemma VersionStarts()
    ensures |Key(VERSION)| >= 2 && Key(VERSION)[0] == QUOTE && Key(VERSION)[1] == 118
  {
  }

  lemma DecimalBytes(n: int)
    ensures Visible(Numbers.Decimal(n)) && Free(Numbers.Decimal(n), LBRACE)
  {
  }

  lemma NumberBytes(m: Message)
    requires !m.Invalid?
    ensures Visible(Number(m)) && Free(Number(m), LBRACE)
  {
    NamesPlain(m);
    KeyBytes(VALVE_NO);
    if m.HardErrorValve? {
      DecimalBytes(m.valveNo);
      hide Key, Plain, Numbers.Decimal;
      FreeAppend(Key(VALVE_NO), Numbers.Decimal(m.valveNo), LBRACE);
      FreeAppend([COMMA], Key(VALVE_NO) + Numbers.Decimal(m.valveNo), LBRACE);
    }
  }

  lemma TailBytes(m: Message)
    requires !m.Invalid?
    ensures Visible(Tail(m)) && Free(Tail(m), LBRACE)
    ensures |Tail(m)| >= 5 && Tail(m)[..5] == [RBRACE, COMMA, QUOTE, 116, 121]
  {
    NamesPlain(m);
    KeyBytes(TYPE);
    TypeStarts();
    var name := [QUOTE] + TypeName(m) + [QUOTE, RBRACE];
    NameBytes(TypeName(m));
    hide Key, Plain, TypeName;
    FreeAppend(Key(TYPE), name, LBRACE);
    FreeAppend([RBRACE, COMMA], Key(TYPE) + name, LBRACE);
  }

  lemma NameBytes(name: Text)
    requires Plain(name)
    ensures Visible([QUOTE] + name + [QUOTE, RBRACE]) && Free([QUOTE] + name + [QUOTE, RBRACE], LBRACE)
  {
  }

  lemma TypeStarts()
    ensures |Key(TYPE)| >= 3 && Key(TYPE)[0] == QUOTE && Key(TYPE)[1] == 116 && Key(TYPE)[2] == 121
  {
  }

  lemma ValveStarts()
    ensures |Key(VALVE_NO)| >= 2 && Key(VALVE_NO)[0] == QUOTE && Key(VALVE_NO)[1] == 118
  {
  }

  lemma BackBytes(m: Message)
    requires !m.Invalid?
    ensures Visible(Back(m)) && Free(Back(m), LBRACE)
  {
    NumberBytes(m);
    TailBytes(m);
    hide Number, Tail;
    FreeAppend([QUOTE], Number(m), LBRACE);
    FreeAppend([QUOTE] + Number(m), Tail(m), LBRACE);
  }

  // ---- Read from inside out, an encoding's rest is no JSON ----

  lemma {:induction false} LexedStops(t: Text, w: Text, st: Lex)
    requires |w| <= |t| && t[..|w|] == w && Lexed(w, st) == Stop
    ensures Lexed(t, st) == Stop
  {
    hide Lexed;
    assert t == w + t[|w|..];
    LexedAppend(w, t[|w|..], st);
    LexedAbsorbed(t[|w|..], Stop);
  }

  lemma StopWithoutNumber(d: nat)
    ensures Lexed([QUOTE, RBRACE, COMMA, QUOTE, 116, 121], Out(d)) == Stop
  {
    var w: Text := [QUOTE, RBRACE, COMMA, QUOTE, 116, 121];
    assert Scan(w, 5, 6, Out(d)) == Stop;
    assert Scan(w, 3, 6, In(d)) == Scan(w, 4, 6, Out(d)) == Scan(w, 5, 6, Out(d));
    assert Scan(w, 1, 6, In(d)) == Scan(w, 2, 6, In(d)) == Scan(w, 3, 6, In(d));
  }

  lemma StopWithNumber(d: nat)
    ensures Lexed([QUOTE, COMMA, QUOTE, 118], Out(d)) == Stop
  {
    var w: Text := [QUOTE, COMMA, QUOTE, 118];
    assert Scan(w, 3, 4, Out(d)) == Stop;
    assert Scan(w, 1, 4, In(d)) == Scan(w, 2, 4, In(d)) == Scan(w, 3, 4, Out(d));
  }

  lemma StopAtStart(st: Lex)
    requires st.In? || st.Escaped?
    ensures Lexed([LBRACE, QUOTE, 118], st) == Stop
  {
    var w: Text := [LBRACE, QUOTE, 118];
    assert Scan(w, 2, 3, Out(st.open)) == Stop;
    assert Scan(w, 1, 3, In(st.open)) == Scan(w, 2, 3, Out(st.open));
  }

  lemma BackStops(m: Message, d: nat)
    requires !m.Invalid? && !m.KeepAlive?
    ensures Lexed(Back(m), Out(d)) == Stop
  {
    hide *;
    BackStarts(m);
    if m.HardErrorValve? {
      StopWithNumber(d);
      LexedStops(Back(m), [QUOTE, COMMA, QUOTE, 118], Out(d));
    } else {
      StopWithoutNumber(d);
      LexedStops(Back(m), [QUOTE, RBRACE, COMMA, QUOTE, 116, 121], Out(d));
    }
  }

  lemma BackStarts(m: Message)
    requires !m.Invalid? && !m.KeepAlive?
    ensures m.HardErrorValve? ==> |Back(m)| >= 4 && Back(m)[..4] == [QUOTE, COMMA, QUOTE, 118]
    ensures !m.HardErrorValve? ==> |Back(m)| >= 6 && Back(m)[..6] == [QUOTE, RBRACE, COMMA, QUOTE, 116, 121]
  {
    TailBytes(m);
    ValveStarts();
    BackIs(m);
    hide *;
  }

  lemma BackIs(m: Message)
    requires !m.Invalid? && !m.KeepAlive?
    ensures Back(m)
         == if m.HardErrorValve? then [QUOTE] + ([COMMA] + (Key(VALVE_NO) + Numbers.Decimal(m.valveNo))) + Tail(m)
            else [QUOTE] + Tail(m)
  {
    hide Numbers.Decimal, Key, Tail;
    assert [QUOTE] + [] == [QUOTE];
  }

  // ---- A stream ----

  lemma EscapedVisible(t: Text)
    ensures Visible(Escape(t))
  {
    EscapedIsPrintable(t);
  }

  lemma EncodedVisible(m: Message)
    requires !m.Invalid?
    ensures Visible(Encoded(m))
  {
    hide *;
    EncodedParts(m);
    FrontBytes(m);
    BackBytes(m);
    EscapedVisible(Carried(m));
    VisibleAppend(Escape(Carried(m)), Back(m));
    VisibleAppend(Front(m), Escape(Carried(m)) + Back(m));
  }

  lemma SentPrefix(m: Message)
    requires Encodable(m)
    ensures |Sent(m)| <= |Encoded(m)| && Sent(m) == Encoded(m)[..|Sent(m)|] && Visible(Sent(m))
    ensures |Encoded(m)| > MAX_ENCODED_LEN <==> |Sent(m)| < |Encoded(m)|
    ensures |Sent(m)| >= 3 && Sent(m)[..3] == [LBRACE, QUOTE, 118]
  {
    hide Encoded, Front, Back, Escape;
    EncodedVisible(m);
    EncodedParts(m);
    FrontBytes(m);
    assert Encoded(m)[..3] == Front(m)[..3];
  }

  lemma {:induction false} StreamVisible(ms: seq<Message>)
    ensures Visible(Stream(ms))
  {
    hide Sent;
    if ms != [] {
      if Encodable(ms[0]) {
        SentPrefix(ms[0]);
      } else {
        NothingSent(ms[0]);
      }
      StreamVisible(ms[1..]);
      VisibleAppend(Sent(ms[0]), Stream(ms[1..]));
    }
  }

  lemma NothingSent(m: Message)
    ensures !Encodable(m) ==> Sent(m) == []
  {
  }

  ghost predicate AllWellFormed(ms: seq<Message>) {
    forall i :: 0 <= i < |ms| ==> WellFormed(ms[i])
  }

  /** Inside a container of an earlier text, no later message ever closes that container. */
  lemma {:induction false} NeverCloses(ms: seq<Message>, st: Lex)
    requires AllWellFormed(ms) && (Inside(st) || st.Stop?)
    ensures !Lexed(Stream(ms), st).Closed?
  {
    hide Sent, Lexed, WellFormed;
    if ms == [] {
      LexedNothing(st);
    } else if st.Stop? {
      LexedAbsorbed(Stream(ms), st);
    } else {
      var m := ms[0];
      LexedAppend(Sent(m), Stream(ms[1..]), st);
      if Encodable(m) {
        SentScanned(m, st);
      } else {
        NothingSent(m);
        LexedNothing(st);
      }
      NeverCloses(ms[1..], Lexed(Sent(m), st));
    }
  }

  lemma LexedNothing(st: Lex)
    ensures Lexed([], st) == st
  {
  }

  /** Read inside a container, what is sent of a message closes nothing; inside a literal, it cannot be read. */
  lemma SentScanned(m: Message, st: Lex)
    requires WellFormed(m) && Encodable(m) && Inside(st)
    ensures Inside(Lexed(Sent(m), st)) || Lexed(Sent(m), st).Stop?
  {
    hide Sent, Encoded, Lexed;
    SentPrefix(m);
    if st.Out? {
      EncodedLexed(m, st.open);
      LexedPrefix(Encoded(m), |Sent(m)|, st);
    } else {
      StopAtStart(st);
      LexedStops(Sent(m), [LBRACE, QUOTE, 118], st);
    }
  }

  // ---- Frames that start at a message ----

  lemma LexedIn(f: Text, rest: Text, st: Lex)
    requires Lexed(f, st).Closed?
    ensures Lexed(f + rest, st).Closed?
  {
    hide Lexed;
    LexedAppend(f, rest, st);
    LexedAbsorbed(rest, Closed);
  }

  /** A message cut at 300 bytes leaves its object open, and nothing sent later closes it. */
  lemma CutStaysOpen(m: Message, ms: seq<Message>)
    requires WellFormed(m) && Encodable(m) && |Encoded(m)| > MAX_ENCODED_LEN && AllWellFormed(ms)
    ensures !Lexed(Sent(m) + Stream(ms), Out(0)).Closed?
  {
    hide Encoded, Sent, Lexed;
    var whole := Encoded(m)[..|Encoded(m)| - 1];
    SentPrefix(m);
    EncodedLexed(m, 0);
    assert whole[..|Sent(m)|] == Sent(m);
    OpenPrefix(whole, |Sent(m)|);
    LexedAppend(Sent(m), Stream(ms), Out(0));
    NeverCloses(ms, Lexed(Sent(m), Out(0)));
  }

  lemma OpenPrefix(t: Text, n: nat)
    requires 1 <= n <= |t| && t[0] == LBRACE && Lexed(t, Out(0)) == Out(1)
    ensures Inside(Lexed(t[..n], Out(0)))
  {
    hide Scan;
    SameScan(t, 1, Out(1));
    ScanSplit(t, 0, 1, |t|, Out(0));
    OneScan(t, 0, Out(0));
    ScanInside(t, 1, n, |t|, Out(1));
    ScanSplit(t, 0, 1, n, Out(0));
    assert t[..n][0..n] == t[0..n];
    ScanSame(t, 0, t[..n], 0, n, Out(0));
  }

  /** A frame that starts at a message and decodes holds the message's whole encoding, and decodes to it. */
  lemma FrameAtMessage(m: Message, ms: seq<Message>, f: Text, rest: Text)
    requires WellFormed(m) && Encodable(m) && AllWellFormed(ms)
    requires Sent(m) + Stream(ms) == f + rest && f != [] && NulFree(f) && Decode(f).Some?
    ensures |Encoded(m)| <= MAX_ENCODED_LEN && |Encoded(m)| <= |f| && f[..|Encoded(m)|] == Encoded(m)
    ensures Decode(f) == Some(m)
  {
    hide Encoded, Sent, Stream, Decode, Lexed, NulFree;
    SentPrefix(m);
    assert f[0] == (Sent(m) + Stream(ms))[0] == Sent(m)[0] == LBRACE;
    DecodedClosed(f);
    LexedIn(f, rest, Out(0));
    if |Encoded(m)| > MAX_ENCODED_LEN {
      CutStaysOpen(m, ms);
      assert false;
    }
    assert Sent(m) == Encoded(m);
    if |f| < |Encoded(m)| {
      assert f == (f + rest)[..|f|] == Encoded(m)[..|f|];
      CutNotDecoded(m, |f|);
      assert false;
    }
    var y := f[|Encoded(m)|..];
    assert f[..|Encoded(m)|] == (f + rest)[..|Encoded(m)|] == Encoded(m);
    assert f == Encoded(m) + y;
    DecodeWithTail(m, y);
  }

  // ---- Frames that start inside a message ----

  lemma {:induction false} QuoteEscaped(t: Text, i: nat)
    requires i < |Escape(t)| && Escape(t)[i] == QUOTE
    ensures i > 0 && Escape(t)[i - 1] == BACKSLASH
  {
    var n := |EscapeByte(t[0])|;
    if i >= n {
      QuoteEscaped(t[1..], i - n);
    }
  }

  /** Where a brace stands right behind a closing one, it is in the text the message carries. */
  lemma BraceInText(m: Message, q: nat)
    requires !m.Invalid? && 0 < q < |Encoded(m)| && Encoded(m)[q - 1] == RBRACE && Encoded(m)[q] == LBRACE
    ensures |Front(m)| < q < |Front(m)| + |Escape(Carried(m))| && !m.KeepAlive?
  {
    hide Encoded, Front, Back, Escape;
    EncodedParts(m);
    FrontBytes(m);
    BackBytes(m);
    EscapedNothing();
  }

  /** The sent part of a message from a brace in its text on. */
  lemma TextRest(m: Message, q: nat)
    requires Encodable(m) && |Front(m)| < q < |Front(m)| + |Escape(Carried(m))| && q < |Sent(m)|
    ensures var e := |Front(m)| + |Escape(Carried(m))|;
            if |Sent(m)| <= e then
              Sent(m)[q..] == Escape(Carried(m))[q - |Front(m)|..|Sent(m)| - |Front(m)|]
            else
              |Sent(m)| - e <= |Back(m)|
              && Sent(m)[q..] == Escape(Carried(m))[q - |Front(m)|..] + Back(m)[..|Sent(m)| - e]
  {
    hide Encoded, Sent, Front, Back, Escape;
    EncodedParts(m);
    SentPrefix(m);
  }

  /** Blanks and a brace: the scanner is inside one container. */
  lemma BraceAndBlanks(t: Text)
    requires t != [] && t[0] == LBRACE && forall k :: 1 <= k < |t| ==> t[k] <= SPACE
    ensures Lexed(t, Out(0)) == Out(1)
  {
    NeutralScan(t, 1, |t|, 1);
  }

  /** From a brace in a text on, with only blanks behind it in the text, the stream closes nothing. */
  lemma RestStaysOpen(m: Message, q: nat, ms: seq<Message>)
    requires Encodable(m) && AllWellFormed(ms) && !m.KeepAlive?
    requires |Front(m)| < q < |Front(m)| + |Escape(Carried(m))| && q < |Sent(m)| && Sent(m)[q] == LBRACE
    requires forall k :: q < k < |Sent(m)| && k < |Front(m)| + |Escape(Carried(m))| ==> Sent(m)[k] <= SPACE
    ensures !Lexed(Sent(m)[q..] + Stream(ms), Out(0)).Closed?
  {
    hide Sent, Front, Back, Escape, Lexed, Stream;
    TextRest(m, q);
    var e := |Front(m)| + |Escape(Carried(m))|;
    var body := if |Sent(m)| <= e then Sent(m)[q..] else Sent(m)[q..e];
    BraceAndBlanks(body);
    if |Sent(m)| <= e {
      LexedAppend(body, Stream(ms), Out(0));
      NeverCloses(ms, Out(1));
    } else {
      var back := Back(m)[..|Sent(m)| - e];
      assert Sent(m)[q..] == body + back by {
        assert Sent(m)[e..] == Sent(m)[q..][e - q..] == back;
      }
      LexedAppend(body, back, Out(0));
      LexedAppend(body + back, Stream(ms), Out(0));
      BackStops(m, 1);
      StopsOrStays(Back(m), |Sent(m)| - e, Out(1));
      NeverCloses(ms, Lexed(back, Out(1)));
    }
  }

  lemma StopsOrStays(t: Text, n: nat, st: Lex)
    requires n <= |t| && Inside(st) && Lexed(t, st) == Stop
    ensures Inside(Lexed(t[..n], st)) || Lexed(t[..n], st) == Stop
  {
    hide Lexed;
    assert t == t[..n] + t[n..];
    LexedAppend(t[..n], t[n..], st);
    if Lexed(t[..n], st).Closed? {
      LexedAbsorbed(t[n..], Closed);
    }
    LexedOut(t[..n], st);
  }

  lemma LexedOut(t: Text, st: Lex)
    requires Inside(st)
    ensures Inside(Lexed(t, st)) || Lexed(t, st).Closed? || Lexed(t, st).Stop?
  {
    StaysOut(t, 0, |t|, st);
  }

  /** A frame that starts inside a message does not decode. */
  lemma FrameInsideMessage(m: Message, q: nat, ms: seq<Message>, f: Text, rest: Text)
    requires WellFormed(m) && Encodable(m) && AllWellFormed(ms)
    requires 0 < q < |Sent(m)| && Sent(m)[q - 1] == RBRACE
    requires Sent(m)[q..] + Stream(ms) == f + rest && f != [] && f[0] == LBRACE && NulFree(f)
    ensures Decode(f).None?
  {
    hide Encoded, Sent, Stream, Decode, Lexed, NulFree, Front, Back, Escape;
    SentPrefix(m);
    var s := Sent(m)[q..] + Stream(ms);
    assert s[0] == f[0];
    BraceInText(m, q);
    if Decode(f).Some? {
      var p := DecodedKey(f);
      DecodedClosed(f);
      LexedIn(f, rest, Out(0));
      BlanksOnly(m, q, p, f, rest, ms);
      RestStaysOpen(m, q, ms);
      assert false;
    }
  }

  /** A quote behind blanks cannot be in the text, where it would be escaped. */
  lemma BlanksOnly(m: Message, q: nat, p: nat, f: Text, rest: Text, ms: seq<Message>)
    requires Encodable(m) && |Front(m)| < q < |Front(m)| + |Escape(Carried(m))| && q < |Sent(m)|
    requires Sent(m)[q..] + Stream(ms) == f + rest && 1 <= p < |f| && f[0] == LBRACE && f[p] == QUOTE
    requires forall k :: 1 <= k < p ==> f[k] <= SPACE
    ensures forall k :: q < k < |Sent(m)| && k < |Front(m)| + |Escape(Carried(m))| ==> Sent(m)[k] <= SPACE
  {
    hide Sent, Stream, Front, Back, Escape, Carried;
    var e := |Front(m)| + |Escape(Carried(m))|;
    var s := f + rest;
    assert forall k :: 0 <= k < |f| ==> s[k] == f[k];
    assert forall k :: q <= k < |Sent(m)| ==> Sent(m)[k] == s[k - q];
    if q + p < |Sent(m)| && q + p < e {
      TextByte(m, q + p);
      TextByte(m, q + p - 1);
      QuoteEscaped(Carried(m), q + p - |Front(m)|);
      assert false;
    }
    forall k | q < k < |Sent(m)| && k < e ensures Sent(m)[k] <= SPACE {
      assert Sent(m)[k] == f[k - q];
    }
  }

  lemma TextByte(m: Message, k: nat)
    requires Encodable(m) && |Front(m)| <= k < |Front(m)| + |Escape(Carried(m))| && k < |Sent(m)|
    ensures Sent(m)[k] == Escape(Carried(m))[k - |Front(m)|]
  {
    hide Encoded, Sent, Front, Back, Escape;
    EncodedParts(m);
    SentPrefix(m);
    assert Sent(m)[k] == Encoded(m)[k];
  }

  // ---- All that comes out of a stream ----

  /** Fits in a frame, closes no more braces than it opens, and if it opens no more either, is sendable. */
  ghost predicate Acceptable(x: Message) {
    !x.Invalid? && WellFormed(x) && |Encoded(x)| <= MAX_ENCODED_LEN && Balance(Encoded(x)) >= 0
    && (Balance(Encoded(x)) == 0 ==> Sendable(x))
  }

  lemma EncodedBalance(m: Message)
    requires !m.Invalid?
    ensures Balance(Encoded(m)) == Balance(Carried(m))
  {
    hide *;
    RootBraces(m);
    EncodedIs(m);
    ObjectRendered(Tree(m).members, 0);
    WrappedBraces(RenderMembers(Tree(m).members, false, 1));
    TreeIs(m);
  }

  lemma TreeIs(m: Message)
    requires !m.Invalid?
    ensures Tree(m) == Obj(Tree(m).members)
  {
  }

  /** What one frame of a stream is taken for. */
  lemma FrameReceived(m: Message, ms: seq<Message>, f: Text)
    requires WellFormed(m) && !m.Invalid? && Enclosed(f)
    requires Decode(f).Some? ==>
               |Encoded(m)| <= MAX_ENCODED_LEN && |Encoded(m)| <= |f| && f[..|Encoded(m)|] == Encoded(m)
               && Decode(f) == Some(m)
    ensures Acceptable(Received(f))
  {
    hide Encoded, Decode, Balance, Lowest, Carried;
    if Decode(f).None? {
      NotDecodedSendable();
      EncodedBalance(SoftError(NOT_DECODED));
      NotDecodedText();
      CarriedSoft(NOT_DECODED);
    } else {
      EncodedBalance(m);
      EncodedEnclosed(m);
      EncodedStart(m);
      if |f| == |Encoded(m)| {
        assert f == Encoded(m);
      } else {
        assert Balance(f[..|Encoded(m)|]) > 0;
      }
    }
  }

  lemma CarriedSoft(t: Text)
    ensures Carried(SoftError(t)) == t
  {
  }

  /** What is left of a stream when `q` bytes of the message `m` are gone, and `ms` follow it. */
  function Remaining(m: Message, q: nat, ms: seq<Message>): Text
    requires q <= |Sent(m)|
  {
    Sent(m)[q..] + Stream(ms)
  }

  lemma {:induction false} Locate(m: Message, q: nat, ms: seq<Message>, n: nat)
    returns (m': Message, q': nat, ms': seq<Message>)
    requires q <= |Sent(m)| && WellFormed(m) && AllWellFormed(ms) && 0 < n <= |Remaining(m, q, ms)|
    ensures WellFormed(m') && AllWellFormed(ms') && 0 < q' <= |Sent(m')|
    ensures Remaining(m, q, ms)[n..] == Remaining(m', q', ms') && Sent(m')[q' - 1] == Remaining(m, q, ms)[n - 1]
    ensures |ms'| <= |ms| && ms' == ms[|ms| - |ms'|..]
    decreases |ms|
  {
    hide Sent, WellFormed;
    var k := |Sent(m)| - q;
    var left := Remaining(m, q, ms);
    if n <= k {
      m', q', ms' := m, q + n, ms;
      assert left[n..] == Sent(m)[q + n..] + Stream(ms);
    } else {
      m', q', ms' := Locate(ms[0], 0, ms[1..], n - k);
      StreamLeft(ms);
      assert left[n..] == Stream(ms)[n - k..];
      assert left[n - 1] == Stream(ms)[n - k - 1];
    }
  }

  lemma StreamLeft(ms: seq<Message>)
    requires ms != []
    ensures Stream(ms) == Remaining(ms[0], 0, ms[1..])
  {
    hide Sent;
    assert Sent(ms[0])[0..] == Sent(ms[0]);
  }

  lemma EnclosedEnds(f: Text)
    requires Enclosed(f)
    ensures |f| >= 2 && f[|f| - 1] == RBRACE
  {
    var n := |f| - 1;
    assert f == f[..n] + [f[n]];
    BalanceAppend(f[..n], [f[n]]);
    assert [f[n]][1..] == [];
  }

  /** Of visible bytes the framer skips none. */
  lemma FrameWhole(s: Text)
    requires Visible(s) && s != []
    ensures !Frame(s).End?
    ensures Frame(s).Success? ==>
              var f := Frame(s).obj;
              s == f + Frame(s).rest && Enclosed(f) && NulFree(f)
  {
    hide Frame, Enclosed;
    FrameEnds(s);
    if Frame(s).Success? {
      FrameIff(s, Frame(s).obj, Frame(s).rest);
      VisibleNulFree(Frame(s).obj, Frame(s).rest);
    }
  }

  lemma VisibleNulFree(f: Text, rest: Text)
    requires Visible(f + rest)
    ensures NulFree(f)
  {
    VisibleAppend(f, rest);
  }

  lemma LeftVisible(m: Message, q: nat, ms: seq<Message>)
    requires q < |Sent(m)|
    ensures Encodable(m) && Visible(Remaining(m, q, ms)) && Remaining(m, q, ms) != []
  {
    NothingSent(m);
    hide Sent;
    SentPrefix(m);
    StreamVisible(ms);
    VisibleAppend(Sent(m)[q..], Stream(ms));
  }

  /** The first frame of what is left is taken for something acceptable. */
  lemma FirstReceived(m: Message, q: nat, ms: seq<Message>, f: Text, rest: Text)
    requires q < |Sent(m)| && Encodable(m) && WellFormed(m) && AllWellFormed(ms)
    requires q > 0 ==> Sent(m)[q - 1] == RBRACE
    requires Remaining(m, q, ms) == f + rest && Enclosed(f) && NulFree(f)
    ensures Acceptable(Received(f))
  {
    hide Sent, Stream, Decode, Received, Acceptable, NulFree, Encoded, WellFormed;
    if q == 0 {
      assert Sent(m)[0..] == Sent(m);
      if Decode(f).Some? {
        FrameAtMessage(m, ms, f, rest);
      }
    } else {
      FrameInsideMessage(m, q, ms, f, rest);
    }
    FrameReceived(m, ms, f);
  }

  lemma {:induction false} DrainedAcceptable(m: Message, q: nat, ms: seq<Message>)
    requires q <= |Sent(m)| && WellFormed(m) && AllWellFormed(ms) && (q > 0 ==> Sent(m)[q - 1] == RBRACE)
    requires Drain(Remaining(m, q, ms)).1
    ensures Balance(Remaining(m, q, ms)) == 0
    ensures forall i :: 0 <= i < |Drain(Remaining(m, q, ms)).0| ==> Acceptable(Drain(Remaining(m, q, ms)).0[i])
    decreases |Remaining(m, q, ms)|, |ms|
  {
    hide Sent, Received, Acceptable, NulFree, WellFormed, Frame, Enclosed, Stream;
    var s := Remaining(m, q, ms);
    if q == |Sent(m)| {
      assert s == Stream(ms);
      if ms == [] {
        NothingLeft();
      } else {
        StreamLeft(ms);
        DrainedAcceptable(ms[0], 0, ms[1..]);
      }
    } else {
      LeftVisible(m, q, ms);
      FrameWhole(s);
      assert Frame(s).Success?;
      var f, rest := Frame(s).obj, Frame(s).rest;
      FirstReceived(m, q, ms, f, rest);
      EnclosedEnds(f);
      EnclosedBalance(f);
      var m', q', ms' := Locate(m, q, ms, |f|);
      assert s[|f|..] == rest && s[|f| - 1] == f[|f| - 1];
      DrainedAcceptable(m', q', ms');
      BalanceAppend(f, rest);
    }
  }

  lemma NothingLeft()
    ensures Stream([]) == [] && Drain([]) == ([], true) && Balance([]) == 0
  {
  }

  lemma EnclosedBalance(f: Text)
    requires Enclosed(f)
    ensures Balance(f) == 0
  {
  }

  // ---- The exact condition ----

  lemma {:induction false} BalancesAddUp(ms: seq<Message>)
    requires forall i :: 0 <= i < |ms| ==> Acceptable(ms[i])
    ensures Balance(Stream(ms)) >= 0
    ensures Balance(Stream(ms)) == 0 ==> forall i :: 0 <= i < |ms| ==> Sendable(ms[i])
  {
    hide Encoded, Sendable, Balance;
    NothingLeft();
    if ms != [] {
      var m := ms[0];
      BalanceAppend(Sent(m), Stream(ms[1..]));
      BalancesAddUp(ms[1..]);
      if Balance(Stream(ms)) == 0 {
        forall i | 0 <= i < |ms| ensures Sendable(ms[i]) {
          if i > 0 {
            assert ms[i] == ms[1..][i - 1];
          }
        }
      }
    }
  }

  /**
    A list of messages comes back from the stream, whole and in order and with reading cleanly at its end, exactly
    when each message is sendable: the braces in its text balance and never close more than one ahead of their
    opening, and its encoding fits in 300 bytes.
   */
  lemma StreamIff(ms: seq<Message>)
    requires AllWellFormed(ms)
    ensures Drain(Stream(ms)) == (ms, true) <==> forall i :: 0 <= i < |ms| ==> Sendable(ms[i])
  {
    hide Sent, Drain, Acceptable, Sendable, WellFormed;
    if forall i :: 0 <= i < |ms| ==> Sendable(ms[i]) {
      StreamRecovery(ms);
    }
    if Drain(Stream(ms)) == (ms, true) && ms != [] {
      StreamLeft(ms);
      assert WellFormed(ms[0]);
      DrainedAcceptable(ms[0], 0, ms[1..]);
      BalancesAddUp(ms);
    }
  }

  // ---- What comes back of messages that are not all sendable ----

  /** `received` are some of `ms`, in order, with reports of frames that did not decode in between. */
  predicate Among(received: seq<Message>, ms: seq<Message>)
    decreases |received| + |ms|
  {
    received == []
    || (received[0] == SoftError(NOT_DECODED) && Among(received[1..], ms))
    || (ms != [] && received[0] == ms[0] && Among(received[1..], ms[1..]))
    || (ms != [] && Among(received, ms[1..]))
  }

  lemma AmongOne(received: seq<Message>, m: Message, ms: seq<Message>)
    requires Among(received, ms)
    ensures Among([m] + received, [m] + ms) && Among([SoftError(NOT_DECODED)] + received, ms)
    ensures Among(received, [m] + ms)
  {
    assert ([m] + received)[1..] == received && ([m] + ms)[1..] == ms;
    assert ([SoftError(NOT_DECODED)] + received)[1..] == received;
  }

  lemma {:induction false} AmongSuffix(received: seq<Message>, ms: seq<Message>, k: nat)
    requires k <= |ms| && Among(received, ms[k..])
    ensures Among(received, ms)
    decreases k
  {
    if k == 0 {
      assert ms[0..] == ms;
    } else {
      assert ms[1..][k - 1..] == ms[k..];
      AmongSuffix(received, ms[1..], k - 1);
    }
  }

  lemma {:induction false} AmongPrefix(a: seq<Message>, b: seq<Message>, ms: seq<Message>)
    requires Among(a + b, ms)
    ensures Among(a, ms)
    decreases |a| + |ms|
  {
    if a != [] {
      var r := a + b;
      assert r[0] == a[0] && r[1..] == a[1..] + b;
      if r[0] == SoftError(NOT_DECODED) && Among(r[1..], ms) {
        AmongPrefix(a[1..], b, ms);
      } else if r[0] == ms[0] && Among(r[1..], ms[1..]) {
        AmongPrefix(a[1..], b, ms[1..]);
      } else {
        AmongPrefix(a, b, ms[1..]);
      }
    }
  }

  /** What the first frame of what is left is taken for. */
  lemma FirstAmong(m: Message, q: nat, ms: seq<Message>, f: Text, rest: Text)
    requires q < |Sent(m)| && Encodable(m) && WellFormed(m) && AllWellFormed(ms)
    requires q > 0 ==> Sent(m)[q - 1] == RBRACE
    requires Remaining(m, q, ms) == f + rest && Enclosed(f) && NulFree(f)
    ensures Received(f) == SoftError(NOT_DECODED) || (q == 0 && Received(f) == m)
  {
    hide Sent, Stream, Decode, NulFree, Encoded, WellFormed;
    if q == 0 {
      assert Sent(m)[0..] == Sent(m);
      if Decode(f).Some? {
        FrameAtMessage(m, ms, f, rest);
      }
    } else {
      FrameInsideMessage(m, q, ms, f, rest);
    }
  }

  lemma {:induction false} DrainedAmong(m: Message, q: nat, ms: seq<Message>)
    requires q <= |Sent(m)| && WellFormed(m) && AllWellFormed(ms) && (q > 0 ==> Sent(m)[q - 1] == RBRACE)
    ensures Among(Drain(Remaining(m, q, ms)).0, if q == 0 then [m] + ms else ms)
    decreases |Remaining(m, q, ms)|, |ms|, 1
  {
    hide Sent, Received, Among, NulFree, WellFormed, Frame, Enclosed, Stream, Drain;
    var s := Remaining(m, q, ms);
    if q == |Sent(m)| {
      assert s == Stream(ms);
      StreamAmong(ms);
      AmongOne(Drain(s).0, m, ms);
    } else {
      LeftVisible(m, q, ms);
      FrameWhole(s);
      if Frame(s).Success? {
        var f, rest := Frame(s).obj, Frame(s).rest;
        FirstAmong(m, q, ms, f, rest);
        EnclosedEnds(f);
        var m', q', ms' := Locate(m, q, ms, |f|);
        assert s[|f|..] == rest && s[|f| - 1] == f[|f| - 1];
        DrainedAmong(m', q', ms');
        SuffixAmong(Drain(rest).0, m', q', ms', ms);
        DrainedFirst(s);
        ReceivedAmong(Received(f), Drain(rest).0, m, q, ms);
      } else {
        DrainedNone(s);
        NoneAmong(if q == 0 then [m] + ms else ms);
      }
    }
  }

  lemma SuffixAmong(received: seq<Message>, m: Message, q: nat, late: seq<Message>, ms: seq<Message>)
    requires q > 0 && Among(received, if q == 0 then [m] + late else late)
    requires |late| <= |ms| && late == ms[|ms| - |late|..]
    ensures Among(received, ms)
  {
    hide Among;
    AmongSuffix(received, ms, |ms| - |late|);
  }

  lemma DrainedFirst(s: Text)
    requires Frame(s).Success?
    ensures Drain(s).0 == [Received(Frame(s).obj)] + Drain(Frame(s).rest).0
  {
    hide Frame, Received;
  }

  lemma DrainedNone(s: Text)
    requires !Frame(s).Success?
    ensures Drain(s).0 == []
  {
    hide Frame, Received;
  }

  lemma ReceivedAmong(first: Message, rest: seq<Message>, m: Message, q: nat, ms: seq<Message>)
    requires first == SoftError(NOT_DECODED) || (q == 0 && first == m)
    requires Among(rest, ms)
    ensures Among([first] + rest, if q == 0 then [m] + ms else ms)
  {
    hide Among;
    AmongOne(rest, m, ms);
    AmongOne(rest, m, [m] + ms);
  }

  lemma NoneAmong(ms: seq<Message>)
    ensures Among([], ms)
  {
  }

  /**
    Whatever a stream of messages holds, nothing is received but these messages, in order, each at most once, and
    reports of frames that did not decode.
   */
  lemma {:induction false} StreamAmong(ms: seq<Message>)
    requires AllWellFormed(ms)
    ensures Among(Drain(Stream(ms)).0, ms)
    decreases |Stream(ms)|, |ms|, 0
  {
    hide Sent, Drain, Among, WellFormed;
    if ms == [] {
      NothingLeft();
      NoneAmong(ms);
    } else {
      StreamLeft(ms);
      assert WellFormed(ms[0]);
      DrainedAmong(ms[0], 0, ms[1..]);
      assert [ms[0]] + ms[1..] == ms;
    }
  }

  // ---- An unsendable message may still be delivered, at its neighbour's cost ----

  /**
    A text that opens one brace too many is closed by one that closes one too many: the frame holds both messages,
    decodes to the first, and the second is lost.
   */
  lemma NeighbourSwallowed(m: Message, n: Message)
    requires WellFormed(m) && WellFormed(n) && !m.Invalid? && !n.Invalid?
    requires |Encoded(m)| <= MAX_ENCODED_LEN && |Encoded(n)| <= MAX_ENCODED_LEN
    requires Balance(Carried(m)) == 1 && Lowest(Carried(m)) >= -1
    requires Balance(Carried(n)) == -1 && Lowest(Carried(n)) >= -2
    ensures !Sendable(m) && !Sendable(n) && Drain(Stream([m, n])) == ([m], true)
  {
    hide Encoded, Decode, Frame, Enclosed, Carried;
    var f := Encoded(m) + Encoded(n);
    StreamOfTwo(m, n);
    PairEnclosed(m, n);
    EncodedVisible(m);
    EncodedVisible(n);
    VisibleAppend(Encoded(m), Encoded(n));
    assert f + [] == f;
    EncodedStart(m);
    FrameIff(f, f, []);
    EmptyFrame();
    VisibleNulFree(f, []);
    DecodeWithTail(m, Encoded(n));
    assert [m] + [] == [m];
  }

  lemma StreamOfTwo(m: Message, n: Message)
    ensures Stream([m, n]) == Sent(m) + Sent(n)
  {
    hide Sent;
    assert [m, n][1..] == [n] && [n][1..] == [];
    assert Stream([n]) == Sent(n) + Stream([]);
    assert Sent(n) + [] == Sent(n);
  }

  lemma PairEnclosed(m: Message, n: Message)
    requires !m.Invalid? && !n.Invalid?
    requires Balance(Carried(m)) == 1 && Lowest(Carried(m)) >= -1
    requires Balance(Carried(n)) == -1 && Lowest(Carried(n)) >= -2
    ensures Enclosed(Encoded(m) + Encoded(n))
  {
    hide Render, RenderMembers, Carried, Enclosed, DataMembers, TypeName, Balance, Lowest;
    var u, v := RenderMembers(Tree(m).members, false, 1), RenderMembers(Tree(n).members, false, 1);
    RootBraces(m);
    RootBraces(n);
    ObjectRendered(Tree(m).members, 0);
    ObjectRendered(Tree(n).members, 0);
    var inner := u + ([RBRACE, LBRACE] + v);
    assert Encoded(m) + Encoded(n) == [LBRACE] + (inner + [RBRACE]);
    BetweenBraces();
    BalanceAppend([RBRACE, LBRACE], v);
    BalanceAppend(u, [RBRACE, LBRACE] + v);
    EnclosedIff(inner);
    LowestBelow(Carried(m));
  }

  lemma BetweenBraces()
    ensures Balance([RBRACE, LBRACE]) == 0 && Lowest([RBRACE, LBRACE]) == -1
  {
    assert [RBRACE, LBRACE][1..] == [LBRACE] && [LBRACE][1..] == [];
    assert Balance([LBRACE]) == 1 && Lowest([LBRACE]) == 0;
  }

  /** The soft errors `{` and `}`: the first arrives although it is not sendable, the second never does. */
  lemma UnsendableDelivered()
    ensures var m, n := SoftError([LBRACE]), SoftError([RBRACE]);
            !Sendable(m) && Drain(Stream([m, n])) == ([m], true)
  {
    hide Encoded, Sendable, Drain;
    var m, n := SoftError([LBRACE]), SoftError([RBRACE]);
    assert [LBRACE][1..] == [] && [RBRACE][1..] == [];
    assert Balance([LBRACE]) == 1 && Lowest([LBRACE]) == 0;
    assert Balance([RBRACE]) == -1 && Lowest([RBRACE]) == -1;
    PlainExtraOne(LBRACE);
    PlainExtraOne(RBRACE);
    EncodedSize(m);
    EncodedSize(n);
    NeighbourSwallowed(m, n);
  }

  lemma PlainExtraOne(c: byte)
    ensures ExtraOf([c]) == ExtraBytes(c)
  {
    assert [c][1..] == [];
  }
}
