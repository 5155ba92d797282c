/** String literals of section 7 of RFC 8259: the escaper, and the two passes of the unescaper. */
module JsonStrings {
  import opened Bytes
  import Utf

  /** Outcome of a parsing step: a value and the offset behind it, or the offset where parsing gave up. */
  datatype Parsed<+T> = Ok(value: T, off: nat) | Fail(off: nat)

  // ---- Escaping ----

  function HexChar(d: nat): byte
    requires d < 16
  {
    if d < 10 then ZERO as int + d else 87 + d
  }

  function EscapeByte(c: byte): (t: Text)
    ensures |t| == 1 + ExtraBytes(c)
  {
    if c > 31 && c != QUOTE && c != BACKSLASH then [c]
    else if c == BACKSLASH then [BACKSLASH, BACKSLASH]
    else if c == QUOTE then [BACKSLASH, QUOTE]
    else if c == BS then [BACKSLASH, LOWER_B]
    else if c == FF then [BACKSLASH, LOWER_F]
    else if c == LF then [BACKSLASH, LOWER_N]
    else if c == CR then [BACKSLASH, LOWER_R]
    else if c == TAB then [BACKSLASH, LOWER_T]
    else [BACKSLASH, LOWER_U, ZERO, ZERO, HexChar(c / 16), HexChar(c % 16)]
  }

  /** The table of section 7 of RFC 8259, by character codes: what the printer writes for each byte. */
  lemma EscapeTable(c: byte)
    ensures EscapeByte('"' as int) == Lit("\\\"") && EscapeByte('\\' as int) == Lit("\\\\")
    ensures EscapeByte(8) == Lit("\\b") && EscapeByte(12) == Lit("\\f") && EscapeByte(10) == Lit("\\n")
    ensures EscapeByte(13) == Lit("\\r") && EscapeByte(9) == Lit("\\t")
    ensures c < 32 && c != 8 && c != 9 && c != 10 && c != 12 && c != 13 ==>
              EscapeByte(c) == Lit("\\u00") + [Lit("0123456789abcdef")[c / 16], Lit("0123456789abcdef")[c % 16]]
    ensures c >= 32 && c != '"' as int && c != '\\' as int ==> EscapeByte(c) == [c]
  {
  }

  /** And the byte the parser reads for each letter behind a backslash, `u` aside. */
  lemma UnescapeTable(c: byte)
    ensures SimpleEscape('b' as int) == Some(8) && SimpleEscape('f' as int) == Some(12)
    ensures SimpleEscape('n' as int) == Some(10) && SimpleEscape('r' as int) == Some(13)
    ensures SimpleEscape('t' as int) == Some(9) && SimpleEscape('"' as int) == Some('"' as int)
    ensures SimpleEscape('\\' as int) == Some('\\' as int) && SimpleEscape('/' as int) == Some('/' as int)
    ensures SimpleEscape(c).Some? <==> c in Lit("bfnrt\"\\/")
  {
    var letters := Lit("bfnrt\"\\/");
    assert letters == ['b' as int, 'f' as int, 'n' as int, 'r' as int, 't' as int, 34, 92, 47];
  }

  /** What the counting pass adds for one byte. */
  function ExtraBytes(c: byte): nat {
    if c == QUOTE || c == BACKSLASH || c == BS || c == FF || c == LF || c == CR || c == TAB then 1
    else if c < 32 then 5
    else 0
  }

  function Escape(t: Text): Text {
    if t == [] then [] else EscapeByte(t[0]) + Escape(t[1..])
  }

  /** No raw control byte is left in an escaped body, and no NUL in particular. */
  lemma {:induction false} EscapedIsPrintable(t: Text)
    ensures forall k :: 0 <= k < |Escape(t)| ==> Escape(t)[k] > 31
  {
    if t != [] {
      EscapedIsPrintable(t[1..]);
    }
  }

  function ExtraOf(t: Text): nat {
    if t == [] then 0 else ExtraBytes(t[0]) + ExtraOf(t[1..])
  }

  /** The counting pass predicts the writing pass exactly. */
  lemma {:induction false} EscapedLength(t: Text)
    ensures |Escape(t)| == |t| + ExtraOf(t)
  {
    if t != [] {
      EscapedLength(t[1..]);
    }
  }

  lemma Assoc(a: Text, b: Text, c: Text)
    ensures a + (b + c) == a + b + c
  {
  }

  lemma {:induction false} EscapeAppend(a: Text, b: Text)
    ensures Escape(a + b) == Escape(a) + Escape(b)
    ensures ExtraOf(a + b) == ExtraOf(a) + ExtraOf(b)
  {
    if a == [] {
      assert a + b == b;
    } else {
      EscapeAppend(a[1..], b);
      assert (a + b)[1..] == a[1..] + b;
      Assoc(EscapeByte(a[0]), Escape(a[1..]), Escape(b));
    }
  }

  /** Text that needs no escaping is copied as it is. */
  lemma {:induction false} EscapeIdentity(t: Text)
    requires ExtraOf(t) == 0
    ensures Escape(t) == t
  {
    if t != [] {
      EscapeIdentity(t[1..]);
    }
  }

  function Quoted(t: Text): Text {
    [QUOTE] + Escape(t) + [QUOTE]
  }

  // ---- First pass: where the literal ends, and how many escapes it counts ----

  function ClosingQuote(s: Text, p: nat): (r: Option<nat>)
    requires p <= |s|
    ensures r.Some? ==> p <= r.value < |s| && s[r.value] == QUOTE
    decreases |s| - p
  {
    if p >= |s| then None
    else if s[p] == QUOTE then Some(p)
    else if s[p] == BACKSLASH then if p + 1 >= |s| then None else ClosingQuote(s, p + 2)
    else ClosingQuote(s, p + 1)
  }

  function Skips(s: Text, p: nat, e: nat): nat
    requires p <= e <= |s|
    decreases e - p
  {
    if p >= e then 0
    else if s[p] == BACKSLASH then 1 + if p + 2 <= e then Skips(s, p + 2, e) else 0
    else Skips(s, p + 1, e)
  }

  // ---- Second pass ----

  datatype Unescaped = Bytes(text: Text) | Bad(off: nat)

  function Prepend(t: Text, r: Unescaped): Unescaped {
    if r.Bytes? then Bytes(t + r.text) else r
  }

  /** The byte a two-byte escape stands for. */
  function SimpleEscape(c: byte): Option<byte> {
    if c == LOWER_B then Some(BS)
    else if c == LOWER_F then Some(FF)
    else if c == LOWER_N then Some(LF)
    else if c == LOWER_R then Some(CR)
    else if c == LOWER_T then Some(TAB)
    else if c == QUOTE || c == BACKSLASH || c == SLASH then Some(c)
    else None
  }

  function Unescape(s: Text, p: nat, e: nat): (r: Unescaped)
    requires p <= e + 1 && e < |s|
    ensures r.Bad? ==> r.off <= e
    decreases e + 1 - p
  {
    if p >= e then Bytes([])
    else if s[p] != BACKSLASH then Prepend([s[p]], Unescape(s, p + 1, e))
    else if SimpleEscape(s[p + 1]).Some? then
      Prepend([SimpleEscape(s[p + 1]).value], Unescape(s, p + 2, e))
    else if s[p + 1] == LOWER_U then
      match Utf.Literal(s, p, e)
      case None => Bad(p)
      case Some(l) => Prepend(l.1, Unescape(s, p + l.0, e))
    else Bad(p)
  }

  /** The literal at `o`: its raw bytes and the offset past the closing quote. */
  function ParseString(s: Text, o: nat): (r: Parsed<Text>)
    requires o < |s|
    ensures r.Ok? ==> o + 2 <= r.off <= |s| && s[r.off - 1] == QUOTE
    ensures r.Fail? ==> o < r.off <= |s|
  {
    if s[o] != QUOTE then Fail(o + 1)
    else
      match ClosingQuote(s, o + 1)
      case None => Fail(o + 1)
      case Some(e) =>
        UnescapeOffset(s, o + 1, e);
        match Unescape(s, o + 1, e)
        case Bad(p) => Fail(p)
        case Bytes(t) => Ok(t, e + 1)
  }

  lemma {:induction false} UnescapeOffset(s: Text, p: nat, e: nat)
    requires p <= e + 1 && e < |s|
    ensures Unescape(s, p, e).Bad? ==> p <= Unescape(s, p, e).off
    decreases e + 1 - p
  {
    if p < e {
      if s[p] != BACKSLASH {
        UnescapeOffset(s, p + 1, e);
      } else if SimpleEscape(s[p + 1]).Some? {
        UnescapeOffset(s, p + 2, e);
      } else if s[p + 1] == LOWER_U && Utf.Literal(s, p, e).Some? {
        UnescapeOffset(s, p + Utf.Literal(s, p, e).value.0, e);
      }
    }
  }

  // ---- The unescaper inverts the escaper ----

  lemma ControlLiteral(s: Text, p: nat, e: nat, c: byte)
    requires p + 6 <= e <= |s| && c < 32
    requires s[p + 2] == ZERO && s[p + 3] == ZERO
    requires s[p + 4] == HexChar(c / 16) && s[p + 5] == HexChar(c % 16)
    ensures Utf.Literal(s, p, e) == Some((6, [c]))
  {
    assert Utf.HexValue(s, p + 2, 1) == 0;
    assert Utf.HexValue(s, p + 2, 2) == 0;
    assert Utf.HexValue(s, p + 2, 3) == c / 16;
    assert Utf.HexValue(s, p + 2, 4) == c;
  }

  /** Both passes over one escaped byte consume it whole and give it back. */
  lemma UnescapeStep(s: Text, p: nat, e: nat, c: byte)
    requires At(s, p, EscapeByte(c)) && p + |EscapeByte(c)| <= e < |s|
    ensures ClosingQuote(s, p) == ClosingQuote(s, p + |EscapeByte(c)|)
    ensures Unescape(s, p, e) == Prepend([c], Unescape(s, p + |EscapeByte(c)|, e))
  {
    var t := EscapeByte(c);
    AtByte(s, p, t, 0);
    if |t| > 1 {
      AtByte(s, p, t, 1);
    }
    if |t| == 6 {
      AtByte(s, p, t, 2);
      AtByte(s, p, t, 3);
      AtByte(s, p, t, 4);
      AtByte(s, p, t, 5);
      ControlLiteral(s, p, e, c);
      assert s[p] == BACKSLASH && s[p + 1] == LOWER_U;
      PlainRun(s, p + 2, 4);
    }
  }

  lemma {:induction false} PlainRun(s: Text, p: nat, n: nat)
    requires p + n <= |s|
    requires forall k :: p <= k < p + n ==> s[k] != QUOTE && s[k] != BACKSLASH
    ensures ClosingQuote(s, p) == ClosingQuote(s, p + n)
    decreases n
  {
    if n > 0 {
      PlainRun(s, p + 1, n - 1);
    }
  }

  lemma UnescapeNothing(s: Text, p: nat)
    requires p < |s| && s[p] == QUOTE
    ensures ClosingQuote(s, p) == Some(p) && Unescape(s, p, p) == Bytes([])
  {
  }

  lemma {:induction false} UnescapeInverse(s: Text, p: nat, t: Text)
    requires At(s, p, Escape(t) + [QUOTE])
    ensures var e := p + |Escape(t)|;
            ClosingQuote(s, p) == Some(e) && Unescape(s, p, e) == Bytes(t)
    decreases |t|
  {
    hide Unescape, ClosingQuote, EscapeByte, At;
    if t == [] {
      assert Escape(t) + [QUOTE] == [QUOTE];
      AtByte(s, p, [QUOTE], 0);
      UnescapeNothing(s, p);
    } else {
      var head, body := EscapeByte(t[0]), Escape(t[1..]);
      Assoc(head, body, [QUOTE]);
      AtAppend(s, p, head, body + [QUOTE]);
      var q := p + |head|;
      UnescapeInverse(s, q, t[1..]);
      UnescapeStep(s, p, q + |body|, t[0]);
      assert Prepend([t[0]], Bytes(t[1..])) == Bytes(t);
    }
  }

  /** Parsing a printed string gives the original bytes and stops just past its closing quote. */
  lemma ParseQuoted(s: Text, o: nat, t: Text)
    requires At(s, o, Quoted(t))
    ensures o < |s|
    ensures ParseString(s, o) == Ok(t, o + |Quoted(t)|)
  {
    assert Quoted(t) == [QUOTE] + (Escape(t) + [QUOTE]);
    AtAppend(s, o, [QUOTE], Escape(t) + [QUOTE]);
    AtByte(s, o, [QUOTE], 0);
    UnescapeInverse(s, o + 1, t);
  }

  // ---- The first pass reserves enough for whatever the second pass writes ----

  /**
    Where the first pass stands (`a`) when the second stands at `p`. Bad hex digits can put the two
    passes out of step by one byte, and can carry the second pass one past the closing quote `e`.
   */
  ghost predicate InStep(s: Text, p: nat, a: nat, e: nat) {
    a <= |s| && ClosingQuote(s, a) == Some(e)
    && (a == p || a == p + 1 || (p == e + 1 && a == e))
  }

  /** `out` bytes written at `p` leave room: every escape the first pass counted has been saved. */
  ghost predicate Room(s: Text, start: nat, p: nat, a: nat, e: nat, out: nat) {
    start <= p <= e + 1 && start <= a && InStep(s, p, a, e)
    && out + Skips(s, start, e) <= p - start + Skips(s, a, e)
  }

  lemma StepOne(s: Text, p: nat, a: nat, e: nat) returns (a': nat)
    requires InStep(s, p, a, e) && p < e && s[p] != BACKSLASH
    ensures a <= a' && InStep(s, p + 1, a', e) && Skips(s, a, e) == Skips(s, a', e)
  {
    a' := p + 1;
  }

  lemma StepTwo(s: Text, p: nat, a: nat, e: nat) returns (a': nat)
    requires InStep(s, p, a, e) && p < e && (s[p] == BACKSLASH || p + 2 <= e)
    ensures a <= a' && InStep(s, p + 2, a', e) && Skips(s, a, e) <= Skips(s, a', e) + 1
  {
    assert a == p && s[p] != BACKSLASH ==> ClosingQuote(s, p + 1) == Some(e);
    if a == p && s[p] == BACKSLASH {
      a' := p + 2;
    } else if p + 1 == e {
      a' := e;
    } else if s[p + 1] == BACKSLASH {
      a' := p + 3;
    } else {
      a' := p + 2;
    }
  }

  lemma StepSix(s: Text, p: nat, a: nat, e: nat) returns (a': nat)
    requires InStep(s, p, a, e) && p + 6 <= e
    ensures a <= a' && InStep(s, p + 6, a', e) && Skips(s, a, e) <= Skips(s, a', e) + 3
  {
    var a1 := StepTwo(s, p, a, e);
    var a2 := StepTwo(s, p + 2, a1, e);
    a' := StepTwo(s, p + 4, a2, e);
  }

  /** A refused or finished second pass never writes more than the first pass reserved. */
  lemma RoomLeft(s: Text, start: nat, p: nat, a: nat, e: nat, out: nat)
    requires Room(s, start, p, a, e, out)
    ensures out + Skips(s, start, e) <= e + 1 - start
    ensures p < e ==> out + Skips(s, start, e) <= e - start
  {
    SkipsBound(s, a, e);
  }

  lemma {:induction false} SkipsBound(s: Text, a: nat, e: nat)
    requires a <= |s| && ClosingQuote(s, a) == Some(e)
    ensures 2 * Skips(s, a, e) <= e - a
    decreases e - a
  {
    if a < e {
      SkipsBound(s, if s[a] == BACKSLASH then a + 2 else a + 1, e);
    }
  }
}
