/**
  Which bytes between two quotes stand for which bytes, told piece by piece and apart from the parser's two passes; this
  includes what it accepts beyond section 7 of RFC 8259.
 */
module Spelling {
  import opened Bytes
  import opened JsonStrings
  import Utf

  // ---- Pieces ----

  function HexCode(c: byte): Option<nat> {
    if '0' as int <= c <= '9' as int then Some(c - '0' as int)
    else if 'a' as int <= c <= 'f' as int then Some(10 + c - 'a' as int)
    else if 'A' as int <= c <= 'F' as int then Some(10 + c - 'A' as int)
    else None
  }

  /** The code of four hex digits; anything else counts as 0. */
  function Code(t: Text): nat
    requires |t| == 4
  {
    if forall k :: 0 <= k < 4 ==> HexCode(t[k]).Some? then
      0x1000 * HexCode(t[0]).value + 0x100 * HexCode(t[1]).value + 0x10 * HexCode(t[2]).value + HexCode(t[3]).value
    else 0
  }

  predicate StartsUnit(p: Text, i: nat) {
    i + 6 <= |p| && p[i] == '\\' as int && p[i + 1] == 'u' as int
  }

  /** The piece `p` stands for `q`. */
  predicate Piece(p: Text, q: Text) {
    if |p| == 1 then p[0] != '\\' as int && q == p
    else if |p| == 2 then p[0] == '\\' as int && |q| == 1 && Short(p[1], q[0])
    else if |p| == 6 then
      StartsUnit(p, 0) && var code := Code(p[2..6]); !(0xD800 <= code <= 0xDFFF) && Utf.Utf8Decode(q) == Some(code)
    else
      |p| == 12 && StartsUnit(p, 0) && StartsUnit(p, 6)
      && var high, low := Code(p[2..6]), Code(p[8..12]);
         0xD800 <= high <= 0xDBFF && 0xDC00 <= low <= 0xDFFF
         && Utf.Utf8Decode(q) == Some(0x10000 + (high - 0xD800) * 0x400 + (low - 0xDC00))
  }

  predicate Short(letter: byte, c: byte) {
    (letter == 'b' as int && c == 8) || (letter == 'f' as int && c == 12) || (letter == 'n' as int && c == 10)
    || (letter == 'r' as int && c == 13) || (letter == 't' as int && c == 9)
    || (letter == c && (c == '"' as int || c == '\\' as int || c == '/' as int))
  }

  /** `body` is pieces that stand for `raw`. */
  ghost predicate Spells(body: Text, raw: Text)
    decreases |body|
  {
    if body == [] then raw == []
    else
      exists n: nat, m: nat ::
        0 < n <= |body| && m <= |raw| && Piece(body[..n], raw[..m]) && Spells(body[n..], raw[m..])
  }

  /** A backslash left over at the end takes the closing quote, which then counts twice. */
  ghost predicate Spelled(body: Text, raw: Text) {
    Spells(body, raw)
    || (body != [] && raw != [] && body[|body| - 1] == '\\' as int && raw[|raw| - 1] == '"' as int
        && Spells(body[..|body| - 1], raw[..|raw| - 1]))
  }

  /** Backslashes pair with what follows them, and no quote is left over. */
  predicate Paired(body: Text) {
    if body == [] then true
    else if body[0] == '\\' as int then |body| >= 2 && Paired(body[2..])
    else body[0] != '"' as int && Paired(body[1..])
  }

  // ---- The first pass ----

  lemma {:induction false} ClosingIff(s: Text, p: nat, e: nat)
    requires p <= e < |s|
    ensures ClosingQuote(s, p) == Some(e) <==> s[e] == '"' as int && Paired(s[p..e])
    decreases e - p
  {
    var body := s[p..e];
    if p < e {
      assert body[0] == s[p];
      if s[p] == BACKSLASH {
        if p + 2 <= e {
          SliceOf(s, p, e, 2, e - p);
          assert body[2..] == body[2..e - p];
          ClosingIff(s, p + 2, e);
        } else {
          ClosingAfter(s, p + 2);
        }
      } else {
        SliceOf(s, p, e, 1, e - p);
        assert body[1..] == body[1..e - p];
        ClosingIff(s, p + 1, e);
      }
    }
  }

  lemma ClosingAfter(s: Text, p: nat)
    requires p <= |s|
    ensures ClosingQuote(s, p).Some? ==> ClosingQuote(s, p).value >= p
  {
  }

  // ---- The second pass ----

  lemma HexIs(c: byte)
    ensures Utf.HexDigit(c) == HexCode(c)
  {
  }

  lemma CodeIs(s: Text, p: nat)
    requires p + 4 <= |s|
    ensures Utf.Hex4(s, p) == Code(s[p..p + 4])
  {
    var t := s[p..p + 4];
    HexIs(t[0]);
    HexIs(t[1]);
    HexIs(t[2]);
    HexIs(t[3]);
    assert t[0] == s[p] && t[1] == s[p + 1] && t[2] == s[p + 2] && t[3] == s[p + 3];
    if Utf.AreHex4(s, p) {
      assert Utf.HexValue(s, p, 0) == 0;
      assert Utf.HexValue(s, p, 1) == HexCode(t[0]).value;
      assert Utf.HexValue(s, p, 2) == 16 * HexCode(t[0]).value + HexCode(t[1]).value;
      assert Utf.HexValue(s, p, 3) == 16 * (16 * HexCode(t[0]).value + HexCode(t[1]).value) + HexCode(t[2]).value;
    }
  }

  lemma JoinSplits(high: nat, low: byte)
    requires Utf.IsContinuation(low)
    ensures Utf.Join(high, low) / 64 == high && Utf.Join(high, low) % 64 == low as int - 0x80
  {
  }

  lemma DecodedShort(q: Text, cp: nat)
    requires Utf.Utf8Decode(q) == Some(cp) && |q| <= 2
    ensures q == Utf.Utf8Encode(cp)
  {
    if |q| == 2 {
      JoinSplits(q[0] as int - 0xC0, q[1]);
      assert cp == Utf.Join(q[0] as int - 0xC0, q[1]);
      assert 0x80 <= cp < 0x800;
    }
  }

  lemma DecodedThree(q: Text, cp: nat)
    requires Utf.Utf8Decode(q) == Some(cp) && |q| == 3
    ensures q == Utf.Utf8Encode(cp)
  {
    var high := q[0] as int - 0xE0;
    var mid := Utf.Join(high, q[1]);
    JoinSplits(high, q[1]);
    JoinSplits(mid, q[2]);
    hide Utf.Join;
    assert cp / 64 == mid && 0x800 <= cp < 0x10000;
  }

  lemma DecodedFour(q: Text, cp: nat)
    requires Utf.Utf8Decode(q) == Some(cp) && |q| == 4
    ensures q == Utf.Utf8Encode(cp)
  {
    var high := q[0] as int - 0xF0;
    var upper := Utf.Join(high, q[1]);
    var mid := Utf.Join(upper, q[2]);
    JoinSplits(high, q[1]);
    JoinSplits(upper, q[2]);
    JoinSplits(mid, q[3]);
    hide Utf.Join;
    assert cp / 64 == mid && cp / 64 / 64 == upper && cp / 64 / 64 / 64 == high && 0x10000 <= cp;
  }

  /** Strictly decoded bytes are the encoding of what they decode to. */
  lemma DecodedIs(q: Text, cp: nat)
    requires cp <= Utf.MAX_CODE_POINT && !(0xD800 <= cp <= 0xDFFF)
    ensures Utf.Utf8Decode(q) == Some(cp) <==> q == Utf.Utf8Encode(cp)
  {
    Utf.Utf8RoundTrip(cp);
    hide Utf.Utf8Encode;
    if Utf.Utf8Decode(q) == Some(cp) {
      if |q| <= 2 {
        DecodedShort(q, cp);
      } else if |q| == 3 {
        DecodedThree(q, cp);
      } else {
        DecodedFour(q, cp);
      }
    }
  }

  lemma ShortIs(letter: byte, c: byte)
    ensures SimpleEscape(letter) == Some(c) <==> Short(letter, c)
    ensures SimpleEscape(letter).Some? ==> letter != LOWER_U
  {
  }

  /** A literal with `u` is taken as the piece it is. */
  lemma LiteralIs(s: Text, p: nat, e: nat, n: nat, q: Text)
    requires p + 2 <= e <= |s| && s[p] == BACKSLASH && s[p + 1] == LOWER_U && p + n <= e && n > 2
    ensures Utf.Literal(s, p, e) == Some((n, q)) <==> Piece(s[p..p + n], q)
  {
    if n == 6 {
      UnitIs(s, p, e, q);
    } else if n == 12 {
      PairIs(s, p, e, q);
    }
  }

  lemma UnitIs(s: Text, p: nat, e: nat, q: Text)
    requires p + 6 <= e <= |s| && s[p] == BACKSLASH && s[p + 1] == LOWER_U
    ensures Utf.Literal(s, p, e) == Some((6, q)) <==> Piece(s[p..p + 6], q)
  {
    var t := s[p..p + 6];
    assert t[2..6] == s[p + 2..p + 6];
    CodeIs(s, p + 2);
    var first := Code(t[2..6]);
    hide Utf.Hex4, Code, Utf.Utf8Decode, Utf.Utf8Encode;
    if !(0xD800 <= first <= 0xDFFF) {
      DecodedIs(q, first);
    }
  }

  lemma PairIs(s: Text, p: nat, e: nat, q: Text)
    requires p + 12 <= e <= |s| && s[p] == BACKSLASH && s[p + 1] == LOWER_U
    ensures Utf.Literal(s, p, e) == Some((12, q)) <==> Piece(s[p..p + 12], q)
  {
    hide *;
    PairSlices(s, p);
    CodeIs(s, p + 2);
    CodeIs(s, p + 8);
    PairTaken(s, p, e, q);
    PiecePair(s[p..p + 12], q);
    var first, second := Utf.Hex4(s, p + 2), Utf.Hex4(s, p + 8);
    if 0xD800 <= first <= 0xDBFF && 0xDC00 <= second <= 0xDFFF {
      PairBounds(first, second);
      DecodedIs(q, 0x10000 + (first - 0xD800) * 0x400 + (second - 0xDC00));
    }
  }

  lemma PairBounds(first: nat, second: nat)
    requires 0xD800 <= first <= 0xDBFF && 0xDC00 <= second <= 0xDFFF
    ensures 0xDFFF < 0x10000 + (first - 0xD800) * 0x400 + (second - 0xDC00) <= Utf.MAX_CODE_POINT
  {
  }

  lemma PairSlices(s: Text, p: nat)
    requires p + 12 <= |s|
    ensures var t := s[p..p + 12];
            t[2..6] == s[p + 2..p + 6] && t[8..12] == s[p + 8..p + 12]
            && t[0] == s[p] && t[1] == s[p + 1] && t[6] == s[p + 6] && t[7] == s[p + 7]
  {
    SliceOf(s, p, p + 12, 2, 6);
    SliceOf(s, p, p + 12, 8, 12);
  }

  lemma PiecePair(t: Text, q: Text)
    requires |t| == 12
    ensures var first, second := Code(t[2..6]), Code(t[8..12]);
            Piece(t, q) <==>
            t[0] == BACKSLASH && t[1] == LOWER_U && t[6] == BACKSLASH && t[7] == LOWER_U
            && 0xD800 <= first <= 0xDBFF && 0xDC00 <= second <= 0xDFFF
            && Utf.Utf8Decode(q) == Some(0x10000 + (first - 0xD800) * 0x400 + (second - 0xDC00))
  {
    hide Code, Utf.Utf8Decode;
  }

  lemma PairTaken(s: Text, p: nat, e: nat, q: Text)
    requires p + 12 <= e <= |s|
    ensures var first, second := Utf.Hex4(s, p + 2), Utf.Hex4(s, p + 8);
            Utf.Literal(s, p, e) == Some((12, q)) <==>
            0xD800 <= first <= 0xDBFF && 0xDC00 <= second <= 0xDFFF && s[p + 6] == BACKSLASH && s[p + 7] == LOWER_U
            && q == Utf.Utf8Encode(0x10000 + (first - 0xD800) * 0x400 + (second - 0xDC00))
  {
    hide Utf.Hex4, Utf.Utf8Encode;
  }

  lemma SpellsFirst(body: Text, n: nat, q: Text, raw: Text)
    requires 0 < n <= |body| && Piece(body[..n], q) && Spells(body[n..], raw)
    ensures Spells(body, q + raw)
  {
    hide Piece;
    var m, whole := |q|, q + raw;
    assert whole[..m] == q && whole[m..] == raw;
    assert Piece(body[..n], whole[..m]) && Spells(body[n..], whole[m..]);
  }

  lemma PieceFirst(body: Text, n: nat, q: Text, raw: Text)
    requires 0 < n <= |body| && Piece(body[..n], q) && Spelled(body[n..], raw)
    ensures Spelled(body, q + raw)
  {
    hide Piece, Spells;
    var rest := body[n..];
    if Spells(rest, raw) {
      SpellsFirst(body, n, q, raw);
    } else {
      var shorter := body[..|body| - 1];
      assert shorter[..n] == body[..n] && shorter[n..] == rest[..|rest| - 1];
      SpellsFirst(shorter, n, q, raw[..|raw| - 1]);
      assert (q + raw)[..|q + raw| - 1] == q + raw[..|raw| - 1];
      assert body[|body| - 1] == rest[|rest| - 1];
    }
  }

  lemma FirstPiece(body: Text, raw: Text) returns (n: nat, m: nat)
    requires body != [] && Spells(body, raw)
    ensures 0 < n <= |body| && m <= |raw| && Piece(body[..n], raw[..m]) && Spells(body[n..], raw[m..])
  {
    hide Piece;
    n, m :| 0 < n <= |body| && m <= |raw| && Piece(body[..n], raw[..m]) && Spells(body[n..], raw[m..]);
  }

  lemma PieceOf(body: Text, raw: Text) returns (n: nat, m: nat)
    requires body != [] && Spelled(body, raw) && !(body == ['\\' as int] && raw == ['"' as int])
    ensures 0 < n <= |body| && m <= |raw| && Piece(body[..n], raw[..m]) && Spelled(body[n..], raw[m..])
  {
    hide Piece, Spells;
    if Spells(body, raw) {
      n, m := FirstPiece(body, raw);
    } else {
      var b, r := body[..|body| - 1], raw[..|raw| - 1];
      LeftOver(body, raw);
      n, m := FirstPiece(b, r);
      assert b[..n] == body[..n] && r[..m] == raw[..m];
      var body', raw' := body[n..], raw[m..];
      assert body'[..|body'| - 1] == b[n..] && raw'[..|raw'| - 1] == r[m..];
      assert body'[|body'| - 1] == body[|body| - 1] && raw'[|raw'| - 1] == raw[|raw| - 1];
    }
  }

  lemma LeftOver(body: Text, raw: Text)
    requires |body| > 0 && |raw| > 0 && body[|body| - 1] == '\\' as int && raw[|raw| - 1] == '"' as int
    requires Spells(body[..|body| - 1], raw[..|raw| - 1]) && !(body == ['\\' as int] && raw == ['"' as int])
    ensures body[..|body| - 1] != []
  {
    hide Piece;
  }

  lemma Halves(s: Text, p: nat, e: nat, n: nat)
    requires p + n <= e <= |s|
    ensures s[p..e][..n] == s[p..p + n] && s[p..e][n..] == s[p + n..e]
  {
    SliceOf(s, p, e, 0, n);
    SliceOf(s, p, e, n, e - p);
    assert s[p..e][..n] == s[p..e][0..n] && s[p..e][n..] == s[p..e][n..e - p];
  }

  lemma {:induction false} UnescapeSpells(s: Text, p: nat, e: nat)
    requires p <= e + 1 && e < |s| && s[e] == '"' as int && Unescape(s, p, e).Bytes?
    ensures var raw := Unescape(s, p, e).text; if p > e then raw == [] else Spelled(s[p..e], raw)
    decreases e + 1 - p
  {
    hide Piece, Spelled, Utf.Literal;
    if p == e {
      NothingSpelled();
      assert s[p..e] == [];
    } else if p < e {
      var body := s[p..e];
      var n, q := Taken(s, p, e);
      UnescapeSpells(s, p + n, e);
      var raw := Unescape(s, p + n, e).text;
      if p + n <= e {
        Halves(s, p, e, n);
        PieceFirst(body, n, q, raw);
      } else {
        LoneBackslash();
        assert body == ['\\' as int] && q + raw == ['"' as int];
      }
    }
  }

  lemma NothingSpelled()
    ensures Spelled([], [])
  {
  }

  lemma LoneBackslash()
    ensures Spelled(['\\' as int], ['"' as int])
  {
    assert ['\\' as int][..0] == [] && ['"' as int][..0] == [];
  }

  /** What one round of the second pass takes. */
  lemma Taken(s: Text, p: nat, e: nat) returns (n: nat, q: Text)
    requires p < e < |s| && s[e] == '"' as int && Unescape(s, p, e).Bytes?
    ensures 0 < n && p + n <= e + 1 && Unescape(s, p, e) == Prepend(q, Unescape(s, p + n, e))
    ensures p + n <= e ==> Piece(s[p..p + n], q)
    ensures p + n > e ==> n == 2 && s[p] == '\\' as int && q == ['"' as int]
  {
    if s[p] != BACKSLASH {
      n, q := 1, [s[p]];
      assert s[p..p + 1] == [s[p]];
    } else if SimpleEscape(s[p + 1]).Some? {
      n, q := 2, [SimpleEscape(s[p + 1]).value];
      ShortIs(s[p + 1], q[0]);
      assert p + 2 <= e ==> s[p..p + 2] == [s[p], s[p + 1]];
    } else {
      n, q := Utf.Literal(s, p, e).value.0, Utf.Literal(s, p, e).value.1;
      LiteralIs(s, p, e, n, q);
    }
  }

  lemma {:induction false} SpelledUnescapes(s: Text, p: nat, e: nat, raw: Text)
    requires p <= e < |s| && s[e] == '"' as int && Spelled(s[p..e], raw)
    ensures Unescape(s, p, e) == Bytes(raw)
    decreases e - p
  {
    hide Piece, Spelled, Unescape;
    var body := s[p..e];
    if p == e {
      assert body == [];
      NothingElseSpelled(raw);
      NothingLeft(s, e);
    } else if body == ['\\' as int] && raw == ['"' as int] {
      assert s[p] == body[0] && e == p + 1;
      TakesQuote(s, p);
    } else {
      var n, m := PieceOf(body, raw);
      Halves(s, p, e, n);
      SpelledUnescapes(s, p + n, e, raw[m..]);
      Given(s, p, e, n, raw[..m]);
      assert raw == raw[..m] + raw[m..];
    }
  }

  lemma NothingElseSpelled(raw: Text)
    requires Spelled([], raw)
    ensures raw == []
  {
  }

  lemma NothingLeft(s: Text, e: nat)
    requires e < |s|
    ensures Unescape(s, e, e) == Bytes([]) && Unescape(s, e + 1, e) == Bytes([])
  {
  }

  lemma TakesQuote(s: Text, p: nat)
    requires p + 1 < |s| && s[p] == '\\' as int && s[p + 1] == '"' as int
    ensures Unescape(s, p, p + 1) == Bytes(['"' as int])
  {
    NothingLeft(s, p + 1);
    assert ['"' as int] + [] == ['"' as int];
  }

  lemma Given(s: Text, p: nat, e: nat, n: nat, q: Text)
    requires p < e < |s| && s[e] == '"' as int && p + n <= e && n > 0 && Piece(s[p..p + n], q)
    ensures Unescape(s, p, e) == Prepend(q, Unescape(s, p + n, e))
  {
    var t := s[p..p + n];
    assert t[0] == s[p] && (n > 1 ==> t[1] == s[p + 1]);
    if n == 2 {
      ShortIs(s[p + 1], q[0]);
      assert q == [q[0]];
    } else if n > 2 {
      ShortIs(s[p + 1], 0);
      LiteralIs(s, p, e, n, q);
    }
  }

  /** The text of a literal, quotes included, and the bytes it stands for. */
  ghost predicate LiteralText(t: Text, raw: Text) {
    |t| >= 2 && t[0] == '"' as int && t[|t| - 1] == '"' as int
    && Paired(t[1..|t| - 1]) && Spelled(t[1..|t| - 1], raw)
  }

  lemma Inner(s: Text, o: nat, e: nat)
    requires o + 2 <= e <= |s|
    ensures var t := s[o..e]; |t| == e - o && t[0] == s[o] && t[|t| - 1] == s[e - 1] && t[1..|t| - 1] == s[o + 1..e - 1]
  {
    SliceOf(s, o, e, 1, e - o - 1);
  }

  /** The parser takes exactly such literals, as what they stand for. */
  lemma LiteralIff(s: Text, o: nat, e: nat, raw: Text)
    requires o < e <= |s|
    ensures ParseString(s, o) == Ok(raw, e) <==> LiteralText(s[o..e], raw)
  {
    hide Spelled, Paired;
    var t := s[o..e];
    if e >= o + 2 {
      Inner(s, o, e);
      ClosingIff(s, o + 1, e - 1);
      if s[e - 1] == '"' as int {
        if Unescape(s, o + 1, e - 1).Bytes? {
          UnescapeSpells(s, o + 1, e - 1);
        }
        if Spelled(s[o + 1..e - 1], raw) {
          SpelledUnescapes(s, o + 1, e - 1, raw);
        }
      }
    }
  }
}
