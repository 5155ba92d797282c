/**
  Escaped UTF-16 literals (`\uXXXX`, or two of them for a surrogate pair as in section 2.2 of RFC 2781)
  and the UTF-8 bytes of section 3 of RFC 3629 they stand for.
 */
module Utf {
  import opened Bytes
  import opened BitOps

  const MAX_CODE_POINT := 0x10FFFF

  predicate IsScalar(cp: nat) {
    cp <= MAX_CODE_POINT && !(0xD800 <= cp <= 0xDFFF)
  }

  function Utf8Length(cp: nat): nat {
    if cp < 0x80 then 1 else if cp < 0x800 then 2 else if cp < 0x10000 then 3 else 4
  }

  /** The byte sequences of section 3 of RFC 3629. */
  function Utf8Encode(cp: nat): (t: Text)
    requires cp <= MAX_CODE_POINT
    ensures |t| == Utf8Length(cp)
  {
    if cp < 0x80 then [cp]
    else if cp < 0x800 then [0xC0 + cp / 64, 0x80 + cp % 64]
    else if cp < 0x10000 then [0xE0 + cp / 64 / 64, 0x80 + cp / 64 % 64, 0x80 + cp % 64]
    else [0xF0 + cp / 64 / 64 / 64, 0x80 + cp / 64 / 64 % 64, 0x80 + cp / 64 % 64, 0x80 + cp % 64]
  }

  predicate IsContinuation(b: byte) {
    0x80 <= b < 0xC0
  }

  /** A strict UTF-8 decoder for one character: no overlong forms, no surrogates, nothing above U+10FFFF. */
  function Utf8Decode(t: Text): (r: Option<nat>)
    ensures r.Some? ==> IsScalar(r.value)
  {
    if |t| == 1 && t[0] < 0x80 then Some(t[0])
    else if |t| == 2 && 0xC2 <= t[0] < 0xE0 && IsContinuation(t[1]) then
      Some(Join(t[0] as int - 0xC0, t[1]))
    else if |t| == 3 && 0xE0 <= t[0] < 0xF0 && IsContinuation(t[1]) && IsContinuation(t[2]) then
      var cp := Join(Join(t[0] as int - 0xE0, t[1]), t[2]);
      if cp >= 0x800 && IsScalar(cp) then Some(cp) else None
    else if |t| == 4 && 0xF0 <= t[0] < 0xF8 && IsContinuation(t[1]) && IsContinuation(t[2]) && IsContinuation(t[3]) then
      var cp := Join(Join(Join(t[0] as int - 0xF0, t[1]), t[2]), t[3]);
      if cp >= 0x10000 && IsScalar(cp) then Some(cp) else None
    else None
  }

  /** Appends a continuation byte's six bits. */
  function Join(high: nat, low: byte): nat
    requires IsContinuation(low)
  {
    64 * high + (low as int - 0x80)
  }

  lemma Utf8RoundTrip(cp: nat)
    requires IsScalar(cp)
    ensures Utf8Decode(Utf8Encode(cp)) == Some(cp)
  {
    var a := cp / 64;
    var b := a / 64;
    assert cp == a * 64 + cp % 64 && a == b * 64 + a % 64 && b == (b / 64) * 64 + b % 64;
  }

  function HexDigit(c: byte): (r: Option<nat>)
    ensures r.Some? ==> r.value < 16
  {
    if ZERO <= c <= NINE then Some(c - ZERO)
    else if 65 <= c <= 70 then Some(10 + c - 65)
    else if 97 <= c <= 102 then Some(10 + c - 97)
    else None
  }

  predicate AreHex4(s: Text, p: nat) {
    p + 4 <= |s| && forall k :: p <= k < p + 4 ==> HexDigit(s[k]).Some?
  }

  function HexValue(s: Text, p: nat, k: nat): nat
    requires AreHex4(s, p) && k <= 4
  {
    if k == 0 then 0 else 16 * HexValue(s, p, k - 1) + HexDigit(s[p + k - 1]).value
  }

  /** The code of four hex digits; 0 when one of them is no hex digit. */
  function Hex4(s: Text, p: nat): (h: nat)
    requires p + 4 <= |s|
    ensures h < 0x10000
  {
    if AreHex4(s, p) then HexBound(s, p); HexValue(s, p, 4) else 0
  }

  lemma HexBound(s: Text, p: nat)
    requires AreHex4(s, p)
    ensures HexValue(s, p, 4) < 0x10000
  {
    assert HexValue(s, p, 1) < 16;
    assert HexValue(s, p, 2) < 256;
    assert HexValue(s, p, 3) < 4096;
  }

  predicate IsHighSurrogate(code: nat) { 0xD800 <= code <= 0xDBFF }

  predicate IsLowSurrogate(code: nat) { 0xDC00 <= code <= 0xDFFF }

  function FromSurrogates(high: nat, low: nat): (cp: nat)
    requires IsHighSurrogate(high) && IsLowSurrogate(low)
    ensures 0x10000 <= cp <= MAX_CODE_POINT
  {
    0x10000 + (high - 0xD800) * 0x400 + (low - 0xDC00)
  }

  /** A literal read at `p` in text that ends at `e`: bytes consumed and UTF-8 bytes, or nothing when refused. */
  function Literal(s: Text, p: nat, e: nat): (r: Option<(nat, Text)>)
    requires p <= e <= |s|
    ensures r.Some? ==> ((r.value.0 == 6 && |r.value.1| <= 3) || (r.value.0 == 12 && |r.value.1| == 4))
    ensures r.Some? ==> 1 <= |r.value.1| && p + r.value.0 <= e
  {
    if e - p < 6 then None
    else
      var first := Hex4(s, p + 2);
      if IsLowSurrogate(first) then None
      else if IsHighSurrogate(first) then
        if e - (p + 6) < 6 || s[p + 6] != BACKSLASH || s[p + 7] != LOWER_U then None
        else
          var second := Hex4(s, p + 8);
          if !IsLowSurrogate(second) then None
          else Some((12, Utf8Encode(FromSurrogates(first, second))))
      else Some((6, Utf8Encode(first)))
  }

  predicate IsLiteralAt(s: Text, p: nat, e: nat) {
    p + 6 <= e <= |s| && s[p] == BACKSLASH && s[p + 1] == LOWER_U && AreHex4(s, p + 2)
  }

  /**
    Over literals with valid digits: a plain code unit is consumed as 6 bytes and a surrogate pair as 12,
    strictly decoding the emitted bytes gives the code point back, and a low surrogate that comes first or
    a high one that no low one follows is refused.
   */
  lemma LiteralMeaning(s: Text, p: nat, e: nat)
    requires IsLiteralAt(s, p, e)
    ensures var first := HexValue(s, p + 2, 4); var r := Literal(s, p, e);
            if IsScalar(first) then
              r.Some? && r.value.0 == 6 && Utf8Decode(r.value.1) == Some(first)
            else if IsHighSurrogate(first) && IsLiteralAt(s, p + 6, e) && IsLowSurrogate(HexValue(s, p + 8, 4)) then
              r.Some? && r.value.0 == 12
              && Utf8Decode(r.value.1) == Some(FromSurrogates(first, HexValue(s, p + 8, 4)))
            else r.None?
  {
    var first := HexValue(s, p + 2, 4);
    HexBound(s, p + 2);
    if IsScalar(first) {
      Utf8RoundTrip(first);
    } else if IsHighSurrogate(first) && IsLiteralAt(s, p + 6, e) && IsLowSurrogate(HexValue(s, p + 8, 4)) {
      Utf8RoundTrip(FromSurrogates(first, HexValue(s, p + 8, 4)));
    }
  }

  /** How many six-bit groups have been shifted out. */
  function Drop6(cp: nat, k: nat): nat {
    if k == 0 then cp else Drop6(cp, k - 1) / 64
  }

  lemma EncodeByGroups(cp: nat, k: nat)
    requires cp <= MAX_CODE_POINT && 1 <= k < Utf8Length(cp)
    ensures Utf8Encode(cp)[k] == 0x80 + Drop6(cp, Utf8Length(cp) - 1 - k) % 64
  {
    assert Drop6(cp, 1) == cp / 64;
    assert Drop6(cp, 2) == cp / 64 / 64;
  }

  lemma FirstByte(cp: nat, mark: nat)
    requires cp <= MAX_CODE_POINT
    requires var n := Utf8Length(cp);
             n >= 2 && mark == (if n == 2 then 0xC0 else if n == 3 then 0xE0 else 0xF0)
    ensures And(Or(Drop6(cp, Utf8Length(cp) - 1), mark), 0xFF) == Utf8Encode(cp)[0]
  {
    var n := Utf8Length(cp);
    var top := Drop6(cp, n - 1);
    assert Drop6(cp, 1) == cp / 64;
    assert Drop6(cp, 2) == cp / 64 / 64;
    assert Drop6(cp, 3) == cp / 64 / 64 / 64;
    Pow2Values();
    if n == 2 {
      MarkFirstByte(top, 6, 5);
    } else if n == 3 {
      MarkFirstByte(top, 14, 4);
    } else {
      MarkFirstByte(top, 30, 3);
    }
  }

  method ParseHex4(s: Text, p: nat) returns (h: nat)
    requires p + 4 <= |s|
    ensures h == Hex4(s, p)
  {
    h := 0;
    for i := 0 to 4
      invariant forall k :: p <= k < p + i ==> HexDigit(s[k]).Some?
      invariant AreHex4(s, p) ==> h == if i < 4 then 16 * HexValue(s, p, i) else HexValue(s, p, 4)
    {
      var c := s[p + i];
      if ZERO <= c <= NINE {
        h := h + (c - ZERO);
      } else if 65 <= c <= 70 {
        h := h + (10 + c - 65);
      } else if 97 <= c <= 102 {
        h := h + (10 + c - 97);
      } else {
        return 0;
      }
      if i < 3 {
        ShlFour(h);
        h := Shl(h, 4);
      }
    }
  }

  method MaskTen(code: nat) returns (r: nat)
    ensures r == code % 0x400
  {
    LowTenBits(code);
    r := And(code, 0x3FF);
  }

  method ShiftIn(high: nat, low: nat) returns (r: nat)
    requires low < 0x400
    ensures r == high * 0x400 + low
  {
    ShiftedOr(high, low);
    r := Or(Shl(high, 10), low);
  }

  method Continuation(rest: nat) returns (b: byte)
    ensures b == 0x80 + rest % 64
  {
    ContinuationByte(rest);
    b := And(Or(rest, 0x80), 0xBF);
  }

  method Lead(ghost codepoint: nat, rest: nat, mark: nat) returns (b: byte)
    requires codepoint <= MAX_CODE_POINT && rest == Drop6(codepoint, Utf8Length(codepoint) - 1)
    requires var n := Utf8Length(codepoint);
             n >= 2 && mark == (if n == 2 then 0xC0 else if n == 3 then 0xE0 else 0xF0)
    ensures b == Utf8Encode(codepoint)[0]
  {
    FirstByte(codepoint, mark);
    b := And(Or(rest, mark), 0xFF);
  }

  method Ascii(rest: nat) returns (b: byte)
    requires rest < 0x80
    ensures b == rest
  {
    LowSevenBits(rest);
    b := And(rest, 0x7F);
  }

  method NextGroup(rest: nat) returns (r: nat)
    ensures r == rest / 64
  {
    ShrSix(rest);
    r := Shr(rest, 6);
  }

  /** The code point of a surrogate pair, as the C code masks and shifts it together. */
  method CombineSurrogates(first: nat, second: nat) returns (cp: nat)
    requires IsHighSurrogate(first) && IsLowSurrogate(second)
    ensures cp == FromSurrogates(first, second)
  {
    var high := MaskTen(first);
    var low := MaskTen(second);
    cp := ShiftIn(high, low);
    cp := 0x10000 + cp;
  }

  /** Writes the UTF-8 bytes of `codepoint` at `q`, last byte first. */
  method EmitUtf8(codepoint: nat, output: array<byte>, q: nat) returns (next: nat)
    requires codepoint <= MAX_CODE_POINT
    requires q + Utf8Length(codepoint) <= output.Length
    modifies output
    ensures next == q + Utf8Length(codepoint)
    ensures output[q..next] == Utf8Encode(codepoint)
    ensures forall k :: 0 <= k < output.Length && !(q <= k < next) ==> output[k] == old(output[k])
  {
    var length, mark := 1, 0;
    if codepoint < 0x80 {
    } else if codepoint < 0x800 {
      length, mark := 2, 0xC0;
    } else if codepoint < 0x10000 {
      length, mark := 3, 0xE0;
    } else {
      length, mark := 4, 0xF0;
    }
    var rest := codepoint;
    var position := length - 1;
    while position > 0
      invariant 0 <= position < length
      invariant rest == Drop6(codepoint, length - 1 - position)
      invariant forall k :: position < k < length ==> output[q + k] == Utf8Encode(codepoint)[k]
      invariant forall k :: 0 <= k < output.Length && !(q <= k < q + length) ==> output[k] == old(output[k])
    {
      EncodeByGroups(codepoint, position);
      output[q + position] := Continuation(rest);
      rest := NextGroup(rest);
      position := position - 1;
    }
    if length > 1 {
      output[q] := Lead(codepoint, rest, mark);
    } else {
      output[q] := Ascii(rest);
    }
    next := q + length;
  }

  /**
    Converts the literal at `p` into UTF-8 written at `q`. `consumed` is 0 when the literal is refused.
    There must be room for the bytes it emits; that `parse_string` always leaves it is proved there.
   */
  method Utf16LiteralToUtf8(s: Text, p: nat, e: nat, output: array<byte>, q: nat) returns (consumed: nat, next: nat)
    requires p <= e <= |s|
    requires Literal(s, p, e).Some? ==> q + |Literal(s, p, e).value.1| <= output.Length
    modifies output
    ensures Literal(s, p, e).None? ==> consumed == 0 && next == q
    ensures Literal(s, p, e).Some? ==>
              && next == q + |Literal(s, p, e).value.1|
              && (consumed, output[q..next]) == Literal(s, p, e).value
    ensures forall k :: 0 <= k < output.Length && !(q <= k < next) ==> output[k] == old(output[k])
  {
    next := q;
    if e - p < 6 {
      return 0, q;
    }
    var codepoint;
    var first := ParseHex4(s, p + 2);
    if 0xDC00 <= first <= 0xDFFF {
      return 0, q;
    }
    if 0xD800 <= first <= 0xDBFF {
      var second_sequence := p + 6;
      if e - second_sequence < 6 {
        return 0, q;
      }
      if s[second_sequence] != BACKSLASH || s[second_sequence + 1] != LOWER_U {
        return 0, q;
      }
      var second := ParseHex4(s, second_sequence + 2);
      if second < 0xDC00 || second > 0xDFFF {
        return 0, q;
      }
      consumed := 12;
      codepoint := CombineSurrogates(first, second);
    } else {
      consumed := 6;
      codepoint := first;
    }
    next := EmitUtf8(codepoint, output, q);
  }
}
