/**
  A parse that succeeds looks at nothing behind its end (a number looks one byte further), so no text cut short
  parses as an array or object.
 */
module Locality {
  import opened Bytes
  import Utf
  import opened JsonStrings
  import opened Numbers
  import opened Json
  import opened Parser
  import RoundTrip

  /** `s` ends with its terminator at `n`; up to there `t` has the same bytes, and no NUL among them. */
  ghost predicate CutAt(s: Text, t: Text, n: nat) {
    |s| == n + 1 && s[n] == NUL && Terminated(t) && n < |t|
    && forall k :: 0 <= k < n ==> s[k] == t[k] && s[k] != NUL
  }

  // ---- Strings ----

  lemma {:induction false} ClosingLocal(s: Text, t: Text, n: nat, p: nat)
    requires CutAt(s, t, n) && p <= n && ClosingQuote(s, p).Some?
    ensures ClosingQuote(s, p).value < n && ClosingQuote(t, p) == ClosingQuote(s, p)
    decreases n - p
  {
    if p < n {
      if s[p] == BACKSLASH {
        if p + 2 <= n {
          ClosingLocal(s, t, n, p + 2);
        }
      } else if s[p] != QUOTE {
        ClosingLocal(s, t, n, p + 1);
      }
    }
  }

  lemma {:induction false} HexLocal(s: Text, t: Text, p: nat, k: nat)
    requires p + 4 <= |s| && p + 4 <= |t| && k <= 4
    requires forall i :: p <= i < p + 4 ==> s[i] == t[i]
    ensures Utf.AreHex4(s, p) <==> Utf.AreHex4(t, p)
    ensures Utf.AreHex4(s, p) ==> Utf.HexValue(s, p, k) == Utf.HexValue(t, p, k)
  {
    if k > 0 && Utf.AreHex4(s, p) {
      HexLocal(s, t, p, k - 1);
    }
  }

  lemma LiteralLocal(s: Text, t: Text, p: nat, e: nat)
    requires p <= e <= |s| && e <= |t| && forall i :: p <= i < e ==> s[i] == t[i]
    ensures Utf.Literal(s, p, e) == Utf.Literal(t, p, e)
  {
    hide Utf.AreHex4, Utf.HexValue;
    if e - p >= 6 {
      HexLocal(s, t, p + 2, 4);
      if e - p >= 12 {
        HexLocal(s, t, p + 8, 4);
      }
    }
  }

  lemma {:induction false} UnescapeLocal(s: Text, t: Text, p: nat, e: nat)
    requires p <= e + 1 && e < |s| && e < |t| && forall i :: 0 <= i <= e ==> s[i] == t[i]
    ensures Unescape(s, p, e) == Unescape(t, p, e)
    decreases e + 1 - p
  {
    hide Utf.Literal;
    if p < e {
      LiteralLocal(s, t, p, e);
      if s[p] != BACKSLASH {
        UnescapeLocal(s, t, p + 1, e);
      } else if SimpleEscape(s[p + 1]).Some? {
        UnescapeLocal(s, t, p + 2, e);
      } else if Utf.Literal(s, p, e).Some? {
        UnescapeLocal(s, t, p + Utf.Literal(s, p, e).value.0, e);
      }
    }
  }

  lemma StringLocal(s: Text, t: Text, n: nat, o: nat)
    requires CutAt(s, t, n) && o < n && ParseString(s, o).Ok?
    ensures ParseString(t, o) == ParseString(s, o) && ParseString(s, o).off <= n
  {
    hide ClosingQuote, Unescape;
    ClosingLocal(s, t, n, o + 1);
    UnescapeLocal(s, t, o + 1, ClosingQuote(s, o + 1).value);
  }

  // ---- Blanks and numbers ----

  lemma BlanksLocal(s: Text, t: Text, n: nat, o: nat)
    requires CutAt(s, t, n) && o < |s| && s[SkipBlanks(s, o)] != NUL
    ensures SkipBlanks(s, o) < n && SkipBlanks(t, o) == SkipBlanks(s, o)
  {
    RoundTrip.BlankEndAt(t, o, SkipBlanks(s, o));
  }

  lemma NumberLocal(s: Text, t: Text, n: nat, o: nat)
    requires CutAt(s, t, n) && o < n && ParseNumber(s, o).Ok?
    requires ParseNumber(s, o).off < n && !IsNumberByte(s[ParseNumber(s, o).off])
    ensures ParseNumber(t, o) == ParseNumber(s, o)
  {
    hide Strtod;
    var run, end := NumberRun(s, o, NUMBER_BUFFER - 1), ParseNumber(s, o).off;
    assert o + run == end;
    NumberRunAtLimit(t, o, run, NUMBER_BUFFER - 1);
    assert s[o..o + run] == t[o..o + run];
  }

  lemma NumberRunAtLimit(t: Text, o: nat, n: nat, limit: nat)
    requires o + n < |t| && n <= limit && !IsNumberByte(t[o + n])
    requires forall k :: o <= k < o + n ==> IsNumberByte(t[k])
    ensures NumberRun(t, o, limit) == n
  {
    NumberRunAt(t, o, n, limit);
  }

  // ---- Values ----

  /** A value read from a cut text that more of the text must follow. */
  ghost predicate Followed(s: Text, n: nat, v: Json, off: nat) {
    off <= n < |s| && (v.Num? ==> off < n && !IsNumberByte(s[off]))
  }

  lemma WordLocal(s: Text, t: Text, n: nat, o: nat, word: Text)
    requires CutAt(s, t, n) && At(s, o, word) && NulFree(word) && |word| > 0
    ensures At(t, o, word) && o + |word| <= n
  {
    AtByte(s, o, word, |word| - 1);
    forall k | 0 <= k < |word| ensures t[o + k] == word[k] {
      AtByte(s, o, word, k);
    }
  }

  lemma ScalarLocal(s: Text, t: Text, n: nat, o: nat, depth: nat)
    requires CutAt(s, t, n) && o < |s| && ParseValue(s, o, depth).Ok? && s[o] != LBRACKET && s[o] != LBRACE
    requires Followed(s, n, ParseValue(s, o, depth).value, ParseValue(s, o, depth).off)
    ensures ParseValue(t, o, depth) == ParseValue(s, o, depth)
  {
    hide NumberAt, ParseString, CString, At;
    if At(s, o, NULL_TEXT) {
      WordLocal(s, t, n, o, NULL_TEXT);
    } else if At(s, o, FALSE_TEXT) {
      WordLocal(s, t, n, o, FALSE_TEXT);
      AtByte(t, o, FALSE_TEXT, 0);
      NotAt(t, o, NULL_TEXT);
    } else if At(s, o, TRUE_TEXT) {
      WordLocal(s, t, n, o, TRUE_TEXT);
      AtByte(t, o, TRUE_TEXT, 0);
      NotAt(t, o, NULL_TEXT);
      NotAt(t, o, FALSE_TEXT);
    } else {
      assert s[o] == QUOTE || s[o] == MINUS || IsDigit(s[o]);
      NotLiteral(t, o);
      if s[o] == QUOTE {
        StringLocal(s, t, n, o);
      } else {
        NumberLocal(s, t, n, o);
      }
    }
  }

  lemma {:induction false} ValueLocal(s: Text, t: Text, n: nat, o: nat, depth: nat)
    requires CutAt(s, t, n) && o < |s| && ParseValue(s, o, depth).Ok?
    requires Followed(s, n, ParseValue(s, o, depth).value, ParseValue(s, o, depth).off)
    ensures ParseValue(t, o, depth) == ParseValue(s, o, depth)
    decreases |s| - o, 2
  {
    hide SkipBlanks, ParseItems, ParseMembers, ParseValue, ParseArray, ParseObject;
    if s[o] == LBRACKET {
      DispatchContainer(s, o, depth);
      DispatchContainer(t, o, depth);
      ArrayStep(s, o, depth);
      ArrayStep(t, o, depth);
      var p := SkipBlanks(s, o + 1);
      if s[p] != RBRACKET {
        ItemsLocal(s, t, n, p - 1, depth + 1);
      }
      BlanksLocal(s, t, n, o + 1);
    } else if s[o] == LBRACE {
      DispatchContainer(s, o, depth);
      DispatchContainer(t, o, depth);
      ObjectStep(s, o, depth);
      ObjectStep(t, o, depth);
      var p := SkipBlanks(s, o + 1);
      if s[p] != RBRACE {
        MembersLocal(s, t, n, p - 1, depth + 1);
      }
      BlanksLocal(s, t, n, o + 1);
    } else {
      ScalarLocal(s, t, n, o, depth);
    }
  }

  /** Nothing starts with a NUL. */
  lemma NoValueAtEnd(s: Text, o: nat, depth: nat)
    requires Terminated(s) && o < |s| && s[o] == NUL
    ensures ParseValue(s, o, depth).Fail? && ParseString(s, o).Fail?
  {
    NotLiteral(s, o);
  }

  lemma {:induction false} ItemsLocal(s: Text, t: Text, n: nat, o: nat, depth: nat)
    requires CutAt(s, t, n) && o + 1 < |s| && ParseItems(s, o, depth).Ok?
    ensures s[SkipBlanks(s, o + 1)] != NUL
    ensures ParseItems(t, o, depth) == ParseItems(s, o, depth) && ParseItems(s, o, depth).off <= n
    decreases |s| - o, 0
  {
    hide SkipBlanks, ParseItems, ParseValue;
    ItemsStep(s, o, depth);
    ItemsStep(t, o, depth);
    var p := SkipBlanks(s, o + 1);
    var v := ParseValue(s, p, depth);
    if s[p] == NUL {
      NoValueAtEnd(s, p, depth);
    }
    BlanksLocal(s, t, n, o + 1);
    NextByte(s, n, v.off);
    BlanksLocal(s, t, n, v.off);
    ValueLocal(s, t, n, p, depth);
    if s[SkipBlanks(s, v.off)] == COMMA {
      ItemsLocal(s, t, n, SkipBlanks(s, v.off), depth);
    }
  }

  /** What stands behind a value in a container is no number byte, nor the end. */
  lemma NextByte(s: Text, n: nat, o: nat)
    requires |s| == n + 1 && s[n] == NUL && o <= n
    requires var c := s[SkipBlanks(s, o)]; c == COMMA || c == RBRACKET || c == RBRACE
    ensures o < n && !IsNumberByte(s[o])
  {
  }

  lemma {:induction false} MembersLocal(s: Text, t: Text, n: nat, o: nat, depth: nat)
    requires CutAt(s, t, n) && o + 1 < |s| && ParseMembers(s, o, depth).Ok?
    ensures s[SkipBlanks(s, o + 1)] != NUL
    ensures ParseMembers(t, o, depth) == ParseMembers(s, o, depth) && ParseMembers(s, o, depth).off <= n
    decreases |s| - o, 0
  {
    hide SkipBlanks, ParseMembers, ParseValue, ParseString, CString;
    KeyStep(s, o, depth);
    var p := SkipBlanks(s, o + 1);
    if s[p] == NUL {
      NoValueAtEnd(s, p, depth);
    }
    BlanksLocal(s, t, n, o + 1);
    StringLocal(s, t, n, p);
    var key := ParseString(s, p);
    var c := SkipBlanks(s, key.off);
    BlanksLocal(s, t, n, key.off);
    MembersStep(s, o, depth, key.value, key.off);
    MembersStep(t, o, depth, key.value, key.off);
    var at := SkipBlanks(s, c + 1);
    var v := ParseValue(s, at, depth);
    if s[at] == NUL {
      NoValueAtEnd(s, at, depth);
    }
    BlanksLocal(s, t, n, c + 1);
    NextByte(s, n, v.off);
    BlanksLocal(s, t, n, v.off);
    ValueLocal(s, t, n, at, depth);
    if s[SkipBlanks(s, v.off)] == COMMA {
      MembersLocal(s, t, n, SkipBlanks(s, v.off), depth);
    }
  }

  /** Cutting a printed array or object short anywhere leaves text that does not parse. */
  lemma CutNeverParses(j: Json, fmt: bool, n: nat)
    requires Printable(j) && (j.Arr? || j.Obj?) && n < |Render(j, fmt, 0)|
    ensures Parse(Render(j, fmt, 0)[..n], false).Fail?
  {
    hide Render, ParseValue;
    var whole := Render(j, fmt, 0);
    var s, t := whole[..n] + [NUL], whole + [NUL];
    RenderNulFree(j, fmt, 0);
    FirstByte(j, fmt, 0);
    ContainerStart(j, fmt);
    assert CutAt(s, t, n);
    NotAt(t, 0, BOM);
    RoundTrip.VisibleStays(t, 0);
    if n == 0 {
      NoValueAtEnd(s, 0, 0);
    } else {
      NotAt(s, 0, BOM);
      RoundTrip.VisibleStays(s, 0);
      var r := ParseValue(s, 0, 0);
      if r.Ok? {
        ContainerParsed(s, 0);
        ValueLocal(s, t, n, 0, 0);
        RoundTrip.PrintParse(j, fmt, false);
      }
    }
  }

  lemma ContainerStart(j: Json, fmt: bool)
    requires j.Arr? || j.Obj?
    ensures Render(j, fmt, 0)[0] == LBRACKET || Render(j, fmt, 0)[0] == LBRACE
  {
  }

  lemma ContainerParsed(s: Text, depth: nat)
    requires Terminated(s) && (s[0] == LBRACKET || s[0] == LBRACE) && ParseValue(s, 0, depth).Ok?
    ensures !ParseValue(s, 0, depth).value.Num?
  {
    DispatchContainer(s, 0, depth);
    ArrayOrObject(s, depth);
  }

  lemma ArrayOrObject(s: Text, depth: nat)
    requires Terminated(s)
    ensures s[0] == LBRACKET && ParseArray(s, 0, depth).Ok? ==> ParseArray(s, 0, depth).value.Arr?
    ensures s[0] == LBRACE && ParseObject(s, 0, depth).Ok? ==> ParseObject(s, 0, depth).value.Obj?
  {
  }
}
