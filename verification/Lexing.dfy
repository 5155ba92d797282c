/**
  A scanner that knows string literals and nothing else of the grammar: what it says of a text is necessary for the
  parser to accept it.
 */
module Lexing {
  import opened Bytes
  import JsonStrings
  import Numbers
  import Json
  import opened Parser

  /**
    Outside or inside a string literal, or behind a backslash in one, with so many containers open; or the first
    container is closed; or a byte came that no JSON text has outside a literal.
   */
  datatype Lex = Out(open: nat) | In(open: nat) | Escaped(open: nat) | Closed | Stop

  /** Outside literals and brackets: blanks, punctuation, numbers, and the letters of `null`, `true` and `false`. */
  predicate IsNeutral(c: byte) {
    c <= SPACE || c == COLON || c == COMMA || Numbers.IsNumberByte(c)
    || c == LOWER_N || c == LOWER_U || c == LOWER_T || c == LOWER_R || c == LOWER_F || c == 97 || c == 108 || c == 115
  }

  function Shift(st: Lex, c: byte): Lex {
    match st
    case Out(d) =>
      if c == QUOTE then In(d)
      else if c == LBRACE || c == LBRACKET then Out(d + 1)
      else if c == RBRACE || c == RBRACKET then if d <= 1 then Closed else Out(d - 1)
      else if IsNeutral(c) then Out(d)
      else Stop
    case In(d) => if c == QUOTE then Out(d) else if c == BACKSLASH then Escaped(d) else In(d)
    case Escaped(d) => In(d)
    case _ => st
  }

  /** Where scanning `s` from `i` to `j` leads from `st`. */
  function Scan(s: Text, i: nat, j: nat, st: Lex): Lex
    requires i <= j <= |s|
    decreases j - i
  {
    if i == j then st else Scan(s, i + 1, j, Shift(st, s[i]))
  }

  lemma {:induction false} ScanSplit(s: Text, i: nat, m: nat, j: nat, st: Lex)
    requires i <= m <= j <= |s|
    ensures Scan(s, i, j, st) == Scan(s, m, j, Scan(s, i, m, st))
    decreases m - i
  {
    if i < m {
      ScanSplit(s, i + 1, m, j, Shift(st, s[i]));
    }
  }

  lemma {:induction false} ScanSame(s: Text, i: nat, t: Text, k: nat, n: nat, st: Lex)
    requires i + n <= |s| && k + n <= |t| && s[i..i + n] == t[k..k + n]
    ensures Scan(s, i, i + n, st) == Scan(t, k, k + n, st)
    decreases n
  {
    if n > 0 {
      assert s[i] == s[i..i + n][0] == t[k];
      assert s[i + 1..i + n] == s[i..i + n][1..] == t[k + 1..k + n];
      ScanSame(s, i + 1, t, k + 1, n - 1, Shift(st, s[i]));
    }
  }

  /** Once closed or stopped, always so. */
  lemma {:induction false} ScanAbsorbed(s: Text, i: nat, j: nat, st: Lex)
    requires i <= j <= |s| && (st.Closed? || st.Stop?)
    ensures Scan(s, i, j, st) == st
    decreases j - i
  {
    if i < j {
      ScanAbsorbed(s, i + 1, j, st);
    }
  }

  /** Inside the first container: neither closed, nor stopped, nor before it. */
  predicate Inside(st: Lex) {
    (st.Out? || st.In? || st.Escaped?) && st.open >= 1
  }

  /** What has not closed or stopped by `j` has not done so earlier. */
  lemma {:induction false} ScanInside(s: Text, i: nat, m: nat, j: nat, st: Lex)
    requires i <= m <= j <= |s| && Inside(st) && Inside(Scan(s, i, j, st))
    ensures Inside(Scan(s, i, m, st))
    decreases m - i
  {
    if i < m {
      if !Inside(Shift(st, s[i])) {
        ScanAbsorbed(s, i + 1, j, Shift(st, s[i]));
      }
      ScanInside(s, i + 1, m, j, Shift(st, s[i]));
    }
  }

  // ---- What the parser accepts, the scanner accepts ----

  lemma {:induction false} NeutralScan(s: Text, i: nat, j: nat, d: nat)
    requires i <= j <= |s| && forall k :: i <= k < j ==> IsNeutral(s[k])
    ensures Scan(s, i, j, Out(d)) == Out(d)
    decreases j - i
  {
    if i < j {
      NeutralScan(s, i + 1, j, d);
    }
  }

  lemma BlanksScan(s: Text, o: nat, d: nat)
    requires o < |s| && s[SkipBlanks(s, o)] > SPACE
    ensures o <= SkipBlanks(s, o) && Scan(s, o, SkipBlanks(s, o), Out(d)) == Out(d)
  {
    NeutralScan(s, o, SkipBlanks(s, o), d);
  }

  lemma {:induction false} LiteralScan(s: Text, p: nat, e: nat, d: nat)
    requires p <= |s| && JsonStrings.ClosingQuote(s, p) == Some(e)
    ensures Scan(s, p, e, In(d)) == In(d)
    decreases |s| - p
  {
    if p < e {
      if s[p] == BACKSLASH {
        LiteralScan(s, p + 2, e, d);
      } else {
        LiteralScan(s, p + 1, e, d);
      }
    }
  }

  lemma StringScan(s: Text, o: nat, d: nat)
    requires o < |s| && JsonStrings.ParseString(s, o).Ok?
    ensures Scan(s, o, JsonStrings.ParseString(s, o).off, Out(d)) == Out(d)
  {
    hide JsonStrings.Unescape;
    var e := JsonStrings.ClosingQuote(s, o + 1).value;
    LiteralScan(s, o + 1, e, d);
    ScanSplit(s, o + 1, e, e + 1, In(d));
  }

  lemma WordScan(s: Text, o: nat, word: Text, d: nat)
    requires At(s, o, word) && forall k :: 0 <= k < |word| ==> IsNeutral(word[k])
    ensures o + |word| <= |s| && Scan(s, o, o + |word|, Out(d)) == Out(d)
  {
    AtBound(s, o, word);
    forall k | o <= k < o + |word| ensures IsNeutral(s[k]) {
      AtByte(s, o, word, k - o);
    }
    NeutralScan(s, o, o + |word|, d);
  }

  lemma ScalarScan(s: Text, o: nat, depth: nat, d: nat)
    requires Terminated(s) && o < |s| && s[o] != LBRACKET && s[o] != LBRACE && ParseValue(s, o, depth).Ok?
    ensures Scan(s, o, ParseValue(s, o, depth).off, Out(d)) == Out(d)
  {
    hide At, Scan, Numbers.NumberAt, JsonStrings.ParseString, CString;
    if At(s, o, Json.NULL_TEXT) {
      WordScan(s, o, Json.NULL_TEXT, d);
    } else if At(s, o, Json.FALSE_TEXT) {
      WordScan(s, o, Json.FALSE_TEXT, d);
    } else if At(s, o, Json.TRUE_TEXT) {
      WordScan(s, o, Json.TRUE_TEXT, d);
    } else if s[o] == QUOTE {
      StringScan(s, o, d);
    } else {
      NumberScan(s, o, d);
    }
  }

  lemma NumberScan(s: Text, o: nat, d: nat)
    requires Terminated(s) && o < |s| && ParseNumber(s, o).Ok?
    ensures Scan(s, o, ParseNumber(s, o).off, Out(d)) == Out(d)
  {
    hide Numbers.NumberAt;
    NeutralScan(s, o, ParseNumber(s, o).off, d);
  }

  /** A value leaves the scanner where it was, with the same containers open. */
  lemma {:induction false} ValueScan(s: Text, o: nat, depth: nat, d: nat)
    requires Terminated(s) && o < |s| && ParseValue(s, o, depth).Ok? && d >= 1
    ensures Scan(s, o, ParseValue(s, o, depth).off, Out(d)) == Out(d)
    decreases |s| - o, 3
  {
    hide ParseValue, ParseArray, ParseObject, Scan;
    DispatchContainer(s, o, depth);
    var e := ParseValue(s, o, depth).off;
    if s[o] == LBRACKET {
      ArrayScan(s, o, depth, d);
      ScanSplit(s, o, e - 1, e, Out(d));
      OneScan(s, e - 1, Out(d + 1));
    } else if s[o] == LBRACE {
      ObjectScan(s, o, depth, d);
      ScanSplit(s, o, e - 1, e, Out(d));
      OneScan(s, e - 1, Out(d + 1));
    } else {
      ScalarScan(s, o, depth, d);
    }
  }

  lemma SameScan(s: Text, i: nat, st: Lex)
    requires i <= |s|
    ensures Scan(s, i, i, st) == st
  {
  }

  lemma OneScan(s: Text, i: nat, st: Lex)
    requires i < |s|
    ensures Scan(s, i, i + 1, st) == Shift(st, s[i])
  {
  }

  /** An array stays open up to its closing bracket. */
  lemma {:induction false} ArrayScan(s: Text, o: nat, depth: nat, d: nat)
    requires Terminated(s) && o < |s| && s[o] == LBRACKET && ParseArray(s, o, depth).Ok?
    ensures var e := ParseArray(s, o, depth).off;
            o < e - 1 && s[e - 1] == RBRACKET && Scan(s, o, e - 1, Out(d)) == Out(d + 1)
    decreases |s| - o, 2
  {
    hide ParseArray, ParseItems, SkipBlanks, Scan;
    ArrayStep(s, o, depth);
    var p, e := SkipBlanks(s, o + 1), ParseArray(s, o, depth).off;
    OneScan(s, o, Out(d));
    SkipTwice(s, o + 1);
    if s[p] != RBRACKET {
      ItemsScan(s, p - 1, depth + 1, d + 1);
    }
    BlanksScan(s, o + 1, d + 1);
    ScanSplit(s, o, o + 1, e - 1, Out(d));
    ScanSplit(s, o + 1, p, e - 1, Out(d + 1));
    SameScan(s, p, Out(d + 1));
  }

  lemma SkipTwice(s: Text, o: nat)
    requires o < |s|
    ensures SkipBlanks(s, SkipBlanks(s, o)) == SkipBlanks(s, o)
  {
  }

  /** From the first element's first byte on, an array's text stays inside it up to the closing bracket. */
  lemma {:induction false} ItemsScan(s: Text, o: nat, depth: nat, d: nat)
    requires Terminated(s) && o + 1 < |s| && ParseItems(s, o, depth).Ok? && d >= 1
    ensures var p, e := SkipBlanks(s, o + 1), ParseItems(s, o, depth).off;
            s[p] > SPACE && p < e - 1 && s[e - 1] == RBRACKET && Scan(s, p, e - 1, Out(d)) == Out(d)
    decreases |s| - o, 1
  {
    hide ParseItems, ParseValue, SkipBlanks, Scan;
    ItemsStep(s, o, depth);
    var p, e := SkipBlanks(s, o + 1), ParseItems(s, o, depth).off;
    ValueVisible(s, p, depth);
    var v := ParseValue(s, p, depth).off;
    var q := SkipBlanks(s, v);
    ValueScan(s, p, depth, d);
    BlanksScan(s, v, d);
    ScanSplit(s, p, v, q, Out(d));
    if s[q] == COMMA {
      ItemsScan(s, q, depth, d);
      CommaScan(s, q, d);
      var next := SkipBlanks(s, q + 1);
      ScanSplit(s, p, q, next, Out(d));
      ScanSplit(s, p, next, e - 1, Out(d));
    }
  }

  /** A comma or colon and the blanks behind it. */
  lemma CommaScan(s: Text, q: nat, d: nat)
    requires q + 1 < |s| && (s[q] == COMMA || s[q] == COLON) && s[SkipBlanks(s, q + 1)] > SPACE
    ensures q < SkipBlanks(s, q + 1) && Scan(s, q, SkipBlanks(s, q + 1), Out(d)) == Out(d)
  {
    BlanksScan(s, q + 1, d);
  }

  lemma ValueVisible(s: Text, o: nat, depth: nat)
    requires Terminated(s) && o < |s| && ParseValue(s, o, depth).Ok?
    ensures s[o] > SPACE
  {
    hide ParseNumber, JsonStrings.ParseString, ParseArray, ParseObject;
    if s[o] <= SPACE {
      NotLiteral(s, o);
    }
  }

  /** An object stays open up to its closing brace. */
  lemma {:induction false} ObjectScan(s: Text, o: nat, depth: nat, d: nat)
    requires Terminated(s) && o < |s| && s[o] == LBRACE && ParseObject(s, o, depth).Ok?
    ensures var e := ParseObject(s, o, depth).off;
            o < e - 1 && s[e - 1] == RBRACE && Scan(s, o, e - 1, Out(d)) == Out(d + 1)
    decreases |s| - o, 2
  {
    hide ParseObject, ParseMembers, SkipBlanks, Scan;
    ObjectStep(s, o, depth);
    var p, e := SkipBlanks(s, o + 1), ParseObject(s, o, depth).off;
    OneScan(s, o, Out(d));
    SkipTwice(s, o + 1);
    if s[p] != RBRACE {
      MembersScan(s, p - 1, depth + 1, d + 1);
    }
    BlanksScan(s, o + 1, d + 1);
    ScanSplit(s, o, o + 1, e - 1, Out(d));
    ScanSplit(s, o + 1, p, e - 1, Out(d + 1));
    SameScan(s, p, Out(d + 1));
  }

  lemma {:induction false} MembersScan(s: Text, o: nat, depth: nat, d: nat)
    requires Terminated(s) && o + 1 < |s| && ParseMembers(s, o, depth).Ok? && d >= 1
    ensures var p, e := SkipBlanks(s, o + 1), ParseMembers(s, o, depth).off;
            s[p] == QUOTE && p < e - 1 && s[e - 1] == RBRACE && Scan(s, p, e - 1, Out(d)) == Out(d)
    decreases |s| - o, 1
  {
    hide ParseMembers, ParseValue, JsonStrings.ParseString, SkipBlanks, Scan, CString;
    KeyStep(s, o, depth);
    var p, e := SkipBlanks(s, o + 1), ParseMembers(s, o, depth).off;
    var key := JsonStrings.ParseString(s, p);
    KeyQuoted(s, p);
    MembersStep(s, o, depth, key.value, key.off);
    var c := SkipBlanks(s, key.off);
    var at := SkipBlanks(s, c + 1);
    ValueVisible(s, at, depth);
    var v := ParseValue(s, at, depth).off;
    var q := SkipBlanks(s, v);
    StringScan(s, p, d);
    BlanksScan(s, key.off, d);
    CommaScan(s, c, d);
    ValueScan(s, at, depth, d);
    BlanksScan(s, v, d);
    ScanSplit(s, p, key.off, c, Out(d));
    ScanSplit(s, p, c, at, Out(d));
    ScanSplit(s, p, at, v, Out(d));
    ScanSplit(s, p, v, q, Out(d));
    if s[q] == COMMA {
      MembersScan(s, q, depth, d);
      CommaScan(s, q, d);
      var next := SkipBlanks(s, q + 1);
      ScanSplit(s, p, q, next, Out(d));
      ScanSplit(s, p, next, e - 1, Out(d));
    }
  }

  lemma KeyQuoted(s: Text, o: nat)
    requires o < |s| && JsonStrings.ParseString(s, o).Ok?
    ensures s[o] == QUOTE
  {
  }
}
