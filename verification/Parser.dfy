/** What the recursive-descent parser computes, as functions of the buffer and the offset. */
module Parser {
  import opened Bytes
  import opened JsonStrings
  import Numbers
  import opened Json

  const NESTING_LIMIT: nat := 1000

  /** The first byte from `o` on that is neither blank nor a control byte, or the end of the buffer. */
  function BlankEnd(s: Text, o: nat): (p: nat)
    requires o <= |s|
    ensures o <= p <= |s|
    ensures forall k :: o <= k < p ==> s[k] <= SPACE
    ensures p < |s| ==> s[p] > SPACE
    decreases |s| - o
  {
    if o < |s| && s[o] <= SPACE then BlankEnd(s, o + 1) else o
  }

  /** `buffer_skip_whitespace`: the terminator counts as blank, and at the end the offset steps back onto it. */
  function SkipBlanks(s: Text, o: nat): (p: nat)
    requires |s| > 0 && o <= |s|
    ensures p < |s| && (o < |s| ==> o <= p)
  {
    var p := BlankEnd(s, o);
    if p == |s| then p - 1 else p
  }

  function ParseValue(s: Text, o: nat, depth: nat): (r: Parsed<Json>)
    requires Terminated(s) && o < |s|
    ensures r.Ok? ==> o < r.off < |s|
    ensures r.Fail? ==> r.off <= |s|
    decreases |s| - o, 3
  {
    if At(s, o, NULL_TEXT) then StaysInside(s, o, NULL_TEXT); Ok(Null, o + 4)
    else if At(s, o, FALSE_TEXT) then StaysInside(s, o, FALSE_TEXT); Ok(Bool(false), o + 5)
    else if At(s, o, TRUE_TEXT) then StaysInside(s, o, TRUE_TEXT); Ok(Bool(true), o + 4)
    else if s[o] == QUOTE then
      match ParseString(s, o)
      case Fail(p) => Fail(p)
      case Ok(raw, p) => Ok(Str(CString(raw)), p)
    else if s[o] == MINUS || Numbers.IsDigit(s[o]) then ParseNumber(s, o)
    else if s[o] == LBRACKET then ParseArray(s, o, depth)
    else if s[o] == LBRACE then ParseObject(s, o, depth)
    else Fail(o)
  }

  lemma StaysInside(s: Text, o: nat, t: Text)
    requires Terminated(s) && At(s, o, t) && |t| > 0 && t[|t| - 1] != NUL
    ensures o + |t| < |s|
  {
    AtByte(s, o, t, |t| - 1);
  }

  function ParseNumber(s: Text, o: nat): (r: Parsed<Json>)
    requires Terminated(s) && o < |s|
    ensures r.Ok? ==> o < r.off < |s|
    ensures r.Fail? ==> r.off == o
  {
    var n := Numbers.NumberAt(s, o);
    if n.0 == 0 then Fail(o) else assert Numbers.IsNumberByte(s[o + n.0 - 1]); Ok(Num(n.1), o + n.0)
  }

  function ParseArray(s: Text, o: nat, depth: nat): (r: Parsed<Json>)
    requires Terminated(s) && o < |s| && s[o] == LBRACKET
    ensures r.Ok? ==> o < r.off < |s|
    ensures r.Fail? ==> r.off <= |s|
    decreases |s| - o, 2
  {
    if depth >= NESTING_LIMIT then Fail(o)
    else
      var p := SkipBlanks(s, o + 1);
      if s[p] == RBRACKET then Ok(Arr(INil), p + 1)
      else
        match ParseItems(s, p - 1, depth + 1)
        case Fail(q) => Fail(q)
        case Ok(items, q) => Ok(Arr(items), q)
  }

  /** The elements after the byte at `o` (which stands in front of the next one), up to the closing bracket. */
  function ParseItems(s: Text, o: nat, depth: nat): (r: Parsed<Items>)
    requires Terminated(s) && o + 1 < |s|
    ensures r.Ok? ==> o < r.off < |s|
    ensures r.Fail? ==> r.off <= |s|
    decreases |s| - o, 1
  {
    var p := SkipBlanks(s, o + 1);
    match ParseValue(s, p, depth)
    case Fail(q) => Fail(q)
    case Ok(value, e) =>
      var q := SkipBlanks(s, e);
      if s[q] == COMMA then
        match ParseItems(s, q, depth)
        case Fail(f) => Fail(f)
        case Ok(rest, f) => Ok(ICons(value, rest), f)
      else if s[q] == RBRACKET then Ok(ICons(value, INil), q + 1)
      else Fail(q)
  }

  function ParseObject(s: Text, o: nat, depth: nat): (r: Parsed<Json>)
    requires Terminated(s) && o < |s| && s[o] == LBRACE
    ensures r.Ok? ==> o < r.off < |s|
    ensures r.Fail? ==> r.off <= |s|
    decreases |s| - o, 2
  {
    if depth >= NESTING_LIMIT then Fail(o)
    else
      var p := SkipBlanks(s, o + 1);
      if s[p] == RBRACE then Ok(Obj(MNil), p + 1)
      else
        match ParseMembers(s, p - 1, depth + 1)
        case Fail(q) => Fail(q)
        case Ok(members, q) => Ok(Obj(members), q)
  }

  function ParseMembers(s: Text, o: nat, depth: nat): (r: Parsed<Members>)
    requires Terminated(s) && o + 1 < |s|
    ensures r.Ok? ==> o < r.off < |s|
    ensures r.Fail? ==> r.off <= |s|
    decreases |s| - o, 1
  {
    var p := SkipBlanks(s, o + 1);
    match ParseString(s, p)
    case Fail(q) => Fail(q)
    case Ok(raw, e) => ParseMember(s, e, CString(raw), depth)
  }

  /** A member behind its key, which ends at `e`, and the members that follow. */
  function ParseMember(s: Text, e: nat, key: Text, depth: nat): (r: Parsed<Members>)
    requires Terminated(s) && e < |s|
    ensures r.Ok? ==> e < r.off < |s|
    ensures r.Fail? ==> r.off <= |s|
    decreases |s| - e, 0
  {
    var c := SkipBlanks(s, e);
    if s[c] != COLON then Fail(c)
    else
      match ParseValue(s, SkipBlanks(s, c + 1), depth)
      case Fail(q) => Fail(q)
      case Ok(value, v) =>
        var q := SkipBlanks(s, v);
        if s[q] == COMMA then
          match ParseMembers(s, q, depth)
          case Fail(f) => Fail(f)
          case Ok(rest, f) => Ok(MCons(key, value, rest), f)
        else if s[q] == RBRACE then Ok(MCons(key, value, MNil), q + 1)
        else Fail(q)
  }

  const BOM: Text := [0xEF, 0xBB, 0xBF]

  /** `skip_utf8_bom` at offset 0. */
  function BomEnd(s: Text): (o: nat)
    requires |s| > 0
    ensures o < |s|
  {
    if 4 < |s| && At(s, 0, BOM) then 3 else 0
  }

  /** `cJSON_ParseWithOpts` on a C string; `text` comes without its terminator. */
  function Parse(text: Text, requireEnd: bool): (r: Parsed<Json>)
    ensures r.off <= |text|
  {
    var s := text + [NUL];
    match ParseValue(s, SkipBlanks(s, BomEnd(s)), 0)
    case Fail(p) => Fail(if p < |s| then p else |s| - 1)
    case Ok(j, p) =>
      if !requireEnd then Ok(j, p)
      else
        var q := SkipBlanks(s, p);
        if s[q] != NUL then Fail(q) else Ok(j, q)
  }

  // ---- One unfolding of each routine, without looking into the values it reads ----

  lemma NotAt(s: Text, o: nat, t: Text)
    requires o < |s| && |t| > 0 && s[o] != t[0]
    ensures !At(s, o, t)
  {
    assert o + |t| <= |s| ==> s[o..o + |t|][0] == s[o];
  }

  lemma NotLiteral(s: Text, o: nat)
    requires o < |s| && s[o] != LOWER_N && s[o] != LOWER_F && s[o] != LOWER_T
    ensures !At(s, o, NULL_TEXT) && !At(s, o, FALSE_TEXT) && !At(s, o, TRUE_TEXT)
  {
    NotAt(s, o, NULL_TEXT);
    NotAt(s, o, FALSE_TEXT);
    NotAt(s, o, TRUE_TEXT);
  }

  lemma DispatchContainer(s: Text, o: nat, depth: nat)
    requires Terminated(s) && o < |s|
    ensures s[o] == LBRACKET ==> ParseValue(s, o, depth) == ParseArray(s, o, depth)
    ensures s[o] == LBRACE ==> ParseValue(s, o, depth) == ParseObject(s, o, depth)
  {
    hide ParseArray, ParseObject;
    if s[o] == LBRACKET || s[o] == LBRACE {
      NotLiteral(s, o);
    }
  }

  lemma ArrayStep(s: Text, o: nat, depth: nat)
    requires Terminated(s) && o < |s| && s[o] == LBRACKET
    ensures var r := ParseArray(s, o, depth);
            if depth >= NESTING_LIMIT then r == Fail(o)
            else
              var p := SkipBlanks(s, o + 1);
              if s[p] == RBRACKET then r == Ok(Arr(INil), p + 1)
              else
                p > o && var body := ParseItems(s, p - 1, depth + 1);
                if body.Fail? then r == Fail(body.off) else r == Ok(Arr(body.value), body.off)
  {
    hide ParseItems, SkipBlanks;
  }

  lemma ItemsStep(s: Text, o: nat, depth: nat)
    requires Terminated(s) && o + 1 < |s|
    ensures var r := ParseItems(s, o, depth);
            var v := ParseValue(s, SkipBlanks(s, o + 1), depth);
            if v.Fail? then r == Fail(v.off)
            else
              var q := SkipBlanks(s, v.off);
              if s[q] == RBRACKET then r == Ok(ICons(v.value, INil), q + 1)
              else if s[q] == COMMA then
                q + 1 < |s| && var rest := ParseItems(s, q, depth);
                if rest.Fail? then r == Fail(rest.off) else r == Ok(ICons(v.value, rest.value), rest.off)
              else r == Fail(q)
  {
    hide ParseValue, SkipBlanks;
  }

  lemma ObjectStep(s: Text, o: nat, depth: nat)
    requires Terminated(s) && o < |s| && s[o] == LBRACE
    ensures var r := ParseObject(s, o, depth);
            if depth >= NESTING_LIMIT then r == Fail(o)
            else
              var p := SkipBlanks(s, o + 1);
              if s[p] == RBRACE then r == Ok(Obj(MNil), p + 1)
              else
                p > o && var body := ParseMembers(s, p - 1, depth + 1);
                if body.Fail? then r == Fail(body.off) else r == Ok(Obj(body.value), body.off)
  {
    hide ParseMembers, SkipBlanks;
  }

  /** A member's key, up to its colon. */
  lemma KeyStep(s: Text, o: nat, depth: nat)
    requires Terminated(s) && o + 1 < |s|
    ensures var r := ParseMembers(s, o, depth);
            var k := ParseString(s, SkipBlanks(s, o + 1));
            if k.Fail? then r == Fail(k.off)
            else
              var c := SkipBlanks(s, k.off);
              s[c] != COLON ==> r == Fail(c)
  {
    hide ParseValue, SkipBlanks, ParseString, CString;
  }

  /** A member's value, behind its colon at `c`. */
  lemma MembersStep(s: Text, o: nat, depth: nat, raw: Text, e: nat)
    requires Terminated(s) && o + 1 < |s| && e < |s|
    requires ParseString(s, SkipBlanks(s, o + 1)) == Ok(raw, e) && s[SkipBlanks(s, e)] == COLON
    ensures var r := ParseMembers(s, o, depth);
            var c := SkipBlanks(s, e);
            c + 1 < |s| && var v := ParseValue(s, SkipBlanks(s, c + 1), depth);
            if v.Fail? then r == Fail(v.off)
            else
              var q := SkipBlanks(s, v.off);
              if s[q] == RBRACE then r == Ok(MCons(CString(raw), v.value, MNil), q + 1)
              else if s[q] == COMMA then
                q + 1 < |s| && var rest := ParseMembers(s, q, depth);
                if rest.Fail? then r == Fail(rest.off) else r == Ok(MCons(CString(raw), v.value, rest.value), rest.off)
              else r == Fail(q)
  {
    hide ParseValue, SkipBlanks, ParseString, CString;
  }

  // ---- A parsed tree holds C strings: bytes behind a decoded NUL are out of reach ----

  lemma {:induction false} ParsedStrings(s: Text, o: nat, depth: nat)
    requires Terminated(s) && o < |s| && ParseValue(s, o, depth).Ok?
    ensures CStrings(ParseValue(s, o, depth).value)
    decreases |s| - o, 1
  {
    hide ParseItems, ParseMembers, SkipBlanks, At;
    if s[o] == LBRACKET {
      DispatchContainer(s, o, depth);
      ArrayStep(s, o, depth);
      if ParseArray(s, o, depth) != Ok(Arr(INil), SkipBlanks(s, o + 1) + 1) {
        ParsedItems(s, SkipBlanks(s, o + 1) - 1, depth + 1);
      }
    } else if s[o] == LBRACE {
      DispatchContainer(s, o, depth);
      ObjectStep(s, o, depth);
      if ParseObject(s, o, depth) != Ok(Obj(MNil), SkipBlanks(s, o + 1) + 1) {
        ParsedMembers(s, SkipBlanks(s, o + 1) - 1, depth + 1);
      }
    }
  }

  lemma {:induction false} ParsedItems(s: Text, o: nat, depth: nat)
    requires Terminated(s) && o + 1 < |s| && ParseItems(s, o, depth).Ok?
    ensures CStringItems(ParseItems(s, o, depth).value)
    decreases |s| - o, 0
  {
    hide ParseItems, ParseValue, SkipBlanks;
    ItemsStep(s, o, depth);
    var v := ParseValue(s, SkipBlanks(s, o + 1), depth);
    ParsedStrings(s, SkipBlanks(s, o + 1), depth);
    if s[SkipBlanks(s, v.off)] == COMMA {
      ParsedItems(s, SkipBlanks(s, v.off), depth);
    }
  }

  lemma {:induction false} ParsedMembers(s: Text, o: nat, depth: nat)
    requires Terminated(s) && o + 1 < |s| && ParseMembers(s, o, depth).Ok?
    ensures CStringMembers(ParseMembers(s, o, depth).value)
    decreases |s| - o, 0
  {
    hide ParseMembers, ParseValue, SkipBlanks, ParseString, CString;
    KeyStep(s, o, depth);
    var key := ParseString(s, SkipBlanks(s, o + 1));
    MembersStep(s, o, depth, key.value, key.off);
    var at := SkipBlanks(s, SkipBlanks(s, key.off) + 1);
    var v := ParseValue(s, at, depth);
    ParsedStrings(s, at, depth);
    if s[SkipBlanks(s, v.off)] == COMMA {
      ParsedMembers(s, SkipBlanks(s, v.off), depth);
    }
  }

  lemma ParsedTexts(text: Text, requireEnd: bool)
    requires Parse(text, requireEnd).Ok?
    ensures CStrings(Parse(text, requireEnd).value)
  {
    hide ParseValue, SkipBlanks;
    var s := text + [NUL];
    ParsedStrings(s, SkipBlanks(s, BomEnd(s)), 0);
  }
}
