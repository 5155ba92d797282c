/** The parser as it runs: one buffer, an offset and a depth that every routine moves in place. */
module ParseBuffer {
  import opened Bytes
  import Utf
  import opened JsonStrings
  import opened Numbers
  import opened Json
  import P = Parser

  function Concat(a: Items, b: Items): Items {
    if a.INil? then b else ICons(a.head, Concat(a.tail, b))
  }

  lemma {:induction false} ConcatAssoc(a: Items, b: Items, c: Items)
    ensures Concat(Concat(a, b), c) == Concat(a, Concat(b, c))
  {
    if a.ICons? {
      ConcatAssoc(a.tail, b, c);
    }
  }

  function ConcatMembers(a: Members, b: Members): Members {
    if a.MNil? then b else MCons(a.key, a.value, ConcatMembers(a.rest, b))
  }

  lemma {:induction false} ConcatMembersAssoc(a: Members, b: Members, c: Members)
    ensures ConcatMembers(ConcatMembers(a, b), c) == ConcatMembers(a, ConcatMembers(b, c))
  {
    if a.MCons? {
      ConcatMembersAssoc(a.rest, b, c);
    }
  }

  /** What the rest of the input gives, behind the elements already linked. */
  function Behind(linked: Items, r: Parsed<Items>): Parsed<Items> {
    if r.Fail? then r else Ok(Concat(linked, r.value), r.off)
  }

  function BehindMembers(linked: Members, r: Parsed<Members>): Parsed<Members> {
    if r.Fail? then r else Ok(ConcatMembers(linked, r.value), r.off)
  }

  lemma Linked(linked: Items, value: Json, rest: Items)
    ensures Concat(Concat(linked, ICons(value, INil)), rest) == Concat(linked, ICons(value, rest))
  {
    ConcatAssoc(linked, ICons(value, INil), rest);
  }

  lemma LinkedMembers(linked: Members, key: Text, value: Json, rest: Members)
    ensures ConcatMembers(ConcatMembers(linked, MCons(key, value, MNil)), rest)
         == ConcatMembers(linked, MCons(key, value, rest))
  {
    ConcatMembersAssoc(linked, MCons(key, value, MNil), rest);
  }

  /** First pass over a literal whose body starts at `start`: its end, and the bytes to allocate less one. */
  method Measure(s: Text, start: nat) returns (found: bool, end: nat, allocationLength: nat)
    requires 0 < start <= |s|
    ensures found <==> ClosingQuote(s, start).Some?
    ensures found ==> ClosingQuote(s, start) == Some(end) && allocationLength + Skips(s, start, end) == end + 1 - start
  {
    var skipped := 0;
    end := start;
    allocationLength := 0;
    while end < |s| && s[end] != QUOTE
      invariant start <= end <= |s| && ClosingQuote(s, start) == ClosingQuote(s, end)
      invariant ClosingQuote(s, start).Some? ==>
                  var e := ClosingQuote(s, start).value;
                  end <= e && Skips(s, start, e) == skipped + Skips(s, end, e)
    {
      if s[end] == BACKSLASH {
        if end + 1 >= |s| {
          return false, end, 0;
        }
        skipped := skipped + 1;
        end := end + 1;
      }
      end := end + 1;
    }
    if end >= |s| || s[end] != QUOTE {
      return false, end, 0;
    }
    SkipsBound(s, start, end);
    allocationLength := end - (start - 1) - skipped;
    found := true;
  }

  method TwoByteEscape(c: byte) returns (ok: bool, b: byte)
    ensures ok <==> SimpleEscape(c).Some?
    ensures ok ==> SimpleEscape(c) == Some(b)
  {
    ok, b := true, NUL;
    if c == LOWER_B {
      b := BS;
    } else if c == LOWER_F {
      b := FF;
    } else if c == LOWER_N {
      b := LF;
    } else if c == LOWER_R {
      b := CR;
    } else if c == LOWER_T {
      b := TAB;
    } else if c == QUOTE || c == BACKSLASH || c == SLASH {
      b := c;
    } else {
      ok := false;
    }
  }

  /** One round of the second pass, at `p` with `k` bytes written; `consumed` is 0 when it fails. */
  method UnescapeOne(s: Text, start: nat, p: nat, e: nat, output: array<byte>, k: nat, ghost a: nat)
    returns (consumed: nat, next: nat, ghost a': nat)
    requires Room(s, start, p, a, e, k) && p < e
    requires output.Length + Skips(s, start, e) == e + 1 - start + 1
    modifies output
    ensures k <= next < output.Length && output[..k] == old(output[..k])
    ensures consumed == 0 ==> Unescape(s, p, e) == Bad(p)
    ensures consumed > 0 ==> Room(s, start, p + consumed, a', e, next)
    ensures consumed > 0 ==> Unescape(s, p, e) == Prepend(output[k..next], Unescape(s, p + consumed, e))
  {
    RoomLeft(s, start, p, a, e, k);
    a' := a;
    if s[p] != BACKSLASH {
      a' := StepOne(s, p, a, e);
      output[k] := s[p];
      return 1, k + 1, a';
    }
    if s[p + 1] == LOWER_U {
      if Utf.Literal(s, p, e).Some? {
        LiteralRoom(s, start, p, a, e, k);
      }
      consumed, next := Utf.Utf16LiteralToUtf8(s, p, e, output, k);
      if consumed > 0 {
        a' := StepLiteral(s, p, a, e, consumed);
      }
    } else {
      var ok, c := TwoByteEscape(s[p + 1]);
      if !ok {
        return 0, k, a';
      }
      a' := StepTwo(s, p, a, e);
      output[k] := c;
      consumed, next := 2, k + 1;
    }
  }

  /**
    Second pass: unescapes into `output`, which holds exactly what the first pass asked for. Every write below
    is inside the array, whatever the literal contains.
   */
  method UnescapeInto(s: Text, start: nat, e: nat, output: array<byte>) returns (ok: bool, at: nat, length: nat)
    requires 0 < start <= |s| && ClosingQuote(s, start) == Some(e)
    requires output.Length + Skips(s, start, e) == e + 1 - start + 1
    modifies output
    ensures ok ==> length < output.Length && Unescape(s, start, e) == Bytes(output[..length]) && output[length] == NUL
    ensures !ok ==> Unescape(s, start, e) == Bad(at)
  {
    hide Unescape, ClosingQuote, Skips;
    var p, k := start, 0;
    ghost var a := start;
    SkipsBound(s, start, e);
    NothingDone(s, start, e);
    while p < e
      invariant Room(s, start, p, a, e, k) && k < output.Length
      invariant Unescape(s, start, e) == Prepend(output[..k], Unescape(s, p, e))
      decreases e + 1 - p
    {
      ghost var done := output[..k];
      var consumed, next;
      consumed, next, a := UnescapeOne(s, start, p, e, output, k, a);
      if consumed == 0 {
        return false, p, k;
      }
      Extend(done, output[k..next], Unescape(s, p + consumed, e));
      assert output[..next] == done + output[k..next];
      p, k := p + consumed, next;
    }
    AllDone(s, p, e);
    ghost var text := output[..k];
    output[k] := NUL;
    assert output[..k] == text;
    assert text + [] == text;
    ok, at, length := true, p, k;
  }

  lemma NothingDone(s: Text, p: nat, e: nat)
    requires p <= e + 1 && e < |s|
    ensures Unescape(s, p, e) == Prepend([], Unescape(s, p, e))
  {
    hide Unescape;
    if Unescape(s, p, e).Bytes? {
      assert [] + Unescape(s, p, e).text == Unescape(s, p, e).text;
    }
  }

  lemma AllDone(s: Text, p: nat, e: nat)
    requires e <= p <= e + 1 && e < |s|
    ensures Unescape(s, p, e) == Bytes([])
  {
  }

  lemma Extend(a: Text, b: Text, r: Unescaped)
    ensures Prepend(a, Prepend(b, r)) == Prepend(a + b, r)
  {
    if r.Bytes? {
      Assoc(a, b, r.text);
    }
  }

  lemma LiteralRoom(s: Text, start: nat, p: nat, a: nat, e: nat, k: nat)
    requires Room(s, start, p, a, e, k) && p < e && Utf.Literal(s, p, e).Some?
    ensures k + |Utf.Literal(s, p, e).value.1| + Skips(s, start, e) <= e + 1 - start
  {
    var n, bytes := Utf.Literal(s, p, e).value.0, |Utf.Literal(s, p, e).value.1|;
    var a1 := StepLiteral(s, p, a, e, n);
    RoomLeft(s, start, p + n, a1, e, k + bytes);
  }

  lemma StepLiteral(s: Text, p: nat, a: nat, e: nat, n: nat) returns (a': nat)
    requires InStep(s, p, a, e) && (n == 6 || n == 12) && p + n <= e
    ensures a <= a' && InStep(s, p + n, a', e) && Skips(s, a, e) <= Skips(s, a', e) + n / 2
  {
    a' := StepSix(s, p, a, e);
    if n == 12 {
      a' := StepSix(s, p + 6, a', e);
    }
  }


  /** Copies the number bytes at `o` into a small terminated buffer, for the C library to read. */
  method CopyNumber(s: Text, o: nat) returns (copied: Text)
    requires o <= |s|
    ensures copied == s[o..o + NumberRun(s, o, NUMBER_BUFFER - 1)]
  {
    var buffer := new byte[NUMBER_BUFFER];
    var i := 0;
    while i < NUMBER_BUFFER - 1 && o + i < |s| && IsNumberByte(s[o + i])
      invariant o + i <= |s| && i <= NUMBER_BUFFER - 1
      invariant buffer[..i] == s[o..o + i]
      invariant NumberRun(s, o, NUMBER_BUFFER - 1) == i + NumberRun(s, o + i, NUMBER_BUFFER - 1 - i)
    {
      buffer[i] := s[o + i];
      i := i + 1;
    }
    copied := buffer[..i];
    buffer[i] := NUL;
  }

  class ParseBuffer {
    const content: Text
    var offset: nat
    var depth: nat

    ghost predicate Valid()
      reads this
    {
      Terminated(content) && offset <= |content| && depth <= P.NESTING_LIMIT
    }

    /** A routine that started at `o` with nesting `d` came out as the parser function says. */
    ghost predicate Came<T>(r: Parsed<T>, ok: bool, item: T, d: nat)
      reads this
    {
      (ok <==> r.Ok?) && offset == r.off && (ok ==> r == Ok(item, offset) && depth == d)
    }

    /** `value` is the C string to parse. */
    constructor (value: Text)
      requires NulFree(value)
      ensures content == value + [NUL] && offset == 0 && depth == 0 && Valid()
    {
      content := value + [NUL];
      offset := 0;
      depth := 0;
    }

    method SkipWhitespace()
      requires Valid()
      modifies this`offset
      ensures Valid() && offset == P.SkipBlanks(content, old(offset))
    {
      while offset < |content| && content[offset] <= SPACE
        invariant offset <= |content|
        invariant P.BlankEnd(content, offset) == P.BlankEnd(content, old(offset))
      {
        offset := offset + 1;
      }
      if offset == |content| {
        offset := offset - 1;
      }
    }

    method SkipUtf8Bom()
      requires Valid() && offset == 0
      modifies this`offset
      ensures Valid() && offset == P.BomEnd(content)
    {
      if 4 < |content| && content[..3] == P.BOM {
        offset := offset + 3;
      }
    }

    method ParseString() returns (ok: bool, raw: Text)
      requires Valid() && offset < |content|
      modifies this`offset
      ensures Valid()
      ensures Came(JsonStrings.ParseString(content, old(offset)), ok, raw, depth)
    {
      raw := [];
      var start := offset + 1;
      if content[offset] != QUOTE {
        offset := start;
        return false, raw;
      }
      var found, end, allocationLength := Measure(content, start);
      if !found {
        offset := start;
        return false, raw;
      }
      var output := new byte[allocationLength + 1];
      var done, at, length := UnescapeInto(content, start, end, output);
      if !done {
        offset := at;
        return false, raw;
      }
      ok, raw := true, output[..length];
      offset := end + 1;
    }

    method ParseNumber() returns (ok: bool, item: Json)
      requires Valid() && offset < |content|
      modifies this`offset
      ensures Valid()
      ensures Came(P.ParseNumber(content, old(offset)), ok, item, depth)
    {
      hide Strtod;
      var copied := CopyNumber(content, offset);
      var (length, number) := Strtod(copied);
      if length == 0 {
        return false, Null;
      }
      ok, item := true, Num(number);
      offset := offset + length;
    }

    method ParseValue() returns (ok: bool, item: Json)
      requires Valid() && offset < |content|
      modifies this
      ensures Valid()
      ensures Came(P.ParseValue(content, old(offset), old(depth)), ok, item, old(depth))
      decreases |content| - offset, 3
    {
      item := Null;
      if At(content, offset, NULL_TEXT) {
        offset := offset + 4;
        return true, Null;
      }
      if At(content, offset, FALSE_TEXT) {
        offset := offset + 5;
        return true, Bool(false);
      }
      if At(content, offset, TRUE_TEXT) {
        offset := offset + 4;
        return true, Bool(true);
      }
      if content[offset] == QUOTE {
        var raw;
        ok, raw := ParseString();
        return ok, if ok then Str(CString(raw)) else Null;
      }
      if content[offset] == MINUS || IsDigit(content[offset]) {
        ok, item := ParseNumber();
        return;
      }
      if content[offset] == LBRACKET {
        ok, item := ParseArray();
        return;
      }
      if content[offset] == LBRACE {
        ok, item := ParseObject();
        return;
      }
      return false, Null;
    }

    /**
      The source also tests for the end of the buffer here and in `parse_object`; that test never fires,
      because skipping blanks stops on the terminator at the latest.
     */
    method ParseArray() returns (ok: bool, item: Json)
      requires Valid() && offset < |content| && content[offset] == LBRACKET
      modifies this
      ensures Valid()
      ensures Came(P.ParseArray(content, old(offset), old(depth)), ok, item, old(depth))
      decreases |content| - offset, 2
    {
      hide P.ParseArray, P.ParseItems, P.SkipBlanks;
      P.ArrayStep(content, offset, depth);
      item := Null;
      if depth >= P.NESTING_LIMIT {
        return false, item;
      }
      depth := depth + 1;
      offset := offset + 1;
      SkipWhitespace();
      if content[offset] == RBRACKET {
        depth := depth - 1;
        offset := offset + 1;
        return true, Arr(INil);
      }
      offset := offset - 1;
      var head;
      ok, head := ParseItems();
      if !ok {
        return false, item;
      }
      depth := depth - 1;
      item := Arr(head);
    }

    /** The loop over the elements, entered in front of the first one, and the closing bracket. */
    method ParseItems() returns (ok: bool, head: Items)
      requires Valid() && offset + 1 < |content|
      modifies this
      ensures Valid()
      ensures Came(P.ParseItems(content, old(offset), old(depth)), ok, head, old(depth))
      decreases |content| - offset, 1
    {
      hide P.ParseValue, P.ParseItems, P.SkipBlanks;
      head := INil;
      var more := true;
      ghost var result := P.ParseItems(content, offset, depth);
      while more
        invariant Valid() && depth == old(depth) && old(offset) <= offset
        invariant more ==> offset + 1 < |content| && result == Behind(head, P.ParseItems(content, offset, depth))
        invariant !more ==> offset < |content| && content[offset] != COMMA
                            && result == if content[offset] == RBRACKET then Ok(head, offset + 1) else Fail(offset)
        decreases more, |content| - offset
      {
        P.ItemsStep(content, offset, depth);
        offset := offset + 1;
        SkipWhitespace();
        var value;
        ok, value := ParseValue();
        if !ok {
          return;
        }
        ghost var linked := head;
        head := Concat(head, ICons(value, INil));
        SkipWhitespace();
        more := content[offset] == COMMA;
        if more && P.ParseItems(content, offset, depth).Ok? {
          Linked(linked, value, P.ParseItems(content, offset, depth).value);
        }
      }
      if content[offset] != RBRACKET {
        return false, head;
      }
      ok := true;
      offset := offset + 1;
    }

    method ParseObject() returns (ok: bool, item: Json)
      requires Valid() && offset < |content| && content[offset] == LBRACE
      modifies this
      ensures Valid()
      ensures Came(P.ParseObject(content, old(offset), old(depth)), ok, item, old(depth))
      decreases |content| - offset, 2
    {
      hide P.ParseObject, P.ParseMembers, P.SkipBlanks;
      P.ObjectStep(content, offset, depth);
      item := Null;
      if depth >= P.NESTING_LIMIT {
        return false, item;
      }
      depth := depth + 1;
      offset := offset + 1;
      SkipWhitespace();
      if content[offset] == RBRACE {
        depth := depth - 1;
        offset := offset + 1;
        return true, Obj(MNil);
      }
      offset := offset - 1;
      var head;
      ok, head := ParseMembers();
      if !ok {
        return false, item;
      }
      depth := depth - 1;
      item := Obj(head);
    }

    /** The loop over the members, entered in front of the first one, and the closing brace. */
    method ParseMembers() returns (ok: bool, head: Members)
      requires Valid() && offset + 1 < |content|
      modifies this
      ensures Valid()
      ensures Came(P.ParseMembers(content, old(offset), old(depth)), ok, head, old(depth))
      decreases |content| - offset, 1
    {
      hide P.ParseValue, P.ParseMembers, P.SkipBlanks, JsonStrings.ParseString, CString;
      head := MNil;
      var more := true;
      ghost var result := P.ParseMembers(content, offset, depth);
      while more
        invariant Valid() && depth == old(depth) && old(offset) <= offset
        invariant more ==> offset + 1 < |content|
                           && result == BehindMembers(head, P.ParseMembers(content, offset, depth))
        invariant !more ==> offset < |content| && content[offset] != COMMA
                            && result == if content[offset] == RBRACE then Ok(head, offset + 1) else Fail(offset)
        decreases more, |content| - offset
      {
        P.KeyStep(content, offset, depth);
        ghost var before := offset;
        offset := offset + 1;
        SkipWhitespace();
        var raw;
        ok, raw := ParseString();
        if !ok {
          return;
        }
        ghost var keyEnd := offset;
        SkipWhitespace();
        if content[offset] != COLON {
          return false, head;
        }
        P.MembersStep(content, before, depth, raw, keyEnd);
        offset := offset + 1;
        SkipWhitespace();
        var value;
        ok, value := ParseValue();
        if !ok {
          return;
        }
        ghost var linked := head;
        head := ConcatMembers(head, MCons(CString(raw), value, MNil));
        SkipWhitespace();
        more := content[offset] == COMMA;
        if more && P.ParseMembers(content, offset, depth).Ok? {
          LinkedMembers(linked, CString(raw), value, P.ParseMembers(content, offset, depth).value);
        }
      }
      if content[offset] != RBRACE {
        return false, head;
      }
      ok := true;
      offset := offset + 1;
    }
  }

  /** `cJSON_ParseWithOpts`: the item, or the error position, and where parsing ended. */
  method ParseWithOpts(value: Text, requireNullTerminated: bool) returns (r: Parsed<Json>)
    requires NulFree(value)
    ensures r == P.Parse(value, requireNullTerminated)
  {
    hide P.ParseValue;
    var buffer := new ParseBuffer(value);
    buffer.SkipUtf8Bom();
    buffer.SkipWhitespace();
    var ok, item := buffer.ParseValue();
    if ok && requireNullTerminated {
      buffer.SkipWhitespace();
      ok := buffer.content[buffer.offset] == NUL;
    }
    if ok {
      return Ok(item, buffer.offset);
    }
    return Fail(if buffer.offset < |buffer.content| then buffer.offset else |buffer.content| - 1);
  }
}
