/**
  The printer as it runs: a growable byte buffer whose offset lags behind the text. A routine leaves its text
  pending behind the offset, ended by a NUL, and `UpdateOffset` claims it later by measuring it.
 */
module PrintBuffer {
  import opened Bytes
  import opened JsonStrings
  import opened Numbers
  import opened Json

  /** What a routine demands of the buffer beyond its text: the NUL, and for all but numbers one byte more. */
  function Slack(j: Json): nat {
    if j.Num? then 1 else 2
  }

  class PrintBuffer {
    var buffer: array<byte>
    var length: nat
    var offset: nat
    var depth: nat
    const noalloc: bool
    const format: bool

    /** The recorded length may understate the array, as it does at first in `print`. */
    ghost predicate Valid()
      reads this
    {
      length <= buffer.Length && length <= INT_MAX && (if length == 0 then offset == 0 else offset < length)
    }

    /** The largest buffer this print can ever have. */
    ghost function Capacity(): nat
      reads this
    {
      if noalloc then length else INT_MAX
    }

    constructor Growing(block: array<byte>, fmt: bool)
      ensures Valid() && buffer == block && offset == 0 && depth == 0 && !noalloc && format == fmt && length == 0
    {
      buffer, length, offset, depth := block, 0, 0, 0;
      noalloc, format := false, fmt;
    }

    constructor Preallocated(buf: array<byte>, len: nat, fmt: bool)
      requires len <= buf.Length && len <= INT_MAX
      ensures Valid() && buffer == buf && offset == 0 && depth == 0 && noalloc && format == fmt && length == len
    {
      buffer, length, offset, depth := buf, len, 0, 0;
      noalloc, format := true, fmt;
    }

    /** Room for `needed` bytes and a NUL at the offset, reallocating to twice the demand when it must. */
    method Ensure(needed: nat) returns (ok: bool)
      requires Valid()
      modifies this`buffer, this`length
      ensures Valid() && Capacity() == old(Capacity()) && (buffer == old(buffer) || (fresh(buffer) && !noalloc))
      ensures ok <==> offset + needed + 1 <= Capacity()
      ensures ok ==> offset + needed + 1 <= length && buffer[..offset] == old(buffer[..offset])
    {
      if length > 0 && offset >= length {
        return false;
      }
      if needed > INT_MAX {
        return false;
      }
      var total := needed + offset + 1;
      if total <= length {
        return true;
      }
      if noalloc {
        return false;
      }
      var newsize;
      if total > INT_MAX / 2 {
        if total <= INT_MAX {
          newsize := INT_MAX;
        } else {
          return false;
        }
      } else {
        newsize := total * 2;
      }
      var newbuffer := Reallocate(buffer, newsize);
      assert newbuffer[..offset] == newbuffer[..Least(buffer.Length, newsize)][..offset];
      assert buffer[..offset] == buffer[..Least(buffer.Length, newsize)][..offset];
      length := newsize;
      buffer := newbuffer;
      ok := true;
    }

    /** Claims the text pending behind the offset, by `strlen`. `prefix` and `t` say what the buffer holds. */
    method UpdateOffset(ghost prefix: Text, ghost t: Text)
      requires Valid() && NulFree(t) && |prefix| <= offset <= |prefix| + |t| < length
      requires buffer[..|prefix| + |t|] == prefix + t && buffer[|prefix| + |t|] == NUL
      modifies this`offset
      ensures Valid() && offset == |prefix| + |t|
    {
      ghost var end := |prefix| + |t|;
      forall k | |prefix| <= k < end ensures buffer[k] != NUL {
        assert buffer[..end][k] == t[k - |prefix|];
      }
      var n := 0;
      while buffer[offset + n] != NUL
        invariant offset + n <= end
        decreases end - (offset + n)
      {
        n := n + 1;
      }
      offset := offset + n;
    }

    method StrCpy(t: Text)
      requires Valid() && offset + |t| + 1 <= length
      modifies buffer
      ensures buffer[..offset + |t|] == old(buffer[..offset]) + t && buffer[offset + |t|] == NUL
    {
      var i := 0;
      while i < |t|
        invariant i <= |t|
        invariant buffer[..offset + i] == old(buffer[..offset]) + t[..i]
      {
        buffer[offset + i] := t[i];
        i := i + 1;
      }
      ghost var copied := buffer[..offset + i];
      buffer[offset + i] := NUL;
      assert buffer[..offset + |t|] == copied;
    }

    /** The printer's frame: same capacity, and a buffer that moved only when it may. */
    twostate predicate Framed()
      reads this
    {
      Valid() && Capacity() == old(Capacity()) && (buffer == old(buffer) || (fresh(buffer) && !noalloc))
    }

    /**
      `t` was left behind the old offset, ended by a NUL, and everything before it kept; the new offset may
      already stand inside `t`.
     */
    twostate predicate LeftBehind(t: Text)
      requires old(offset) <= old(buffer.Length)
      reads this, buffer
    {
      var end := old(offset) + |t|;
      old(offset) <= offset <= end < length <= buffer.Length
      && buffer[..end] == old(buffer[..offset]) + t && buffer[end] == NUL
    }

    /** `t` was written and claimed. */
    twostate predicate Claimed(t: Text)
      requires old(offset) <= old(buffer.Length)
      reads this, buffer
    {
      offset == old(offset) + |t| && offset <= buffer.Length && buffer[..offset] == old(buffer[..offset]) + t
    }

    /** `print_string_ptr` on a C string. */
    method PrintStringPtr(input: Text) returns (ok: bool)
      requires Valid() && NulFree(input)
      modifies this, buffer
      ensures Framed()
      ensures ok <==> old(offset) + |Quoted(input)| + 2 <= Capacity()
      ensures ok ==> LeftBehind(Quoted(input)) && depth == old(depth) && offset == old(offset)
    {
      hide Escape, ExtraOf;
      var escape_characters := CountEscapes(input);
      EscapedLength(input);
      var output_length := |input| + escape_characters;
      ok := Ensure(output_length + 3);
      if !ok {
        return;
      }
      if escape_characters == 0 {
        EscapeIdentity(input);
        StrCpy([QUOTE] + input + [QUOTE]);
        return;
      }
      WriteEscaped(input);
    }

    /** Writes the quotes and the escaped body; every byte `sprintf` adds, its own NUL included, is in the reserve. */
    method WriteEscaped(input: Text)
      requires Valid() && offset + |Escape(input)| + 3 <= length
      modifies buffer
      ensures buffer[..offset + |Quoted(input)|] == old(buffer[..offset]) + Quoted(input)
      ensures buffer[offset + |Quoted(input)|] == NUL
    {
      hide Escape, EscapeByte;
      buffer[offset] := QUOTE;
      ghost var head := buffer[..offset + 1];
      var p := offset + 1;
      EscapeNothing();
      for i := 0 to |input|
        invariant p == offset + 1 + |Escape(input[..i])| <= offset + 1 + |Escape(input)|
        invariant buffer[..p] == head + Escape(input[..i])
      {
        EscapeSplit(input, i);
        p := WriteOne(input[i], p);
      }
      assert input[..|input|] == input;
      ghost var body := buffer[..p];
      buffer[p] := QUOTE;
      buffer[p + 1] := NUL;
      assert buffer[..p + 1] == body + [QUOTE];
    }

    method WriteOne(c: byte, p: nat) returns (next: nat)
      requires p + |EscapeByte(c)| < buffer.Length
      modifies buffer
      ensures next == p + |EscapeByte(c)| && buffer[..next] == old(buffer[..p]) + EscapeByte(c)
    {
      if c > 31 && c != QUOTE && c != BACKSLASH {
        buffer[p] := c;
        return p + 1;
      }
      next := p + 2;
      buffer[p] := BACKSLASH;
      if c == BACKSLASH {
        buffer[p + 1] := BACKSLASH;
      } else if c == QUOTE {
        buffer[p + 1] := QUOTE;
      } else if c == BS {
        buffer[p + 1] := LOWER_B;
      } else if c == FF {
        buffer[p + 1] := LOWER_F;
      } else if c == LF {
        buffer[p + 1] := LOWER_N;
      } else if c == CR {
        buffer[p + 1] := LOWER_R;
      } else if c == TAB {
        buffer[p + 1] := LOWER_T;
      } else {
        buffer[p + 1], buffer[p + 2], buffer[p + 3] := LOWER_U, ZERO, ZERO;
        buffer[p + 4], buffer[p + 5], buffer[p + 6] := HexChar(c / 16), HexChar(c % 16), NUL;
        next := p + 6;
      }
    }

    method PrintNumber(v: real) returns (ok: bool)
      requires Valid() && IsPrintableNumber(v)
      modifies this, buffer
      ensures Framed()
      ensures ok <==> old(offset) + |Decimal(v.Floor)| + 1 <= Capacity()
      ensures ok ==> LeftBehind(Decimal(v.Floor)) && depth == old(depth)
    {
      var number := Decimal(v.Floor);
      ok := Ensure(|number|);
      if ok {
        StrCpy(number);
        offset := offset + |number|;
      }
    }

    /** `null`, `true` or `false`. */
    method PrintWord(word: Text) returns (ok: bool)
      requires Valid() && NulFree(word)
      modifies this, buffer
      ensures Framed()
      ensures ok <==> old(offset) + |word| + 2 <= Capacity()
      ensures ok ==> LeftBehind(word) && depth == old(depth)
    {
      ok := Ensure(|word| + 1);
      if ok {
        StrCpy(word);
      }
    }

    method PrintValue(j: Json) returns (ok: bool)
      requires Valid() && Printable(j)
      modifies this, buffer
      ensures Framed()
      ensures ok <==> old(offset) + |Render(j, format, old(depth))| + Slack(j) <= Capacity()
      ensures ok ==> LeftBehind(Render(j, format, old(depth))) && depth == old(depth)
      decreases j, 0
    {
      match j
      case Null =>
        ok := PrintWord(NULL_TEXT);
      case Bool(b) =>
        ok := PrintWord(if b then TRUE_TEXT else FALSE_TEXT);
      case Num(v) =>
        ok := PrintNumber(v);
      case Str(s) =>
        ok := PrintStringPtr(s);
      case Arr(items) =>
        ok := PrintArray(items);
      case Obj(members) =>
        ok := PrintObject(members);
    }

    /** `print_value` and then `update_offset`, as the loops call them. */
    method PrintAndClaim(j: Json) returns (ok: bool)
      requires Valid() && Printable(j)
      modifies this, buffer
      ensures Framed()
      ensures ok <==> old(offset) + |Render(j, format, old(depth))| + Slack(j) <= Capacity()
      ensures ok ==> Claimed(Render(j, format, old(depth))) && depth == old(depth)
      ensures ok ==> offset < length && buffer[offset] == NUL
      decreases j, 1
    {
      hide Render;
      ghost var text := Render(j, format, depth);
      ghost var before := buffer[..offset];
      ok := PrintValue(j);
      if ok {
        RenderNulFree(j, format, depth);
        UpdateOffset(before, text);
      }
    }

    method PrintKey(key: Text) returns (ok: bool)
      requires Valid() && NulFree(key)
      modifies this, buffer
      ensures Framed()
      ensures ok <==> old(offset) + |Quoted(key)| + 2 <= Capacity()
      ensures ok ==> Claimed(Quoted(key)) && depth == old(depth)
    {
      ghost var before := buffer[..offset];
      ok := PrintStringPtr(key);
      if ok {
        QuotedNulFree(key);
        UpdateOffset(before, Quoted(key));
      }
    }

    /** Separators: one or two bytes, ended by a NUL and claimed at once. */
    method PrintSeparator() returns (ok: bool)
      requires Valid()
      modifies this, buffer
      ensures Framed()
      ensures ok <==> old(offset) + |Separator(format)| + 2 <= Capacity()
      ensures ok ==> Claimed(Separator(format)) && depth == old(depth)
    {
      var n := if format then 2 else 1;
      ok := Ensure(n + 1);
      if !ok {
        return;
      }
      ghost var before := buffer[..offset];
      buffer[offset] := COMMA;
      if format {
        buffer[offset + 1] := SPACE;
      }
      buffer[offset + n] := NUL;
      offset := offset + n;
      assert buffer[..offset] == before + Separator(format);
    }

    /** One round of the loop in `print_array`: the element and, unless it is the last, the separator. */
    method PrintElement(head: Json, last: bool) returns (ok: bool)
      requires Valid() && Printable(head)
      modifies this, buffer
      ensures Framed()
      ensures var t := Piece(head, last, format, old(depth));
              if ok then Claimed(t) && depth == old(depth) else old(offset) + |t| + 3 > Capacity()
      decreases head, 2
    {
      hide Render;
      ghost var before := buffer[..offset];
      ghost var text := Render(head, format, depth);
      ok := PrintAndClaim(head);
      if !ok {
        return;
      }
      if last {
        assert text + [] == text;
        return;
      }
      ok := PrintSeparator();
      Assoc(before, text, Separator(format));
    }

    /** The loop of `print_array`. */
    method PrintItems(items: Items) returns (ok: bool)
      requires Valid() && PrintableItems(items)
      modifies this, buffer
      ensures Framed()
      ensures var t := RenderItems(items, format, old(depth));
              if ok then Claimed(t) && depth == old(depth) else old(offset) + |t| + 3 > Capacity()
      decreases items, 0
    {
      hide Render, RenderItems;
      ghost var text := RenderItems(items, format, depth);
      ghost var before := buffer[..offset];
      var current := items;
      ghost var done := [];
      Empty(before, text);
      while current.ICons?
        invariant Framed() && depth == old(depth) && PrintableItems(current)
        invariant current == items || current < items
        invariant offset == |before| + |done| && buffer[..offset] == before + done
        invariant done + RenderItems(current, format, depth) == text
        decreases current
      {
        ghost var piece := Piece(current.head, current.tail.INil?, format, depth);
        NextPiece(current, format, depth);
        Assoc(done, piece, RenderItems(current.tail, format, depth));
        ok := PrintElement(current.head, current.tail.INil?);
        if !ok {
          return;
        }
        Assoc(before, done, piece);
        done := done + piece;
        current := current.tail;
      }
      NoItems(format, depth);
      Empty(done, done);
      ok := true;
    }

    method PrintArray(items: Items) returns (ok: bool)
      requires Valid() && PrintableItems(items)
      modifies this, buffer
      ensures Framed()
      ensures ok <==> old(offset) + |Render(Arr(items), format, old(depth))| + 2 <= Capacity()
      ensures ok ==> LeftBehind(Render(Arr(items), format, old(depth))) && depth == old(depth)
      decreases items, 1
    {
      ArrayText(items, format, depth);
      hide Render, RenderItems, Printable, PrintableItems;
      ghost var body := RenderItems(items, format, depth + 1);
      ghost var before := buffer[..offset];
      ok := OpenBracket();
      if !ok {
        return;
      }
      ok := PrintItems(items);
      if !ok {
        return;
      }
      ok := CloseBracket();
      Chain(before, [LBRACKET], body, [RBRACKET]);
    }

    method OpenBracket() returns (ok: bool)
      requires Valid()
      modifies this, buffer
      ensures Framed()
      ensures ok <==> old(offset) + 2 <= Capacity()
      ensures ok ==> Claimed([LBRACKET]) && depth == old(depth) + 1
    {
      ok := Ensure(1);
      if ok {
        ghost var before := buffer[..offset];
        buffer[offset] := LBRACKET;
        offset := offset + 1;
        depth := depth + 1;
        assert buffer[..offset] == before + [LBRACKET];
      }
    }

    method CloseBracket() returns (ok: bool)
      requires Valid() && depth > 0
      modifies this, buffer
      ensures Framed()
      ensures ok <==> old(offset) + 3 <= Capacity()
      ensures ok ==> LeftBehind([RBRACKET]) && depth == old(depth) - 1
    {
      ok := Ensure(2);
      if ok {
        ghost var before := buffer[..offset];
        buffer[offset] := RBRACKET;
        buffer[offset + 1] := NUL;
        depth := depth - 1;
        assert buffer[..offset + 1] == before + [RBRACKET];
      }
    }

    /** The loop of `print_object`. */
    method PrintMembers(members: Members) returns (ok: bool)
      requires Valid() && PrintableMembers(members)
      modifies this, buffer
      ensures Framed()
      ensures var t := RenderMembers(members, format, old(depth));
              if ok then Claimed(t) && depth == old(depth) else old(offset) + |t| + 3 > Capacity()
      decreases members, 1
    {
      hide Render, RenderMembers, MemberPiece;
      ghost var text := RenderMembers(members, format, depth);
      ghost var before := buffer[..offset];
      var current := members;
      ghost var done := [];
      Empty(before, text);
      while current.MCons?
        invariant Framed() && depth == old(depth) && PrintableMembers(current)
        invariant current == members || current < members
        invariant offset == |before| + |done| && buffer[..offset] == before + done
        invariant done + RenderMembers(current, format, depth) == text
        decreases current
      {
        ghost var piece := MemberPiece(current, format, depth);
        PieceRendered(current, format, depth);
        Assoc(done, piece, RenderMembers(current.rest, format, depth));
        ok := PrintMember(current);
        if !ok {
          return;
        }
        Assoc(before, done, piece);
        done := done + piece;
        current := current.rest;
      }
      NoMembers(format, depth);
      Empty(done, done);
      ok := true;
    }

    method PrintObject(members: Members) returns (ok: bool)
      requires Valid() && PrintableMembers(members)
      modifies this, buffer
      ensures Framed()
      ensures ok <==> old(offset) + |Render(Obj(members), format, old(depth))| + 2 <= Capacity()
      ensures ok ==> LeftBehind(Render(Obj(members), format, old(depth))) && depth == old(depth)
      decreases members, 3
    {
      hide RenderMembers, Newline, Indent, Printable, PrintableMembers;
      ghost var front := [LBRACE] + Newline(format) + RenderMembers(members, format, depth + 1);
      ghost var close := Indent(format, depth) + [RBRACE];
      ghost var before := buffer[..offset];
      ObjectText(members, format, depth);
      hide Render;
      ok := PrintFront(members);
      if !ok {
        return;
      }
      ok := CloseBrace();
      Assoc(before, front, close);
    }

    /** An object up to its last member. */
    method PrintFront(members: Members) returns (ok: bool)
      requires Valid() && PrintableMembers(members)
      modifies this, buffer
      ensures Framed()
      ensures var t := [LBRACE] + Newline(format) + RenderMembers(members, format, old(depth) + 1);
              if ok then Claimed(t) && depth == old(depth) + 1 else old(offset) + |t| + 3 > Capacity()
      decreases members, 2
    {
      hide RenderMembers, Newline, Printable, PrintableMembers;
      ghost var open := [LBRACE] + Newline(format);
      ghost var body := RenderMembers(members, format, depth + 1);
      ghost var before := buffer[..offset];
      ok := OpenBrace();
      if !ok {
        return;
      }
      ok := PrintMembers(members);
      Assoc(before, open, body);
    }

    method OpenBrace() returns (ok: bool)
      requires Valid()
      modifies this, buffer
      ensures Framed()
      ensures ok <==> old(offset) + 2 + |[LBRACE] + Newline(format)| <= Capacity()
      ensures ok ==> Claimed([LBRACE] + Newline(format)) && depth == old(depth) + 1
    {
      var n := if format then 2 else 1;
      ok := Ensure(n + 1);
      if ok {
        ghost var before := buffer[..offset];
        buffer[offset] := LBRACE;
        depth := depth + 1;
        if format {
          buffer[offset + 1] := LF;
        }
        offset := offset + n;
        assert buffer[..offset] == before + ([LBRACE] + Newline(format));
      }
    }

    /** Fills `n` tabs at `p`; there is room for them. */
    method WriteTabs(p: nat, n: nat)
      requires p + n <= buffer.Length
      modifies buffer
      ensures buffer[..p + n] == old(buffer[..p]) + Tabs(n)
    {
      for i := 0 to n
        invariant buffer[..p + i] == old(buffer[..p]) + Tabs(i)
      {
        buffer[p + i] := TAB;
      }
    }

    method CloseBrace() returns (ok: bool)
      requires Valid() && depth > 0
      modifies this, buffer
      ensures Framed()
      ensures ok <==> old(offset) + |Indent(format, old(depth) - 1) + [RBRACE]| + 2 <= Capacity()
      ensures ok ==> LeftBehind(Indent(format, old(depth) - 1) + [RBRACE]) && depth == old(depth) - 1
    {
      ok := Ensure(if format then depth + 1 else 2);
      if !ok {
        return;
      }
      ghost var before := buffer[..offset];
      var p := offset;
      if format {
        WriteTabs(offset, depth - 1);
        p := offset + depth - 1;
      }
      ghost var indented := buffer[..p];
      assert indented == before + Indent(format, depth - 1);
      buffer[p] := RBRACE;
      buffer[p + 1] := NUL;
      assert buffer[..p + 1] == indented + [RBRACE];
      Assoc(before, Indent(format, depth - 1), [RBRACE]);
      depth := depth - 1;
    }

    method PrintIndent() returns (ok: bool)
      requires Valid()
      modifies this, buffer
      ensures Framed()
      ensures ok ==> Claimed(Indent(format, depth)) && depth == old(depth)
      ensures !ok ==> old(offset) + |Indent(format, old(depth))| + 1 > Capacity()
    {
      if !format {
        assert buffer[..offset] + [] == buffer[..offset];
        return true;
      }
      ok := Ensure(depth);
      if ok {
        WriteTabs(offset, depth);
        offset := offset + depth;
      }
    }

    method PrintColon() returns (ok: bool)
      requires Valid()
      modifies this, buffer
      ensures Framed()
      ensures ok <==> old(offset) + |Colon(format)| + 1 <= Capacity()
      ensures ok ==> Claimed(Colon(format)) && depth == old(depth)
    {
      var n := if format then 2 else 1;
      ok := Ensure(n);
      if ok {
        ghost var before := buffer[..offset];
        buffer[offset] := COLON;
        if format {
          buffer[offset + 1] := TAB;
        }
        offset := offset + n;
        assert buffer[..offset] == before + Colon(format);
      }
    }

    method PrintLineEnd(last: bool) returns (ok: bool)
      requires Valid()
      modifies this, buffer
      ensures Framed()
      ensures ok <==> old(offset) + |MemberEnd(last, format)| + 2 <= Capacity()
      ensures ok ==> Claimed(MemberEnd(last, format)) && depth == old(depth)
    {
      var n := (if format then 1 else 0) + if last then 0 else 1;
      ok := Ensure(n + 1);
      if !ok {
        return;
      }
      ghost var before := buffer[..offset];
      var p := offset;
      if !last {
        buffer[p] := COMMA;
        p := p + 1;
      }
      if format {
        buffer[p] := LF;
        p := p + 1;
      }
      buffer[p] := NUL;
      offset := offset + n;
      assert buffer[..offset] == before + MemberEnd(last, format);
    }

    /** A member's indentation, key and colon. */
    method PrintName(key: Text) returns (ok: bool)
      requires Valid() && NulFree(key)
      modifies this, buffer
      ensures Framed()
      ensures var t := Indent(format, old(depth)) + Quoted(key) + Colon(format);
              if ok then Claimed(t) && depth == old(depth) else old(offset) + |t| + 2 > Capacity()
    {
      hide Quoted, Indent, Colon, NulFree;
      ok := PrintIndent();
      if !ok {
        return;
      }
      ok := PrintKey(key);
      if !ok {
        return;
      }
      ok := PrintColon();
    }

    /** One round of the loop in `print_object`: indentation, key, colon, value, comma and line end. */
    method PrintMember(member: Members) returns (ok: bool)
      requires Valid() && member.MCons? && PrintableMembers(member)
      modifies this, buffer
      ensures Framed()
      ensures var t := MemberPiece(member, format, old(depth));
              if ok then Claimed(t) && depth == old(depth) else old(offset) + |t| + 3 > Capacity()
      decreases member, 0
    {
      hide Render, Quoted, Indent, Colon, MemberEnd, NulFree;
      ok := PrintName(member.key);
      if !ok {
        return;
      }
      ok := PrintAndClaim(member.value);
      if !ok {
        return;
      }
      ok := PrintLineEnd(member.rest.MNil?);
    }
  }

  /** What one round of `print_array`'s loop adds. */
  function Piece(head: Json, last: bool, fmt: bool, d: nat): Text {
    Render(head, fmt, d) + if last then [] else Separator(fmt)
  }

  lemma NextPiece(current: Items, fmt: bool, d: nat)
    requires current.ICons?
    ensures RenderItems(current, fmt, d)
         == Piece(current.head, current.tail.INil?, fmt, d) + RenderItems(current.tail, fmt, d)
  {
    hide Render;
  }

  lemma NoItems(fmt: bool, d: nat)
    ensures RenderItems(INil, fmt, d) == []
  {
  }

  lemma Chain(before: Text, a: Text, b: Text, c: Text)
    ensures before + a + b + c == before + (a + (b + c))
  {
  }

  lemma ObjectText(members: Members, fmt: bool, d: nat)
    ensures Render(Obj(members), fmt, d)
         == ([LBRACE] + Newline(fmt) + RenderMembers(members, fmt, d + 1)) + (Indent(fmt, d) + [RBRACE])
  {
    hide RenderMembers, Newline, Indent;
    var open, body, close := [LBRACE] + Newline(fmt), RenderMembers(members, fmt, d + 1), Indent(fmt, d) + [RBRACE];
    Assoc([LBRACE], Newline(fmt), body + close);
    Assoc(open, body, close);
  }

  lemma Empty(a: Text, b: Text)
    ensures a + [] == a && [] + b == b
  {
  }

  function MemberEnd(last: bool, fmt: bool): Text {
    (if last then [] else [COMMA]) + Newline(fmt)
  }

  /** What one round of `print_object`'s loop adds. */
  function MemberPiece(member: Members, fmt: bool, d: nat): Text
    requires member.MCons?
  {
    Indent(fmt, d) + Quoted(member.key) + Colon(fmt) + Render(member.value, fmt, d) + MemberEnd(member.rest.MNil?, fmt)
  }

  lemma PieceRendered(current: Members, fmt: bool, d: nat)
    requires current.MCons?
    ensures RenderMembers(current, fmt, d) == MemberPiece(current, fmt, d) + RenderMembers(current.rest, fmt, d)
  {
    var i, q, c, v := Indent(fmt, d), Quoted(current.key), Colon(fmt), Render(current.value, fmt, d);
    var after, rest := AfterValue(current.rest, fmt, d), RenderMembers(current.rest, fmt, d);
    var l := MemberEnd(current.rest.MNil?, fmt);
    hide Render, Quoted, Indent, Colon;
    AfterIsLine(current.rest, fmt, d);
    Assoc(i + q + c + v, l, rest);
    Assoc(i, q, c + (v + after));
    Assoc(i + q, c, v + after);
    Assoc(i + q + c, v, after);
  }

  lemma AfterIsLine(rest: Members, fmt: bool, d: nat)
    ensures AfterValue(rest, fmt, d) == MemberEnd(rest.MNil?, fmt) + RenderMembers(rest, fmt, d)
  {
    if rest.MNil? {
      assert [] + Newline(fmt) + [] == Newline(fmt);
    } else {
      Assoc([COMMA], Newline(fmt), RenderMembers(rest, fmt, d));
    }
  }

  lemma ArrayText(items: Items, fmt: bool, d: nat)
    ensures Render(Arr(items), fmt, d) == [LBRACKET] + (RenderItems(items, fmt, d + 1) + [RBRACKET])
    ensures Slack(Arr(items)) == 2
  {
  }

  lemma NoMembers(fmt: bool, d: nat)
    ensures RenderMembers(MNil, fmt, d) == []
  {
  }

  lemma EscapeNothing()
    ensures Escape([]) == []
  {
  }

  lemma EscapeSplit(input: Text, i: nat)
    requires i < |input|
    ensures Escape(input[..i + 1]) == Escape(input[..i]) + EscapeByte(input[i])
    ensures |Escape(input[..i])| + |EscapeByte(input[i])| <= |Escape(input)|
  {
    assert input[..i + 1] == input[..i] + [input[i]];
    EscapeAppend(input[..i], [input[i]]);
    EscapeOne(input[i]);
    assert input == input[..i + 1] + input[i + 1..];
    EscapeAppend(input[..i + 1], input[i + 1..]);
  }

  lemma EscapeOne(c: byte)
    ensures Escape([c]) == EscapeByte(c)
  {
    assert Escape([c]) == EscapeByte(c) + Escape([]);
  }

  /** The counting pass of `print_string_ptr`. */
  method CountEscapes(input: Text) returns (n: nat)
    ensures n == ExtraOf(input)
  {
    n := 0;
    for i := 0 to |input|
      invariant n == ExtraOf(input[..i])
    {
      var c := input[i];
      if c == QUOTE || c == BACKSLASH || c == BS || c == FF || c == LF || c == CR || c == TAB {
        n := n + 1;
      } else if c < 32 {
        n := n + 5;
      }
      assert input[..i + 1] == input[..i] + [c];
      EscapeAppend(input[..i], [c]);
    }
    assert input[..|input|] == input;
  }

  /** `realloc`: a new block that keeps the old bytes as far as both reach. */
  method Reallocate(old_block: array<byte>, newsize: nat) returns (block: array<byte>)
    ensures fresh(block) && block.Length == newsize
    ensures block[..Least(old_block.Length, newsize)] == old_block[..Least(old_block.Length, newsize)]
  {
    block := new byte[newsize];
    var n := Least(old_block.Length, newsize);
    forall i | 0 <= i < n {
      block[i] := old_block[i];
    }
  }

  /** `print`: from a 256-byte block whose length is not recorded, to the whole text with its NUL. */
  method Print(j: Json, fmt: bool) returns (printed: Option<array<byte>>)
    requires Printable(j)
    ensures printed.Some? <==> |Render(j, fmt, 0)| + Slack(j) <= INT_MAX
    ensures printed.Some? ==>
              var t := Render(j, fmt, 0);
              fresh(printed.value) && |t| < printed.value.Length
              && printed.value[..|t|] == t && printed.value[|t|] == NUL
  {
    hide Render;
    var block := new byte[256];
    var p := new PrintBuffer.Growing(block, fmt);
    var ok := p.PrintAndClaim(j);
    if !ok {
      return None;
    }
    return Some(p.buffer);
  }

  /**
    `cJSON_PrintPreallocated`: succeeds exactly when the caller's length covers the text and one or two bytes
    more, so the five spare bytes the header asks for are always enough.
   */
  method PrintPreallocated(j: Json, buf: array<byte>, len: nat, fmt: bool) returns (ok: bool)
    requires Printable(j) && len <= buf.Length && len <= INT_MAX
    modifies buf
    ensures ok <==> |Render(j, fmt, 0)| + Slack(j) <= len
    ensures ok ==> var t := Render(j, fmt, 0); buf[..|t|] == t && buf[|t|] == NUL
  {
    hide Render;
    var p := new PrintBuffer.Preallocated(buf, len, fmt);
    ok := p.PrintValue(j);
  }
}
