/** How the server cuts its stream: by counting braces, with no regard for string literals. */
module Framer {
  import opened Bytes

  /** What reading leaves behind comes with each outcome but `End`, which takes nothing but line ends. */
  datatype Framed = Success(obj: Text, rest: Text) | Error(rest: Text) | End

  predicate IsLineEnd(c: byte) {
    c == LF || c == CR
  }

  function Step(c: byte): int {
    if c == LBRACE then 1 else if c == RBRACE then -1 else 0
  }

  /** Opening braces minus closing braces. */
  function Balance(t: Text): int {
    if t == [] then 0 else Step(t[0]) + Balance(t[1..])
  }

  /** The least balance among the prefixes of `t`, the empty one included. */
  function Lowest(t: Text): int {
    if t == [] then 0 else Min(0, Step(t[0]) + Lowest(t[1..]))
  }

  function Min(a: int, b: int): int {
    if a <= b then a else b
  }

  /** Where the nesting count, `nest` at `i`, first comes down to zero. */
  function Close(s: Text, i: nat, nest: nat): (e: Option<nat>)
    requires i <= |s| && nest > 0
    ensures e.Some? ==> i < e.value <= |s|
    decreases |s| - i
  {
    if i == |s| then None
    else if nest + Step(s[i]) == 0 then Some(i + 1)
    else Close(s, i + 1, nest + Step(s[i]))
  }

  /** `read_json_object` on the bytes that are available. */
  function Frame(s: Text): (r: Framed)
    ensures !r.End? ==> |r.rest| < |s| && s[|s| - |r.rest|..] == r.rest
  {
    if s == [] then End
    else if IsLineEnd(s[0]) then Frame(s[1..])
    else if s[0] != LBRACE then Error(s[1..])
    else
      match Close(s, 1, 1)
      case None => Error([])
      case Some(e) => Success(s[..e], s[e..])
  }

  // ---- What makes a frame ----

  lemma {:induction false} BalanceAppend(a: Text, b: Text)
    ensures Balance(a + b) == Balance(a) + Balance(b)
    ensures Lowest(a + b) == Min(Lowest(a), Balance(a) + Lowest(b))
  {
    if a == [] {
      assert a + b == b;
    } else {
      assert (a + b)[1..] == a[1..] + b;
      BalanceAppend(a[1..], b);
    }
  }

  /** `Lowest` is the minimum it claims to be. */
  lemma {:induction false} LowestIsLeast(t: Text, bound: int)
    requires bound <= 0
    ensures Lowest(t) >= bound <==> forall k :: 0 <= k <= |t| ==> Balance(t[..k]) >= bound
    decreases |t|
  {
    forall k | 0 <= k <= |t| ensures Balance(t[..k]) >= Lowest(t) {
      PrefixAbove(t, k);
    }
    var k := LowestPrefix(t);
    assert Balance(t[..k]) == Lowest(t);
  }

  lemma {:induction false} PrefixAbove(t: Text, k: nat)
    requires k <= |t|
    ensures Balance(t[..k]) >= Lowest(t)
  {
    if k > 0 {
      assert t[..k][1..] == t[1..][..k - 1];
      PrefixAbove(t[1..], k - 1);
    }
  }

  lemma {:induction false} LowestPrefix(t: Text) returns (k: nat)
    ensures k <= |t| && Balance(t[..k]) == Lowest(t)
  {
    k := 0;
    if t != [] && Step(t[0]) + Lowest(t[1..]) < 0 {
      var j := LowestPrefix(t[1..]);
      k := j + 1;
      assert t[..k][1..] == t[1..][..j];
    }
  }

  /** Opens with a brace that its last byte, and no earlier one, closes. */
  ghost predicate Enclosed(t: Text) {
    t != [] && t[0] == LBRACE && Balance(t) == 0
    && forall k :: 0 < k < |t| ==> Balance(t[..k]) > 0
  }

  function Skipped(s: Text): Text {
    if s != [] && IsLineEnd(s[0]) then Skipped(s[1..]) else s
  }

  lemma {:induction false} FrameSkips(s: Text)
    ensures Frame(s) == Frame(Skipped(s))
  {
    if s != [] && IsLineEnd(s[0]) {
      FrameSkips(s[1..]);
    }
  }

  lemma {:induction false} CloseIsFirst(s: Text, i: nat, nest: nat)
    requires i <= |s| && nest > 0
    ensures var e := Close(s, i, nest);
            if e.None? then forall k :: i <= k <= |s| ==> nest + Balance(s[i..k]) > 0
            else nest + Balance(s[i..e.value]) == 0
                 && forall k :: i <= k < e.value ==> nest + Balance(s[i..k]) > 0
    decreases |s| - i
  {
    if i < |s| {
      forall k | i < k <= |s| ensures Balance(s[i..k]) == Step(s[i]) + Balance(s[i + 1..k]) {
        assert s[i..k][1..] == s[i + 1..k];
      }
      assert s[i..i] == [];
      if nest + Step(s[i]) > 0 {
        CloseIsFirst(s, i + 1, nest + Step(s[i]));
      } else {
        assert s[i + 1..i + 1] == [];
      }
    }
  }

  lemma Opening(s: Text, k: nat)
    requires s != [] && s[0] == LBRACE && 1 <= k <= |s|
    ensures Balance(s[..k]) == 1 + Balance(s[1..k])
  {
    assert s[..k][1..] == s[1..k];
  }

  /**
    The framer succeeds with `object`, leaving `rest`, exactly when behind the line ends stands `object` and
    then `rest`, and `object` is enclosed: it starts with a brace and is the shortest prefix that balances.
   */
  lemma FrameIff(s: Text, obj: Text, rest: Text)
    ensures Frame(s) == Success(obj, rest) <==> Skipped(s) == obj + rest && Enclosed(obj)
  {
    FrameSkips(s);
    var t := Skipped(s);
    SkippedStart(s);
    if t != [] && t[0] == LBRACE {
      CloseIsFirst(t, 1, 1);
      forall k | 1 <= k <= |t| ensures Balance(t[..k]) == 1 + Balance(t[1..k]) {
        Opening(t, k);
      }
      var e := Close(t, 1, 1);
      if e.Some? {
        FirstIsEnclosed(t, e.value);
      }
      if t == obj + rest && Enclosed(obj) {
        EnclosedIsFirst(t, obj, rest);
      }
    }
  }

  lemma {:induction false} SkippedStart(s: Text)
    ensures Skipped(s) != [] ==> !IsLineEnd(Skipped(s)[0])
  {
    if s != [] && IsLineEnd(s[0]) {
      SkippedStart(s[1..]);
    }
  }

  lemma FirstIsEnclosed(t: Text, e: nat)
    requires t != [] && t[0] == LBRACE && 1 < e <= |t|
    requires Balance(t[..e]) == 0 && forall k :: 1 <= k < e ==> Balance(t[..k]) > 0
    ensures Enclosed(t[..e])
  {
    forall k | 0 < k < e ensures t[..e][..k] == t[..k] {
    }
  }

  lemma EnclosedIsFirst(t: Text, obj: Text, rest: Text)
    requires t == obj + rest && Enclosed(obj)
    ensures Balance(t[..|obj|]) == 0 && t[..|obj|] == obj && t[|obj|..] == rest
    ensures forall k :: 0 < k < |obj| ==> Balance(t[..k]) > 0
  {
    forall k | 0 < k < |obj| ensures Balance(t[..k]) > 0 {
      assert t[..k] == obj[..k];
    }
  }

  /** The framer succeeds exactly when a brace follows the line ends and some prefix from there balances. */
  lemma FrameSucceedsIff(s: Text)
    ensures var t := Skipped(s);
            Frame(s).Success? <==> t != [] && t[0] == LBRACE && exists k :: 0 < k <= |t| && Balance(t[..k]) == 0
  {
    FrameSkips(s);
    SkippedStart(s);
    var t := Skipped(s);
    if t != [] && t[0] == LBRACE {
      CloseIsFirst(t, 1, 1);
      forall k | 1 <= k <= |t| ensures Balance(t[..k]) == 1 + Balance(t[1..k]) {
        Opening(t, k);
      }
      if Close(t, 1, 1).Some? {
        assert Balance(t[..Close(t, 1, 1).value]) == 0;
      }
    }
  }

  /** Braces around `inner` enclose it exactly when `inner` balances and never dips below zero. */
  lemma EnclosedIff(inner: Text)
    ensures Enclosed([LBRACE] + (inner + [RBRACE])) <==> Balance(inner) == 0 && Lowest(inner) >= 0
  {
    var t := [LBRACE] + (inner + [RBRACE]);
    BalanceAppend(inner, [RBRACE]);
    assert t[1..] == inner + [RBRACE];
    LowestIsLeast(inner, 0);
    forall k | 0 < k < |t| ensures Balance(t[..k]) == 1 + Balance(inner[..k - 1]) {
      Opening(t, k);
      assert t[1..k] == inner[..k - 1];
    }
    if Enclosed(t) {
      forall k | 0 <= k <= |inner| ensures Balance(inner[..k]) >= 0 {
        assert Balance(t[..k + 1]) > 0;
      }
    }
  }

  // ---- The same by character codes ----

  function Count(t: Text, c: byte): nat {
    if t == [] then 0 else (if t[0] == c then 1 else 0) + Count(t[1..], c)
  }

  lemma {:induction false} BalanceCounts(t: Text)
    ensures Balance(t) == Count(t, '{' as int) - Count(t, '}' as int)
  {
    if t != [] {
      BalanceCounts(t[1..]);
    }
  }

  lemma {:induction false} SkippedIff(s: Text, rest: Text)
    ensures Skipped(s) == rest <==>
            exists n: nat :: n <= |s| && s[n..] == rest && (forall k :: 0 <= k < n ==> s[k] == 10 || s[k] == 13)
                             && (rest == [] || (rest[0] != 10 && rest[0] != 13))
  {
    var n := |s| - |Skipped(s)|;
    SkippedAt(s);
    if m: nat :| m <= |s| && s[m..] == rest && (forall k :: 0 <= k < m ==> s[k] == 10 || s[k] == 13)
                 && (rest == [] || (rest[0] != 10 && rest[0] != 13))
    {
      assert m < |s| ==> s[m] == rest[0];
      assert n < |s| ==> s[n] == s[n..][0];
      assert m == n;
    }
  }

  lemma {:induction false} SkippedAt(s: Text)
    ensures |Skipped(s)| <= |s| && s[|s| - |Skipped(s)|..] == Skipped(s)
    ensures forall k :: 0 <= k < |s| - |Skipped(s)| ==> s[k] == 10 || s[k] == 13
    ensures Skipped(s) != [] ==> Skipped(s)[0] != 10 && Skipped(s)[0] != 13
  {
    if s != [] && IsLineEnd(s[0]) {
      SkippedAt(s[1..]);
      var n := |s| - |Skipped(s)|;
      assert forall k :: 1 <= k < n ==> s[k] == s[1..][k - 1];
    }
  }

  /** Behind `n` line feeds and carriage returns stands `obj`, whose braces balance for the first time at its end. */
  ghost predicate ObjectAt(s: Text, n: nat, obj: Text, rest: Text) {
    n <= |s| && s[n..] == obj + rest && (forall k :: 0 <= k < n ==> s[k] == 10 || s[k] == 13)
    && obj != [] && obj[0] == '{' as int && Count(obj, '{' as int) == Count(obj, '}' as int)
    && forall k :: 0 < k < |obj| ==> Count(obj[..k], '{' as int) > Count(obj[..k], '}' as int)
  }

  lemma EnclosedByCodes(obj: Text)
    ensures Enclosed(obj) <==>
            obj != [] && obj[0] == '{' as int && Count(obj, '{' as int) == Count(obj, '}' as int)
            && forall k :: 0 < k < |obj| ==> Count(obj[..k], '{' as int) > Count(obj[..k], '}' as int)
  {
    BalanceCounts(obj);
    forall k | 0 < k < |obj|
      ensures Balance(obj[..k]) == Count(obj[..k], '{' as int) - Count(obj[..k], '}' as int)
    {
      BalanceCounts(obj[..k]);
    }
  }

  /** The framer takes exactly such objects. */
  lemma FrameByCodes(s: Text, obj: Text, rest: Text)
    ensures Frame(s) == Success(obj, rest) <==> exists n: nat :: ObjectAt(s, n, obj, rest)
  {
    FrameIff(s, obj, rest);
    EnclosedByCodes(obj);
    hide Frame, Enclosed, Skipped, Count;
    if n: nat :| ObjectAt(s, n, obj, rest) {
      SkippedIff(s, obj + rest);
    }
    if Frame(s) == Success(obj, rest) {
      SkippedIff(s, obj + rest);
      var n: nat :| n <= |s| && s[n..] == obj + rest && forall k :: 0 <= k < n ==> s[k] == 10 || s[k] == 13;
      assert ObjectAt(s, n, obj, rest);
    }
  }

  /** Reading ends without an object exactly if there are only line feeds and carriage returns. */
  lemma EndByCodes(s: Text)
    ensures Frame(s).End? <==> forall k :: 0 <= k < |s| ==> s[k] == 10 || s[k] == 13
  {
    FrameSkips(s);
    SkippedIff(s, []);
    SkippedAt(s);
    assert s[|s|..] == [];
  }

  /** It fails on a byte that is no opening brace, and takes it, or on an object without an end, and takes it all. */
  lemma ErrorByCodes(s: Text, n: nat)
    requires n < |s| && (forall k :: 0 <= k < n ==> s[k] == 10 || s[k] == 13) && s[n] != 10 && s[n] != 13
    ensures s[n] != '{' as int ==> Frame(s) == Error(s[n + 1..])
    ensures s[n] == '{' as int && !Frame(s).Success? ==> Frame(s) == Error([])
  {
    SkippedIff(s, s[n..]);
    FrameSkips(s);
    assert s[n..][1..] == s[n + 1..];
  }

  // ---- Reading from a socket, byte by byte ----

  datatype ReadStatus = SUCCESS | ERROR | END

  /** A non-blocking socket: `available` is what `read` delivers before it would block. */
  class Socket {
    var available: Text

    constructor (arrived: Text)
      ensures available == arrived
    {
      available := arrived;
    }

    method Read() returns (c: Option<byte>)
      modifies this
      ensures old(available) == [] ==> c.None? && available == []
      ensures old(available) != [] ==> c == Some(old(available)[0]) && available == old(available)[1..]
    {
      if available == [] {
        return None;
      }
      c, available := Some(available[0]), available[1..];
    }

    method ReadJsonObject() returns (status: ReadStatus, outString: Text)
      modifies this
      ensures var f := Frame(old(available));
              if f.Success? then status.SUCCESS? && outString == f.obj && available == f.rest
              else if f.Error? then status.ERROR? && available == f.rest
              else status.END? && available == []
      decreases |available|
    {
      ghost var s := available;
      var first := Read();
      if first.None? {
        return END, [];
      }
      if first.value != LBRACE {
        if first.value == LF || first.value == CR {
          status, outString := ReadJsonObject();
          return;
        }
        return ERROR, [];
      }
      outString := [LBRACE];
      var nest: nat := 1;
      assert s == outString + available;
      while nest > 0
        invariant 1 <= |outString| <= |s| && s == outString + available
        invariant nest > 0 ==> Close(s, 1, 1) == Close(s, |outString|, nest)
        invariant nest == 0 ==> Close(s, 1, 1) == Some(|outString|)
        decreases |available|, nest
      {
        var c := Read();
        if c.None? {
          return ERROR, [];
        }
        if c.value == LBRACE {
          nest := nest + 1;
        } else if c.value == RBRACE {
          nest := nest - 1;
        }
        assert s[|outString|] == c.value;
        outString := outString + [c.value];
      }
      assert s[..|outString|] == outString && s[|outString|..] == available;
      status := SUCCESS;
    }
  }
}
