/** Which messages survive the stream: printing, framing by braces, parsing and decoding together. */
module Wire {
  import opened Bytes
  import opened JsonStrings
  import opened Numbers
  import opened Json
  import opened Messages
  import opened Framer
  import Locality
  import Parser

  // ---- Braces in printed text ----

  predicate Braceless(t: Text) {
    forall k :: 0 <= k < |t| ==> t[k] != LBRACE && t[k] != RBRACE
  }

  /** `t` counts like `u`, as far as braces go. */
  ghost predicate SameBraces(t: Text, u: Text) {
    Balance(t) == Balance(u) && Lowest(t) == Lowest(u)
  }

  lemma {:induction false} BracelessNeutral(t: Text)
    requires Braceless(t)
    ensures Balance(t) == 0 && Lowest(t) == 0
  {
    if t != [] {
      BracelessNeutral(t[1..]);
    }
  }

  lemma {:induction false} LowestBelow(t: Text)
    ensures Lowest(t) <= 0 && Lowest(t) <= Balance(t)
  {
    if t != [] {
      LowestBelow(t[1..]);
    }
  }

  lemma SkipBefore(plain: Text, t: Text)
    requires Braceless(plain)
    ensures SameBraces(plain + t, t)
  {
    BracelessNeutral(plain);
    BalanceAppend(plain, t);
    LowestBelow(t);
  }

  lemma SkipBehind(t: Text, plain: Text)
    requires Braceless(plain)
    ensures SameBraces(t + plain, t)
  {
    BracelessNeutral(plain);
    BalanceAppend(t, plain);
    LowestBelow(t);
  }

  lemma EscapeByteBraces(c: byte)
    ensures Balance(EscapeByte(c)) == Step(c) && Lowest(EscapeByte(c)) == Min(0, Step(c))
  {
    if |EscapeByte(c)| > 1 {
      BracelessNeutral(EscapeByte(c));
    } else {
      assert EscapeByte(c)[1..] == [];
    }
  }

  /** Escaping touches no brace. */
  lemma {:induction false} EscapeBraces(t: Text)
    ensures SameBraces(Escape(t), t)
  {
    if t != [] {
      EscapeByteBraces(t[0]);
      EscapeBraces(t[1..]);
      BalanceAppend(EscapeByte(t[0]), Escape(t[1..]));
    }
  }

  lemma QuotedBraces(t: Text)
    ensures SameBraces(Quoted(t), t)
  {
    EscapeBraces(t);
    SkipBefore([QUOTE], Escape(t));
    SkipBehind([QUOTE] + Escape(t), [QUOTE]);
  }

  /** A member counts like its value, if its key has no braces, followed by the other members. */
  lemma MemberBraces(key: Text, value: Json, rest: Members, d: nat)
    requires Braceless(key)
    ensures var t := RenderMembers(MCons(key, value, rest), false, d);
            var v, r := Render(value, false, d), RenderMembers(rest, false, d);
            Balance(t) == Balance(v) + Balance(r)
            && Lowest(t) == Min(Lowest(v), Balance(v) + Lowest(r))
  {
    hide Render, Quoted;
    var v, r, a := Render(value, false, d), RenderMembers(rest, false, d), AfterValue(rest, false, d);
    var t := RenderMembers(MCons(key, value, rest), false, d);
    assert [] + (Quoted(key) + ([COLON] + (v + a))) == Quoted(key) + ([COLON] + (v + a));
    QuotedBraces(key);
    BracelessNeutral(key);
    BalanceAppend(Quoted(key), [COLON] + (v + a));
    SkipBefore([COLON], v + a);
    AfterBraces(rest, d);
    BalanceAppend(v, a);
    LowestBelow(v + a);
  }

  lemma AfterBraces(rest: Members, d: nat)
    ensures SameBraces(AfterValue(rest, false, d), RenderMembers(rest, false, d))
  {
    if rest.MCons? {
      assert [] + RenderMembers(rest, false, d) == RenderMembers(rest, false, d);
      SkipBefore([COMMA], RenderMembers(rest, false, d));
    }
  }

  lemma NumberBraces(n: int, d: nat)
    ensures Balance(Render(Num(n as real), false, d)) == 0 && Lowest(Render(Num(n as real), false, d)) == 0
  {
    BracelessNeutral(Decimal(n));
  }

  /** The text a message carries; a keep-alive carries none. */
  function Carried(m: Message): Text {
    match m
    case HardErrorValve(_, t) => t
    case HardErrorOther(t) => t
    case SoftError(t) => t
    case _ => []
  }

  lemma EmptyBraces()
    ensures Balance([]) == 0 && Lowest([]) == 0
  {
  }

  /** Bytes that are copied as they are, and no braces. */
  predicate Plain(t: Text) {
    forall k :: 0 <= k < |t| ==> 31 < t[k] && t[k] != QUOTE && t[k] != BACKSLASH && t[k] != LBRACE && t[k] != RBRACE
  }

  lemma {:induction false} PlainText(t: Text)
    requires Plain(t)
    ensures NulFree(t) && Braceless(t) && ExtraOf(t) == 0
  {
    if t != [] {
      PlainText(t[1..]);
    }
  }

  lemma NamesPlain(m: Message)
    ensures Plain(VERSION) && Plain(DATA) && Plain(TYPE) && Plain(MESSAGE) && Plain(VALVE_NO)
    ensures !m.Invalid? ==> Plain(TypeName(m))
  {
    KeysPlain();
    TypeNamePlain(m);
    hide *;
  }

  lemma KeysPlain()
    ensures Plain(VERSION) && Plain(DATA) && Plain(TYPE) && Plain(MESSAGE) && Plain(VALVE_NO)
  {
  }

  lemma TypeNamePlain(m: Message)
    ensures !m.Invalid? ==> Plain(TypeName(m))
  {
  }

  lemma Names(m: Message)
    ensures Braceless(VERSION) && Braceless(DATA) && Braceless(TYPE) && Braceless(MESSAGE) && Braceless(VALVE_NO)
    ensures ExtraOf(VERSION) == ExtraOf(DATA) == ExtraOf(TYPE) == ExtraOf(MESSAGE) == ExtraOf(VALVE_NO) == 0
    ensures !m.Invalid? ==> Braceless(TypeName(m)) && ExtraOf(TypeName(m)) == 0
  {
    hide *;
    NamesPlain(m);
    PlainText(VERSION);
    PlainText(DATA);
    PlainText(TYPE);
    PlainText(MESSAGE);
    PlainText(VALVE_NO);
    if !m.Invalid? {
      PlainText(TypeName(m));
    }
  }

  lemma DataBraces(m: Message, d: nat)
    requires !m.Invalid?
    ensures SameBraces(RenderMembers(DataMembers(m), false, d), Carried(m))
  {
    hide Render, RenderMembers, Quoted, Balance, Lowest, Braceless, ExtraOf, TypeName;
    var t := Carried(m);
    LowestBelow(t);
    NothingRendered(d);
    EmptyBraces();
    Names(m);
    if !m.KeepAlive? {
      QuotedBraces(t);
      StringRendered(t, d);
      if m.HardErrorValve? {
        var valve := MCons(VALVE_NO, Num(m.valveNo as real), MNil);
        MemberBraces(MESSAGE, Str(t), valve, d);
        MemberBraces(VALVE_NO, Num(m.valveNo as real), MNil, d);
        NumberBraces(m.valveNo, d);
      } else {
        MemberBraces(MESSAGE, Str(t), MNil, d);
      }
    }
  }

  lemma NothingRendered(d: nat)
    ensures RenderMembers(MNil, false, d) == []
  {
  }

  lemma StringRendered(t: Text, d: nat)
    ensures Render(Str(t), false, d) == Quoted(t)
  {
  }

  lemma ObjectRendered(members: Members, d: nat)
    ensures Render(Obj(members), false, d) == [LBRACE] + (RenderMembers(members, false, d + 1) + [RBRACE])
  {
    hide RenderMembers;
    var body := RenderMembers(members, false, d + 1);
    assert [] + [RBRACE] == [RBRACE];
    assert [] + (body + [RBRACE]) == body + [RBRACE];
  }

  lemma WrappedBraces(t: Text)
    ensures Balance([LBRACE] + (t + [RBRACE])) == Balance(t)
    ensures Lowest([LBRACE] + (t + [RBRACE])) == Min(0, Min(1 + Lowest(t), Balance(t)))
  {
    BalanceAppend(t, [RBRACE]);
    BalanceAppend([LBRACE], t + [RBRACE]);
    assert [RBRACE][1..] == [] && [LBRACE][1..] == [];
    LowestBelow(t);
  }

  /** The root's members, between the outermost braces of an encoding. */
  lemma RootBraces(m: Message)
    requires !m.Invalid?
    ensures var u := RenderMembers(Tree(m).members, false, 1); var t := Carried(m);
            Balance(u) == Balance(t) && Lowest(u) == Min(0, Min(1 + Lowest(t), Balance(t)))
  {
    hide Render, RenderMembers, Quoted, DataMembers, Balance, Lowest, Braceless, ExtraOf, TypeName, Carried;
    var name, data := TypeName(m), Obj(DataMembers(m));
    Names(m);
    EmptyBraces();
    DataBraces(m, 2);
    ObjectRendered(DataMembers(m), 1);
    WrappedBraces(RenderMembers(DataMembers(m), false, 2));
    BracelessNeutral(name);
    QuotedBraces(name);
    StringRendered(name, 1);
    NothingRendered(1);
    NumberBraces(2, 1);
    var last := MCons(TYPE, Str(name), MNil);
    MemberBraces(TYPE, Str(name), MNil, 1);
    MemberBraces(DATA, data, last, 1);
    MemberBraces(VERSION, Num(FORMAT_VERSION), MCons(DATA, data, last), 1);
  }

  /** Braces in a text balance, and none is closed more than one ahead of its opening. */
  predicate BalancedText(t: Text) {
    Balance(t) == 0 && Lowest(t) >= -1
  }

  /** An encoding is one frame exactly when the braces of its text allow it. */
  lemma EncodedEnclosed(m: Message)
    requires !m.Invalid?
    ensures Enclosed(Encoded(m)) <==> BalancedText(Carried(m))
  {
    hide Render, RenderMembers, Enclosed, TypeName, DataMembers, Carried;
    var u := RenderMembers(Tree(m).members, false, 1);
    RootBraces(m);
    ObjectRendered(Tree(m).members, 0);
    EnclosedIff(u);
    LowestBelow(Carried(m));
  }

  // ---- An unformatted member with a plain key, piece by piece ----

  lemma PlainQuoted(t: Text)
    requires Plain(t)
    ensures Quoted(t) == [QUOTE] + t + [QUOTE]
  {
    PlainText(t);
    EscapeIdentity(t);
  }

  lemma MemberText(key: Text, value: Json, rest: Members, d: nat)
    requires Plain(key)
    ensures RenderMembers(MCons(key, value, rest), false, d)
         == [QUOTE] + key + [QUOTE, COLON] + Render(value, false, d)
            + if rest.MNil? then [] else [COMMA] + RenderMembers(rest, false, d)
  {
    PlainQuoted(key);
    MemberIs(key, value, rest, d);
    AfterIs(rest, d);
    hide *;
    Joined(key, Render(value, false, d), AfterValue(rest, false, d));
  }

  lemma Joined(key: Text, v: Text, after: Text)
    ensures [QUOTE] + key + [QUOTE] + ([COLON] + (v + after)) == [QUOTE] + key + [QUOTE, COLON] + v + after
  {
    var q := [QUOTE] + key + [QUOTE];
    assert q + [COLON] == [QUOTE] + key + [QUOTE, COLON];
    Assoc(q, [COLON], v + after);
    Assoc(q + [COLON], v, after);
  }

  lemma MemberIs(key: Text, value: Json, rest: Members, d: nat)
    ensures RenderMembers(MCons(key, value, rest), false, d)
         == Quoted(key) + ([COLON] + (Render(value, false, d) + AfterValue(rest, false, d)))
  {
    hide Render, Quoted, AfterValue;
    var line := Quoted(key) + ([COLON] + (Render(value, false, d) + AfterValue(rest, false, d)));
    assert [] + line == line;
  }

  lemma AfterIs(rest: Members, d: nat)
    ensures AfterValue(rest, false, d) == if rest.MNil? then [] else [COMMA] + RenderMembers(rest, false, d)
  {
    hide RenderMembers;
    assert [] + RenderMembers(rest, false, d) == RenderMembers(rest, false, d);
  }

  // ---- How long an encoding is ----

  lemma MemberSize(key: Text, value: Json, rest: Members, d: nat)
    ensures |RenderMembers(MCons(key, value, rest), false, d)|
         == |key| + ExtraOf(key) + 3 + |Render(value, false, d)|
            + if rest.MNil? then 0 else 1 + |RenderMembers(rest, false, d)|
  {
    hide Render, Escape;
    EscapedLength(key);
  }

  lemma StringSize(t: Text, d: nat)
    ensures |Render(Str(t), false, d)| == |t| + ExtraOf(t) + 2
  {
    EscapedLength(t);
  }

  /** The bytes a message takes besides its text. */
  function Overhead(m: Message): nat {
    match m
    case HardErrorValve(n, _) => 73 + |Decimal(n)|
    case HardErrorOther(_) => 61
    case SoftError(_) => 55
    case _ => 43
  }

  lemma DataSize(m: Message, d: nat)
    requires !m.Invalid? && !m.KeepAlive?
    ensures |RenderMembers(DataMembers(m), false, d)|
         == 12 + |m.text| + ExtraOf(m.text) + if m.HardErrorValve? then 12 + |Decimal(m.valveNo)| else 0
  {
    hide ExtraOf, RenderMembers, Decimal;
    Names(m);
    StringSize(m.text, d);
    if m.HardErrorValve? {
      MemberSize(VALVE_NO, Num(m.valveNo as real), MNil, d);
      MemberSize(MESSAGE, Str(m.text), MCons(VALVE_NO, Num(m.valveNo as real), MNil), d);
    } else {
      MemberSize(MESSAGE, Str(m.text), MNil, d);
    }
  }

  lemma NoData()
    ensures DataMembers(KeepAlive) == MNil
  {
  }

  lemma NothingCarried()
    ensures ExtraOf([]) == 0
  {
  }

  /** An encoding takes its overhead, its text, and what escaping adds to the text. */
  lemma EncodedSize(m: Message)
    requires !m.Invalid?
    ensures |Encoded(m)| == Overhead(m) + |Carried(m)| + ExtraOf(Carried(m))
  {
    hide RenderMembers, Render, ExtraOf, Decimal, DataMembers, Quoted;
    var name, data := TypeName(m), Obj(DataMembers(m));
    var last := MCons(TYPE, Str(name), MNil);
    Names(m);
    NothingCarried();
    ObjectRendered(Tree(m).members, 0);
    ObjectRendered(DataMembers(m), 1);
    if m.KeepAlive? {
      NothingRendered(2);
      assert DataMembers(m) == MNil by {
        NoData();
      }
    } else {
      DataSize(m, 2);
    }
    VersionSize();
    StringSize(name, 1);
    MemberSize(TYPE, Str(name), MNil, 1);
    MemberSize(DATA, data, last, 1);
    MemberSize(VERSION, Num(FORMAT_VERSION), MCons(DATA, data, last), 1);
  }

  lemma VersionSize()
    ensures Render(Num(FORMAT_VERSION), false, 1) == [ZERO as int + 2]
  {
    assert FORMAT_VERSION.Floor == 2;
  }

  /** Texts that take at most 216 bytes once escaped fit with every type of message. */
  lemma ShortTextsFit(m: Message)
    requires WellFormed(m) && !m.Invalid? && |Carried(m)| + ExtraOf(Carried(m)) <= 216
    ensures |Encoded(m)| <= MAX_ENCODED_LEN
  {
    hide Encoded, Decimal;
    EncodedSize(m);
    if m.HardErrorValve? {
      IntLength(m.valveNo);
    }
  }

  /** For each type, how many bytes the text may take once escaped. */
  lemma FitsIff(m: Message)
    requires !m.Invalid?
    ensures var size := |Carried(m)| + ExtraOf(Carried(m));
            |Encoded(m)| <= MAX_ENCODED_LEN <==>
            match m
            case HardErrorValve(n, _) => size <= 227 - |Decimal(n)|
            case HardErrorOther(_) => size <= 239
            case SoftError(_) => size <= 245
            case _ => true
  {
    hide Encoded, Decimal, ExtraOf;
    EncodedSize(m);
    NothingCarried();
  }

  function Quotes(n: nat): (t: Text)
    ensures |t| == n
  {
    seq(n, i => QUOTE)
  }

  lemma {:induction false} QuotesExtra(n: nat)
    ensures ExtraOf(Quotes(n)) == n && Braceless(Quotes(n))
  {
    if n > 0 {
      QuotesExtra(n - 1);
      assert Quotes(n)[1..] == Quotes(n - 1);
    }
  }

  /**
    A text of 200 bytes is allowed, and each quote in it takes two: of messages that carry `n` quotes, those with more
    than 122 are cut, and so are not sendable.
   */
  lemma QuotesSendableIff(n: nat)
    ensures var m := SoftError(Quotes(n));
            |Carried(m)| == n && (Sendable(m) <==> n <= 122) && (n > 122 ==> |Sent(m)| < |Encoded(m)|)
  {
    hide Encoded, ExtraOf;
    var m := SoftError(Quotes(n));
    QuotesExtra(n);
    BracelessNeutral(Quotes(n));
    FitsIff(m);
  }

  lemma IntLength(n: int)
    requires INT_MIN <= n <= INT_MAX
    ensures |Decimal(n)| <= 11
  {
    assert Power(10) == 10000000000;
    DigitsLength(if n < 0 then -n else n, 10);
  }

  // ---- What is sent, and what the server makes of it ----

  /** `encode_message` does not fail: the printer's buffer, with room for two more bytes, need not outgrow `int`. */
  predicate Encodable(m: Message) {
    !m.Invalid? && |Encoded(m)| + 2 <= INT_MAX
  }

  /** The bytes `send_message` hands to `write`: the encoding, if there is one, cut at 300 bytes. */
  function Sent(m: Message): Text {
    if !Encodable(m) then []
    else if |Encoded(m)| <= MAX_ENCODED_LEN then Encoded(m) else Encoded(m)[..MAX_ENCODED_LEN]
  }

  /** A caller can check this before sending. */
  predicate Sendable(m: Message) {
    !m.Invalid? && WellFormed(m) && BalancedText(Carried(m)) && |Encoded(m)| <= MAX_ENCODED_LEN
  }

  const NOT_DECODED: Text := Lit("Could not ") + Lit("decode message")

  /** What `fetch_item` makes of a framed object. */
  function Received(obj: Text): Message {
    match Decode(obj)
    case Some(m) => m
    case None => SoftError(NOT_DECODED)
  }

  /** All objects on a stream in order, and whether reading got to its end rather than to an error. */
  function Drain(s: Text): (seq<Message>, bool)
    decreases |s|
  {
    match Frame(s)
    case End => ([], true)
    case Error(_) => ([], false)
    case Success(obj, rest) => var r := Drain(rest); ([Received(obj)] + r.0, r.1)
  }

  function Stream(ms: seq<Message>): Text {
    if ms == [] then [] else Sent(ms[0]) + Stream(ms[1..])
  }

  lemma EncodedStart(m: Message)
    requires !m.Invalid?
    ensures Encoded(m) != [] && Encoded(m)[0] == LBRACE
    ensures Encodable(m) ==> Sent(m) != [] && Sent(m)[0] == LBRACE
  {
    ObjectRendered(Tree(m).members, 0);
    hide Render, RenderMembers;
  }

  /** A message is cut out of the stream whole, whatever follows it, exactly when it is sendable. */
  lemma SentFrames(m: Message, rest: Text)
    requires !m.Invalid? && WellFormed(m)
    ensures Frame(Sent(m) + rest) == Success(Encoded(m), rest) <==> Sendable(m)
  {
    hide Encoded, Frame, Enclosed, BalancedText;
    var s := Sent(m) + rest;
    EncodedStart(m);
    assert Encodable(m) ==> s[0] == LBRACE;
    FrameIff(s, Encoded(m), rest);
    EncodedEnclosed(m);
    if |Encoded(m)| > MAX_ENCODED_LEN {
      assert |s| < |Encoded(m) + rest|;
    }
  }

  /** Every list of sendable messages comes back from the stream in order, with nothing left over. */
  lemma {:induction false} StreamRecovery(ms: seq<Message>)
    requires forall i :: 0 <= i < |ms| ==> Sendable(ms[i])
    ensures Drain(Stream(ms)) == (ms, true)
  {
    hide Encoded, Sent, Decode, Frame;
    if ms == [] {
      EmptyFrame();
    } else {
      var m := ms[0];
      SentFrames(m, Stream(ms[1..]));
      DecodeEncoded(m);
      StreamRecovery(ms[1..]);
      assert ms == [m] + ms[1..];
    }
  }

  lemma EmptyFrame()
    ensures Frame([]) == End
  {
  }

  // ---- Bytes that come later change nothing about objects read before ----

  lemma {:induction false} SkippedAppend(a: Text, b: Text)
    ensures Skipped(a) != [] ==> Skipped(a + b) == Skipped(a) + b
    ensures Skipped(a) == [] ==> Skipped(a + b) == Skipped(b)
  {
    if a == [] {
      assert a + b == b;
    } else if IsLineEnd(a[0]) {
      SkippedAppend(a[1..], b);
      assert (a + b)[1..] == a[1..] + b;
    }
  }

  lemma FrameEnds(a: Text)
    ensures Frame(a).End? <==> Skipped(a) == []
  {
    FrameSkips(a);
    SkippedStart(a);
  }

  lemma FrameAppend(a: Text, b: Text)
    ensures Frame(a).Success? ==> Frame(a + b) == Success(Frame(a).obj, Frame(a).rest + b)
    ensures Frame(a).End? ==> Frame(a + b) == Frame(b)
  {
    hide Frame, Enclosed, Skipped;
    SkippedAppend(a, b);
    FrameEnds(a);
    FrameSkips(a + b);
    FrameSkips(b);
    if Frame(a).Success? {
      var obj, rest := Frame(a).obj, Frame(a).rest;
      FrameIff(a, obj, rest);
      FrameIff(a + b, obj, rest + b);
      assert obj + rest + b == obj + (rest + b);
    }
  }

  lemma {:induction false} DrainAppend(a: Text, b: Text)
    requires Drain(a).1
    ensures Drain(a + b) == (Drain(a).0 + Drain(b).0, Drain(b).1)
    decreases |a|
  {
    hide Frame, Received;
    FrameAppend(a, b);
    if Frame(a).Success? {
      DrainAppend(Frame(a).rest, b);
      assert [Received(Frame(a).obj)] + (Drain(Frame(a).rest).0 + Drain(b).0)
          == [Received(Frame(a).obj)] + Drain(Frame(a).rest).0 + Drain(b).0;
    } else {
      DrainSame(a + b, b);
      assert [] + Drain(b).0 == Drain(b).0;
    }
  }

  lemma DrainSame(a: Text, b: Text)
    requires Frame(a) == Frame(b)
    ensures Drain(a) == Drain(b)
  {
  }

  /** The bytes one successful read takes hold just the object, and line ends before it. */
  lemma DrainTaken(s: Text)
    requires Frame(s).Success?
    ensures Drain(s[..|s| - |Frame(s).rest|]) == ([Received(Frame(s).obj)], true)
  {
    hide Frame, Received;
    var obj, rest := Frame(s).obj, Frame(s).rest;
    var taken := s[..|s| - |rest|];
    assert s == taken + rest;
    FrameIff(s, obj, rest);
    SkippedAppend(taken, rest);
    SkippedSuffix(rest);
    assert Skipped(taken) == obj + [] by {
      TakenObject(taken, rest, obj);
    }
    FrameIff(taken, obj, []);
    EmptyFrame();
    assert [Received(obj)] + [] == [Received(obj)];
  }

  /** Whatever bytes are read, what the server makes of them are messages. */
  lemma {:induction false} DrainedWellFormed(s: Text)
    ensures forall i :: 0 <= i < |Drain(s).0| ==> WellFormed(Drain(s).0[i]) && !Drain(s).0[i].Invalid?
    decreases |s|
  {
    hide Frame, Decode;
    var f := Frame(s);
    if f.Success? {
      DrainedWellFormed(f.rest);
      if Decode(f.obj).Some? {
        DecodedWellFormed(f.obj);
      } else {
        NotDecodedPlain();
      }
    }
  }

  lemma {:induction false} SkippedSuffix(s: Text)
    ensures |Skipped(s)| <= |s|
  {
    if s != [] {
      SkippedSuffix(s[1..]);
    }
  }

  lemma TakenObject(taken: Text, rest: Text, obj: Text)
    requires Skipped(taken + rest) == obj + rest && obj != []
    ensures Skipped(taken) == obj + []
  {
    hide Skipped;
    SkippedAppend(taken, rest);
    SkippedSuffix(rest);
    if Skipped(taken) != [] {
      assert (Skipped(taken) + rest)[..|obj|] == Skipped(taken)[..|obj|] == obj by {
        assert |Skipped(taken)| == |obj|;
        assert (obj + rest)[..|obj|] == obj;
      }
    }
  }

  // ---- What is cut short is not decoded ----

  lemma NotDecodedSendable()
    ensures Sendable(SoftError(NOT_DECODED))
  {
    NotDecodedText();
    hide Encoded, Balance, Lowest, ExtraOf;
    EncodedSize(SoftError(NOT_DECODED));
  }

  lemma NotDecodedText()
    ensures NulFree(NOT_DECODED) && |NOT_DECODED| == 24 && ExtraOf(NOT_DECODED) == 0
    ensures Balance(NOT_DECODED) == 0 && Lowest(NOT_DECODED) == 0
  {
    NotDecodedPlain();
    hide *;
    PlainText(NOT_DECODED);
    BracelessNeutral(NOT_DECODED);
  }

  lemma NotDecodedPlain()
    ensures Plain(NOT_DECODED) && |NOT_DECODED| == 24
  {
    assert Plain(Lit("Could not "));
    assert Plain(Lit("decode message"));
  }

  /** What is sent of a message starts with no frame that decodes to it, unless that frame is its whole encoding. */
  lemma CutNotDecoded(m: Message, n: nat)
    requires !m.Invalid? && WellFormed(m)
    ensures n < |Encoded(m)| ==> Decode(Encoded(m)[..n]).None?
  {
    hide *;
    if n < |Encoded(m)| {
      TreePrintable(m);
      EncodedIs(m);
      RenderNulFree(Tree(m), false, 0);
      PrefixNulFree(Encoded(m), n);
      CStringOfNulFree(Encoded(m)[..n]);
      Locality.CutNeverParses(Tree(m), false, n);
      NotParsedNotDecoded(Encoded(m)[..n]);
    }
  }

  lemma EncodedIs(m: Message)
    requires !m.Invalid?
    ensures Encoded(m) == Render(Tree(m), false, 0) && Tree(m).Obj?
  {
    hide Render;
  }

  lemma PrefixNulFree(t: Text, n: nat)
    requires NulFree(t) && n <= |t|
    ensures NulFree(t[..n])
  {
  }

  lemma NotParsedNotDecoded(frame: Text)
    requires CString(frame) == frame && Parser.Parse(frame, false).Fail?
    ensures Decode(frame).None?
  {
    hide Parser.Parse;
  }
}
