/** The sender: one socket, shared by the caller and the keep-alive timer, and the bytes it puts on the stream. */
module Sending {
  import opened Bytes
  import opened Json
  import opened Messages
  import MessageTree
  import opened Wire
  import Streams

  // ---- The keep-alive literal ----

  const HEAD: Text := Lit("{\"version\":2,")
  const MIDDLE: Text := Lit("\"data\":{},")
  const TYPE_KEY: Text := Lit("\"type\":")
  const TAIL: Text := Lit("\"KEEP_ALIVE\"}")

  const KEEP_ALIVE_MSG: Text := HEAD + (MIDDLE + (TYPE_KEY + TAIL))

  lemma HeadText()
    ensures [LBRACE] + ([QUOTE] + VERSION + [QUOTE, COLON] + [ZERO as int + 2] + [COMMA]) == HEAD
  {
  }

  lemma MiddleText()
    ensures [QUOTE] + DATA + [QUOTE, COLON] + [LBRACE, RBRACE] + [COMMA] == MIDDLE
  {
  }

  lemma TailText()
    ensures [QUOTE] + TYPE + [QUOTE, COLON] == TYPE_KEY
    ensures [QUOTE] + KEEP_ALIVE + [QUOTE] + [RBRACE] == TAIL
  {
  }

  lemma Regroup(a: Text, b: Text, c: Text, d: Text, e: Text, f: Text)
    ensures [LBRACE] + ((a + b + ([COMMA] + (c + d + ([COMMA] + (e + f + []))))) + [RBRACE])
         == ([LBRACE] + (a + b + [COMMA])) + ((c + d + [COMMA]) + (e + (f + [RBRACE])))
  {
    assert e + f + [] == e + f;
    var tail := e + (f + [RBRACE]);
    assert (e + f) + [RBRACE] == tail;
    assert (c + d + ([COMMA] + (e + f))) + [RBRACE] == (c + d + [COMMA]) + tail;
    assert (a + b + ([COMMA] + (c + d + ([COMMA] + (e + f))))) + [RBRACE]
        == (a + b + [COMMA]) + ((c + d + ([COMMA] + (e + f))) + [RBRACE]);
  }

  /** An object of a version, an empty object and a name, on the wire. */
  lemma EmptyDataText(version: Text, data: Text, kind: Text, name: Text)
    requires Plain(version) && Plain(data) && Plain(kind) && Plain(name)
    ensures Render(Obj(MCons(version, Num(FORMAT_VERSION), MCons(data, Obj(MNil), MCons(kind, Str(name), MNil)))),
                   false, 0)
         == ([LBRACE] + ([QUOTE] + version + [QUOTE, COLON] + [ZERO as int + 2] + [COMMA]))
            + (([QUOTE] + data + [QUOTE, COLON] + [LBRACE, RBRACE] + [COMMA])
            + (([QUOTE] + kind + [QUOTE, COLON]) + (([QUOTE] + name + [QUOTE]) + [RBRACE])))
  {
    hide *;
    var last := MCons(kind, Str(name), MNil);
    var both := MCons(data, Obj(MNil), last);
    ObjectRendered(MNil, 1);
    NothingRendered(2);
    assert [] + [RBRACE] == [RBRACE];
    VersionSize();
    StringRendered(name, 1);
    PlainQuoted(name);
    MemberText(kind, Str(name), MNil, 1);
    MemberText(data, Obj(MNil), last, 1);
    MemberText(version, Num(FORMAT_VERSION), both, 1);
    ObjectRendered(MCons(version, Num(FORMAT_VERSION), both), 0);
    Regroup([QUOTE] + version + [QUOTE, COLON], [ZERO as int + 2], [QUOTE] + data + [QUOTE, COLON], [LBRACE, RBRACE],
            [QUOTE] + kind + [QUOTE, COLON], [QUOTE] + name + [QUOTE]);
  }

  lemma KeepAliveTree()
    ensures Encoded(KeepAlive)
         == Render(Obj(MCons(VERSION, Num(FORMAT_VERSION), MCons(DATA, Obj(MNil), MCons(TYPE, Str(KEEP_ALIVE), MNil)))),
                   false, 0)
  {
    NoData();
  }

  /** The text the timer sends is the encoding of a keep-alive message. */
  lemma KeepAliveLiteral()
    ensures Encoded(KeepAlive) == KEEP_ALIVE_MSG
  {
    hide *;
    NamesPlain(KeepAlive);
    KeepAliveName();
    HeadText();
    MiddleText();
    TailText();
    KeepAliveTree();
    EmptyDataText(VERSION, DATA, TYPE, KEEP_ALIVE);
  }

  lemma KeepAliveName()
    ensures TypeName(KeepAlive) == KEEP_ALIVE && KEEP_ALIVE_MSG == HEAD + (MIDDLE + (TYPE_KEY + TAIL))
  {
  }

  // ---- Sending ----

  lemma {:induction false} StreamAppend(ms: seq<Message>, m: Message)
    ensures Stream(ms + [m]) == Stream(ms) + Sent(m)
  {
    hide Sent;
    if ms == [] {
      assert [m][1..] == [] && [] + [m] == [m];
      assert Sent(m) + [] == Sent(m);
    } else {
      StreamAppend(ms[1..], m);
      assert (ms + [m])[1..] == ms[1..] + [m];
    }
  }

  const NO_FD: int := -1

  class Sender {
    var sendingFd: int
    var timerArmed: bool
    /** What the connection has carried so far. */
    var stream: Text
    /** The messages written in full, those before any write stopped in the middle, and whether none did. */
    ghost var sent: seq<Message>
    ghost var clean: seq<Message>
    ghost var whole: bool

    ghost predicate Valid()
      reads this
    {
      Stream(clean) <= stream && clean <= sent && (whole ==> stream == Stream(sent) && clean == sent)
    }

    constructor ()
      ensures Valid() && sendingFd == NO_FD && !timerArmed && sent == [] && whole
    {
      sendingFd, timerArmed, stream := NO_FD, false, [];
      sent, clean, whole := [], [], true;
    }

    /** `fd` is what `socket` returns; `connected` and `armed` are how `connect` and the timer come out. */
    method StartSending(fd: int, connected: bool, armed: bool) returns (ok: bool)
      modifies this
      ensures ok <==> fd != NO_FD && connected && armed
      ensures sendingFd == fd && stream == [] && sent == [] && whole && Valid()
      ensures timerArmed == if fd != NO_FD && connected then armed else old(timerArmed)
    {
      sendingFd, stream := fd, [];
      sent, clean, whole := [], [], true;
      if fd == NO_FD || !connected {
        return false;
      }
      timerArmed := armed;
      ok := armed;
    }

    /** What `write` takes of `n` bytes when the kernel would take `room`; an error is a negative `room`. */
    function Taken(n: nat, room: int): nat
      reads this
    {
      if sendingFd == NO_FD || room < 0 then 0 else if room < n then room else n
    }

    /** `room` is how many bytes the kernel accepts in this call. */
    method SendEncodedMessage(encoded: array<byte>, ghost t: Text, room: int) returns (ok: bool)
      requires MessageTree.Holds(encoded, t) && |t| > 0
      modifies this`stream
      ensures var n := Least(|t|, MAX_ENCODED_LEN);
              stream == old(stream) + t[..Taken(n, room)] && (ok <==> Taken(n, room) == n)
    {
      var expectedCount := MessageTree.Strnlen(encoded, MAX_ENCODED_LEN, t);
      var count := Taken(expectedCount, room);
      assert encoded[..count] == encoded[..|t|][..count];
      stream := stream + encoded[..count];
      ok := count == expectedCount;
    }

    /**
      `send_message`: the first bytes of the message went out, as many as the kernel took, and it reports success
      exactly when that was all of them. After a failure in the middle of a write the stream is no longer whole.
     */
    method SendMessage(m: Message, room: int) returns (ok: bool)
      requires Valid() && WellFormed(m)
      modifies this
      ensures Valid() && sendingFd == old(sendingFd) && timerArmed == old(timerArmed)
      ensures stream == old(stream) + Sent(m)[..Taken(|Sent(m)|, room)]
      ensures ok <==> Encodable(m) && sendingFd != NO_FD && room >= |Sent(m)|
      ensures if ok then sent == old(sent) + [m] && whole == old(whole)
              else sent == old(sent) && whole == (old(whole) && stream == old(stream))
      ensures clean == if ok && whole then sent else old(clean)
    {
      hide Encoded, Sent, Stream, MessageTree.Holds;
      SentIs(m);
      assert old(stream) + [] == old(stream);
      var len, encoded := MessageTree.EncodeMessage(m);
      if encoded.None? {
        return false;
      }
      ok := SendEncodedMessage(encoded.value, Encoded(m), room);
      assert Encoded(m)[..Taken(|Sent(m)|, room)] == Encoded(m)[..|Sent(m)|][..Taken(|Sent(m)|, room)];
      Record(m, ok, old(stream));
    }

    /** Notes in the ghost state what the last write did. */
    ghost method Record(m: Message, ok: bool, before: Text)
      requires Stream(clean) <= before <= stream && clean <= sent
      requires whole ==> before == Stream(sent) && clean == sent
      requires ok ==> stream == before + Sent(m)
      modifies this`sent, this`clean, this`whole
      ensures Valid()
      ensures if ok then sent == old(sent) + [m] && whole == old(whole) else sent == old(sent)
      ensures clean == if ok && whole then sent else old(clean)
      ensures !ok ==> whole == (old(whole) && stream == before)
    {
      if ok {
        StreamAppend(sent, m);
        sent := sent + [m];
        clean := if whole then sent else clean;
      } else {
        whole := whole && stream == before;
      }
    }

    /** The timer's message; nobody looks at the outcome, so a write that stops in the middle goes unnoticed. */
    method SendKeepAlive(room: int)
      requires Valid()
      modifies this
      ensures Valid() && sendingFd == old(sendingFd) && timerArmed == old(timerArmed)
      ensures stream == old(stream) + KEEP_ALIVE_MSG[..Taken(|KEEP_ALIVE_MSG|, room)]
      ensures if sendingFd != NO_FD && room >= |KEEP_ALIVE_MSG| then
                sent == old(sent) + [KeepAlive] && whole == old(whole) && clean == if whole then sent else old(clean)
              else sent == old(sent) && clean == old(clean) && whole == (old(whole) && stream == old(stream))
    {
      hide Encoded, Sent, Stream, MessageTree.Holds;
      KeepAliveLiteral();
      KeepAliveShort();
      SentIs(KeepAlive);
      var literal := new byte[|KEEP_ALIVE_MSG| + 1](i => if 0 <= i < |KEEP_ALIVE_MSG| then KEEP_ALIVE_MSG[i] else NUL);
      assert literal[..|KEEP_ALIVE_MSG|] == KEEP_ALIVE_MSG;
      MessageTree.HoldsText(literal, KEEP_ALIVE_MSG);
      var ok := SendEncodedMessage(literal, KEEP_ALIVE_MSG, room);
      Record(KeepAlive, ok, old(stream));
    }

    method StopSending()
      modifies this`sendingFd, this`timerArmed
      ensures sendingFd == NO_FD && !timerArmed
    {
      timerArmed := false;
      sendingFd := NO_FD;
    }
  }

  lemma SentIs(m: Message)
    ensures Encodable(m) ==>
              |Encoded(m)| > 0 && Least(|Encoded(m)|, MAX_ENCODED_LEN) == |Sent(m)|
              && Encoded(m)[..|Sent(m)|] == Sent(m)
    ensures !Encodable(m) ==> Sent(m) == []
  {
    if Encodable(m) {
      EncodedStart(m);
    }
  }

  lemma KeepAliveShort()
    ensures NulFree(KEEP_ALIVE_MSG) && |KEEP_ALIVE_MSG| == 43
  {
    KeepAliveLiteral();
    TreePrintable(KeepAlive);
    RenderNulFree(Tree(KeepAlive), false, 0);
  }

  /**
    All that was sent in full, and no more, comes back on the other side exactly when each message is sendable, if no
    write stopped in the middle. If one did, the messages sent before come back first, if they are sendable.
   */
  lemma SentIsReceived(s: Sender)
    requires s.Valid()
    ensures s.whole && Streams.AllWellFormed(s.sent) ==>
              (Drain(s.stream) == (s.sent, true) <==> forall i :: 0 <= i < |s.sent| ==> Sendable(s.sent[i]))
    ensures s.whole && Streams.AllWellFormed(s.sent) ==> Streams.Among(Drain(s.stream).0, s.sent)
    ensures (forall i :: 0 <= i < |s.clean| ==> Sendable(s.clean[i])) ==> s.clean <= Drain(s.stream).0
  {
    hide Drain, Stream, Streams.Among, Streams.AllWellFormed, Sendable;
    if s.whole && Streams.AllWellFormed(s.sent) {
      Streams.StreamIff(s.sent);
      Streams.StreamAmong(s.sent);
    }
    if forall i :: 0 <= i < |s.clean| ==> Sendable(s.clean[i]) {
      var rest := s.stream[|Stream(s.clean)|..];
      assert s.stream == Stream(s.clean) + rest;
      StreamRecovery(s.clean);
      DrainAppend(Stream(s.clean), rest);
    }
  }
}
