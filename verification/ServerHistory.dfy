/** What every step keeps of the story so far: pushes and pops, framed objects, and reports. */
module ServerHistory {
  import opened Bytes
  import opened Messages
  import Framer
  import opened Wire
  import opened KeepAlive
  import opened Server
  import opened ServerInvariants

  /** How many of `items` report that connection `c` closed. */
  function ClosedCount(items: seq<Item>, c: nat): nat {
    if items == [] then 0
    else
      var last := items[|items| - 1];
      ClosedCount(items[..|items| - 1], c) + if last.conn == c && last.cause.Closed? then 1 else 0
  }

  /** The decoded messages among `items` that came from connection `c`. */
  function DecodedOn(items: seq<Item>, c: nat): seq<Message> {
    if items == [] then []
    else
      var last := items[|items| - 1];
      DecodedOn(items[..|items| - 1], c) + if last.conn == c && last.cause.Decoded? then [last.message] else []
  }

  /** What is left of `ms` without the keep-alives. */
  function WithoutKeepAlives(ms: seq<Message>): seq<Message> {
    if ms == [] then []
    else
      var last := ms[|ms| - 1];
      WithoutKeepAlives(ms[..|ms| - 1]) + if last.KeepAlive? then [] else [last]
  }

  /** How many of `ms` are keep-alives. */
  function KeepAlives(ms: seq<Message>): nat {
    if ms == [] then 0
    else KeepAlives(ms[..|ms| - 1]) + if ms[|ms| - 1].KeepAlive? then 1 else 0
  }

  /** After a connection's close was reported, nothing but timeouts is queued for it. */
  predicate Ordered(items: seq<Item>) {
    forall i, j :: 0 <= i < j < |items| && items[i].cause.Closed? && items[j].conn == items[i].conn ==>
      items[j].cause.Timeout?
  }

  /** What an item says, by its cause; a decoded one is a message, and no keep-alive. */
  predicate Worded(item: Item) {
    match item.cause
    case Closed => item.message == SoftError(Lit("Connection closed"))
    case Timeout => item.message == SoftError(Lit("Connection timeout"))
    case Decoded => !item.message.KeepAlive? && !item.message.Invalid? && WellFormed(item.message)
  }

  predicate AllWorded(items: seq<Item>) {
    forall i :: 0 <= i < |items| ==> Worded(items[i])
  }

  lemma PushWorded(items: seq<Item>, item: Item)
    requires AllWorded(items) && Worded(item)
    ensures AllWorded(items + [item])
  {
  }

  /** The pushes that concern a record, and its counters, tell the same story. */
  predicate Told(pushes: seq<Item>, c: nat, k: Conn) {
    ClosedCount(pushes, c) == k.reports
    && DecodedOn(pushes, c) == WithoutKeepAlives(k.frames)
    && Drain(k.read) == (k.frames, true)
    && Refreshes(k.events) == KeepAlives(k.frames)
  }

  predicate History(s: State) {
    s.popped + s.queue == s.pushes && Ordered(s.pushes) && AllWorded(s.pushes)
    && (forall i :: 0 <= i < |s.pushes| ==> s.pushes[i].conn < |s.conns|)
    && forall c :: 0 <= c < |s.conns| ==> Told(s.pushes, c, s.conns[c])
  }

  lemma PushedOne(items: seq<Item>, item: Item, c: nat)
    ensures ClosedCount(items + [item], c)
         == ClosedCount(items, c) + if item.conn == c && item.cause.Closed? then 1 else 0
    ensures DecodedOn(items + [item], c)
         == DecodedOn(items, c) + if item.conn == c && item.cause.Decoded? then [item.message] else []
  {
    assert (items + [item])[..|items|] == items;
  }

  lemma FramedOne(ms: seq<Message>, m: Message)
    ensures WithoutKeepAlives(ms + [m]) == WithoutKeepAlives(ms) + if m.KeepAlive? then [] else [m]
    ensures KeepAlives(ms + [m]) == KeepAlives(ms) + if m.KeepAlive? then 1 else 0
  {
    assert (ms + [m])[..|ms|] == ms;
  }

  lemma {:induction false} NotReported(items: seq<Item>, c: nat)
    requires ClosedCount(items, c) == 0
    ensures forall i :: 0 <= i < |items| && items[i].conn == c ==> !items[i].cause.Closed?
  {
    if items != [] {
      NotReported(items[..|items| - 1], c);
      forall i | 0 <= i < |items| && items[i].conn == c ensures !items[i].cause.Closed? {
        assert i < |items| - 1 ==> items[i] == items[..|items| - 1][i];
      }
    }
  }

  lemma PushOrdered(items: seq<Item>, item: Item)
    requires Ordered(items) && (item.cause.Timeout? || ClosedCount(items, item.conn) == 0)
    ensures Ordered(items + [item])
  {
    if !item.cause.Timeout? {
      NotReported(items, item.conn);
    }
  }

  /** A step that pushes nothing, pops nothing, and touches no counter. */
  predicate Quiet(s: State, s': State) {
    s'.popped == s.popped && s'.queue == s.queue && s'.pushes == s.pushes && |s'.conns| == |s.conns|
    && forall c :: 0 <= c < |s.conns| ==> SameCounts(s.conns[c], s'.conns[c])
  }

  predicate SameCounts(k: Conn, k': Conn) {
    k'.reports == k.reports && k'.frames == k.frames && k'.read == k.read
    && Refreshes(k'.events) == Refreshes(k.events)
  }

  lemma QuietHistory(s: State, s': State)
    requires History(s) && Quiet(s, s')
    ensures History(s')
  {
    hide ClosedCount, DecodedOn, WithoutKeepAlives, KeepAlives, Refreshes, Drain, Ordered, AllWorded;
    forall c | 0 <= c < |s.conns| ensures Told(s'.pushes, c, s'.conns[c]) {
      assert Told(s.pushes, c, s.conns[c]) && SameCounts(s.conns[c], s'.conns[c]);
    }
  }

  /** A push for connection `c`, whose record becomes `k`. */
  lemma PushHistory(s: State, c: nat, k: Conn, item: Item)
    requires History(s) && c < |s.conns| && item.conn == c && Worded(item)
    requires item.cause.Timeout? || ClosedCount(s.pushes, c) == 0
    requires Told(s.pushes + [item], c, k)
    ensures History(Push(SetConn(s, c, k), item))
  {
    hide ClosedCount, DecodedOn, WithoutKeepAlives, KeepAlives, Refreshes, Drain, Ordered, AllWorded;
    var s' := Push(SetConn(s, c, k), item);
    PushOrdered(s.pushes, item);
    PushWorded(s.pushes, item);
    assert s'.popped + s'.queue == s'.pushes by {
      assert s.popped + (s.queue + [item]) == (s.popped + s.queue) + [item];
    }
    forall d | 0 <= d < |s.conns| ensures Told(s'.pushes, d, s'.conns[d]) {
      assert Told(s.pushes, d, s.conns[d]);
      PushedOne(s.pushes, item, d);
    }
  }

  /** Only the counters of `c` change, and nothing is pushed. */
  lemma CountHistory(s: State, c: nat, k: Conn)
    requires History(s) && c < |s.conns| && Told(s.pushes, c, k)
    ensures History(SetConn(s, c, k))
  {
    hide ClosedCount, DecodedOn, WithoutKeepAlives, KeepAlives, Refreshes, Drain, Ordered, AllWorded;
    var s' := SetConn(s, c, k);
    forall d | 0 <= d < |s.conns| ensures Told(s'.pushes, d, s'.conns[d]) {
      assert Told(s.pushes, d, s.conns[d]);
    }
  }

  // ---- Every step keeps the history ----

  lemma IoHistory(s: State, t: nat)
    requires Core(s) && InRange(s) && History(s) && t < |s.threads| && IsIo(s.threads[t])
    ensures History(IoStep(s, t))
  {
    hide Core, History;
    assert Quiet(s, IoStep(s, t));
    QuietHistory(s, IoStep(s, t));
  }

  lemma ReportHistory(s: State, t: nat, c: nat)
    requires History(s) && t < |s.threads| && c < |s.conns| && s.conns[c].reports == 0
    ensures var k := s.conns[c].(reports := s.conns[c].reports + 1);
            History(Jump(Push(SetConn(s, c, k), Item(CONNECTION_CLOSED, c, Closed, s.now)), t, CloseUnlockQueue(c)))
  {
    hide ClosedCount, DecodedOn, WithoutKeepAlives, KeepAlives, Refreshes, Drain, Ordered, AllWorded;
    var k := s.conns[c].(reports := s.conns[c].reports + 1);
    var item := Item(CONNECTION_CLOSED, c, Closed, s.now);
    assert Told(s.pushes, c, s.conns[c]);
    PushedOne(s.pushes, item, c);
    assert DecodedOn(s.pushes, c) + [] == DecodedOn(s.pushes, c);
    PushHistory(s, c, k, item);
    hide History;
    var s' := Push(SetConn(s, c, k), item);
    QuietHistory(s', Jump(s', t, CloseUnlockQueue(c)));
  }

  lemma CloseHistory(s: State, t: nat)
    requires Core(s) && InRange(s) && History(s) && t < |s.threads| && IsClose(s.threads[t])
    ensures History(CloseStep(s, t))
  {
    hide Core, InRange, History;
    Here(s, t);
    if s.threads[t].ClosePush? {
      ReportHistory(s, t, s.threads[t].c);
    } else {
      QuietHistory(s, CloseStep(s, t));
    }
  }

  lemma DestroyHistory(s: State, t: nat)
    requires Core(s) && InRange(s) && History(s) && t < |s.threads| && IsDestroy(s.threads[t])
    ensures History(DestroyStep(s, t))
  {
    hide Core, History;
    assert Quiet(s, DestroyStep(s, t));
    QuietHistory(s, DestroyStep(s, t));
  }

  lemma FetchedHistory(s: State, c: nat, m: Message, taken: Text)
    requires History(s) && c < |s.conns| && s.conns[c].reports == 0 && Drain(taken) == ([m], true)
    ensures History(Fetched(s, c, m, taken))
  {
    hide ClosedCount, DecodedOn, WithoutKeepAlives, KeepAlives, Refreshes, Drain, Ordered, AllWorded;
    assert Told(s.pushes, c, s.conns[c]);
    var k := s.conns[c].(frames := s.conns[c].frames + [m], read := s.conns[c].read + taken);
    DrainAppend(s.conns[c].read, taken);
    DrainedWellFormed(taken);
    assert Drain(taken).0[0] == m;
    FramedOne(s.conns[c].frames, m);
    if m.KeepAlive? {
      assert WithoutKeepAlives(s.conns[c].frames) + [] == WithoutKeepAlives(s.conns[c].frames);
      RefreshesOne(s.conns[c].events, Refresh(s.now));
      CountHistory(s, c, k.(lastKeepAlive := s.now, events := k.events + [Refresh(s.now)]));
    } else {
      var item := Item(m, c, Decoded, s.now);
      PushedOne(s.pushes, item, c);
      PushHistory(s, c, k, item);
    }
  }

  lemma EndHistory(s: State, c: nat, inbox: Text)
    requires History(s) && c < |s.conns| && Framer.Frame(inbox).End?
    ensures History(SetConn(s, c, s.conns[c].(read := s.conns[c].read + inbox)))
  {
    assert Drain(inbox) == ([], true);
    hide ClosedCount, DecodedOn, WithoutKeepAlives, KeepAlives, Refreshes, Drain, Ordered, AllWorded;
    assert Told(s.pushes, c, s.conns[c]);
    DrainAppend(s.conns[c].read, inbox);
    assert s.conns[c].frames + [] == s.conns[c].frames;
    CountHistory(s, c, s.conns[c].(read := s.conns[c].read + inbox));
  }

  lemma FetchedThreads(s: State, c: nat, m: Message, taken: Text)
    requires c < |s.conns|
    ensures Fetched(s, c, m, taken).threads == s.threads
  {
  }

  lemma FetchHistory(s: State, t: nat, c: nat)
    requires History(s) && c < |s.conns| && t < |s.threads| && s.conns[c].reports == 0
    ensures History(FetchStep(s, t, c, Framer.Frame(Arrived(s, s.conns[c].fd))))
  {
    hide Framer.Frame, Drain, Fetched, Received, History;
    var fd := s.conns[c].fd;
    var inbox := Arrived(s, fd);
    var f := Framer.Frame(inbox);
    var rest := if f.End? then [] else f.rest;
    var left := Leave(s, fd, rest);
    LeaveSame(s, fd, rest);
    QuietHistory(s, left);
    hide Leave;
    assert |left.threads| == |s.threads|;
    if f.Success? {
      DrainTaken(inbox);
      var taken := inbox[..|inbox| - |rest|];
      FetchedHistory(left, c, Received(f.obj), taken);
      FetchedThreads(left, c, Received(f.obj), taken);
      var done := Fetched(left, c, Received(f.obj), taken);
      QuietHistory(done, Jump(done, t, ReadUnlockQueue(c)));
    } else if f.Error? {
      QuietHistory(left, FetchStep(s, t, c, f));
    } else {
      EndHistory(left, c, inbox);
      var done := SetConn(left, c, s.conns[c].(read := s.conns[c].read + inbox));
      QuietHistory(done, Jump(done, t, ReadUnlockQueue(c)));
    }
  }

  lemma ReadHistory(s: State, t: nat)
    requires Core(s) && InRange(s) && History(s) && t < |s.threads| && IsRead(s.threads[t])
    ensures History(ReadStep(s, t))
  {
    hide Core, InRange, FetchStep, Framer.Frame, History;
    Here(s, t);
    if s.threads[t].ReadFetch? {
      FetchHistory(s, t, s.threads[t].c);
    } else {
      QuietHistory(s, ReadStep(s, t));
    }
  }

  lemma AcceptHistory(s: State, t: nat, fd: int)
    requires Core(s) && InRange(s) && History(s) && t < |s.threads| && IsAccept(s.threads[t])
    ensures History(AcceptStep(s, t, fd))
  {
    hide Core, History;
    if s.threads[t].AcceptStart? {
      NewRecordHistory(s, t, fd);
    } else {
      QuietHistory(s, AcceptStep(s, t, fd));
    }
  }

  lemma {:induction false} NothingPushed(items: seq<Item>, c: nat)
    requires forall i :: 0 <= i < |items| ==> items[i].conn < c
    ensures ClosedCount(items, c) == 0 && DecodedOn(items, c) == []
  {
    if items != [] {
      NothingPushed(items[..|items| - 1], c);
    }
  }

  lemma NewRecordHistory(s: State, t: nat, fd: int)
    requires InRange(s) && History(s) && t < |s.threads| && s.threads[t].AcceptStart?
    ensures History(AcceptStep(s, t, fd))
  {
    NothingPushed(s.pushes, |s.conns|);
    EmptyFrame();
    assert Drain([]) == ([], true);
    hide ClosedCount, DecodedOn, Drain, Ordered, AllWorded;
    var s' := AcceptStep(s, t, fd);
    forall c | 0 <= c < |s'.conns| ensures Told(s'.pushes, c, s'.conns[c]) {
      if c < |s.conns| {
        assert Told(s.pushes, c, s.conns[c]);
      }
    }
  }

  lemma TimeoutHistory(s: State, t: nat, c: nat, at: int, todo: set<int>)
    requires History(s) && t < |s.threads| && c < |s.conns|
    ensures var item := Item(CONNECTION_TIMEOUT, c, Timeout, at);
            History(Jump(Push(SetConn(s, c, Ended(s.conns[c], true)), item), t, ScanUnlockQueue(todo)))
  {
    hide ClosedCount, DecodedOn, WithoutKeepAlives, KeepAlives, Refreshes, Drain, Ordered, AllWorded;
    var item := Item(CONNECTION_TIMEOUT, c, Timeout, at);
    assert Told(s.pushes, c, s.conns[c]);
    PushedOne(s.pushes, item, c);
    assert DecodedOn(s.pushes, c) + [] == DecodedOn(s.pushes, c);
    PushHistory(s, c, Ended(s.conns[c], true), item);
    hide History;
    var s' := Push(SetConn(s, c, Ended(s.conns[c], true)), item);
    QuietHistory(s', Jump(s', t, ScanUnlockQueue(todo)));
  }

  lemma VisitHistory(s: State, t: nat, todo: set<int>, c: nat)
    requires History(s) && t < |s.threads| && c < |s.conns|
    ensures History(Visit(s, t, todo, c))
  {
    hide History, Refreshes;
    RefreshesOne(s.conns[c].events, Check(s.now));
    QuietHistory(s, Visit(s, t, todo, c));
  }

  lemma ScanHistory(s: State, t: nat, fd: int)
    requires Core(s) && InRange(s) && History(s) && t < |s.threads| && IsScan(s.threads[t])
    ensures History(ScanStep(s, t, fd))
  {
    hide Core, InRange, History, Visit;
    Here(s, t);
    var pc := s.threads[t];
    if pc.ScanPush? {
      TimeoutHistory(s, t, pc.c, pc.at, pc.todo);
    } else if pc.ScanNext? && pc.todo != {} && fd in s.table {
      HereTable(s, fd);
      VisitHistory(s, t, pc.todo - {fd}, s.table[fd]);
    } else {
      QuietHistory(s, ScanStep(s, t, fd));
    }
  }

  lemma HeadPopped(s: State)
    requires History(s) && s.queue != []
    ensures History(s.(popped := s.popped + [s.queue[0]], queue := s.queue[1..]))
  {
    hide Told, Ordered;
    assert s.popped + [s.queue[0]] + s.queue[1..] == s.popped + s.queue;
  }

  lemma PopHistory(s: State, t: nat)
    requires History(s) && t < |s.threads|
    ensures History(PopStep(s, t))
  {
    hide History;
    if s.threads[t].PopHead? && s.queue != [] {
      HeadPopped(s);
      QuietHistory(s.(popped := s.popped + [s.queue[0]], queue := s.queue[1..]), PopStep(s, t));
    } else {
      QuietHistory(s, PopStep(s, t));
    }
  }

  lemma NextHistory(s: State, a: Action)
    requires Core(s) && InRange(s) && Enabled(s, a) && History(s)
    ensures History(Next(s, a))
  {
    hide Core, InRange, History, IoStep, CloseStep, DestroyStep, ReadStep, AcceptStep, ScanStep, PopStep;
    match a
    case Go(t, fd) =>
      var pc := s.threads[t];
      if IsIo(pc) {
        IoHistory(s, t);
      } else if IsClose(pc) {
        CloseHistory(s, t);
      } else if IsDestroy(pc) {
        DestroyHistory(s, t);
      } else if IsRead(pc) {
        ReadHistory(s, t);
      } else if IsAccept(pc) {
        AcceptHistory(s, t, fd);
      } else if IsScan(pc) {
        ScanHistory(s, t, fd);
      } else {
        PopHistory(s, t);
      }
    case Start(pc) => QuietHistory(s, Next(s, a));
    case Arrive(fd, bytes) => QuietHistory(s, Next(s, a));
    case Tick => QuietHistory(s, Next(s, a));
  }
}
