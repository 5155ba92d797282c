/** What holds over whole runs of the server: reports, teardowns, queue accounting, timing, and no cyclic wait. */
module ServerRuns {
  import opened Bytes
  import opened Messages
  import opened Framer
  import opened Wire
  import opened Streams
  import opened KeepAlive
  import opened Server
  import opened ServerInvariants
  import opened ServerHistory
  import opened ServerArrivals
  import opened ServerTimes

  // ---- Runs ----

  ghost predicate Runs(s: State, actions: seq<Action>, s': State)
    decreases |actions|
  {
    if actions == [] then s == s'
    else InRange(s) && Enabled(s, actions[0]) && Runs(Next(s, actions[0]), actions[1..], s')
  }

  /** The server can get into state `s`. */
  ghost predicate Reachable(s: State) {
    exists now, actions :: Runs(Initial(now), actions, s)
  }

  /** What every step keeps, all together. */
  predicate AllKept(s: State) {
    Core(s) && InRange(s) && History(s) && Conserved(s) && Clocked(s)
  }

  lemma StepKeeps(s: State, a: Action)
    requires AllKept(s) && Enabled(s, a)
    ensures AllKept(Next(s, a))
  {
    hide Core, InRange, History, Conserved, Clocked, Next, Enabled;
    NextKeeps(s, a);
    NextHistory(s, a);
    NextConserves(s, a);
    NextClocked(s, a);
  }

  lemma {:induction false} RunsKeep(s: State, actions: seq<Action>, s': State)
    requires AllKept(s) && Runs(s, actions, s')
    ensures AllKept(s')
    decreases |actions|
  {
    hide AllKept, InRange, Next, Enabled;
    if actions != [] {
      KeptInRange(s);
      StepKeeps(s, actions[0]);
      RunsKeep(Next(s, actions[0]), actions[1..], s');
    }
  }

  lemma KeptInRange(s: State)
    requires AllKept(s)
    ensures InRange(s)
  {
  }

  lemma InitialKept(now: int)
    ensures AllKept(Initial(now))
  {
    InitialCore(now);
  }

  lemma Invariants(s: State)
    requires Reachable(s)
    ensures AllKept(s) && Core(s) && InRange(s) && History(s) && Conserved(s) && Clocked(s)
  {
    hide Core, InRange, History, Conserved, Clocked, Runs;
    var now, actions :| Runs(Initial(now), actions, s);
    InitialKept(now);
    RunsKeep(Initial(now), actions, s);
  }

  // ---- Teardown and reports ----

  /**
    However many handlers looked a connection up, it is taken out of the table at most once and its close is
    reported at most once; once it is reported, no decoded message of it is queued any more.
   */
  lemma TeardownAtMostOnce(s: State, c: nat)
    requires Reachable(s) && c < |s.conns|
    ensures s.conns[c].removals <= 1 && (s.conns[c].removals == 1 <==> s.conns[c].destroyed)
    ensures ClosedCount(s.pushes, c) <= 1
    ensures forall i, j :: 0 <= i < j < |s.pushes| && s.pushes[i].cause.Closed? ==>
              s.pushes[i].conn == c && s.pushes[j].conn == c ==> s.pushes[j].cause.Timeout?
  {
    hide Drain, ClosedCount, DecodedOn, WithoutKeepAlives, AllKept, Conserved, Clocked, Reachable;
    Invariants(s);
    assert ConnOk(s.conns[c], s.open.Keys) && Told(s.pushes, c, s.conns[c]);
  }

  /** A connection that was torn down was either reported closed, or a read from it failed on the bytes it took. */
  lemma TeardownCause(s: State, c: nat)
    requires Reachable(s) && c < |s.conns| && s.conns[c].destroyed
    ensures if ClosedCount(s.pushes, c) == 1 then s.conns[c].lost == []
            else ClosedCount(s.pushes, c) == 0 && Frame(s.conns[c].lost).Error?
  {
    hide Drain, ClosedCount, DecodedOn, WithoutKeepAlives, Frame, AllKept, Conserved, Clocked, Reachable;
    Invariants(s);
    assert ConnOk(s.conns[c], s.open.Keys) && Told(s.pushes, c, s.conns[c]);
  }

  /** The thread has made up its mind to tear connection `c` down. */
  predicate TearsDown(pc: Pc, c: nat) {
    (pc.CloseWantQueue? || pc.ClosePush? || pc.CloseUnlockQueue? || pc.DestroyWantTable? || pc.DestroyRemove?)
    && pc.c == c
  }

  /**
    A thread decides to tear a connection down exactly when nothing has arrived that was not read yet, as it looks,
    or what it then reads fails; whether the peer closed plays no part.
   */
  lemma TornDownWhen(s: State, a: Action, t: nat, c: nat)
    requires Core(s) && InRange(s) && Enabled(s, a) && t < |s.threads| && c < |s.conns| && !TearsDown(s.threads[t], c)
    ensures |Next(s, a).threads| >= |s.threads|
    ensures TearsDown(Next(s, a).threads[t], c) <==>
            a.Go? && a.t == t
            && ((s.threads[t] == IoPeek(s.conns[c].fd, c) && Arrived(s, s.conns[c].fd) == [])
                || (s.threads[t] == ReadFetch(c) && Frame(Arrived(s, s.conns[c].fd)).Error?))
  {
    hide Core, InRange, Frame;
    Here(s, t);
    if a.Go? && a.t == t {
      Decides(s, t, a.fd, c);
    } else {
      NextLeaves(s, a, t);
    }
  }

  lemma Decides(s: State, t: nat, fd: int, c: nat)
    requires Core(s) && InRange(s) && Runnable(s, t) && c < |s.conns| && !TearsDown(s.threads[t], c)
    ensures |ThreadStep(s, t, fd).threads| == |s.threads|
    ensures TearsDown(ThreadStep(s, t, fd).threads[t], c) <==>
            (s.threads[t] == IoPeek(s.conns[c].fd, c) && Arrived(s, s.conns[c].fd) == [])
            || (s.threads[t] == ReadFetch(c) && Frame(Arrived(s, s.conns[c].fd)).Error?)
  {
    Here(s, t);
    hide Core, Frame, InRange, FetchStep, IoStep, CloseStep, DestroyStep, ReadStep, AcceptStep, ScanStep, PopStep;
    StepMoves(s, t, fd);
    var pc := s.threads[t];
    if IsIo(pc) {
      IoDecides(s, t, c);
    } else if IsRead(pc) {
      ReadDecides(s, t, c);
    } else {
      assert StillUndecided(s, ThreadStep(s, t, fd), t);
    }
  }

  lemma IoDecides(s: State, t: nat, c: nat)
    requires InRange(s) && t < |s.threads| && IsIo(s.threads[t]) && c < |s.conns|
    requires s.threads[t].IoPeek? ==> s.conns[s.threads[t].c].fd == s.threads[t].fd
    ensures |IoStep(s, t).threads| == |s.threads|
    ensures TearsDown(IoStep(s, t).threads[t], c) <==>
            s.threads[t] == IoPeek(s.conns[c].fd, c) && Arrived(s, s.conns[c].fd) == []
  {
  }

  lemma ReadDecides(s: State, t: nat, c: nat)
    requires InRange(s) && t < |s.threads| && IsRead(s.threads[t]) && c < |s.conns|
    ensures |ReadStep(s, t).threads| == |s.threads|
    ensures TearsDown(ReadStep(s, t).threads[t], c) <==>
            s.threads[t] == ReadFetch(c) && Frame(Arrived(s, s.conns[c].fd)).Error?
  {
    hide Frame, FetchStep;
    if s.threads[t].ReadFetch? {
      FetchedPc(s, t, s.threads[t].c);
    }
  }

  /** Where a thread goes on after reading. */
  lemma FetchedPc(s: State, t: nat, c: nat)
    requires c < |s.conns| && t < |s.threads|
    ensures var f := Frame(Arrived(s, s.conns[c].fd));
            var pc := if f.Error? then DestroyWantTable(c, true) else ReadUnlockQueue(c);
            FetchStep(s, t, c, f).threads == s.threads[t := pc] && DeadStay(s, FetchStep(s, t, c, f))
  {
    hide Frame, Received;
  }

  /** A step leaves every other thread where it is. */
  lemma NextLeaves(s: State, a: Action, t: nat)
    requires InRange(s) && Enabled(s, a) && t < |s.threads| && !(a.Go? && a.t == t)
    ensures |Next(s, a).threads| >= |s.threads| && Next(s, a).threads[t] == s.threads[t]
  {
    if a.Go? {
      StepLeaves(s, a.t, a.fd, t);
    }
  }

  lemma StepLeaves(s: State, u: nat, fd: int, t: nat)
    requires InRange(s) && Runnable(s, u) && t < |s.threads| && t != u
    ensures var s' := ThreadStep(s, u, fd); |s'.threads| == |s.threads| && s'.threads[t] == s.threads[t]
  {
    hide ThreadStep, InRange, Runnable;
    StepMoves(s, u, fd);
  }

  /** Thread `t` alone goes on, and no record that was freed comes back. */
  predicate Alone(s: State, s': State, t: nat) {
    |s'.threads| == |s.threads| && t < |s.threads| && s'.threads == s.threads[t := s'.threads[t]] && DeadStay(s, s')
  }

  predicate DeadStay(s: State, s': State) {
    |s.conns| <= |s'.conns| && forall c :: 0 <= c < |s.conns| && s.conns[c].destroyed ==> s'.conns[c].destroyed
  }

  /** It tears nothing down that it did not tear down before. */
  ghost predicate StillUndecided(s: State, s': State, t: nat)
    requires Alone(s, s', t)
  {
    forall c: nat :: TearsDown(s'.threads[t], c) ==> TearsDown(s.threads[t], c)
  }

  lemma IoMove(s: State, t: nat)
    requires InRange(s) && t < |s.threads| && IsIo(s.threads[t])
    ensures Alone(s, IoStep(s, t), t)
  {
  }

  lemma CloseMove(s: State, t: nat)
    requires InRange(s) && t < |s.threads| && IsClose(s.threads[t])
    ensures Alone(s, CloseStep(s, t), t) && StillUndecided(s, CloseStep(s, t), t)
  {
  }

  lemma DestroyMove(s: State, t: nat)
    requires InRange(s) && t < |s.threads| && IsDestroy(s.threads[t])
    ensures Alone(s, DestroyStep(s, t), t) && StillUndecided(s, DestroyStep(s, t), t)
  {
  }

  lemma ReadMove(s: State, t: nat)
    requires InRange(s) && t < |s.threads| && IsRead(s.threads[t])
    ensures Alone(s, ReadStep(s, t), t)
  {
    hide FetchStep, Frame;
    if s.threads[t].ReadFetch? {
      FetchedPc(s, t, s.threads[t].c);
    }
  }

  lemma AcceptMove(s: State, t: nat, fd: int)
    requires InRange(s) && t < |s.threads| && IsAccept(s.threads[t])
    ensures Alone(s, AcceptStep(s, t, fd), t) && StillUndecided(s, AcceptStep(s, t, fd), t)
  {
  }

  lemma ScanMove(s: State, t: nat, fd: int)
    requires InRange(s) && t < |s.threads| && IsScan(s.threads[t])
    ensures Alone(s, ScanStep(s, t, fd), t) && StillUndecided(s, ScanStep(s, t, fd), t)
  {
  }

  lemma PopMove(s: State, t: nat)
    requires InRange(s) && t < |s.threads| && !IsClose(s.threads[t]) && !IsDestroy(s.threads[t])
    ensures Alone(s, PopStep(s, t), t) && StillUndecided(s, PopStep(s, t), t)
  {
  }

  lemma StepMoves(s: State, t: nat, fd: int)
    requires InRange(s) && Runnable(s, t)
    ensures var s' := ThreadStep(s, t, fd);
            Alone(s, s', t) && (IsIo(s.threads[t]) || IsRead(s.threads[t]) || StillUndecided(s, s', t))
  {
    hide InRange, Alone, StillUndecided, TearsDown;
    hide IoStep, CloseStep, DestroyStep, ReadStep, AcceptStep, ScanStep, PopStep;
    var pc := s.threads[t];
    if IsIo(pc) {
      IoMove(s, t);
    } else if IsClose(pc) {
      CloseMove(s, t);
    } else if IsDestroy(pc) {
      DestroyMove(s, t);
    } else if IsRead(pc) {
      ReadMove(s, t);
    } else if IsAccept(pc) {
      AcceptMove(s, t, fd);
    } else if IsScan(pc) {
      ScanMove(s, t, fd);
    } else {
      PopMove(s, t);
    }
  }

  // ---- Descriptors ----

  /**
    Table keys are open descriptors equal to their records', records with an open descriptor never share it, the
    duplicate-entry exit is not taken, and a handler's record always has the descriptor of its signal.
   */
  lemma DescriptorsUnique(s: State)
    requires Reachable(s)
    ensures forall fd :: fd in s.table ==>
              s.table[fd] < |s.conns| && s.conns[s.table[fd]].fd == fd && fd in s.open && !s.conns[s.table[fd]].closed
    ensures forall c, d :: 0 <= c < d < |s.conns| && !s.conns[c].closed && !s.conns[d].closed ==>
              s.conns[c].fd != s.conns[d].fd
    ensures !s.crashed
    ensures forall t :: 0 <= t < |s.threads| && s.threads[t].IoWantConn? ==>
              s.threads[t].c < |s.conns| && s.conns[s.threads[t].c].fd == s.threads[t].fd
  {
    hide History, AllKept, Conserved, Clocked, Reachable;
    Invariants(s);
    forall fd | fd in s.table ensures fd in s.open && !s.conns[s.table[fd]].closed {
      assert ConnOk(s.conns[s.table[fd]], s.open.Keys);
    }
    forall t | 0 <= t < |s.threads| && s.threads[t].IoWantConn?
      ensures s.threads[t].c < |s.conns| && s.conns[s.threads[t].c].fd == s.threads[t].fd
    {
      assert PcOk(s.conns, s.table, t, s.threads[t]);
    }
  }

  // ---- Accounting ----

  /**
    What was popped and what is queued are all pushes in order; the decoded pushes of a connection are its framed
    objects in order without the keep-alives, each of which refreshed it instead; the framed objects are those that
    the bytes read from it hold; and the bytes read, those a failed read took and those waiting are what arrived.
   */
  lemma Accounting(s: State, c: nat)
    requires Reachable(s) && c < |s.conns|
    ensures s.popped + s.queue == s.pushes
    ensures DecodedOn(s.pushes, c) == WithoutKeepAlives(s.conns[c].frames)
    ensures Drain(s.conns[c].read) == (s.conns[c].frames, true)
    ensures Refreshes(s.conns[c].events) == KeepAlives(s.conns[c].frames)
    ensures forall i :: 0 <= i < |s.conns[c].frames| ==>
              WellFormed(s.conns[c].frames[i]) && !s.conns[c].frames[i].Invalid?
    ensures var k := s.conns[c];
            if k.closed then k.read + k.lost <= k.arrived
            else k.read + k.lost + Arrived(s, k.fd) == k.arrived
    ensures s.conns[c].lost != [] ==> Frame(s.conns[c].lost).Error?
  {
    hide Drain, ClosedCount, DecodedOn, WithoutKeepAlives, AllKept, Clocked, Reachable;
    Invariants(s);
    assert Told(s.pushes, c, s.conns[c]) && BytesKept(s.conns[c], s.open);
    DrainedWellFormed(s.conns[c].read);
    if s.conns[c].lost != [] {
      LostRefused(s, c);
    }
  }

  lemma LostRefused(s: State, c: nat)
    requires Core(s) && c < |s.conns| && s.conns[c].lost != []
    ensures Frame(s.conns[c].lost).Error?
  {
    assert ConnOk(s.conns[c], s.open.Keys);
    if s.conns[c].owner.Some? {
      assert ConnLock(s.threads, c, s.conns[c].owner);
      Here(s, s.conns[c].owner.value);
    }
  }

  /**
    What a caller is told: whatever was or will be popped says "Connection closed" if its connection was reported
    closed, "Connection timeout" if it was overdue, and otherwise what a frame held, or "Could not decode message".
   */
  lemma ItemTexts(s: State, item: Item)
    requires Reachable(s) && (item in s.popped || item in s.queue)
    ensures item.cause.Closed? ==> item.message == SoftError(Lit("Connection closed"))
    ensures item.cause.Timeout? ==> item.message == SoftError(Lit("Connection timeout"))
    ensures item.cause.Decoded? ==>
              WellFormed(item.message) && !item.message.KeepAlive? && !item.message.Invalid?
  {
    hide Core, InRange, Conserved, Clocked, AllKept, Reachable, Told, Ordered, History;
    Invariants(s);
    assert s.popped + s.queue == s.pushes && AllWorded(s.pushes) by {
      HistoryWorded(s);
    }
    assert item in s.pushes;
    var i :| 0 <= i < |s.pushes| && s.pushes[i] == item;
    assert Worded(s.pushes[i]);
  }

  lemma HistoryWorded(s: State)
    requires History(s)
    ensures s.popped + s.queue == s.pushes && AllWorded(s.pushes)
  {
  }

  /** What the server makes of a frame that does not decode. */
  lemma UndecodedText(obj: Text)
    requires Decode(obj).None?
    ensures Received(obj) == SoftError(Lit("Could not ") + Lit("decode message"))
  {
  }

  lemma {:induction false} WithoutAppend(a: seq<Message>, b: seq<Message>)
    ensures WithoutKeepAlives(a + b) == WithoutKeepAlives(a) + WithoutKeepAlives(b)
  {
    if b == [] {
      assert a + b == a;
    } else {
      var n := |b| - 1;
      WithoutAppend(a, b[..n]);
      assert (a + b)[..|a| + n] == a + b[..n];
    }
  }

  /**
    From the sender's call to the server's queue: while what arrived is the beginning of a stream of sendable messages,
    however it was split up, the pushes are the first of these messages in order without the keep-alives, and they are
    all of them once the whole stream has been read.
   */
  lemma SentIsQueued(s: State, c: nat, ms: seq<Message>)
    requires Reachable(s) && c < |s.conns| && s.conns[c].arrived <= Stream(ms)
    requires forall i :: 0 <= i < |ms| ==> Sendable(ms[i])
    ensures s.conns[c].frames <= ms
    ensures DecodedOn(s.pushes, c) == WithoutKeepAlives(s.conns[c].frames) <= WithoutKeepAlives(ms)
    ensures s.conns[c].read == Stream(ms) ==> DecodedOn(s.pushes, c) == WithoutKeepAlives(ms)
  {
    hide Drain, DecodedOn, WithoutKeepAlives, Reachable, Sendable, Stream;
    StreamRecovery(ms);
    var rest := ReadDrains(s, c, Stream(ms));
    assert ms == s.conns[c].frames + Drain(rest).0;
    WithoutAppend(s.conns[c].frames, Drain(rest).0);
  }

  /** What was read from a connection begins what arrived, and yields the first of its objects. */
  lemma ReadDrains(s: State, c: nat, t: Text) returns (rest: Text)
    requires Reachable(s) && c < |s.conns| && s.conns[c].arrived <= t
    ensures t == s.conns[c].read + rest
    ensures Drain(t) == (s.conns[c].frames + Drain(rest).0, Drain(rest).1)
    ensures DecodedOn(s.pushes, c) == WithoutKeepAlives(s.conns[c].frames)
    ensures s.conns[c].read == t ==> Drain(t) == (s.conns[c].frames, true)
  {
    hide Drain, DecodedOn, WithoutKeepAlives, Reachable, Frame, WellFormed, Refreshes, KeepAlives;
    Accounting(s, c);
    var read := s.conns[c].read;
    assert read <= s.conns[c].arrived;
    rest := t[|read|..];
    assert t == read + rest;
    DrainAppend(read, rest);
  }

  lemma {:induction false} WithoutFirst(m: Message, ms: seq<Message>)
    ensures WithoutKeepAlives([m] + ms) == (if m.KeepAlive? then [] else [m]) + WithoutKeepAlives(ms)
  {
    WithoutAppend([m], ms);
    assert [m][..0] == [] && [m] == [] + [m];
    FramedOne([], m);
  }

  lemma {:induction false} WithoutAmong(received: seq<Message>, ms: seq<Message>)
    requires Among(received, ms)
    ensures Among(WithoutKeepAlives(received), WithoutKeepAlives(ms))
    decreases |received| + |ms|
  {
    hide WithoutKeepAlives;
    if received == [] {
      WithoutNothing();
    } else {
      var r, rest := received[0], received[1..];
      assert received == [r] + rest;
      WithoutFirst(r, rest);
      if r == SoftError(NOT_DECODED) && Among(rest, ms) {
        WithoutAmong(rest, ms);
        AmongOne(WithoutKeepAlives(rest), r, WithoutKeepAlives(ms));
      } else {
        var m, behind := ms[0], ms[1..];
        assert ms == [m] + behind;
        WithoutFirst(m, behind);
        if r == m && Among(rest, behind) {
          WithoutAmong(rest, behind);
          AmongOne(WithoutKeepAlives(rest), m, WithoutKeepAlives(behind));
        } else {
          WithoutAmong(received, behind);
          AmongOne(WithoutKeepAlives(received), m, WithoutKeepAlives(behind));
        }
        WithoutEither(m, WithoutKeepAlives(rest), WithoutKeepAlives(received), WithoutKeepAlives(behind));
      }
    }
  }

  lemma WithoutNothing()
    ensures WithoutKeepAlives([]) == []
  {
  }

  lemma WithoutEither(m: Message, a: seq<Message>, b: seq<Message>, c: seq<Message>)
    ensures [] + a == a && [] + b == b && [] + c == c
  {
  }

  /**
    The same for any messages at all: of what arrived on a connection, cut anywhere, nothing is queued but these
    messages, in order, each at most once, and reports of frames that did not decode.
   */
  lemma QueuedAmong(s: State, c: nat, ms: seq<Message>)
    requires Reachable(s) && c < |s.conns| && s.conns[c].arrived <= Stream(ms) && AllWellFormed(ms)
    ensures Among(s.conns[c].frames, ms) && Among(DecodedOn(s.pushes, c), WithoutKeepAlives(ms))
  {
    hide Drain, DecodedOn, WithoutKeepAlives, Reachable, AllWellFormed, Among, Stream;
    var rest := ReadDrains(s, c, Stream(ms));
    StreamAmong(ms);
    AmongPrefix(s.conns[c].frames, Drain(rest).0, ms);
    WithoutAmong(s.conns[c].frames, ms);
  }

  // ---- Timeouts ----

  /**
    A connection's timeout reports are the checks that found it overdue by its keep-alives, in order, less those for
    which the queue could not be had; at most the last one is still on its way.
   */
  lemma TimeoutReports(s: State, c: nat)
    requires Reachable(s) && c < |s.conns|
    ensures var k := s.conns[c];
            var due := Overdue(k.events, k.accepted);
            LastRefresh(k.events, k.accepted) == k.lastKeepAlive
            && |k.got| <= |due| <= |k.got| + 1 && TimeoutTimes(s.pushes, c) == Kept(due[..|k.got|], k.got)
  {
    hide Core, InRange, History, Conserved, TimeoutTimes, AllKept, Reachable;
    Invariants(s);
    assert Timed(TimeoutTimes(s.pushes, c), s.conns[c], Pending(s, c), s.now);
  }

  lemma {:induction false} TimesAmong(items: seq<Item>, c: nat, at: int)
    ensures at in TimeoutTimes(items, c) <==>
            exists i :: 0 <= i < |items| && items[i].conn == c && items[i].cause.Timeout? && items[i].time == at
  {
    if items != [] {
      var n := |items| - 1;
      TimesAmong(items[..n], c, at);
      forall i | 0 <= i < n ensures items[..n][i] == items[i] {
      }
    }
  }

  /** A check reads the clock at `at`, more than 30 seconds after the last keep-alive processed before it. */
  ghost predicate OverdueAt(k: Conn, at: int) {
    exists i :: 0 <= i < |k.events| && k.events[i] == Check(at)
                && at - LastRefresh(k.events[..i], k.accepted) > KEEP_ALIVE_PROD
  }

  /** No connection is reported but for such a check, and the report carries its time. */
  lemma ReportsOverdue(s: State, i: nat)
    requires Reachable(s) && i < |s.pushes| && s.pushes[i].cause.Timeout?
    ensures s.pushes[i].conn < |s.conns| && OverdueAt(s.conns[s.pushes[i].conn], s.pushes[i].time)
  {
    hide Core, InRange, History, Conserved, TimeoutTimes, AllKept, Reachable, Overdue, KeepAlive.Kept;
    Invariants(s);
    var c, at := s.pushes[i].conn, s.pushes[i].time;
    var k := s.conns[c];
    var due := Overdue(k.events, k.accepted);
    TimeoutReports(s, c);
    TimesAmong(s.pushes, c, at);
    KeptAmong(due[..|k.got|], k.got, at);
    OverdueIff(k.events, k.accepted, at);
  }

  /**
    A connection silent since `t`, whatever happened before, and checked every 10 seconds from `start` on: exactly the
    checks from the fourth on find it overdue, and are reported if the queue can be had, so the first report comes more
    than 30 and at most 40 seconds after `t`.
   */
  lemma SilenceReported(s: State, c: nat, before: seq<Event>, t: int, start: int, n: nat)
    requires Reachable(s) && c < |s.conns| && s.conns[c].events == before + Checks(start, n)
    requires LastRefresh(before, s.conns[c].accepted) == t && t < start <= t + KEEP_ALIVE_INTERVAL
    ensures var got := s.conns[c].got;
            var due := Overdue(before, s.conns[c].accepted) + if n <= 3 then [] else Every(start + 30, n - 3);
            |due| == |got| + |Pending(s, c)| && TimeoutTimes(s.pushes, c) == Kept(due[..|got|], got)
            && (Pending(s, c) == [] && (forall i :: 0 <= i < |got| ==> got[i]) ==> TimeoutTimes(s.pushes, c) == due)
    ensures t + 30 < start + 30 <= t + 40
  {
    hide Core, InRange, History, Conserved, TimeoutTimes, AllKept, Reachable, Overdue, KeepAlive.Kept, Pending;
    Invariants(s);
    var k := s.conns[c];
    var due := Overdue(k.events, k.accepted);
    assert Timed(TimeoutTimes(s.pushes, c), k, Pending(s, c), s.now);
    SilenceTimesOut(before, k.accepted, t, start, n);
    if Pending(s, c) == [] && forall i :: 0 <= i < |k.got| ==> k.got[i] {
      assert due[..|k.got|] == due;
      KeptAll(due, k.got);
    }
  }

  /** A connection whose keep-alives are processed within 20 seconds after they were due is never reported. */
  lemma PunctualNotReported(s: State, c: nat, delay: int)
    requires Reachable(s) && c < |s.conns| && delay <= 20
    requires Punctual(s.conns[c].events, 0, s.conns[c].accepted, delay)
    ensures TimeoutTimes(s.pushes, c) == []
    ensures forall i :: 0 <= i < |s.pushes| && s.pushes[i].conn == c ==> !s.pushes[i].cause.Timeout?
  {
    hide Core, InRange, History, Conserved, TimeoutTimes, AllKept, Reachable, Overdue, Pending, Punctual;
    var k := s.conns[c];
    TimeoutReports(s, c);
    PunctualNeverTimesOut(k.events, 0, k.accepted, delay, k.accepted);
    forall i | 0 <= i < |s.pushes| && s.pushes[i].conn == c ensures !s.pushes[i].cause.Timeout? {
      TimesAmong(s.pushes, c, s.pushes[i].time);
    }
  }
}
