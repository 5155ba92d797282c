/**
  Runs that end badly: a handler is left waiting for ever, a live connection is reported closed, and a connection is
  reported silent although its keep-alive was processed just before.
 */
module ServerMishaps {
  import opened Bytes
  import opened Messages
  import Framer
  import opened Wire
  import KeepAlive
  import opened Server
  import ServerInvariants
  import ServerTimes
  import opened ServerRuns
  import ServerWaiting

  lemma Reach(s: State, a: Action)
    requires Reachable(s) && Enabled(s, a)
    ensures InRange(s) && Reachable(Next(s, a))
  {
    hide Next, Enabled, InRange, Runs, AllKept, ServerInvariants.Core;
    Invariants(s);
    var now, actions :| Runs(Initial(now), actions, s);
    ServerWaiting.RunsOne(s, a);
    ServerWaiting.RunsJoin(Initial(now), actions, s, [a], Next(s, a));
  }

  lemma Go(s: State, t: nat, fd: int)
    requires Reachable(s) && Runnable(s, t) && Choosable(s, s.threads[t], fd)
    ensures InRange(s)
    ensures IsIo(s.threads[t]) ==> Reachable(IoStep(s, t))
    ensures IsClose(s.threads[t]) ==> Reachable(CloseStep(s, t))
    ensures IsDestroy(s.threads[t]) ==> Reachable(DestroyStep(s, t))
    ensures IsRead(s.threads[t]) ==> Reachable(ReadStep(s, t))
    ensures IsAccept(s.threads[t]) ==> Reachable(AcceptStep(s, t, fd))
    ensures IsScan(s.threads[t]) ==> Reachable(ScanStep(s, t, fd))
  {
    hide InRange, Reachable, Runnable, Choosable;
    hide IoStep, CloseStep, DestroyStep, AcceptStep, ReadStep, ScanStep, PopStep;
    Advance(s, t, fd);
  }

  lemma Advance(s: State, t: nat, fd: int)
    requires Reachable(s) && Runnable(s, t) && Choosable(s, s.threads[t], fd)
    ensures InRange(s) && Reachable(ThreadStep(s, t, fd))
  {
    hide InRange, Reachable, ThreadStep;
    Reach(s, Action.Go(t, fd));
  }

  lemma Begin(s: State, pc: Pc)
    requires Reachable(s) && Startable(pc)
    ensures Reachable(s.(threads := s.threads + [pc]))
  {
    hide InRange, Reachable;
    Reach(s, Start(pc));
  }

  // ---- Parts of a run ----

  function Accepted(s: State, fd: int): Conn {
    NewConn(fd, s.now, |s.threads|).(inserted := true)
  }

  /** A new connection: accepted and put into the table. */
  lemma Connect(s: State, fd: int) returns (s': State)
    requires Reachable(s) && s.tableOwner.None? && fd !in s.open && fd !in s.table
    ensures Reachable(s')
    ensures s' == s.(threads := s.threads + [Done], conns := s.conns + [Accepted(s, fd)],
                     open := s.open[fd := []], table := s.table[fd := |s.conns|])
  {
    hide Reachable, InRange;
    Begin(s, AcceptStart);
    s' := Accept(s.(threads := s.threads + [AcceptStart]), |s.threads|, fd);
    assert (s.threads + [AcceptStart])[|s.threads| := Done] == s.threads + [Done];
  }

  lemma Accept(s: State, t: nat, fd: int) returns (s': State)
    requires Reachable(s) && s.tableOwner.None? && fd !in s.open && fd !in s.table
    requires t < |s.threads| && s.threads[t] == AcceptStart
    ensures Reachable(s')
    ensures s' == s.(threads := s.threads[t := Done], conns := s.conns + [NewConn(fd, s.now, t).(inserted := true)],
                     open := s.open[fd := []], table := s.table[fd := |s.conns|])
  {
    hide Reachable, InRange, IoStep, CloseStep, DestroyStep, ReadStep, ScanStep;
    Go(s, t, fd);
    var s1 := AcceptStep(s, t, fd);
    Go(s1, t, fd);
    s' := Insert(AcceptStep(s1, t, fd), t, |s.conns|);
  }

  lemma Insert(s: State, t: nat, c: nat) returns (s': State)
    requires Reachable(s) && t < |s.threads| && s.threads[t] == AcceptInsert(c) && c < |s.conns|
    requires s.conns[c].fd !in s.table
    ensures Reachable(s')
    ensures s' == SetConn(s, c, s.conns[c].(inserted := true))
                  .(table := s.table[s.conns[c].fd := c], threads := s.threads[t := Done], tableOwner := None)
  {
    hide Reachable, InRange, IoStep, CloseStep, DestroyStep, ReadStep, ScanStep;
    Go(s, t, 0);
    var s1 := AcceptStep(s, t, 0);
    Go(s1, t, 0);
    s' := AcceptStep(s1, t, 0);
  }

  /** A handler gets as far as wanting the connection's mutex. */
  lemma LookUp(s: State, fd: int) returns (s': State)
    requires Reachable(s) && s.tableOwner.None? && fd in s.table
    ensures Reachable(s') && s' == s.(threads := s.threads + [IoWantConn(fd, s.table[fd])])
  {
    hide Reachable, InRange;
    var t := |s.threads|;
    Begin(s, IoStart(fd));
    var s1 := s.(threads := s.threads + [IoStart(fd)]);
    Go(s1, t, fd);
    var s2 := IoStep(s1, t);
    Go(s2, t, fd);
    s' := IoStep(s2, t);
  }

  /** A handler takes the connection's mutex and looks whether there is anything to read. */
  lemma Peek(s: State, t: nat, fd: int, c: nat) returns (s': State)
    requires Reachable(s) && t < |s.threads| && s.threads[t] == IoWantConn(fd, c) && c < |s.conns|
    requires s.conns[c].owner.None? && !s.conns[c].destroyed
    ensures Reachable(s')
    ensures s' == SetConn(s, c, s.conns[c].(owner := Some(t)))
                  .(threads := s.threads[t := if fd in s.open && s.open[fd] != [] then ReadWantQueue(c)
                                              else CloseWantQueue(c)])
  {
    hide Reachable, InRange, CloseStep, DestroyStep, ReadStep, AcceptStep, ScanStep;
    Go(s, t, fd);
    var s1 := IoStep(s, t);
    Go(s1, t, fd);
    var s2 := IoStep(s1, t);
    Go(s2, t, fd);
    s' := IoStep(s2, t);
  }

  /** A handler finds nothing to read and reports the close. */
  lemma Report(s: State, t: nat, fd: int, c: nat) returns (s': State)
    requires Reachable(s) && t < |s.threads| && s.threads[t] == IoWantConn(fd, c) && c < |s.conns|
    requires s.conns[c].owner.None? && !s.conns[c].destroyed && fd in s.open && s.open[fd] == [] && s.queueOwner.None?
    ensures Reachable(s')
    ensures s' == Push(SetConn(s, c, s.conns[c].(owner := Some(t), reports := s.conns[c].reports + 1)),
                       Item(CONNECTION_CLOSED, c, Closed, s.now))
                  .(threads := s.threads[t := DestroyWantTable(c, false)])
  {
    hide Reachable, InRange;
    var s1 := Peek(s, t, fd, c);
    s' := ReportRest(s1, t, c);
  }

  lemma ReportRest(s: State, t: nat, c: nat) returns (s': State)
    requires Reachable(s) && t < |s.threads| && s.threads[t] == CloseWantQueue(c) && c < |s.conns| && s.queueOwner.None?
    ensures Reachable(s')
    ensures s' == Push(SetConn(s, c, s.conns[c].(reports := s.conns[c].reports + 1)),
                       Item(CONNECTION_CLOSED, c, Closed, s.now))
                  .(threads := s.threads[t := DestroyWantTable(c, false)])
  {
    hide Reachable, InRange, IoStep, DestroyStep, ReadStep, AcceptStep, ScanStep;
    Go(s, t, 0);
    var s1 := CloseStep(s, t);
    Go(s1, t, 0);
    var s2 := CloseStep(s1, t);
    Go(s2, t, 0);
    s' := CloseStep(s2, t);
  }

  /** It takes the connection out of the table, unlocks and frees its record, and closes its descriptor. */
  lemma TearDown(s: State, t: nat, c: nat) returns (s': State)
    requires Reachable(s) && t < |s.threads| && s.threads[t] == DestroyWantTable(c, false) && c < |s.conns|
    requires s.tableOwner.None? && s.conns[c].fd in s.table && s.table[s.conns[c].fd] == c
    ensures Reachable(s')
    ensures s'.threads == s.threads[t := Done] && s'.tableOwner.None? && s'.queueOwner == s.queueOwner
    ensures |s'.conns| == |s.conns| && s'.conns[c].destroyed && s'.conns[c].owner.None?
  {
    hide Reachable, InRange, IoStep, CloseStep, ReadStep, AcceptStep, ScanStep;
    Go(s, t, 0);
    var s1 := DestroyStep(s, t);
    Go(s1, t, 0);
    var s2 := DestroyStep(s1, t);
    s' := CloseDown(s2, t, c);
  }

  lemma CloseDown(s: State, t: nat, c: nat) returns (s': State)
    requires Reachable(s) && t < |s.threads| && s.threads[t] == DestroyClose(c, false) && c < |s.conns|
    ensures Reachable(s')
    ensures s'.threads == s.threads[t := Done] && s'.tableOwner.None? && s'.queueOwner == s.queueOwner
    ensures |s'.conns| == |s.conns| && s'.conns[c] == s.conns[c].(closed := true)
  {
    hide Reachable, InRange;
    Go(s, t, 0);
    var s1 := DestroyStep(s, t);
    Go(s1, t, 0);
    s' := DestroyStep(s1, t);
  }

  /** A handler that was late gets the freed record's mutex, sees the flag, and returns with the mutex locked. */
  lemma ComeLate(s: State, t: nat, fd: int, c: nat) returns (s': State)
    requires Reachable(s) && t < |s.threads| && s.threads[t] == IoWantConn(fd, c) && c < |s.conns|
    requires s.conns[c].owner.None? && s.conns[c].destroyed
    ensures Reachable(s')
    ensures s' == SetConn(s, c, s.conns[c].(owner := Some(t))).(threads := s.threads[t := Abandoned(c)])
  {
    hide Reachable, InRange, CloseStep, DestroyStep, ReadStep, AcceptStep, ScanStep;
    Go(s, t, 0);
    var s1 := IoStep(s, t);
    Go(s1, t, 0);
    s' := IoStep(s1, t);
  }

  /** Bytes arrive on a connection. */
  lemma Receive(s: State, fd: int, bytes: Text)
    requires Reachable(s) && fd in s.open
    ensures Reachable(s.(open := s.open[fd := s.open[fd] + bytes], conns := Delivered(s.conns, fd, bytes)))
  {
    hide InRange, Reachable;
    Reach(s, Arrive(fd, bytes));
  }

  lemma {:induction false} Wait(s: State, n: nat)
    requires Reachable(s)
    ensures Reachable(s.(now := s.now + n))
    decreases n
  {
    hide InRange, Reachable;
    if n == 0 {
      assert s.(now := s.now + 0) == s;
    } else {
      Reach(s, Tick);
      Wait(s.(now := s.now + 1), n - 1);
    }
  }

  /** A keep-alive on its own is framed and decoded as what it is. */
  lemma KeepAliveReads()
    ensures Sent(KeepAlive) != [] && Framer.Frame(Sent(KeepAlive)) == Framer.Success(Encoded(KeepAlive), [])
    ensures Received(Encoded(KeepAlive)) == KeepAlive
  {
    hide Encoded, Decode, Framer.Frame;
    KeepAliveSendable();
    EncodedStart(KeepAlive);
    SentFrames(KeepAlive, []);
    DecodeEncoded(KeepAlive);
    assert Sent(KeepAlive) + [] == Sent(KeepAlive);
  }

  lemma KeepAliveSendable()
    ensures Sendable(KeepAlive)
  {
    ShortTextsFit(KeepAlive);
  }

  /** A connection's record after a keep-alive was read from it. */
  function Refreshed(k: Conn, now: int): Conn {
    k.(lastKeepAlive := now, frames := k.frames + [KeepAlive], read := k.read + Sent(KeepAlive),
       events := k.events + [KeepAlive.Refresh(now)])
  }

  /** A handler finds a keep-alive and reads it. */
  lemma ReadKeepAlive(s: State, t: nat, fd: int, c: nat) returns (s': State)
    requires Reachable(s) && t < |s.threads| && s.threads[t] == IoWantConn(fd, c) && c < |s.conns|
    requires s.conns[c].owner.None? && !s.conns[c].destroyed && s.conns[c].fd == fd
    requires fd in s.open && s.open[fd] == Sent(KeepAlive) && s.queueOwner.None?
    ensures Reachable(s')
    ensures s' == SetConn(s, c, Refreshed(s.conns[c], s.now))
                  .(open := s.open[fd := []], threads := s.threads[t := Done])
  {
    hide Reachable, InRange, Sent, Framer.Frame, FetchStep;
    KeepAliveReads();
    RefreshedOwned(s.conns[c], Some(t), s.now);
    var s1 := Peek(s, t, fd, c);
    Overwritten(s, t, c, s.conns[c].(owner := Some(t)), ReadWantQueue(c), Refreshed(s.conns[c], s.now), Done, fd);
    hide Refreshed, SetConn;
    s' := ReadRest(s1, t, c);
  }

  lemma Overwritten(s: State, t: nat, c: nat, k: Conn, pc: Pc, k': Conn, pc': Pc, fd: int)
    requires t < |s.threads| && c < |s.conns|
    ensures var m := SetConn(s, c, k).(threads := s.threads[t := pc]);
            m.conns[c] == k && SetConn(m, c, k').(open := m.open[fd := []], threads := m.threads[t := pc'])
                            == SetConn(s, c, k').(open := s.open[fd := []], threads := s.threads[t := pc'])
  {
  }

  lemma RefreshedOwned(k: Conn, owner: Option<nat>, now: int)
    requires k.owner.None?
    ensures Refreshed(k.(owner := owner), now).(owner := None) == Refreshed(k, now)
  {
  }

  lemma ReadRest(s: State, t: nat, c: nat) returns (s': State)
    requires Reachable(s) && t < |s.threads| && s.threads[t] == ReadWantQueue(c) && c < |s.conns|
    requires s.conns[c].fd in s.open && s.open[s.conns[c].fd] == Sent(KeepAlive) && s.queueOwner.None?
    ensures Reachable(s')
    ensures s' == SetConn(s, c, Refreshed(s.conns[c], s.now).(owner := None))
                  .(open := s.open[s.conns[c].fd := []], threads := s.threads[t := Done])
  {
    hide Reachable, InRange, Sent, Framer.Frame, FetchStep, IoStep, CloseStep, DestroyStep, AcceptStep, ScanStep;
    Go(s, t, 0);
    s' := ReadFetched(ReadStep(s, t), t, c);
  }

  lemma ReadFetched(s: State, t: nat, c: nat) returns (s': State)
    requires Reachable(s) && t < |s.threads| && s.threads[t] == ReadFetch(c) && c < |s.conns|
    requires s.conns[c].fd in s.open && s.open[s.conns[c].fd] == Sent(KeepAlive)
    ensures Reachable(s')
    ensures s' == SetConn(s, c, Refreshed(s.conns[c], s.now).(owner := None))
                  .(open := s.open[s.conns[c].fd := []], threads := s.threads[t := Done], queueOwner := None)
  {
    hide Reachable, InRange, Sent, Framer.Frame, FetchStep, IoStep, CloseStep, DestroyStep, AcceptStep, ScanStep;
    Go(s, t, 0);
    FetchedKeepAlive(s, t, c);
    s' := ReadEnd(ReadStep(s, t), t, c);
  }

  lemma ReadEnd(s: State, t: nat, c: nat) returns (s': State)
    requires Reachable(s) && t < |s.threads| && s.threads[t] == ReadUnlockQueue(c) && c < |s.conns|
    ensures Reachable(s')
    ensures s' == SetConn(s, c, s.conns[c].(owner := None)).(threads := s.threads[t := Done], queueOwner := None)
  {
    hide Reachable, InRange, IoStep, CloseStep, DestroyStep, AcceptStep, ScanStep;
    Go(s, t, 0);
    var s1 := ReadStep(s, t);
    Go(s1, t, 0);
    s' := ReadStep(s1, t);
  }

  lemma FetchedKeepAlive(s: State, t: nat, c: nat)
    requires t < |s.threads| && c < |s.conns|
    requires s.conns[c].fd in s.open && s.open[s.conns[c].fd] == Sent(KeepAlive)
    ensures FetchStep(s, t, c, Framer.Frame(Arrived(s, s.conns[c].fd)))
         == SetConn(s, c, Refreshed(s.conns[c], s.now))
            .(open := s.open[s.conns[c].fd := []], threads := s.threads[t := ReadUnlockQueue(c)])
  {
    KeepAliveReads();
    hide Sent, Framer.Frame, Received;
    assert Sent(KeepAlive)[..|Sent(KeepAlive)| - 0] == Sent(KeepAlive);
  }

  // ---- What can go wrong ----

  /**
    Two handlers look a connection up before a third one tears it down; the first of them to get the freed record's
    mutex returns without unlocking it, and the second waits for ever. No thread can go on; a new one can start, but
    nothing it does helps.
   */
  lemma HandlerLeftWaiting() returns (s: State, t: nat)
    ensures Reachable(s) && t < |s.threads| && !ServerWaiting.Returned(s.threads[t])
    ensures forall u :: !Runnable(s, u)
    ensures forall actions, s' :: Runs(s, actions, s') ==>
              t < |s'.threads| && s'.threads[t] == s.threads[t] && !Runnable(s', t)
  {
    hide Reachable, InRange, Runs;
    InitialReachable();
    var s1 := Connect(Initial(0), 5);
    var s2 := LookUp(s1, 5);
    var s3 := LookUp(s2, 5);
    var s4 := LookUp(s3, 5);
    var s5 := Report(s4, 1, 5, 0);
    var s6 := TearDown(s5, 1, 0);
    s := ComeLate(s6, 2, 5, 0);
    t := 3;
    assert s.threads == [Done, Done, Abandoned(0), IoWantConn(5, 0)];
    forall actions, s' | Runs(s, actions, s')
      ensures t < |s'.threads| && s'.threads[t] == s.threads[t] && !Runnable(s', t)
    {
      StaysWaiting(s, actions, s', t);
    }
  }

  lemma StaysWaiting(s: State, actions: seq<Action>, s': State, t: nat)
    requires Reachable(s) && ServerWaiting.LeftWaiting(s, t) && Runs(s, actions, s')
    ensures t < |s.threads| && t < |s'.threads| && s'.threads[t] == s.threads[t] && !Runnable(s', t)
  {
    hide Reachable, InRange, Runs, AllKept, ServerInvariants.Core;
    Invariants(s);
    ServerWaiting.WaitsForEver(s, actions, s', t);
  }

  /**
    A keep-alive comes with two signals. The handler of the first reads it; that of the second finds nothing left and
    reports the connection closed, in the very second in which it was heard from.
   */
  lemma LiveReportedClosed() returns (s: State)
    ensures Reachable(s) && |s.conns| == 1 && 5 in s.table && s.conns[0].fd == 5
    ensures s.conns[0].read == s.conns[0].arrived == Sent(KeepAlive) && s.conns[0].lastKeepAlive == s.now
    ensures s.queue == [Item(CONNECTION_CLOSED, 0, Closed, s.now)]
  {
    hide Reachable, InRange, Sent;
    InitialReachable();
    var s1 := Connect(Initial(0), 5);
    Receive(s1, 5, Sent(KeepAlive));
    var s2 := s1.(open := s1.open[5 := s1.open[5] + Sent(KeepAlive)], conns := Delivered(s1.conns, 5, Sent(KeepAlive)));
    var s3 := LookUp(s2, 5);
    var s4 := LookUp(s3, 5);
    var s5 := ReadKeepAlive(s4, 1, 5, 0);
    s := Report(s5, 2, 5, 0);
  }

  /** The scan reads the age of a connection's last keep-alive and finds it overdue. */
  lemma FindOverdue(s: State, fd: int) returns (s': State)
    requires Reachable(s) && s.tableOwner.None? && s.table.Keys == {fd} && s.table[fd] < |s.conns|
    requires s.now - s.conns[s.table[fd]].lastKeepAlive > KeepAlive.KEEP_ALIVE_PROD
    ensures Reachable(s')
    ensures var c := s.table[fd];
            s' == SetConn(s, c, s.conns[c].(events := s.conns[c].events + [KeepAlive.Check(s.now)]))
                  .(threads := s.threads + [ScanTry({}, c, s.now)], tableOwner := Some(|s.threads|))
  {
    hide Reachable, InRange, IoStep, CloseStep, DestroyStep, ReadStep, AcceptStep;
    var t := |s.threads|;
    Begin(s, ScanStart);
    var s1 := s.(threads := s.threads + [ScanStart]);
    Go(s1, t, fd);
    var s2 := ScanStep(s1, t, fd);
    Go(s2, t, fd);
    s' := ScanStep(s2, t, fd);
    assert {fd} - {fd} == {};
  }

  lemma ReportOverdue(s: State, t: nat, c: nat, at: int) returns (s': State)
    requires Reachable(s) && t < |s.threads| && s.threads[t] == ScanTry({}, c, at) && c < |s.conns|
    requires s.queueOwner.None?
    ensures Reachable(s') && s'.queue == s.queue + [Item(CONNECTION_TIMEOUT, c, Timeout, at)]
    ensures s'.pushes == s.pushes + [Item(CONNECTION_TIMEOUT, c, Timeout, at)]
    ensures s'.now == s.now && s'.conns == s.conns[c := Ended(s.conns[c], true)]
  {
    hide Reachable, InRange;
    Go(s, t, 0);
    var s1 := ScanStep(s, t, 0);
    Go(s1, t, 0);
    s' := ScanStep(s1, t, 0);
  }

  /** A connection that is checked 31 seconds after it was accepted, and never sent anything, is reported. */
  lemma SilentReported() returns (s: State)
    ensures Reachable(s) && |s.conns| == 1 && s.conns[0].events == [KeepAlive.Check(31)] && s.conns[0].accepted == 0
    ensures ServerTimes.TimeoutTimes(s.pushes, 0) == [31]
  {
    hide Reachable, InRange;
    InitialReachable();
    var s1 := Connect(Initial(0), 5);
    Wait(s1, 31);
    var s2 := s1.(now := s1.now + 31);
    var s3 := FindOverdue(s2, 5);
    s := ReportOverdue(s3, 1, 0, 31);
    ServerTimes.PushedTime([], Item(CONNECTION_TIMEOUT, 0, Timeout, 31), 0);
  }

  ghost predicate OnTime(k: Conn, delay: int) {
    KeepAlive.Punctual(k.events, 0, k.accepted, delay)
  }

  /** Nothing is reported on a connection with delays up to `delay`. */
  ghost predicate Safe(delay: int) {
    forall s, c: nat :: Reachable(s) && c < |s.conns| && OnTime(s.conns[c], delay) ==>
      ServerTimes.TimeoutTimes(s.pushes, c) == []
  }

  /** A bound on how late keep-alives are processed rules timeout reports out exactly when it is at most 20 seconds. */
  lemma SafeIff(delay: int)
    ensures Safe(delay) <==> delay <= 20
  {
    hide Reachable;
    if delay <= 20 {
      forall s, c: nat | Reachable(s) && c < |s.conns| && OnTime(s.conns[c], delay)
        ensures ServerTimes.TimeoutTimes(s.pushes, c) == []
      {
        PunctualNotReported(s, c, delay);
      }
    } else {
      var s := SilentReported();
      assert [KeepAlive.Check(31)][1..] == [];
      assert KeepAlive.Punctual([], 0, 0, delay);
      assert KeepAlive.Punctual(s.conns[0].events, 0, s.conns[0].accepted, delay);
    }
  }

  /** A keep-alive is processed after the scan has read the age and before it reports: the report says timeout. */
  lemma HeardReportedSilent() returns (s: State)
    ensures Reachable(s) && |s.conns| == 1 && s.conns[0].lastKeepAlive == s.now
    ensures s.queue == [Item(CONNECTION_TIMEOUT, 0, Timeout, s.now)]
  {
    hide Reachable, InRange, Sent;
    InitialReachable();
    var s1 := Connect(Initial(0), 5);
    Wait(s1, 31);
    var s2 := s1.(now := s1.now + 31);
    Receive(s2, 5, Sent(KeepAlive));
    var s3 := s2.(open := s2.open[5 := s2.open[5] + Sent(KeepAlive)], conns := Delivered(s2.conns, 5, Sent(KeepAlive)));
    var s4 := LookUp(s3, 5);
    var s5 := FindOverdue(s4, 5);
    var s6 := ReadKeepAlive(s5, 1, 5, 0);
    s := ReportOverdue(s6, 2, 0, 31);
  }

  /** A report on its way is right exactly when no keep-alive was processed since the check. */
  lemma ReportRightIff(s: State, t: nat)
    requires Reachable(s) && t < |s.threads| && (s.threads[t].ScanTry? || s.threads[t].ScanPush?)
    ensures var c, at := s.threads[t].c, s.threads[t].at;
            c < |s.conns| && at <= s.now
            && (at - s.conns[c].lastKeepAlive > KeepAlive.KEEP_ALIVE_PROD <==> s.conns[c].lastKeepAlive < at)
  {
    hide Reachable, AllKept;
    Invariants(s);
    ServerInvariants.Here(s, t);
    hide ServerInvariants.Core, InRange;
    var c := s.threads[t].c;
    assert ServerTimes.Timed(ServerTimes.TimeoutTimes(s.pushes, c), s.conns[c], ServerTimes.Pending(s, c), s.now);
  }

  lemma InitialReachable()
    ensures Reachable(Initial(0))
  {
    assert Runs(Initial(0), [], Initial(0));
  }
}
