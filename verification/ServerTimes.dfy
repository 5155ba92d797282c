/** The server's timeout reports are those of the timing of its keep-alives and checks. */
module ServerTimes {
  import opened Bytes
  import Messages
  import Framer
  import Wire
  import opened KeepAlive
  import opened Server
  import opened ServerInvariants

  /** The times of the timeout reports for connection `c` among `items`. */
  function TimeoutTimes(items: seq<Item>, c: nat): seq<int> {
    if items == [] then []
    else
      var last := items[|items| - 1];
      TimeoutTimes(items[..|items| - 1], c) + if last.conn == c && last.cause.Timeout? then [last.time] else []
  }

  lemma PushedTime(items: seq<Item>, item: Item, c: nat)
    ensures TimeoutTimes(items + [item], c)
         == TimeoutTimes(items, c) + if item.conn == c && item.cause.Timeout? then [item.time] else []
  {
    assert (items + [item])[..|items|] == items;
  }

  /** The overdue check of `c` that a thread has not brought to an end yet. */
  function PendingOn(pc: Pc, c: nat): seq<int> {
    if (pc.ScanTry? || pc.ScanPush?) && pc.c == c then [pc.at] else []
  }

  /** At most one check is going on, by the thread that has the table. */
  function Pending(s: State, c: nat): seq<int> {
    if s.tableOwner.Some? && s.tableOwner.value < |s.threads| then PendingOn(s.threads[s.tableOwner.value], c) else []
  }

  /** The age is right, and each check that found the connection overdue was reported, skipped, or is pending. */
  predicate Timed(reported: seq<int>, k: Conn, pending: seq<int>, now: int) {
    LastRefresh(k.events, k.accepted) == k.lastKeepAlive
    && Settled(reported, Overdue(k.events, k.accepted), k.got, pending)
    && (pending != [] ==> pending[0] <= now && Stale(k, pending[0]))
  }

  predicate Settled(reported: seq<int>, due: seq<int>, got: seq<bool>, pending: seq<int>) {
    |due| == |got| + |pending| && due[|got|..] == pending && reported == Kept(due[..|got|], got)
  }

  /** At `at` the connection was overdue; if it is not any more, a keep-alive was processed meanwhile. */
  predicate Stale(k: Conn, at: int) {
    at - k.lastKeepAlive > KEEP_ALIVE_PROD || at <= k.lastKeepAlive
  }

  predicate Clocked(s: State) {
    PushesInRange(s)
    && forall c :: 0 <= c < |s.conns| ==> Timed(TimeoutTimes(s.pushes, c), s.conns[c], Pending(s, c), s.now)
  }

  predicate SameClock(k: Conn, k': Conn) {
    k'.lastKeepAlive == k.lastKeepAlive && k'.events == k.events && k'.accepted == k.accepted && k'.got == k.got
  }

  /** Nothing is pushed but, perhaps, one item that is no timeout. */
  predicate NoTimeout(pushes: seq<Item>, pushes': seq<Item>) {
    pushes' == pushes
    || (|pushes'| > 0 && pushes'[..|pushes'| - 1] == pushes && !pushes'[|pushes'| - 1].cause.Timeout?)
  }

  lemma NoTimeoutTimes(pushes: seq<Item>, pushes': seq<Item>, c: nat)
    requires NoTimeout(pushes, pushes')
    ensures TimeoutTimes(pushes', c) == TimeoutTimes(pushes, c)
  {
    if pushes' != pushes {
      var last := pushes'[|pushes'| - 1];
      assert pushes' == pushes + [last];
      PushedTime(pushes, last, c);
    }
  }

  predicate PushesInRange(s: State) {
    forall i :: 0 <= i < |s.pushes| ==> s.pushes[i].conn < |s.conns|
  }

  /** Thread `t` alone moved, and not into or out of an overdue check. */
  ghost predicate Moved(s: State, s': State, t: nat) {
    t < |s.threads| && |s'.threads| == |s.threads|
    && (forall u :: 0 <= u < |s.threads| && u != t ==> s'.threads[u] == s.threads[u])
    && NoCheck(s.threads[t], s'.threads[t])
  }

  ghost predicate NoCheck(pc: Pc, pc': Pc) {
    forall c: nat :: PendingOn(pc', c) == PendingOn(pc, c)
  }

  lemma PendingSame(s: State, s': State, t: nat, c: nat)
    requires TableLock(s.threads, s.tableOwner) && TableLock(s'.threads, s'.tableOwner) && Moved(s, s', t)
    ensures Pending(s', c) == Pending(s, c)
  {
    assert PendingOn(s'.threads[t], c) == PendingOn(s.threads[t], c);
  }

  /** One thread's step of no effect on times. */
  ghost predicate ClockStill(s: State, s': State, t: nat) {
    Moved(s, s', t) && s'.now == s.now && |s'.conns| == |s.conns| && NoTimeout(s.pushes, s'.pushes)
    && PushesInRange(s')
    && forall c :: 0 <= c < |s.conns| ==> SameClock(s.conns[c], s'.conns[c])
  }

  lemma StillClocked(s: State, s': State, t: nat)
    requires Clocked(s) && ClockStill(s, s', t)
    requires TableLock(s.threads, s.tableOwner) && TableLock(s'.threads, s'.tableOwner)
    ensures Clocked(s')
  {
    hide TableLock, Moved, NoTimeout, Pending, TimeoutTimes, Settled;
    forall c | 0 <= c < |s'.conns| ensures Timed(TimeoutTimes(s'.pushes, c), s'.conns[c], Pending(s', c), s'.now) {
      assert Timed(TimeoutTimes(s.pushes, c), s.conns[c], Pending(s, c), s.now);
      assert SameClock(s.conns[c], s'.conns[c]);
      NoTimeoutTimes(s.pushes, s'.pushes, c);
      PendingSame(s, s', t, c);
    }
  }

  lemma CoreTable(s: State)
    requires Core(s)
    ensures TableLock(s.threads, s.tableOwner)
  {
  }

  /** A step of a thread that is no scan, which pushes nothing and touches no record's clock. */
  ghost predicate PlainMove(s: State, s': State, t: nat) {
    t < |s.threads| && |s'.threads| == |s.threads| && s'.threads == s.threads[t := s'.threads[t]] && s'.now == s.now
    && NoCheck(s.threads[t], s'.threads[t]) && s'.pushes == s.pushes && SameClocks(s.conns, s'.conns)
  }

  predicate SameClocks(conns: seq<Conn>, conns': seq<Conn>) {
    |conns'| == |conns| && forall c :: 0 <= c < |conns| ==> SameClock(conns[c], conns'[c])
  }

  lemma PlainStep(s: State, s': State, t: nat)
    requires Core(s) && Core(s') && Clocked(s) && PlainMove(s, s', t)
    ensures Clocked(s')
  {
    hide Core;
    CoreTable(s);
    CoreTable(s');
    hide TableLock, Timed, TimeoutTimes, Pending;
    assert ClockStill(s, s', t);
    hide Clocked;
    StillClocked(s, s', t);
  }

  lemma IoClocked(s: State, t: nat)
    requires Core(s) && InRange(s) && Clocked(s) && t < |s.threads| && IsIo(s.threads[t]) && Core(IoStep(s, t))
    ensures Clocked(IoStep(s, t))
  {
    hide Core, Clocked;
    PlainStep(s, IoStep(s, t), t);
  }

  lemma CloseClocked(s: State, t: nat)
    requires Core(s) && InRange(s) && Clocked(s) && t < |s.threads| && IsClose(s.threads[t]) && Core(CloseStep(s, t))
    ensures Clocked(CloseStep(s, t))
  {
    hide Core, Clocked;
    var s' := CloseStep(s, t);
    if s.threads[t].ClosePush? {
      CoreTable(s);
      CoreTable(s');
      ClockedRange(s);
      hide TableLock;
      StillClocked(s, s', t);
    } else {
      PlainStep(s, s', t);
    }
  }

  lemma ClockedRange(s: State)
    requires Clocked(s)
    ensures PushesInRange(s)
  {
  }

  lemma DestroyClocked(s: State, t: nat)
    requires Core(s) && InRange(s) && Clocked(s) && t < |s.threads|
    requires IsDestroy(s.threads[t]) && Core(DestroyStep(s, t))
    ensures Clocked(DestroyStep(s, t))
  {
    DestroyPlain(s, t);
    hide *;
    PlainStep(s, DestroyStep(s, t), t);
  }

  lemma DestroyPlain(s: State, t: nat)
    requires InRange(s) && t < |s.threads| && IsDestroy(s.threads[t])
    ensures PlainMove(s, DestroyStep(s, t), t)
  {
    TableInRange(s);
    InRangeHere(s, t);
    hide InRange, SameClocks;
    var pc := s.threads[t];
    if pc.DestroyRemove? {
      var fd := s.conns[pc.c].fd;
      if fd in s.table {
        var k := s.conns[s.table[fd]];
        ClocksOne(s.conns, s.table[fd], k.(destroyed := true, owner := None, removals := k.removals + 1));
      } else {
        ClocksSame(s.conns);
      }
    } else if pc.DestroyClose? {
      ClocksOne(s.conns, pc.c, s.conns[pc.c].(closed := true));
    } else {
      ClocksSame(s.conns);
    }
  }

  lemma ClocksSame(conns: seq<Conn>)
    ensures SameClocks(conns, conns)
  {
  }

  lemma ClocksOne(conns: seq<Conn>, c: nat, k: Conn)
    requires c < |conns| && SameClock(conns[c], k)
    ensures SameClocks(conns, conns[c := k])
  {
  }

  lemma PopClocked(s: State, t: nat)
    requires Core(s) && Clocked(s) && t < |s.threads| && Core(PopStep(s, t))
    requires !IsScan(s.threads[t])
    ensures Clocked(PopStep(s, t))
  {
    PopPlain(s, t);
    hide *;
    PlainStep(s, PopStep(s, t), t);
  }

  lemma PopPlain(s: State, t: nat)
    requires t < |s.threads| && !IsScan(s.threads[t])
    ensures PlainMove(s, PopStep(s, t), t)
  {
    ClocksSame(s.conns);
    hide SameClocks;
  }

  // ---- Steps that change one record's clock ----

  /** Only record `c` has a new clock, and only its checks may have moved. */
  lemma OneClock(s: State, s': State, t: nat, c: nat)
    requires Clocked(s) && TableLock(s.threads, s.tableOwner) && TableLock(s'.threads, s'.tableOwner)
    requires t < |s.threads| && |s'.threads| == |s.threads| && s'.threads == s.threads[t := s'.threads[t]]
    requires forall d: nat :: d != c ==> PendingOn(s'.threads[t], d) == PendingOn(s.threads[t], d)
    requires s'.now == s.now && c < |s.conns| && |s'.conns| == |s.conns| && PushesInRange(s')
    requires forall d :: 0 <= d < |s.conns| && d != c ==> SameClock(s.conns[d], s'.conns[d])
    requires forall d: nat :: d != c ==> TimeoutTimes(s'.pushes, d) == TimeoutTimes(s.pushes, d)
    requires Timed(TimeoutTimes(s'.pushes, c), s'.conns[c], Pending(s', c), s.now)
    ensures Clocked(s')
  {
    hide TimeoutTimes, Settled, TableLock, Pending;
    forall d | 0 <= d < |s'.conns| ensures Timed(TimeoutTimes(s'.pushes, d), s'.conns[d], Pending(s', d), s'.now) {
      if d != c {
        assert Timed(TimeoutTimes(s.pushes, d), s.conns[d], Pending(s, d), s.now);
        assert SameClock(s.conns[d], s'.conns[d]);
        PendingElsewhere(s, s', t, d);
      }
    }
  }

  lemma PendingElsewhere(s: State, s': State, t: nat, d: nat)
    requires TableLock(s.threads, s.tableOwner) && TableLock(s'.threads, s'.tableOwner)
    requires t < |s.threads| && |s'.threads| == |s.threads| && s'.threads == s.threads[t := s'.threads[t]]
    requires PendingOn(s'.threads[t], d) == PendingOn(s.threads[t], d)
    ensures Pending(s', d) == Pending(s, d)
  {
  }

  /** A keep-alive is processed. */
  lemma RefreshTimed(reported: seq<int>, k: Conn, pending: seq<int>, now: int, k': Conn)
    requires Timed(reported, k, pending, now)
    requires SameClock(k.(lastKeepAlive := now, events := k.events + [Refresh(now)]), k')
    ensures Timed(reported, k', pending, now)
  {
    EventOne(k.events, Refresh(now), k.accepted);
    assert Overdue(k.events, k.accepted) + [] == Overdue(k.events, k.accepted);
  }

  /** A check reads the age. */
  lemma CheckTimed(reported: seq<int>, k: Conn, now: int, k': Conn)
    requires Timed(reported, k, [], now) && SameClock(k.(events := k.events + [Check(now)]), k')
    ensures Timed(reported, k', if now - k.lastKeepAlive > KEEP_ALIVE_PROD then [now] else [], now)
  {
    EventOne(k.events, Check(now), k.accepted);
    var due, due' := Overdue(k.events, k.accepted), Overdue(k'.events, k.accepted);
    assert due[..|k.got|] == due;
    assert due'[..|k.got|] == due;
  }

  /** It ends. */
  lemma EndTimed(reported: seq<int>, k: Conn, at: int, now: int, ok: bool)
    requires Timed(reported, k, [at], now)
    ensures Timed(reported + if ok then [at] else [], Ended(k, ok), [], now)
  {
    var due := Overdue(k.events, k.accepted);
    var n := |k.got|;
    assert due[n..] == [at];
    assert due == due[..n] + [at] && due[..n + 1] == due;
    KeptOne(due[..n], k.got, at, ok);
    assert reported + [] == reported;
  }

  lemma VisitClocked(s: State, t: nat, todo: set<int>, c: nat)
    requires Core(s) && Clocked(s) && t < |s.threads| && s.threads[t].ScanNext? && c < |s.conns|
    requires Core(Visit(s, t, todo, c))
    ensures Clocked(Visit(s, t, todo, c))
  {
    hide Core;
    var s' := Visit(s, t, todo, c);
    CoreTable(s);
    CoreTable(s');
    assert s.tableOwner == Some(t);
    var reported := TimeoutTimes(s.pushes, c);
    assert Timed(reported, s.conns[c], Pending(s, c), s.now);
    ClockedRange(s);
    hide Timed, TimeoutTimes, Clocked;
    CheckTimed(reported, s.conns[c], s.now, s'.conns[c]);
    OneClock(s, s', t, c);
  }

  lemma EndClocked(s: State, t: nat, s': State, ok: bool)
    requires Core(s) && Core(s') && Clocked(s) && t < |s.threads|
    requires s.threads[t].ScanTry? || s.threads[t].ScanPush?
    requires s.threads[t].c < |s.conns|
    requires s'.threads
          == s.threads[t := if ok then ScanUnlockQueue(s.threads[t].todo) else ScanNext(s.threads[t].todo)]
    requires s'.conns == s.conns[s.threads[t].c := Ended(s.conns[s.threads[t].c], ok)]
    requires s'.pushes
          == s.pushes + if ok then [Item(CONNECTION_TIMEOUT, s.threads[t].c, Timeout, s.threads[t].at)] else []
    requires s'.now == s.now && s'.tableOwner == s.tableOwner
    ensures Clocked(s')
  {
    hide Core;
    CoreTable(s);
    CoreTable(s');
    assert s.tableOwner == Some(t);
    var c, at := s.threads[t].c, s.threads[t].at;
    var reported := TimeoutTimes(s.pushes, c);
    assert Timed(reported, s.conns[c], Pending(s, c), s.now);
    ClockedRange(s);
    hide Timed, TimeoutTimes, Clocked;
    EndTimed(reported, s.conns[c], at, s.now, ok);
    assert reported + [] == reported && s.pushes + [] == s.pushes;
    forall d: nat ensures TimeoutTimes(s'.pushes, d) == TimeoutTimes(s.pushes, d) + if d == c && ok then [at] else [] {
      assert TimeoutTimes(s.pushes, d) + [] == TimeoutTimes(s.pushes, d);
      if ok {
        PushedTime(s.pushes, Item(CONNECTION_TIMEOUT, c, Timeout, at), d);
      }
    }
    OneClock(s, s', t, c);
  }

  lemma ScanClocked(s: State, t: nat, fd: int)
    requires Core(s) && InRange(s) && Clocked(s) && t < |s.threads| && IsScan(s.threads[t]) && Core(ScanStep(s, t, fd))
    ensures Clocked(ScanStep(s, t, fd))
  {
    hide Core, Clocked, Visit;
    var pc, s' := s.threads[t], ScanStep(s, t, fd);
    if pc.ScanPush? {
      EndClocked(s, t, s', true);
    } else if pc.ScanTry? && s.queueOwner.Some? {
      EndClocked(s, t, s', false);
    } else if pc.ScanNext? && pc.todo != {} && fd in s.table {
      VisitClocked(s, t, pc.todo - {fd}, s.table[fd]);
    } else {
      PlainStep(s, s', t);
    }
  }

  lemma FetchedClock(s: State, c: nat, m: Messages.Message, taken: Text)
    requires c < |s.conns|
    ensures var s' := Fetched(s, c, m, taken);
            s'.threads == s.threads && s'.now == s.now && s'.conns == s.conns[c := s'.conns[c]]
            && if m.KeepAlive? then
                 s'.pushes == s.pushes
                 && SameClock(s.conns[c].(lastKeepAlive := s.now, events := s.conns[c].events + [Refresh(s.now)]),
                              s'.conns[c])
               else s'.pushes == s.pushes + [Item(m, c, Decoded, s.now)] && SameClock(s.conns[c], s'.conns[c])
  {
  }

  predicate IsRefresh(f: Framer.Framed) {
    f.Success? && Wire.Received(f.obj).KeepAlive?
  }

  /** A framed object: a keep-alive refreshes, anything else is pushed and is no timeout. */
  lemma FetchedOnce(s: State, t: nat, c: nat)
    requires t < |s.threads| && c < |s.conns|
    ensures var f := Framer.Frame(Arrived(s, s.conns[c].fd));
            var s' := FetchStep(s, t, c, f);
            s'.threads == s.threads[t := s'.threads[t]] && s'.now == s.now && s'.conns == s.conns[c := s'.conns[c]]
            && !IsScan(s'.threads[t])
            && if IsRefresh(f) then
                 s'.pushes == s.pushes
                 && SameClock(s.conns[c].(lastKeepAlive := s.now, events := s.conns[c].events + [Refresh(s.now)]),
                              s'.conns[c])
               else NoTimeout(s.pushes, s'.pushes) && SameClock(s.conns[c], s'.conns[c])
                    && forall i :: 0 <= i < |s'.pushes| ==> i < |s.pushes| || s'.pushes[i].conn == c
  {
    hide Framer.Frame, Wire.Received, Fetched;
    var k := s.conns[c];
    var inbox := Arrived(s, k.fd);
    var f := Framer.Frame(inbox);
    var rest := if f.End? then [] else f.rest;
    LeaveSame(s, k.fd, rest);
    if f.Success? {
      FetchedClock(Leave(s, k.fd, rest), c, Wire.Received(f.obj), inbox[..|inbox| - |rest|]);
    }
  }

  lemma RefreshClocked(s: State, s': State, t: nat, c: nat)
    requires Core(s) && Core(s') && Clocked(s) && t < |s.threads| && c < |s.conns| && s'.now == s.now
    requires |s'.threads| == |s.threads| && s'.threads == s.threads[t := s'.threads[t]]
    requires NoCheck(s.threads[t], s'.threads[t])
    requires |s'.conns| == |s.conns| && s'.conns == s.conns[c := s'.conns[c]] && s'.pushes == s.pushes
    requires SameClock(s.conns[c].(lastKeepAlive := s.now, events := s.conns[c].events + [Refresh(s.now)]), s'.conns[c])
    ensures Clocked(s')
  {
    CoreTable(s);
    CoreTable(s');
    ClockedRange(s);
    hide Core, TableLock, TimeoutTimes, Settled;
    assert Timed(TimeoutTimes(s.pushes, c), s.conns[c], Pending(s, c), s.now);
    hide Clocked, Timed;
    RefreshTimed(TimeoutTimes(s.pushes, c), s.conns[c], Pending(s, c), s.now, s'.conns[c]);
    assert Moved(s, s', t);
    PendingSame(s, s', t, c);
    hide Pending;
    OneClock(s, s', t, c);
  }

  lemma PushClocked(s: State, s': State, t: nat, c: nat)
    requires Core(s) && Core(s') && Clocked(s) && t < |s.threads| && c < |s.conns| && s'.now == s.now
    requires |s'.threads| == |s.threads| && s'.threads == s.threads[t := s'.threads[t]]
    requires NoCheck(s.threads[t], s'.threads[t])
    requires |s'.conns| == |s.conns| && s'.conns == s.conns[c := s'.conns[c]] && SameClock(s.conns[c], s'.conns[c])
    requires NoTimeout(s.pushes, s'.pushes)
    requires forall i :: 0 <= i < |s'.pushes| ==> i < |s.pushes| || s'.pushes[i].conn == c
    ensures Clocked(s')
  {
    CoreTable(s);
    CoreTable(s');
    ClockedRange(s);
    PushedInRange(s, s', c);
    hide Core, TableLock, Clocked, NoTimeout, PushesInRange, NoCheck;
    assert forall d :: 0 <= d < |s.conns| && d != c ==> s'.conns[d] == s.conns[d];
    StillClocked(s, s', t);
  }

  lemma PushedInRange(s: State, s': State, c: nat)
    requires PushesInRange(s) && NoTimeout(s.pushes, s'.pushes) && c < |s.conns| == |s'.conns|
    requires forall i :: 0 <= i < |s'.pushes| ==> i < |s.pushes| || s'.pushes[i].conn == c
    ensures PushesInRange(s')
  {
    assert forall i :: 0 <= i < |s.pushes| && i < |s'.pushes| ==> s'.pushes[i] == s.pushes[i];
  }

  lemma FetchClocked(s: State, t: nat, c: nat)
    requires Core(s) && Clocked(s) && t < |s.threads| && c < |s.conns| && s.threads[t] == ReadFetch(c)
    requires Core(FetchStep(s, t, c, Framer.Frame(Arrived(s, s.conns[c].fd))))
    ensures Clocked(FetchStep(s, t, c, Framer.Frame(Arrived(s, s.conns[c].fd))))
  {
    hide Core, Clocked, Framer.Frame, FetchStep, IsRefresh, NoTimeout, SameClock;
    var f := Framer.Frame(Arrived(s, s.conns[c].fd));
    var s' := FetchStep(s, t, c, f);
    FetchedOnce(s, t, c);
    if IsRefresh(f) {
      RefreshClocked(s, s', t, c);
    } else {
      PushClocked(s, s', t, c);
    }
  }

  lemma ReadClocked(s: State, t: nat)
    requires Core(s) && InRange(s) && Clocked(s) && t < |s.threads| && IsRead(s.threads[t]) && Core(ReadStep(s, t))
    ensures Clocked(ReadStep(s, t))
  {
    hide Core, Clocked, FetchStep, Framer.Frame;
    if s.threads[t].ReadFetch? {
      FetchClocked(s, t, s.threads[t].c);
    } else {
      PlainStep(s, ReadStep(s, t), t);
    }
  }

  lemma {:induction false} NoneReported(items: seq<Item>, c: nat)
    requires forall i :: 0 <= i < |items| ==> items[i].conn < c
    ensures TimeoutTimes(items, c) == []
  {
    if items != [] {
      NoneReported(items[..|items| - 1], c);
    }
  }

  lemma NewTimed(fd: int, now: int, t: nat)
    ensures Timed([], NewConn(fd, now, t), [], now)
  {
  }

  lemma PendingInRange(s: State, c: nat)
    requires InRange(s) && |s.conns| <= c
    ensures Pending(s, c) == []
  {
  }

  lemma NewClocked(s: State, t: nat, fd: int)
    requires Core(s) && InRange(s) && Clocked(s) && t < |s.threads| && s.threads[t].AcceptStart?
    requires Core(AcceptStep(s, t, fd))
    ensures Clocked(AcceptStep(s, t, fd))
  {
    hide Core;
    var s' := AcceptStep(s, t, fd);
    CoreTable(s);
    CoreTable(s');
    assert Moved(s, s', t);
    hide TableLock, Timed, TimeoutTimes, Pending, InRange;
    forall c | 0 <= c < |s'.conns| ensures Timed(TimeoutTimes(s'.pushes, c), s'.conns[c], Pending(s', c), s'.now) {
      PendingSame(s, s', t, c);
      if c < |s.conns| {
        assert Timed(TimeoutTimes(s.pushes, c), s.conns[c], Pending(s, c), s.now);
      } else {
        NoneReported(s.pushes, c);
        PendingInRange(s, c);
        NewTimed(fd, s.now, t);
      }
    }
  }

  lemma AcceptClocked(s: State, t: nat, fd: int)
    requires Core(s) && InRange(s) && Clocked(s) && t < |s.threads| && IsAccept(s.threads[t])
    requires Core(AcceptStep(s, t, fd))
    ensures Clocked(AcceptStep(s, t, fd))
  {
    hide Core, Clocked;
    if s.threads[t].AcceptStart? {
      NewClocked(s, t, fd);
    } else {
      PlainStep(s, AcceptStep(s, t, fd), t);
    }
  }

  /** A thread starts, bytes arrive, or time passes. */
  lemma OutsideClocked(s: State, s': State)
    requires Core(s) && Clocked(s) && |s.threads| <= |s'.threads| && s'.threads[..|s.threads|] == s.threads
    requires s'.tableOwner == s.tableOwner && s'.pushes == s.pushes && s.now <= s'.now && |s'.conns| == |s.conns|
    requires forall c :: 0 <= c < |s.conns| ==> SameClock(s.conns[c], s'.conns[c])
    ensures Clocked(s')
  {
    hide Core;
    CoreTable(s);
    hide TimeoutTimes, Settled;
    forall c | 0 <= c < |s'.conns| ensures Timed(TimeoutTimes(s'.pushes, c), s'.conns[c], Pending(s', c), s'.now) {
      assert Timed(TimeoutTimes(s.pushes, c), s.conns[c], Pending(s, c), s.now);
      assert SameClock(s.conns[c], s'.conns[c]);
    }
  }

  /** Every step keeps reports in line with keep-alives and checks. */
  lemma NextClocked(s: State, a: Action)
    requires Core(s) && InRange(s) && Enabled(s, a) && Clocked(s)
    ensures Clocked(Next(s, a))
  {
    hide Core, InRange, Clocked, IoStep, CloseStep, DestroyStep, ReadStep, AcceptStep, ScanStep, PopStep;
    NextKeeps(s, a);
    match a
    case Go(t, fd) =>
      var pc := s.threads[t];
      if IsIo(pc) {
        IoClocked(s, t);
      } else if IsClose(pc) {
        CloseClocked(s, t);
      } else if IsDestroy(pc) {
        DestroyClocked(s, t);
      } else if IsRead(pc) {
        ReadClocked(s, t);
      } else if IsAccept(pc) {
        AcceptClocked(s, t, fd);
      } else if IsScan(pc) {
        ScanClocked(s, t, fd);
      } else {
        PopClocked(s, t);
      }
    case Start(pc) => OutsideClocked(s, Next(s, a));
    case Arrive(fd, bytes) => OutsideClocked(s, Next(s, a));
    case Tick => OutsideClocked(s, Next(s, a));
  }
}
