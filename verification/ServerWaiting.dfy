/** Who waits for whom: no cycle, when everything stands still, and which threads wait for ever. */
module ServerWaiting {
  import opened Bytes
  import Framer
  import opened Server
  import opened ServerInvariants
  import opened ServerRuns

  function Rank(l: Lock): nat {
    match l
    case ConnMutex(_) => 0
    case ReadBuffMux => 1
    case ConnectionsMux => 2
  }

  /** Every blocking acquire goes up: connection mutex, then the queue's, then the table's. */
  lemma LockOrder(pc: Pc, held: Lock, wanted: Lock)
    requires Holds(pc, held) && Wants(pc) == Some(wanted)
    ensures Rank(held) < Rank(wanted)
  {
  }

  predicate WaitsOn(s: State, t: nat, u: nat) {
    t < |s.threads| && u < |s.threads|
    && var l := Wants(s.threads[t]); l.Some? && Owner(s, l.value) == Some(u)
  }

  lemma OwnerHolds(s: State, l: Lock, u: nat)
    requires Core(s) && Owner(s, l) == Some(u)
    ensures u < |s.threads| && Holds(s.threads[u], l)
  {
    match l
    case ConnMutex(c) => assert ConnLock(s.threads, c, s.conns[c].owner);
    case ReadBuffMux =>
    case ConnectionsMux =>
  }

  lemma WaitingRises(s: State, t: nat, u: nat)
    requires Core(s) && WaitsOn(s, t, u) && Wants(s.threads[u]).Some?
    ensures Rank(Wants(s.threads[t]).value) < Rank(Wants(s.threads[u]).value)
  {
    hide Core;
    OwnerHolds(s, Wants(s.threads[t]).value, u);
    LockOrder(s.threads[u], Wants(s.threads[t]).value, Wants(s.threads[u]).value);
  }

  /** The rank of what a thread waits for. */
  function WantedRank(s: State, t: nat): int {
    if t < |s.threads| && Wants(s.threads[t]).Some? then Rank(Wants(s.threads[t]).value) else -1
  }

  /** The thread at place `i` waits on the next one, the last on the first. */
  predicate WaitsOnNext(s: State, ts: seq<nat>, i: nat)
    requires i < |ts|
  {
    WaitsOn(s, ts[i], ts[if i + 1 < |ts| then i + 1 else 0])
  }

  ghost predicate WaitCycle(s: State, ts: seq<nat>) {
    |ts| > 0 && forall i :: 0 <= i < |ts| ==> WaitsOnNext(s, ts, i)
  }

  lemma RankRises(s: State, ts: seq<nat>, i: nat)
    requires Core(s) && WaitCycle(s, ts) && i < |ts|
    ensures WantedRank(s, ts[i]) < WantedRank(s, ts[if i + 1 < |ts| then i + 1 else 0])
  {
    hide Core;
    var next := if i + 1 < |ts| then i + 1 else 0;
    assert WaitsOnNext(s, ts, i) && WaitsOnNext(s, ts, next);
    WaitingRises(s, ts[i], ts[next]);
  }

  lemma {:induction false} RanksRise(s: State, ts: seq<nat>, n: nat)
    requires Core(s) && WaitCycle(s, ts) && n < |ts|
    ensures WantedRank(s, ts[0]) + n <= WantedRank(s, ts[n])
  {
    hide Core, WantedRank, WaitsOn;
    if n > 0 {
      RanksRise(s, ts, n - 1);
      RankRises(s, ts, n - 1);
    }
  }

  /** No reachable state has a cycle of threads each waiting for a mutex the next one holds. */
  lemma NoWaitCycle(s: State, ts: seq<nat>)
    requires Reachable(s)
    ensures !WaitCycle(s, ts)
  {
    hide Core, InRange, AllKept, Reachable, WantedRank, WaitsOn;
    Invariants(s);
    if WaitCycle(s, ts) {
      RanksRise(s, ts, |ts| - 1);
      RankRises(s, ts, |ts| - 1);
      assert false;
    }
  }

  predicate Returned(pc: Pc) {
    pc.Done? || pc.Abandoned?
  }

  /** The mutex a handler wants belongs to a record that was freed while another handler took it. */
  predicate WantsDead(s: State, t: nat) {
    t < |s.threads|
    && var l := Wants(s.threads[t]);
       l.Some? && l.value.ConnMutex? && l.value.c < |s.conns| && s.conns[l.value.c].destroyed
  }

  /** It is held, by a handler that will never unlock it. */
  predicate LeftWaiting(s: State, t: nat) {
    WantsDead(s, t) && Owner(s, Wants(s.threads[t]).value).Some?
  }

  /**
    A reachable state stands still exactly when each thread has returned or wants a dead connection's mutex that is
    held.
   */
  lemma StuckIff(s: State)
    requires Reachable(s)
    ensures (forall u :: !Runnable(s, u))
       <==> forall t :: 0 <= t < |s.threads| ==> Returned(s.threads[t]) || LeftWaiting(s, t)
  {
    hide Reachable, AllKept, Core, InRange;
    Invariants(s);
    if forall u :: !Runnable(s, u) {
      forall t | 0 <= t < |s.threads| ensures Returned(s.threads[t]) || LeftWaiting(s, t) {
        if !Returned(s.threads[t]) && !LeftWaiting(s, t) {
          var u := SomeoneGoesOn(s, t);
          assert false;
        }
      }
    }
  }

  /** A thread that has not returned and is not left waiting can go on, or waits on threads of which one can. */
  lemma SomeoneGoesOn(s: State, t: nat) returns (u: nat)
    requires Core(s) && t < |s.threads| && !Returned(s.threads[t]) && !LeftWaiting(s, t)
    ensures Runnable(s, u)
  {
    hide Core;
    u := t;
    if !WantsDead(s, t) {
      u := FollowChain(s, t);
    }
  }

  lemma FollowChain(s: State, t: nat) returns (u: nat)
    requires Core(s) && t < |s.threads| && !Returned(s.threads[t]) && !WantsDead(s, t)
    ensures Runnable(s, u)
    decreases if Wants(s.threads[t]).Some? then 3 - Rank(Wants(s.threads[t]).value) else 0
  {
    hide Core;
    u := t;
    var l := Wants(s.threads[t]);
    if l.Some? && Owner(s, l.value).Some? {
      var v := Owner(s, l.value).value;
      OwnerHolds(s, l.value, v);
      HolderActive(s, l.value, v);
      if Wants(s.threads[v]).Some? {
        WaitingRises(s, t, v);
        u := FollowChain(s, v);
      } else {
        u := v;
      }
    }
  }

  /** Who holds a lock has not returned, unless it is the mutex of a record that is gone. */
  lemma HolderActive(s: State, l: Lock, v: nat)
    requires Core(s) && v < |s.threads| && Holds(s.threads[v], l)
    requires l.ConnMutex? ==> l.c < |s.conns| && !s.conns[l.c].destroyed
    ensures !Returned(s.threads[v])
    ensures Wants(s.threads[v]).Some? ==> !Wants(s.threads[v]).value.ConnMutex?
  {
    assert PcOk(s.conns, s.table, v, s.threads[v]);
  }

  // ---- Waiting for ever ----

  lemma DeadHeld(s: State, t: nat)
    requires Core(s) && LeftWaiting(s, t)
    ensures var c := Wants(s.threads[t]).value.c;
            var u := s.conns[c].owner.value;
            u < |s.threads| && u != t && HoldsConn(s.threads[u]) == Some(c)
            && (s.threads[u].IoCheck? || s.threads[u].Abandoned?)
  {
    var c := Wants(s.threads[t]).value.c;
    assert ConnLock(s.threads, c, s.conns[c].owner);
    var u := s.conns[c].owner.value;
    assert PcOk(s.conns, s.table, u, s.threads[u]);
  }

  /** Dead records stay dead, and a dead record's mutex that is held stays held, by the same thread. */
  lemma StaysLeft(s: State, a: Action, t: nat)
    requires Core(s) && InRange(s) && Enabled(s, a) && LeftWaiting(s, t)
    ensures LeftWaiting(Next(s, a), t) && Next(s, a).threads[t] == s.threads[t]
  {
    hide Core, InRange, Next;
    var c := Wants(s.threads[t]).value.c;
    var u := s.conns[c].owner.value;
    DeadHeld(s, t);
    assert !Runnable(s, t);
    NextLeaves(s, a, t);
    HolderStays(s, a, u, c);
  }

  lemma HolderStays(s: State, a: Action, u: nat, c: nat)
    requires Core(s) && InRange(s) && Enabled(s, a) && c < |s.conns| && s.conns[c].destroyed
    requires u < |s.threads| && HoldsConn(s.threads[u]) == Some(c)
    requires s.threads[u].IoCheck? || s.threads[u].Abandoned?
    ensures var s' := Next(s, a); c < |s'.conns| && s'.conns[c].destroyed && s'.conns[c].owner.Some?
  {
    hide Core, InRange, Next;
    NextKeeps(s, a);
    DestroyedStays(s, a, c);
    var s' := Next(s, a);
    if a.Go? && a.t == u {
      SeesFlag(s, a.fd, u, c);
    } else {
      NextLeaves(s, a, u);
    }
    HereConn(s', u, c);
  }

  lemma SeesFlag(s: State, fd: int, u: nat, c: nat)
    requires InRange(s) && Runnable(s, u) && c < |s.conns| && s.conns[c].destroyed
    requires s.threads[u].IoCheck? && s.threads[u].c == c
    ensures ThreadStep(s, u, fd).threads == s.threads[u := Abandoned(c)]
    ensures Enabled(s, Go(u, fd)) ==> Next(s, Go(u, fd)).threads == s.threads[u := Abandoned(c)]
  {
  }

  lemma DestroyedStays(s: State, a: Action, c: nat)
    requires InRange(s) && Enabled(s, a) && c < |s.conns| && s.conns[c].destroyed
    ensures var s' := Next(s, a); c < |s'.conns| && s'.conns[c].destroyed
  {
    if a.Go? {
      StepMoves(s, a.t, a.fd);
    }
    hide ThreadStep, InRange;
  }

  /** A handler that is left waiting stays where it is, whatever happens. */
  lemma {:induction false} WaitsForEver(s: State, actions: seq<Action>, s': State, t: nat)
    requires Core(s) && InRange(s) && LeftWaiting(s, t) && Runs(s, actions, s')
    ensures LeftWaiting(s', t) && s'.threads[t] == s.threads[t] && !Runnable(s', t)
    decreases |actions|
  {
    hide Core, InRange, Next, Enabled, LeftWaiting;
    LeftNotRunnable(s, t);
    if actions != [] {
      StaysLeft(s, actions[0], t);
      NextKeeps(s, actions[0]);
      LeftNotRunnable(Next(s, actions[0]), t);
      WaitsForEver(Next(s, actions[0]), actions[1..], s', t);
    }
  }

  lemma LeftNotRunnable(s: State, t: nat)
    requires LeftWaiting(s, t)
    ensures t < |s.threads| && !Runnable(s, t)
  {
  }

  // ---- Everyone else can be served ----

  /** How many steps a thread that holds a lock has left at most. */
  function StepsLeft(pc: Pc): nat {
    match pc
    case IoLookup(_) => 1
    case IoCheck(_, _) => 20
    case IoPeek(_, _) => 19
    case CloseWantQueue(_) => 18
    case ClosePush(_) => 17
    case CloseUnlockQueue(_) => 16
    case DestroyWantTable(_, _) => 15
    case DestroyRemove(_, _) => 14
    case DestroyClose(_, _) => 13
    case DestroyUnlockTable(_) => 12
    case ErrorUnlockQueue => 11
    case ReadWantQueue(_) => 18
    case ReadFetch(_) => 17
    case ReadUnlockQueue(_) => 2
    case ReadUnlockConn(_) => 1
    case AcceptInsert(_) => 2
    case AcceptUnlockTable => 1
    case ScanNext(todo) => 4 * |todo| + 1
    case ScanTry(todo, _, _) => 4 * |todo| + 4
    case ScanPush(todo, _, _) => 4 * |todo| + 3
    case ScanUnlockQueue(todo) => 4 * |todo| + 2
    case PopHead => 2
    case PopUnlockQueue => 1
    case ListUnlockTable => 1
    case _ => 0
  }

  predicate HoldsSome(pc: Pc) {
    HoldsTable(pc) || HoldsQueue(pc) || HoldsConn(pc).Some?
  }

  /** The step uses up what is left, and checks no flag that is set. */
  ghost predicate Nearer(s: State, s': State, t: nat) {
    t < |s.threads| && t < |s'.threads| && StepsLeft(s'.threads[t]) < StepsLeft(s.threads[t]) && !s'.threads[t].IoCheck?
    && (s'.threads[t].Abandoned? ==> s.threads[t].IoCheck? && s.threads[t].c < |s.conns|
                                     && s.conns[s.threads[t].c].destroyed)
  }

  lemma IoNearer(s: State, t: nat)
    requires InRange(s) && t < |s.threads| && IsIo(s.threads[t]) && HoldsSome(s.threads[t])
    ensures Nearer(s, IoStep(s, t), t)
  {
  }

  lemma CloseNearer(s: State, t: nat)
    requires InRange(s) && t < |s.threads| && IsClose(s.threads[t])
    ensures Nearer(s, CloseStep(s, t), t)
  {
  }

  lemma DestroyNearer(s: State, t: nat)
    requires InRange(s) && t < |s.threads| && IsDestroy(s.threads[t])
    ensures Nearer(s, DestroyStep(s, t), t)
  {
  }

  lemma ReadNearer(s: State, t: nat)
    requires InRange(s) && t < |s.threads| && IsRead(s.threads[t])
    ensures Nearer(s, ReadStep(s, t), t)
  {
    hide FetchStep, Framer.Frame;
    if s.threads[t].ReadFetch? {
      FetchedPc(s, t, s.threads[t].c);
    }
  }

  lemma AcceptNearer(s: State, t: nat, fd: int)
    requires InRange(s) && t < |s.threads| && IsAccept(s.threads[t]) && HoldsSome(s.threads[t])
    ensures Nearer(s, AcceptStep(s, t, fd), t)
  {
  }

  lemma ScanNearer(s: State, t: nat, fd: int)
    requires InRange(s) && t < |s.threads| && IsScan(s.threads[t]) && HoldsSome(s.threads[t])
    requires Choosable(s, s.threads[t], fd)
    ensures Nearer(s, ScanStep(s, t, fd), t)
  {
    hide Nearer;
    if s.threads[t].ScanNext? {
      ScanNextNearer(s, t, fd);
    } else {
      ScanEndNearer(s, t, fd);
    }
  }

  lemma ScanNextNearer(s: State, t: nat, fd: int)
    requires InRange(s) && t < |s.threads| && s.threads[t].ScanNext? && Choosable(s, s.threads[t], fd)
    ensures Nearer(s, ScanStep(s, t, fd), t)
  {
    TableInRange(s);
    hide Visit, InRange;
    var pc := s.threads[t];
    if pc.todo != {} {
      assert |pc.todo - {fd}| == |pc.todo| - 1;
      if fd in s.table {
        VisitPc(s, t, pc.todo - {fd}, s.table[fd]);
      }
    }
  }

  lemma ScanEndNearer(s: State, t: nat, fd: int)
    requires InRange(s) && t < |s.threads|
    requires s.threads[t].ScanTry? || s.threads[t].ScanPush? || s.threads[t].ScanUnlockQueue?
    ensures Nearer(s, ScanStep(s, t, fd), t)
  {
    hide Visit;
  }

  lemma VisitPc(s: State, t: nat, todo: set<int>, c: nat)
    requires t < |s.threads| && c < |s.conns|
    ensures var s' := Visit(s, t, todo, c);
            |s'.threads| == |s.threads| && (s'.threads[t] == ScanTry(todo, c, s.now) || s'.threads[t] == ScanNext(todo))
  {
  }

  lemma PopNearer(s: State, t: nat)
    requires t < |s.threads| && HoldsSome(s.threads[t])
    requires s.threads[t].PopHead? || s.threads[t].PopUnlockQueue? || s.threads[t].ListUnlockTable?
    ensures Nearer(s, PopStep(s, t), t)
  {
  }

  lemma HolderNearer(s: State, t: nat, fd: int)
    requires InRange(s) && Runnable(s, t) && HoldsSome(s.threads[t]) && Choosable(s, s.threads[t], fd)
    ensures Nearer(s, Next(s, Go(t, fd)), t)
  {
    hide InRange, Nearer, StepsLeft, Choosable, IoStep, CloseStep, DestroyStep, ReadStep, AcceptStep, ScanStep, PopStep;
    var pc := s.threads[t];
    if IsIo(pc) {
      IoNearer(s, t);
    } else if IsClose(pc) {
      CloseNearer(s, t);
    } else if IsDestroy(pc) {
      DestroyNearer(s, t);
    } else if IsRead(pc) {
      ReadNearer(s, t);
    } else if IsAccept(pc) {
      AcceptNearer(s, t, fd);
    } else if IsScan(pc) {
      ScanNearer(s, t, fd);
    } else {
      PopNearer(s, t);
    }
  }

  lemma HasChoice(s: State, pc: Pc) returns (fd: int)
    requires HoldsSome(pc)
    ensures Choosable(s, pc, fd)
  {
    fd := 0;
    if pc.ScanNext? {
      var todo := pc.todo;
      if exists some :: some in todo {
        fd :| fd in todo;
      } else {
        assert todo == {};
      }
    }
  }

  /** The thread holds no lock of rank `r` or above. */
  ghost predicate HoldsBelow(pc: Pc, r: nat) {
    forall held :: Holds(pc, held) ==> Rank(held) < r
  }

  lemma BelowWanted(pc: Pc)
    requires Wants(pc).Some?
    ensures HoldsBelow(pc, Rank(Wants(pc).value))
  {
    hide Holds, Wants;
    forall held | Holds(pc, held) ensures Rank(held) < Rank(Wants(pc).value) {
      LockOrder(pc, held, Wants(pc).value);
    }
  }

  lemma HolderOwns(s: State, l: Lock, u: nat)
    requires Core(s) && u < |s.threads| && Holds(s.threads[u], l)
    ensures Owner(s, l) == Some(u)
  {
    match l
    case ConnMutex(c) =>
      assert PcOk(s.conns, s.table, u, s.threads[u]);
      assert ConnLock(s.threads, c, s.conns[c].owner);
    case ReadBuffMux =>
    case ConnectionsMux =>
  }

  /** Not the mutex of a record that was freed. */
  predicate LiveLock(s: State, l: Lock) {
    l.ConnMutex? ==> l.c < |s.conns| && !s.conns[l.c].destroyed
  }

  lemma HolderLive(s: State, l: Lock, v: nat)
    requires Core(s) && v < |s.threads| && Holds(s.threads[v], l)
    requires !s.threads[v].IoCheck? && !s.threads[v].Abandoned?
    ensures LiveLock(s, l)
  {
    assert PcOk(s.conns, s.table, v, s.threads[v]);
  }

  lemma {:induction false} RunsJoin(s: State, a: seq<Action>, m: State, b: seq<Action>, s': State)
    requires Runs(s, a, m) && Runs(m, b, s')
    ensures Runs(s, a + b, s')
    decreases |a|
  {
    hide Next, Enabled, InRange;
    if a == [] {
      assert a + b == b;
    } else {
      RunsJoin(Next(s, a[0]), a[1..], m, b, s');
      assert (a + b)[1..] == a[1..] + b;
    }
  }

  lemma RunsOne(s: State, a: Action)
    requires InRange(s) && Enabled(s, a)
    ensures Runs(s, [a], Next(s, a))
  {
    hide Next, Enabled, InRange;
    assert [a][1..] == [];
    assert Runs(Next(s, a), [], Next(s, a));
  }

  /** Threads that hold nothing of rank `r` or above have not moved. */
  ghost predicate Unmoved(s: State, s': State, r: nat) {
    |s'.threads| == |s.threads|
    && forall u :: 0 <= u < |s.threads| && HoldsBelow(s.threads[u], r) ==> s'.threads[u] == s.threads[u]
  }

  lemma HoldsSomething(pc: Pc, l: Lock)
    requires Holds(pc, l)
    ensures HoldsSome(pc) && !HoldsBelow(pc, Rank(l)) && (l.ConnMutex? ==> HoldsConn(pc) == Some(l.c))
  {
  }

  lemma HoldsAtCheck(pc: Pc, l: Lock)
    requires pc.IoCheck? && Holds(pc, l)
    ensures l == ConnMutex(pc.c)
  {
  }

  /** One step of a lock's owner, who then has it still, with less to do, or has given it up. */
  lemma Onward(s: State, l: Lock, v: nat) returns (a: Action, s': State)
    requires Core(s) && InRange(s) && Owner(s, l) == Some(v) && Runnable(s, v) && LiveLock(s, l)
    ensures Enabled(s, a) && s' == Next(s, a) && Core(s') && InRange(s') && Unmoved(s, s', Rank(l))
    ensures Owner(s', l).Some? ==>
              Owner(s', l) == Some(v) && LiveLock(s', l) && StepsLeft(s'.threads[v]) < StepsLeft(s.threads[v])
  {
    hide Core, InRange, Holds, HoldsSome, HoldsConn, Wants, Owner, StepsLeft, Next, Choosable, HoldsBelow;
    OwnerHolds(s, l, v);
    HoldsSomething(s.threads[v], l);
    var fd := HasChoice(s, s.threads[v]);
    a := Go(v, fd);
    s' := Next(s, a);
    NextKeeps(s, a);
    HolderNearer(s, v, fd);
    StepAlone(s, v, fd);
    if Owner(s', l).Some? {
      var x := Owner(s', l).value;
      OwnerHolds(s', l, x);
      if x != v {
        HolderOwns(s, l, x);
        assert false;
      }
      if s'.threads[v].Abandoned? {
        HoldsAtCheck(s.threads[v], l);
      } else {
        HolderLive(s', l, v);
      }
    }
  }

  lemma StepAlone(s: State, t: nat, fd: int)
    requires InRange(s) && Runnable(s, t) && Choosable(s, s.threads[t], fd)
    ensures var s' := Next(s, Go(t, fd));
            |s'.threads| == |s.threads|
            && forall u :: 0 <= u < |s.threads| && u != t ==> s'.threads[u] == s.threads[u]
  {
    StepMoves(s, t, fd);
    hide ThreadStep, InRange;
  }

  /** The owner of a lock is brought to where it can go on. */
  lemma {:induction false} Unblock(s: State, l: Lock, v: nat) returns (actions: seq<Action>, s': State)
    requires Core(s) && InRange(s) && Owner(s, l) == Some(v) && v < |s.threads| && LiveLock(s, l)
    ensures Runs(s, actions, s') && Core(s') && InRange(s') && Unmoved(s, s', Rank(l))
    ensures Owner(s', l) == Some(v) && Runnable(s', v) && LiveLock(s', l) && s'.threads[v] == s.threads[v]
    decreases 3 - Rank(l), StepsLeft(s.threads[v]), 0
  {
    hide Core, InRange, Holds, HoldsConn, StepsLeft, Next, HoldsBelow, Owner;
    var pc := s.threads[v];
    OwnerHolds(s, l, v);
    HolderActive(s, l, v);
    if Wants(pc).Some? && Owner(s, Wants(pc).value).Some? {
      var wanted := Wants(pc).value;
      LockOrder(pc, l, wanted);
      var w := Owner(s, wanted).value;
      OwnerHolds(s, wanted, w);
      actions, s' := Release(s, wanted, w);
      BelowWanted(pc);
      BelowMore(s, s', Rank(l), Rank(wanted));
      HolderOwns(s', l, v);
      HolderLive(s', l, v);
    } else {
      actions, s' := [], s;
    }
  }

  lemma BelowMore(s: State, s': State, r: nat, q: nat)
    requires Unmoved(s, s', q) && r <= q
    ensures Unmoved(s, s', r)
  {
  }

  lemma UnmovedTwice(s: State, m: State, s': State, r: nat)
    requires Unmoved(s, m, r) && Unmoved(m, s', r)
    ensures Unmoved(s, s', r)
  {
  }

  /** The owner of a lock can always be brought to give it up, by itself and the holders of higher locks. */
  lemma {:induction false} Release(s: State, l: Lock, v: nat) returns (actions: seq<Action>, s': State)
    requires Core(s) && InRange(s) && Owner(s, l) == Some(v) && v < |s.threads| && LiveLock(s, l)
    ensures Runs(s, actions, s') && Core(s') && InRange(s') && Owner(s', l).None? && Unmoved(s, s', Rank(l))
    decreases 3 - Rank(l), StepsLeft(s.threads[v]), 1
  {
    hide Core, InRange, StepsLeft, Runs, Next, Runnable, Unmoved, LiveLock, Owner;
    var before, m := Unblock(s, l, v);
    var a, n := Onward(m, l, v);
    RunsOne(m, a);
    RunsJoin(s, before, m, [a], n);
    UnmovedTwice(s, m, n, Rank(l));
    actions, s' := before + [a], n;
    if Owner(n, l).Some? {
      OwnerHolds(n, l, v);
      var after;
      after, s' := Release(n, l, v);
      RunsJoin(s, actions, n, after, s');
      UnmovedTwice(s, n, s', Rank(l));
      actions := actions + after;
    }
  }

  /** A thread waits for ever exactly when it wants a dead connection's mutex that is held. */
  lemma WaitsForEverIff(s: State, t: nat)
    requires Reachable(s) && t < |s.threads| && !Returned(s.threads[t])
    ensures (forall actions, s' :: Runs(s, actions, s') ==> !Runnable(s', t)) <==> LeftWaiting(s, t)
  {
    hide Reachable, AllKept, Core, InRange, Runs, LeftWaiting;
    Invariants(s);
    if LeftWaiting(s, t) {
      forall actions, s' | Runs(s, actions, s') ensures !Runnable(s', t) {
        WaitsForEver(s, actions, s', t);
      }
    } else {
      var actions, s' := Served(s, t);
    }
  }

  lemma Served(s: State, t: nat) returns (actions: seq<Action>, s': State)
    requires Core(s) && InRange(s) && t < |s.threads| && !Returned(s.threads[t]) && !LeftWaiting(s, t)
    ensures Runs(s, actions, s') && Runnable(s', t)
  {
    hide Core, InRange, Owner;
    if Runnable(s, t) {
      actions, s' := [], s;
    } else {
      var wanted := Wants(s.threads[t]).value;
      var v := Owner(s, wanted).value;
      OwnerHolds(s, wanted, v);
      WantedInRange(s, t);
      actions, s' := Release(s, wanted, v);
      BelowWanted(s.threads[t]);
    }
  }

  lemma WantedInRange(s: State, t: nat)
    requires InRange(s) && t < |s.threads|
    ensures Wants(s.threads[t]).Some? && Wants(s.threads[t]).value.ConnMutex? ==>
              Wants(s.threads[t]).value.c < |s.conns|
  {
    assert PcInRange(s.threads[t], |s.conns|);
  }
}
