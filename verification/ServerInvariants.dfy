/** What every step of the server keeps: lock ownership, the table, descriptors, and where each thread may stand. */
module ServerInvariants {
  import opened Bytes
  import Messages
  import Framer
  import Wire
  import KeepAlive
  import opened Server

  /** In the table: put in and not taken out yet. */
  predicate Live(k: Conn) {
    k.inserted && !k.destroyed
  }

  /** A read that got these bytes failed on them. */
  predicate Refused(taken: Text) {
    Framer.Frame(taken).Error?
  }

  /** In the table, not reported closed, and no read from it failed. */
  predicate Sound(k: Conn) {
    Live(k) && k.reports == 0 && k.lost == []
  }

  /** In the table and on its way out of it: a read failed if `erring`, and otherwise it was reported closed. */
  predicate Leaving(k: Conn, erring: bool) {
    Live(k) && if erring then k.reports == 0 && Refused(k.lost) else k.reports == 1 && k.lost == []
  }

  /** What a thread at `pc` may rely on. */
  predicate PcOk(conns: seq<Conn>, table: map<int, nat>, t: nat, pc: Pc) {
    PcInRange(pc, |conns|)
    && match pc
       case IoWantConn(fd, c) => conns[c].fd == fd && conns[c].inserted
       case IoCheck(fd, c) => conns[c].fd == fd && conns[c].inserted && (conns[c].destroyed || Sound(conns[c]))
       case IoPeek(fd, c) => conns[c].fd == fd && Sound(conns[c])
       case CloseWantQueue(c) => Sound(conns[c])
       case ClosePush(c) => Sound(conns[c])
       case CloseUnlockQueue(c) => Leaving(conns[c], false)
       case DestroyWantTable(c, erring) => Leaving(conns[c], erring)
       case DestroyRemove(c, erring) => Leaving(conns[c], erring)
       case DestroyClose(c, _) => conns[c].destroyed && !conns[c].closed
       case ReadWantQueue(c) => Sound(conns[c])
       case ReadFetch(c) => Sound(conns[c])
       case ReadUnlockQueue(c) => Sound(conns[c])
       case ReadUnlockConn(c) => Sound(conns[c])
       case AcceptWantTable(c) => !conns[c].inserted && conns[c].creator == t
       case AcceptInsert(c) => !conns[c].inserted && conns[c].creator == t
       case ScanNext(todo) => todo <= table.Keys
       case ScanTry(todo, _, _) => todo <= table.Keys
       case ScanPush(todo, _, _) => todo <= table.Keys
       case ScanUnlockQueue(todo) => todo <= table.Keys
       case Abandoned(c) => conns[c].destroyed
       case _ => true
  }

  predicate PcsOk(conns: seq<Conn>, table: map<int, nat>, threads: seq<Pc>) {
    forall t :: 0 <= t < |threads| ==> PcOk(conns, table, t, threads[t])
  }

  predicate ConnOk(k: Conn, open: set<int>) {
    (k.closed ==> k.destroyed) && (k.destroyed ==> k.inserted) && (!k.closed ==> k.fd in open)
    && k.removals == (if k.destroyed then 1 else 0)
    && k.reports <= 1 && (k.owner.None? && !k.destroyed ==> k.reports == 0 && k.lost == [])
    && (k.destroyed ==> if k.reports == 1 then k.lost == [] else Refused(k.lost))
    && (!k.inserted ==> k.owner.None?)
  }

  predicate ConnsOk(conns: seq<Conn>, open: set<int>) {
    forall c :: 0 <= c < |conns| ==> ConnOk(conns[c], open)
  }

  /** The table maps exactly the live records' descriptors, each to its record. */
  predicate TableOk(conns: seq<Conn>, table: map<int, nat>) {
    (forall fd :: fd in table ==> table[fd] < |conns| && conns[table[fd]].fd == fd && Live(conns[table[fd]]))
    && forall c :: 0 <= c < |conns| && Live(conns[c]) ==> conns[c].fd in table && table[conns[c].fd] == c
  }

  /** No two records share a descriptor that is not closed. */
  predicate FdsOk(conns: seq<Conn>) {
    forall c, d :: 0 <= c < d < |conns| && !conns[c].closed && !conns[d].closed ==> conns[c].fd != conns[d].fd
  }

  predicate TableLock(threads: seq<Pc>, owner: Option<nat>) {
    (owner.Some? ==> owner.value < |threads|)
    && forall t :: 0 <= t < |threads| ==> (HoldsTable(threads[t]) <==> owner == Some(t))
  }

  predicate QueueLock(threads: seq<Pc>, owner: Option<nat>) {
    (owner.Some? ==> owner.value < |threads|)
    && forall t :: 0 <= t < |threads| ==> (HoldsQueue(threads[t]) <==> owner == Some(t))
  }

  predicate ConnLock(threads: seq<Pc>, c: nat, owner: Option<nat>) {
    (owner.Some? ==> owner.value < |threads|)
    && forall t :: 0 <= t < |threads| ==> (HoldsConn(threads[t]) == Some(c) <==> owner == Some(t))
  }

  predicate ConnLocks(threads: seq<Pc>, conns: seq<Conn>) {
    forall c :: 0 <= c < |conns| ==> ConnLock(threads, c, conns[c].owner)
  }

  predicate Core(s: State) {
    PcsOk(s.conns, s.table, s.threads) && ConnsOk(s.conns, s.open.Keys) && TableOk(s.conns, s.table) && FdsOk(s.conns)
    && TableLock(s.threads, s.tableOwner) && QueueLock(s.threads, s.queueOwner) && ConnLocks(s.threads, s.conns)
    && !s.crashed
  }

  lemma CoreInRange(s: State)
    requires Core(s)
    ensures InRange(s)
  {
  }

  lemma TableInRange(s: State)
    requires InRange(s)
    ensures forall fd :: fd in s.table ==> s.table[fd] < |s.conns|
  {
  }

  lemma InRangeHere(s: State, t: nat)
    requires InRange(s) && t < |s.threads|
    ensures PcInRange(s.threads[t], |s.conns|)
  {
  }

  // ---- Moving on, with or without one of the global locks ----

  /** How a lock's owner changes when thread `t` holds it as told before and after. */
  predicate OwnerMoves(owner: Option<nat>, owner': Option<nat>, t: nat, before: bool, after: bool) {
    if before == after then owner' == owner
    else if after then owner.None? && owner' == Some(t)
    else owner'.None?
  }

  lemma LocksShift(threads: seq<Pc>, t: nat, pc: Pc, tableOwner: Option<nat>, tableOwner': Option<nat>,
                   queueOwner: Option<nat>, queueOwner': Option<nat>)
    requires t < |threads| && TableLock(threads, tableOwner) && QueueLock(threads, queueOwner)
    requires OwnerMoves(tableOwner, tableOwner', t, HoldsTable(threads[t]), HoldsTable(pc))
    requires OwnerMoves(queueOwner, queueOwner', t, HoldsQueue(threads[t]), HoldsQueue(pc))
    ensures TableLock(threads[t := pc], tableOwner') && QueueLock(threads[t := pc], queueOwner')
  {
  }

  lemma ConnLocksKept(threads: seq<Pc>, t: nat, pc: Pc, conns: seq<Conn>)
    requires t < |threads| && ConnLocks(threads, conns) && HoldsConn(pc) == HoldsConn(threads[t])
    ensures ConnLocks(threads[t := pc], conns)
  {
    hide HoldsConn;
    forall c | 0 <= c < |conns| ensures ConnLock(threads[t := pc], c, conns[c].owner) {
      assert ConnLock(threads, c, conns[c].owner);
    }
  }

  lemma GotoKeeps(s: State, t: nat, pc: Pc, tableOwner: Option<nat>, queueOwner: Option<nat>)
    requires Core(s) && t < |s.threads| && PcOk(s.conns, s.table, t, pc)
    requires HoldsConn(pc) == HoldsConn(s.threads[t])
    requires OwnerMoves(s.tableOwner, tableOwner, t, HoldsTable(s.threads[t]), HoldsTable(pc))
    requires OwnerMoves(s.queueOwner, queueOwner, t, HoldsQueue(s.threads[t]), HoldsQueue(pc))
    ensures Core(Goto(s, t, pc, tableOwner, queueOwner))
  {
    hide PcOk, HoldsConn, HoldsQueue, HoldsTable, ConnsOk, TableOk, FdsOk, OwnerMoves, TableLock, QueueLock, ConnLocks;
    LocksShift(s.threads, t, pc, s.tableOwner, tableOwner, s.queueOwner, queueOwner);
    ConnLocksKept(s.threads, t, pc, s.conns);
  }

  // ---- Changing a record under its mutex ----

  /** Only what the mutex protects, and the counters, may differ. */
  predicate Touched(k: Conn, k': Conn) {
    k' == k.(owner := k'.owner, lastKeepAlive := k'.lastKeepAlive, reports := k'.reports, frames := k'.frames,
                read := k'.read, lost := k'.lost, events := k'.events, got := k'.got)
  }

  /** A thread that does not hold the record's mutex relies on nothing the mutex protects. */
  lemma OtherPc(conns: seq<Conn>, c: nat, k: Conn, table: map<int, nat>, t: nat, pc: Pc)
    requires c < |conns| && PcOk(conns, table, t, pc) && HoldsConn(pc) != Some(c) && Touched(conns[c], k)
    ensures PcOk(conns[c := k], table, t, pc)
  {
  }

  lemma ConnLocksTouched(threads: seq<Pc>, t: nat, pc: Pc, conns: seq<Conn>, c: nat, k: Conn)
    requires t < |threads| && c < |conns| && ConnLocks(threads, conns)
    requires conns[c].owner.None? || conns[c].owner == Some(t)
    requires HoldsConn(threads[t]).Some? ==> HoldsConn(threads[t]) == Some(c)
    requires k.owner == if HoldsConn(pc) == Some(c) then Some(t) else None
    requires HoldsConn(pc).Some? ==> HoldsConn(pc) == Some(c)
    ensures ConnLocks(threads[t := pc], conns[c := k])
  {
    hide HoldsConn;
    var changed := conns[c := k];
    forall d | 0 <= d < |conns| ensures ConnLock(threads[t := pc], d, changed[d].owner) {
      assert ConnLock(threads, d, conns[d].owner);
    }
  }

  lemma TouchKeeps(s: State, t: nat, pc: Pc, c: nat, k: Conn)
    requires Core(s) && t < |s.threads| && c < |s.conns| && Touched(s.conns[c], k)
    requires s.conns[c].owner.None? || s.conns[c].owner == Some(t)
    requires HoldsConn(s.threads[t]).Some? ==> HoldsConn(s.threads[t]) == Some(c)
    requires k.owner == if HoldsConn(pc) == Some(c) then Some(t) else None
    requires HoldsConn(pc).Some? ==> HoldsConn(pc) == Some(c)
    requires ConnOk(k, s.open.Keys) && PcOk(s.conns[c := k], s.table, t, pc)
    requires HoldsTable(pc) == HoldsTable(s.threads[t]) && HoldsQueue(pc) == HoldsQueue(s.threads[t])
    ensures Core(Jump(SetConn(s, c, k), t, pc))
  {
    var conns := s.conns[c := k];
    LocksShift(s.threads, t, pc, s.tableOwner, s.tableOwner, s.queueOwner, s.queueOwner);
    ConnLocksTouched(s.threads, t, pc, s.conns, c, k);
    forall u | 0 <= u < |s.threads| && u != t ensures PcOk(conns, s.table, u, s.threads[u]) {
      assert ConnLock(s.threads, c, s.conns[c].owner);
      OtherPc(s.conns, c, k, s.table, u, s.threads[u]);
    }
    RecordsTouched(s, c, k);
    hide PcOk, HoldsConn, HoldsQueue, HoldsTable, Touched, ConnOk;
    hide ConnsOk, TableOk, FdsOk, TableLock, QueueLock, ConnLocks;
  }

  lemma RecordsTouched(s: State, c: nat, k: Conn)
    requires Core(s) && c < |s.conns| && Touched(s.conns[c], k) && ConnOk(k, s.open.Keys)
    ensures ConnsOk(s.conns[c := k], s.open.Keys) && TableOk(s.conns[c := k], s.table) && FdsOk(s.conns[c := k])
  {
    hide ConnOk, PcsOk, TableLock, QueueLock, ConnLocks;
  }

  // ---- Taking a record out of the table ----

  /** Nobody but the thread that holds its mutex relies on a record being live. */
  lemma OtherPcRemoved(conns: seq<Conn>, c: nat, k: Conn, table: map<int, nat>, t: nat, pc: Pc)
    requires c < |conns| && PcOk(conns, table, t, pc) && HoldsConn(pc) != Some(c) && !HoldsTable(pc)
    requires k == conns[c].(destroyed := true, owner := None, removals := k.removals) && Live(conns[c])
    ensures PcOk(conns[c := k], table - {conns[c].fd}, t, pc)
  {
  }

  lemma RecordsRemoved(s: State, c: nat, erring: bool, k: Conn)
    requires Core(s) && c < |s.conns| && Leaving(s.conns[c], erring)
    requires k == s.conns[c].(destroyed := true, owner := None, removals := s.conns[c].removals + 1)
    ensures ConnsOk(s.conns[c := k], s.open.Keys) && FdsOk(s.conns[c := k])
    ensures TableOk(s.conns[c := k], s.table - {k.fd})
  {
    hide PcsOk, TableLock, QueueLock, ConnLocks;
  }

  lemma RemovedPcs(s: State, t: nat, c: nat, k: Conn, erring: bool)
    requires Core(s) && t < |s.threads| && s.threads[t] == DestroyRemove(c, erring) && c < |s.conns|
    requires k == s.conns[c].(destroyed := true, owner := None, removals := k.removals) && Live(s.conns[c])
    ensures PcsOk(s.conns[c := k], s.table - {s.conns[c].fd}, s.threads[t := DestroyClose(c, erring)])
  {
    assert ConnLock(s.threads, c, s.conns[c].owner);
    assert ConnOk(s.conns[c], s.open.Keys);
    forall u | 0 <= u < |s.threads| && u != t
      ensures PcOk(s.conns[c := k], s.table - {s.conns[c].fd}, u, s.threads[u])
    {
      OtherPcRemoved(s.conns, c, k, s.table, u, s.threads[u]);
    }
  }

  /** The record that goes is the one whose mutex the thread holds, and it was in the table. */
  lemma RemoveKeeps(s: State, t: nat, c: nat, erring: bool)
    requires Core(s) && InRange(s) && t < |s.threads| && s.threads[t] == DestroyRemove(c, erring)
    ensures c < |s.conns| && s.conns[c].fd in s.table && s.table[s.conns[c].fd] == c
    ensures Core(Remove(s, t, s.conns[c].fd, erring))
  {
    assert PcOk(s.conns, s.table, t, s.threads[t]);
    var k := s.conns[c].(destroyed := true, owner := None, removals := s.conns[c].removals + 1);
    var pc := DestroyClose(c, erring);
    assert ConnLock(s.threads, c, s.conns[c].owner);
    LocksShift(s.threads, t, pc, s.tableOwner, s.tableOwner, s.queueOwner, s.queueOwner);
    ConnLocksTouched(s.threads, t, pc, s.conns, c, k);
    RecordsRemoved(s, c, erring, k);
    RemovedPcs(s, t, c, k, erring);
    hide PcOk, PcsOk, HoldsConn, HoldsQueue, HoldsTable, ConnsOk, TableOk, FdsOk, TableLock, QueueLock, ConnLocks;
  }

  // ---- Closing its descriptor ----

  lemma OtherPcClosed(conns: seq<Conn>, c: nat, table: map<int, nat>, t: nat, pc: Pc)
    requires c < |conns| && PcOk(conns, table, t, pc) && !HoldsTable(pc)
    ensures PcOk(conns[c := conns[c].(closed := true)], table, t, pc)
  {
  }

  lemma RecordsClosed(s: State, c: nat)
    requires Core(s) && c < |s.conns| && s.conns[c].destroyed && !s.conns[c].closed
    ensures var conns := s.conns[c := s.conns[c].(closed := true)];
            ConnsOk(conns, s.open.Keys - {s.conns[c].fd}) && TableOk(conns, s.table) && FdsOk(conns)
  {
    hide PcsOk, TableLock, QueueLock, ConnLocks;
    var conns := s.conns[c := s.conns[c].(closed := true)];
    forall d | 0 <= d < |conns| ensures ConnOk(conns[d], s.open.Keys - {s.conns[c].fd}) {
      assert ConnOk(s.conns[d], s.open.Keys);
    }
  }

  lemma ConnLocksSameOwner(threads: seq<Pc>, t: nat, pc: Pc, conns: seq<Conn>, c: nat, k: Conn)
    requires t < |threads| && c < |conns| && ConnLocks(threads, conns) && k.owner == conns[c].owner
    requires HoldsConn(pc) == HoldsConn(threads[t])
    ensures ConnLocks(threads[t := pc], conns[c := k])
  {
    hide HoldsConn;
    var changed := conns[c := k];
    forall d | 0 <= d < |conns| ensures ConnLock(threads[t := pc], d, changed[d].owner) {
      assert ConnLock(threads, d, conns[d].owner);
    }
  }

  lemma CloseKeeps(s: State, t: nat, c: nat, erring: bool)
    requires Core(s) && InRange(s) && t < |s.threads| && s.threads[t] == DestroyClose(c, erring)
    ensures Core(DestroyStep(s, t))
  {
    assert PcOk(s.conns, s.table, t, s.threads[t]);
    var k := s.conns[c].(closed := true);
    var pc := DestroyUnlockTable(erring);
    var conns := s.conns[c := k];
    LocksShift(s.threads, t, pc, s.tableOwner, s.tableOwner, s.queueOwner, s.queueOwner);
    ConnLocksSameOwner(s.threads, t, pc, s.conns, c, k);
    RecordsClosed(s, c);
    forall u | 0 <= u < |s.threads| && u != t ensures PcOk(conns, s.table, u, s.threads[u]) {
      OtherPcClosed(s.conns, c, s.table, u, s.threads[u]);
    }
    assert (s.open - {s.conns[c].fd}).Keys == s.open.Keys - {s.conns[c].fd};
    hide PcOk, HoldsConn, HoldsQueue, HoldsTable, ConnsOk, TableOk, FdsOk, TableLock, QueueLock, ConnLocks;
  }

  // ---- Accepting a connection, and putting it into the table ----

  lemma PcGrows(conns: seq<Conn>, k: Conn, table: map<int, nat>, t: nat, pc: Pc)
    requires PcOk(conns, table, t, pc)
    ensures PcOk(conns + [k], table, t, pc)
  {
  }

  lemma RecordsGrow(s: State, k: Conn)
    requires Core(s) && k.fd !in s.open && ConnOk(k, s.open.Keys + {k.fd}) && !k.inserted
    ensures ConnsOk(s.conns + [k], s.open.Keys + {k.fd}) && TableOk(s.conns + [k], s.table) && FdsOk(s.conns + [k])
  {
    hide PcsOk, TableLock, QueueLock, ConnLocks;
    forall c | 0 <= c < |s.conns| ensures ConnOk(s.conns[c], s.open.Keys + {k.fd}) {
      assert ConnOk(s.conns[c], s.open.Keys);
    }
  }

  lemma ConnLocksGrow(threads: seq<Pc>, t: nat, pc: Pc, conns: seq<Conn>, k: Conn)
    requires t < |threads| && ConnLocks(threads, conns) && k.owner.None?
    requires HoldsConn(pc).None? && HoldsConn(threads[t]).None?
    requires forall u :: 0 <= u < |threads| ==> PcInRange(threads[u], |conns|)
    ensures ConnLocks(threads[t := pc], conns + [k])
  {
    var grown := conns + [k];
    forall d | 0 <= d < |grown| ensures ConnLock(threads[t := pc], d, grown[d].owner) {
      if d < |conns| {
        assert ConnLock(threads, d, conns[d].owner);
      }
    }
  }

  lemma AcceptKeeps(s: State, t: nat, fd: int)
    requires Core(s) && InRange(s) && t < |s.threads| && s.threads[t].AcceptStart? && fd !in s.open
    ensures Core(AcceptStep(s, t, fd))
  {
    var k := NewConn(fd, s.now, t);
    var pc := AcceptWantTable(|s.conns|);
    var conns := s.conns + [k];
    LocksShift(s.threads, t, pc, s.tableOwner, s.tableOwner, s.queueOwner, s.queueOwner);
    ConnLocksGrow(s.threads, t, pc, s.conns, k);
    RecordsGrow(s, k);
    forall u | 0 <= u < |s.threads| && u != t ensures PcOk(conns, s.table, u, s.threads[u]) {
      PcGrows(s.conns, k, s.table, u, s.threads[u]);
    }
    assert PcOk(conns, s.table, t, pc);
    assert s.open[fd := []].Keys == s.open.Keys + {fd};
    hide PcOk, HoldsConn, HoldsQueue, HoldsTable, ConnsOk, TableOk, FdsOk, TableLock, QueueLock, ConnLocks;
  }

  lemma OtherPcInserted(conns: seq<Conn>, c: nat, table: map<int, nat>, t: nat, pc: Pc)
    requires c < |conns| && PcOk(conns, table, t, pc) && !HoldsTable(pc) && conns[c].creator != t
    ensures PcOk(conns[c := conns[c].(inserted := true)], table[conns[c].fd := c], t, pc)
  {
  }

  lemma RecordsInserted(s: State, c: nat)
    requires Core(s) && c < |s.conns| && !s.conns[c].inserted
    ensures s.conns[c].fd !in s.table
    ensures var conns := s.conns[c := s.conns[c].(inserted := true)];
            ConnsOk(conns, s.open.Keys) && TableOk(conns, s.table[s.conns[c].fd := c]) && FdsOk(conns)
  {
    hide PcsOk, TableLock, QueueLock, ConnLocks;
    assert ConnOk(s.conns[c], s.open.Keys);
    assert forall d :: 0 <= d < |s.conns| && Live(s.conns[d]) ==> !s.conns[d].closed;
    var conns := s.conns[c := s.conns[c].(inserted := true)];
    forall d | 0 <= d < |conns| ensures ConnOk(conns[d], s.open.Keys) {
      assert ConnOk(s.conns[d], s.open.Keys);
    }
  }

  /** The descriptor is never in the table already. */
  lemma InsertKeeps(s: State, t: nat, fd: int, c: nat)
    requires Core(s) && InRange(s) && t < |s.threads| && s.threads[t] == AcceptInsert(c)
    ensures c < |s.conns| && s.conns[c].fd !in s.table
    ensures Core(AcceptStep(s, t, fd))
  {
    assert PcOk(s.conns, s.table, t, s.threads[t]);
    var k := s.conns[c].(inserted := true);
    var pc := AcceptUnlockTable;
    var conns, table := s.conns[c := k], s.table[k.fd := c];
    LocksShift(s.threads, t, pc, s.tableOwner, s.tableOwner, s.queueOwner, s.queueOwner);
    ConnLocksSameOwner(s.threads, t, pc, s.conns, c, k);
    RecordsInserted(s, c);
    forall u | 0 <= u < |s.threads| && u != t ensures PcOk(conns, table, u, s.threads[u]) {
      OtherPcInserted(s.conns, c, s.table, u, s.threads[u]);
    }
    hide PcOk, HoldsConn, HoldsQueue, HoldsTable, ConnsOk, TableOk, FdsOk, TableLock, QueueLock, ConnLocks;
  }

  // ---- Every step of every thread ----

  lemma PushKeeps(s: State, item: Item)
    requires Core(s)
    ensures Core(Push(s, item))
  {
    hide PcsOk, ConnsOk, TableOk, FdsOk, TableLock, QueueLock, ConnLocks;
  }

  /** The thread's own place in the invariants. */
  lemma Here(s: State, t: nat)
    requires Core(s) && t < |s.threads|
    ensures InRange(s) && PcOk(s.conns, s.table, t, s.threads[t])
    ensures HoldsTable(s.threads[t]) <==> s.tableOwner == Some(t)
    ensures HoldsQueue(s.threads[t]) <==> s.queueOwner == Some(t)
  {
  }

  lemma HereConn(s: State, t: nat, c: nat)
    requires Core(s) && t < |s.threads| && c < |s.conns|
    ensures ConnOk(s.conns[c], s.open.Keys)
    ensures HoldsConn(s.threads[t]) == Some(c) <==> s.conns[c].owner == Some(t)
  {
    assert ConnLock(s.threads, c, s.conns[c].owner);
  }

  lemma HereTable(s: State, fd: int)
    requires Core(s) && fd in s.table
    ensures s.table[fd] < |s.conns| && s.conns[s.table[fd]].fd == fd && Live(s.conns[s.table[fd]])
  {
  }

  lemma IoLookupKeeps(s: State, t: nat, fd: int)
    requires Core(s) && t < |s.threads| && s.threads[t] == IoLookup(fd)
    ensures InRange(s) && Core(IoStep(s, t))
  {
    hide Core, InRange;
    Here(s, t);
    if fd in s.table {
      HereTable(s, fd);
      GotoKeeps(s, t, IoWantConn(fd, s.table[fd]), None, s.queueOwner);
    } else {
      GotoKeeps(s, t, Done, None, s.queueOwner);
    }
  }

  lemma IoCheckKeeps(s: State, t: nat, fd: int, c: nat)
    requires Core(s) && t < |s.threads| && s.threads[t] == IoCheck(fd, c)
    ensures InRange(s) && Core(IoStep(s, t))
  {
    hide Core, InRange;
    Here(s, t);
    if s.conns[c].destroyed {
      GotoKeeps(s, t, Abandoned(c), s.tableOwner, s.queueOwner);
    } else {
      GotoKeeps(s, t, IoPeek(fd, c), s.tableOwner, s.queueOwner);
    }
  }

  lemma IoKeeps(s: State, t: nat)
    requires Core(s) && Runnable(s, t) && IsIo(s.threads[t])
    ensures InRange(s) && Core(IoStep(s, t))
  {
    hide Core, InRange;
    Here(s, t);
    match s.threads[t]
    case IoStart(fd) => GotoKeeps(s, t, IoLookup(fd), Some(t), s.queueOwner);
    case IoLookup(fd) => IoLookupKeeps(s, t, fd);
    case IoWantConn(fd, c) =>
      HereConn(s, t, c);
      TouchKeeps(s, t, IoCheck(fd, c), c, s.conns[c].(owner := Some(t)));
    case IoCheck(fd, c) => IoCheckKeeps(s, t, fd, c);
    case IoPeek(fd, c) =>
      GotoKeeps(s, t, if fd in s.open && s.open[fd] != [] then ReadWantQueue(c) else CloseWantQueue(c),
                s.tableOwner, s.queueOwner);
  }

  lemma CloseStepKeeps(s: State, t: nat)
    requires Core(s) && Runnable(s, t) && IsClose(s.threads[t])
    ensures InRange(s) && Core(CloseStep(s, t))
  {
    hide Core, InRange;
    Here(s, t);
    match s.threads[t]
    case CloseWantQueue(c) => GotoKeeps(s, t, ClosePush(c), s.tableOwner, Some(t));
    case ClosePush(c) =>
      HereConn(s, t, c);
      var k := s.conns[c].(reports := s.conns[c].reports + 1);
      TouchKeeps(s, t, CloseUnlockQueue(c), c, k);
      var item := Item(CONNECTION_CLOSED, c, Closed, s.now);
      PushKeeps(Jump(SetConn(s, c, k), t, CloseUnlockQueue(c)), item);
      assert CloseStep(s, t) == Push(Jump(SetConn(s, c, k), t, CloseUnlockQueue(c)), item);
    case CloseUnlockQueue(c) => GotoKeeps(s, t, DestroyWantTable(c, false), s.tableOwner, None);
  }

  lemma DestroyKeeps(s: State, t: nat)
    requires Core(s) && Runnable(s, t) && IsDestroy(s.threads[t])
    ensures InRange(s) && Core(DestroyStep(s, t))
  {
    Here(s, t);
    hide Core, InRange, Remove, ConnOk, TableOk;
    match s.threads[t]
    case DestroyWantTable(c, erring) => GotoKeeps(s, t, DestroyRemove(c, erring), Some(t), s.queueOwner);
    case DestroyRemove(c, erring) => RemoveKeeps(s, t, c, erring);
    case DestroyClose(c, erring) => CloseKeeps(s, t, c, erring);
    case DestroyUnlockTable(erring) => GotoKeeps(s, t, if erring then ErrorUnlockQueue else Done, None, s.queueOwner);
    case ErrorUnlockQueue => GotoKeeps(s, t, Done, s.tableOwner, None);
  }

  /** Taking bytes off a descriptor leaves it open. */
  lemma LeaveKeeps(s: State, fd: int, rest: Text)
    requires Core(s)
    ensures Core(Leave(s, fd, rest))
  {
    hide PcsOk, ConnsOk, TableOk, FdsOk, TableLock, QueueLock, ConnLocks;
    if fd in s.open {
      assert s.open[fd := rest].Keys == s.open.Keys;
    }
  }

  lemma FetchedKeeps(s: State, t: nat, c: nat, m: Messages.Message, taken: Text)
    requires Core(s) && t < |s.threads| && s.threads[t] == ReadFetch(c)
    ensures c < |s.conns| && Core(Jump(Fetched(s, c, m, taken), t, ReadUnlockQueue(c)))
  {
    hide Core, InRange;
    Here(s, t);
    HereConn(s, t, c);
    var pc := ReadUnlockQueue(c);
    var k := s.conns[c].(frames := s.conns[c].frames + [m], read := s.conns[c].read + taken);
    if m.KeepAlive? {
      TouchKeeps(s, t, pc, c, k.(lastKeepAlive := s.now, events := k.events + [KeepAlive.Refresh(s.now)]));
    } else {
      TouchKeeps(s, t, pc, c, k);
      var item := Item(m, c, Decoded, s.now);
      PushKeeps(Jump(SetConn(s, c, k), t, pc), item);
      assert Jump(Fetched(s, c, m, taken), t, pc) == Push(Jump(SetConn(s, c, k), t, pc), item);
    }
  }

  lemma FetchEndKeeps(s: State, t: nat, c: nat, inbox: Text)
    requires Core(s) && t < |s.threads| && s.threads[t] == ReadFetch(c)
    ensures c < |s.conns|
    ensures Core(Jump(SetConn(s, c, s.conns[c].(read := s.conns[c].read + inbox)), t, ReadUnlockQueue(c)))
  {
    hide Core, InRange;
    Here(s, t);
    HereConn(s, t, c);
    TouchKeeps(s, t, ReadUnlockQueue(c), c, s.conns[c].(read := s.conns[c].read + inbox));
  }

  lemma FetchErrorKeeps(s: State, t: nat, c: nat, taken: Text)
    requires Core(s) && t < |s.threads| && s.threads[t] == ReadFetch(c) && Refused(taken)
    ensures c < |s.conns|
    ensures Core(Jump(SetConn(s, c, s.conns[c].(lost := s.conns[c].lost + taken)), t, DestroyWantTable(c, true)))
  {
    hide Core, InRange, Refused;
    Here(s, t);
    HereConn(s, t, c);
    var k := s.conns[c].(lost := s.conns[c].lost + taken);
    assert s.conns[c].lost + taken == taken;
    TouchKeeps(s, t, DestroyWantTable(c, true), c, k);
  }

  lemma {:induction false} FailedTaken(s: Text)
    requires Framer.Frame(s).Error?
    ensures Refused(s[..|s| - |Framer.Frame(s).rest|])
  {
    var taken := s[..|s| - |Framer.Frame(s).rest|];
    if Framer.IsLineEnd(s[0]) {
      FailedTaken(s[1..]);
      assert taken[1..] == s[1..][..|s| - 1 - |Framer.Frame(s).rest|];
    } else if s[0] == LBRACE {
      assert taken == s;
    }
  }

  lemma FetchKeeps(s: State, t: nat, c: nat)
    requires Core(s) && t < |s.threads| && s.threads[t] == ReadFetch(c) && c < |s.conns|
    ensures Core(FetchStep(s, t, c, Framer.Frame(Arrived(s, s.conns[c].fd))))
  {
    hide Core, Fetched, Leave, Wire.Received, Framer.Frame, Refused;
    var fd := s.conns[c].fd;
    var inbox := Arrived(s, fd);
    var f := Framer.Frame(inbox);
    var rest := if f.End? then [] else f.rest;
    LeaveKeeps(s, fd, rest);
    LeaveSame(s, fd, rest);
    if f.Success? {
      FetchedKeeps(Leave(s, fd, rest), t, c, Wire.Received(f.obj), inbox[..|inbox| - |rest|]);
    } else if f.Error? {
      FailedTaken(inbox);
      FetchErrorKeeps(Leave(s, fd, rest), t, c, inbox[..|inbox| - |rest|]);
    } else {
      FetchEndKeeps(Leave(s, fd, rest), t, c, inbox);
    }
  }

  lemma LeaveSame(s: State, fd: int, rest: Text)
    ensures var l := Leave(s, fd, rest); l == s.(open := l.open)
  {
  }

  lemma DropKeeps(s: State, t: nat, c: nat)
    requires Core(s) && t < |s.threads| && s.threads[t] == ReadUnlockConn(c)
    ensures c < |s.conns| && Core(Jump(SetConn(s, c, s.conns[c].(owner := None)), t, Done))
  {
    hide Core, InRange;
    Here(s, t);
    HereConn(s, t, c);
    TouchKeeps(s, t, Done, c, s.conns[c].(owner := None));
  }

  lemma ReadLocksKeep(s: State, t: nat, c: nat)
    requires Core(s) && t < |s.threads|
    ensures s.threads[t] == ReadWantQueue(c) && s.queueOwner.None? ==>
              Core(Goto(s, t, ReadFetch(c), s.tableOwner, Some(t)))
    ensures s.threads[t] == ReadUnlockQueue(c) ==> Core(Goto(s, t, ReadUnlockConn(c), s.tableOwner, None))
  {
    hide Core, InRange;
    Here(s, t);
    if s.threads[t] == ReadWantQueue(c) && s.queueOwner.None? {
      GotoKeeps(s, t, ReadFetch(c), s.tableOwner, Some(t));
    }
    if s.threads[t] == ReadUnlockQueue(c) {
      GotoKeeps(s, t, ReadUnlockConn(c), s.tableOwner, None);
    }
  }

  lemma ReadKeeps(s: State, t: nat)
    requires Core(s) && Runnable(s, t) && IsRead(s.threads[t])
    ensures InRange(s) && Core(ReadStep(s, t))
  {
    Here(s, t);
    hide Core, InRange, Framer.Frame, FetchStep, HoldsConn, HoldsTable, HoldsQueue;
    match s.threads[t]
    case ReadWantQueue(c) => ReadLocksKeep(s, t, c);
    case ReadFetch(c) => FetchKeeps(s, t, c);
    case ReadUnlockQueue(c) => ReadLocksKeep(s, t, c);
    case ReadUnlockConn(c) => DropKeeps(s, t, c);
  }

  lemma AcceptStepKeeps(s: State, t: nat, fd: int)
    requires Core(s) && Runnable(s, t) && IsAccept(s.threads[t]) && Choosable(s, s.threads[t], fd)
    ensures InRange(s) && Core(AcceptStep(s, t, fd))
  {
    hide Core, InRange;
    Here(s, t);
    match s.threads[t]
    case AcceptStart => AcceptKeeps(s, t, fd);
    case AcceptWantTable(c) => GotoKeeps(s, t, AcceptInsert(c), Some(t), s.queueOwner);
    case AcceptInsert(c) => InsertKeeps(s, t, fd, c);
    case AcceptUnlockTable => GotoKeeps(s, t, Done, None, s.queueOwner);
  }

  /** A record's keep-alives and checks, and what came of these, are of no concern to the invariants. */
  lemma CountKeeps(s: State, t: nat, pc: Pc, c: nat, k: Conn)
    requires Core(s) && t < |s.threads| && c < |s.conns| && PcOk(s.conns, s.table, t, pc)
    requires k == s.conns[c].(events := k.events, got := k.got)
    requires HoldsConn(pc) == HoldsConn(s.threads[t])
    requires HoldsTable(pc) == HoldsTable(s.threads[t]) && HoldsQueue(pc) == HoldsQueue(s.threads[t])
    ensures Core(Jump(SetConn(s, c, k), t, pc))
  {
    var conns := s.conns[c := k];
    LocksShift(s.threads, t, pc, s.tableOwner, s.tableOwner, s.queueOwner, s.queueOwner);
    ConnLocksSameOwner(s.threads, t, pc, s.conns, c, k);
    var threads := s.threads[t := pc];
    forall u | 0 <= u < |threads| ensures PcOk(conns, s.table, u, threads[u]) {
      SamePc(s.conns, c, k, s.table, u, threads[u]);
    }
    assert ConnOk(s.conns[c], s.open.Keys);
    RecordsTouched(s, c, k);
    hide PcOk, HoldsConn, HoldsQueue, HoldsTable, Touched, ConnOk;
    hide ConnsOk, TableOk, FdsOk, TableLock, QueueLock, ConnLocks;
  }

  lemma SamePc(conns: seq<Conn>, c: nat, k: Conn, table: map<int, nat>, t: nat, pc: Pc)
    requires c < |conns| && PcOk(conns, table, t, pc) && k == conns[c].(events := k.events, got := k.got)
    ensures PcOk(conns[c := k], table, t, pc)
  {
  }

  lemma VisitKeeps(s: State, t: nat, todo: set<int>, c: nat)
    requires Core(s) && t < |s.threads| && s.threads[t].ScanNext? && todo <= s.threads[t].todo && c < |s.conns|
    ensures Core(Visit(s, t, todo, c))
  {
    hide Core, InRange;
    Here(s, t);
    var k := s.conns[c].(events := s.conns[c].events + [KeepAlive.Check(s.now)]);
    if s.now - s.conns[c].lastKeepAlive > KeepAlive.KEEP_ALIVE_PROD {
      CountKeeps(s, t, ScanTry(todo, c, s.now), c, k);
    } else {
      CountKeeps(s, t, ScanNext(todo), c, k);
    }
  }

  lemma ScanNextKeeps(s: State, t: nat, fd: int, todo: set<int>)
    requires Core(s) && t < |s.threads| && s.threads[t] == ScanNext(todo)
    ensures InRange(s) && Core(ScanStep(s, t, fd))
  {
    hide Core, InRange, Visit;
    Here(s, t);
    if todo == {} {
      GotoKeeps(s, t, Done, None, s.queueOwner);
    } else if fd in s.table {
      HereTable(s, fd);
      VisitKeeps(s, t, todo - {fd}, s.table[fd]);
    } else {
      GotoKeeps(s, t, ScanNext(todo - {fd}), s.tableOwner, s.queueOwner);
    }
  }

  lemma ScanTryKeeps(s: State, t: nat, fd: int, todo: set<int>, c: nat, at: int)
    requires Core(s) && t < |s.threads| && s.threads[t] == ScanTry(todo, c, at)
    ensures InRange(s) && Core(ScanStep(s, t, fd))
  {
    hide Core, InRange;
    Here(s, t);
    if s.queueOwner.Some? {
      CountKeeps(s, t, ScanNext(todo), c, Ended(s.conns[c], false));
    } else {
      GotoKeeps(s, t, ScanPush(todo, c, at), s.tableOwner, Some(t));
    }
  }

  lemma ScanPushKeeps(s: State, t: nat, fd: int, todo: set<int>, c: nat, at: int)
    requires Core(s) && t < |s.threads| && s.threads[t] == ScanPush(todo, c, at)
    ensures InRange(s) && Core(ScanStep(s, t, fd))
  {
    hide Core, InRange;
    Here(s, t);
    var k := Ended(s.conns[c], true);
    var item := Item(CONNECTION_TIMEOUT, c, Timeout, at);
    CountKeeps(s, t, ScanUnlockQueue(todo), c, k);
    PushKeeps(Jump(SetConn(s, c, k), t, ScanUnlockQueue(todo)), item);
    assert ScanStep(s, t, fd) == Push(Jump(SetConn(s, c, k), t, ScanUnlockQueue(todo)), item);
  }

  lemma ScanKeeps(s: State, t: nat, fd: int)
    requires Core(s) && Runnable(s, t) && IsScan(s.threads[t])
    ensures InRange(s) && Core(ScanStep(s, t, fd))
  {
    hide Core, InRange;
    Here(s, t);
    match s.threads[t]
    case ScanStart =>
      if s.tableOwner.Some? {
        GotoKeeps(s, t, Done, s.tableOwner, s.queueOwner);
      } else {
        GotoKeeps(s, t, ScanNext(s.table.Keys), Some(t), s.queueOwner);
      }
    case ScanNext(todo) => ScanNextKeeps(s, t, fd, todo);
    case ScanTry(todo, c, at) => ScanTryKeeps(s, t, fd, todo, c, at);
    case ScanPush(todo, c, at) => ScanPushKeeps(s, t, fd, todo, c, at);
    case ScanUnlockQueue(todo) => GotoKeeps(s, t, ScanNext(todo), s.tableOwner, None);
  }

  lemma PopKeeps(s: State, t: nat)
    requires Core(s) && Runnable(s, t) && !IsIo(s.threads[t]) && !IsClose(s.threads[t]) && !IsDestroy(s.threads[t])
    requires !IsRead(s.threads[t]) && !IsAccept(s.threads[t]) && !IsScan(s.threads[t])
    ensures Core(PopStep(s, t))
  {
    hide Core, InRange;
    Here(s, t);
    match s.threads[t]
    case PopStart => GotoKeeps(s, t, PopHead, s.tableOwner, Some(t));
    case PopHead =>
      GotoKeeps(s, t, PopUnlockQueue, s.tableOwner, s.queueOwner);
      QueueIrrelevant(Jump(s, t, PopUnlockQueue), PopStep(s, t));
    case PopUnlockQueue => GotoKeeps(s, t, Done, s.tableOwner, None);
    case ListStart => GotoKeeps(s, t, ListUnlockTable, Some(t), s.queueOwner);
    case ListUnlockTable => GotoKeeps(s, t, Done, None, s.queueOwner);
  }

  lemma QueueIrrelevant(s: State, s': State)
    requires Core(s) && s' == s.(queue := s'.queue, popped := s'.popped)
    ensures Core(s')
  {
    hide PcsOk, ConnsOk, TableOk, FdsOk, TableLock, QueueLock, ConnLocks;
  }

  lemma StartLocks(threads: seq<Pc>, pc: Pc, tableOwner: Option<nat>, queueOwner: Option<nat>, conns: seq<Conn>)
    requires TableLock(threads, tableOwner) && QueueLock(threads, queueOwner) && ConnLocks(threads, conns)
    requires Startable(pc)
    ensures TableLock(threads + [pc], tableOwner) && QueueLock(threads + [pc], queueOwner)
    ensures ConnLocks(threads + [pc], conns)
  {
    forall c | 0 <= c < |conns| ensures ConnLock(threads + [pc], c, conns[c].owner) {
      assert ConnLock(threads, c, conns[c].owner);
    }
  }

  lemma StartKeeps(s: State, pc: Pc)
    requires Core(s) && Startable(pc)
    ensures Core(s.(threads := s.threads + [pc]))
  {
    StartLocks(s.threads, pc, s.tableOwner, s.queueOwner, s.conns);
    assert PcsOk(s.conns, s.table, s.threads + [pc]);
    hide PcsOk, ConnsOk, TableOk, FdsOk, TableLock, QueueLock, ConnLocks;
  }

  lemma DeliveredPc(conns: seq<Conn>, fd: int, bytes: Text, table: map<int, nat>, t: nat, pc: Pc)
    requires PcOk(conns, table, t, pc)
    ensures PcOk(Delivered(conns, fd, bytes), table, t, pc)
  {
  }

  lemma DeliveredRecords(s: State, fd: int, bytes: Text)
    requires Core(s)
    ensures var conns := Delivered(s.conns, fd, bytes);
            ConnsOk(conns, s.open.Keys) && TableOk(conns, s.table) && FdsOk(conns) && ConnLocks(s.threads, conns)
  {
    hide PcsOk, TableLock, QueueLock, ConnLock;
    var conns := Delivered(s.conns, fd, bytes);
    forall c | 0 <= c < |conns| ensures ConnOk(conns[c], s.open.Keys) && ConnLock(s.threads, c, conns[c].owner) {
      assert ConnOk(s.conns[c], s.open.Keys) && ConnLock(s.threads, c, s.conns[c].owner);
    }
  }

  lemma ArriveKeeps(s: State, fd: int, bytes: Text)
    requires Core(s) && fd in s.open
    ensures Core(s.(open := s.open[fd := s.open[fd] + bytes], conns := Delivered(s.conns, fd, bytes)))
  {
    DeliveredRecords(s, fd, bytes);
    forall t | 0 <= t < |s.threads| ensures PcOk(Delivered(s.conns, fd, bytes), s.table, t, s.threads[t]) {
      DeliveredPc(s.conns, fd, bytes, s.table, t, s.threads[t]);
    }
    hide PcOk, ConnsOk, TableOk, FdsOk, TableLock, QueueLock, ConnLocks, Delivered;
    assert s.open[fd := s.open[fd] + bytes].Keys == s.open.Keys;
  }

  /** Whatever happens next, the invariants stay; in particular the duplicate-entry exit is never taken. */
  lemma NextKeeps(s: State, a: Action)
    requires Core(s) && InRange(s) && Enabled(s, a)
    ensures Core(Next(s, a)) && InRange(Next(s, a))
  {
    hide Core, InRange, IoStep, CloseStep, DestroyStep, ReadStep, AcceptStep, ScanStep, PopStep;
    match a
    case Go(t, fd) =>
      var pc := s.threads[t];
      if IsIo(pc) {
        IoKeeps(s, t);
      } else if IsClose(pc) {
        CloseStepKeeps(s, t);
      } else if IsDestroy(pc) {
        DestroyKeeps(s, t);
      } else if IsRead(pc) {
        ReadKeeps(s, t);
      } else if IsAccept(pc) {
        AcceptStepKeeps(s, t, fd);
      } else if IsScan(pc) {
        ScanKeeps(s, t, fd);
      } else {
        PopKeeps(s, t);
      }
      CoreInRange(Next(s, a));
    case Start(pc) =>
      StartKeeps(s, pc);
      CoreInRange(Next(s, a));
    case Arrive(fd, bytes) =>
      ArriveKeeps(s, fd, bytes);
      CoreInRange(Next(s, a));
    case Tick => TickKeeps(s);
  }

  lemma TickKeeps(s: State)
    requires Core(s)
    ensures Core(s.(now := s.now + 1)) && InRange(s.(now := s.now + 1))
  {
    CoreInRange(s);
  }

  lemma InitialCore(now: int)
    ensures Core(Initial(now)) && InRange(Initial(now))
  {
  }
}
