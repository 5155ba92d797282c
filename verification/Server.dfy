/**
  The server as a machine of threads: each handler is a program counter, each lock acquire and release, and each
  access to shared state in between, is one step, and steps of different threads interleave freely.
 */
module Server {
  import opened Bytes
  import Messages
  import Framer
  import Wire
  import KeepAlive

  datatype Cause = Decoded | Closed | Timeout

  /** A queue item, and where it came from. */
  datatype Item = Item(message: Messages.Message, conn: nat, cause: Cause, time: int)

  const CONNECTION_CLOSED: Messages.Message := Messages.SoftError(Lit("Connection closed"))
  const CONNECTION_TIMEOUT: Messages.Message := Messages.SoftError(Lit("Connection timeout"))

  /**
    A connection record; records stay readable once freed. The second and third line only keep count: who accepted
    it, whether it was put into the table, how often it was taken out, how often its close was reported, what
    was framed on it, the bytes read for that, those taken by a read that failed, all that arrived, when it was
    accepted, its keep-alives and checks, and for each check that found it overdue whether the queue could be had.
   */
  datatype Conn = Conn(
    fd: int, owner: Option<nat>, destroyed: bool, closed: bool, lastKeepAlive: int,
    creator: nat, inserted: bool, removals: nat, reports: nat, frames: seq<Messages.Message>, read: Text, lost: Text,
    arrived: Text, accepted: int, events: seq<KeepAlive.Event>, got: seq<bool>)

  function NewConn(fd: int, now: int, creator: nat): Conn {
    Conn(fd, None, false, false, now, creator, false, 0, 0, [], [], [], [], now, [], [])
  }

  datatype Lock = ConnMutex(c: nat) | ReadBuffMux | ConnectionsMux

  /** Where a thread stands; `c` is its connection record, `fd` the descriptor its signal named. */
  datatype Pc =
    // io_handler
    | IoStart(fd: int)
    | IoLookup(fd: int)
    | IoWantConn(fd: int, c: nat)
    | IoCheck(fd: int, c: nat)
    | IoPeek(fd: int, c: nat)
    // report_close
    | CloseWantQueue(c: nat)
    | ClosePush(c: nat)
    | CloseUnlockQueue(c: nat)
    // destroy_connection, `erring` when object_reader still holds the queue
    | DestroyWantTable(c: nat, erring: bool)
    | DestroyRemove(c: nat, erring: bool)
    | DestroyClose(c: nat, erring: bool)
    | DestroyUnlockTable(erring: bool)
    | ErrorUnlockQueue
    // object_reader
    | ReadWantQueue(c: nat)
    | ReadFetch(c: nat)
    | ReadUnlockQueue(c: nat)
    | ReadUnlockConn(c: nat)
    // connect_handler
    | AcceptStart
    | AcceptWantTable(c: nat)
    | AcceptInsert(c: nat)
    | AcceptUnlockTable
    // iter_keep_alives, with the descriptors still to visit and the time of an overdue check
    | ScanStart
    | ScanNext(todo: set<int>)
    | ScanTry(todo: set<int>, c: nat, at: int)
    | ScanPush(todo: set<int>, c: nat, at: int)
    | ScanUnlockQueue(todo: set<int>)
    // read_message
    | PopStart
    | PopHead
    | PopUnlockQueue
    // get_connected_list
    | ListStart
    | ListUnlockTable
    // returned, in the second case with a dead record's mutex still locked
    | Done
    | Abandoned(c: nat)

  datatype State = State(
    now: int, table: map<int, nat>, conns: seq<Conn>, open: map<int, Text>,
    tableOwner: Option<nat>, queueOwner: Option<nat>,
    queue: seq<Item>, popped: seq<Item>, pushes: seq<Item>,
    threads: seq<Pc>, crashed: bool)

  // ---- Locks ----

  predicate HoldsTable(pc: Pc) {
    pc.IoLookup? || pc.DestroyRemove? || pc.DestroyClose? || pc.DestroyUnlockTable? || pc.AcceptInsert?
    || pc.AcceptUnlockTable? || pc.ScanNext? || pc.ScanTry? || pc.ScanPush? || pc.ScanUnlockQueue?
    || pc.ListUnlockTable?
  }

  predicate HoldsQueue(pc: Pc) {
    match pc
    case ClosePush(_) => true
    case CloseUnlockQueue(_) => true
    case DestroyWantTable(_, erring) => erring
    case DestroyRemove(_, erring) => erring
    case DestroyClose(_, erring) => erring
    case DestroyUnlockTable(erring) => erring
    case ErrorUnlockQueue => true
    case ReadFetch(_) => true
    case ReadUnlockQueue(_) => true
    case ScanPush(_, _, _) => true
    case ScanUnlockQueue(_) => true
    case PopHead => true
    case PopUnlockQueue => true
    case _ => false
  }

  function HoldsConn(pc: Pc): Option<nat> {
    match pc
    case IoCheck(_, c) => Some(c)
    case IoPeek(_, c) => Some(c)
    case CloseWantQueue(c) => Some(c)
    case ClosePush(c) => Some(c)
    case CloseUnlockQueue(c) => Some(c)
    case DestroyWantTable(c, _) => Some(c)
    case DestroyRemove(c, _) => Some(c)
    case ReadWantQueue(c) => Some(c)
    case ReadFetch(c) => Some(c)
    case ReadUnlockQueue(c) => Some(c)
    case ReadUnlockConn(c) => Some(c)
    case Abandoned(c) => Some(c)
    case _ => None
  }

  /** The lock a thread blocks on next; the keep-alive scan only tries its locks and so never blocks. */
  function Wants(pc: Pc): Option<Lock> {
    match pc
    case IoStart(_) => Some(ConnectionsMux)
    case IoWantConn(_, c) => Some(ConnMutex(c))
    case CloseWantQueue(_) => Some(ReadBuffMux)
    case DestroyWantTable(_, _) => Some(ConnectionsMux)
    case ReadWantQueue(_) => Some(ReadBuffMux)
    case AcceptWantTable(_) => Some(ConnectionsMux)
    case PopStart => Some(ReadBuffMux)
    case ListStart => Some(ConnectionsMux)
    case _ => None
  }

  predicate Holds(pc: Pc, l: Lock) {
    match l
    case ConnMutex(c) => HoldsConn(pc) == Some(c)
    case ReadBuffMux => HoldsQueue(pc)
    case ConnectionsMux => HoldsTable(pc)
  }

  function Owner(s: State, l: Lock): Option<nat> {
    match l
    case ConnMutex(c) => if c < |s.conns| then s.conns[c].owner else None
    case ReadBuffMux => s.queueOwner
    case ConnectionsMux => s.tableOwner
  }

  // ---- Steps ----

  /** Every record a program counter or the table mentions exists. */
  predicate InRange(s: State) {
    (forall t :: 0 <= t < |s.threads| ==> PcInRange(s.threads[t], |s.conns|))
    && forall fd :: fd in s.table ==> s.table[fd] < |s.conns|
  }

  predicate PcInRange(pc: Pc, n: nat) {
    match pc
    case IoWantConn(_, c) => c < n
    case IoCheck(_, c) => c < n
    case IoPeek(_, c) => c < n
    case CloseWantQueue(c) => c < n
    case ClosePush(c) => c < n
    case CloseUnlockQueue(c) => c < n
    case DestroyWantTable(c, _) => c < n
    case DestroyRemove(c, _) => c < n
    case DestroyClose(c, _) => c < n
    case ReadWantQueue(c) => c < n
    case ReadFetch(c) => c < n
    case ReadUnlockQueue(c) => c < n
    case ReadUnlockConn(c) => c < n
    case AcceptWantTable(c) => c < n
    case AcceptInsert(c) => c < n
    case ScanTry(_, c, _) => c < n
    case ScanPush(_, c, _) => c < n
    case Abandoned(c) => c < n
    case _ => true
  }

  /** A thread can go on: it has not returned, and the lock it wants is free. */
  predicate Runnable(s: State, t: nat) {
    t < |s.threads| && !s.threads[t].Done? && !s.threads[t].Abandoned?
    && var l := Wants(s.threads[t]); l.Some? ==> Owner(s, l.value).None?
  }

  /** Thread `t` goes on to `pc`, with these owners of the two global locks. */
  function Goto(s: State, t: nat, pc: Pc, tableOwner: Option<nat>, queueOwner: Option<nat>): State
    requires t < |s.threads|
  {
    s.(threads := s.threads[t := pc], tableOwner := tableOwner, queueOwner := queueOwner)
  }

  function Jump(s: State, t: nat, pc: Pc): State
    requires t < |s.threads|
  {
    Goto(s, t, pc, s.tableOwner, s.queueOwner)
  }

  function SetConn(s: State, c: nat, conn: Conn): State
    requires c < |s.conns|
  {
    s.(conns := s.conns[c := conn])
  }

  function Push(s: State, item: Item): State {
    s.(queue := s.queue + [item], pushes := s.pushes + [item])
  }

  /** One step of io_handler, up to where report_close and object_reader take over. */
  function IoStep(s: State, t: nat): State
    requires InRange(s) && t < |s.threads|
  {
    match s.threads[t]
    case IoStart(fd) => Goto(s, t, IoLookup(fd), Some(t), s.queueOwner)
    case IoLookup(fd) =>
      Goto(s, t, if fd in s.table then IoWantConn(fd, s.table[fd]) else Done, None, s.queueOwner)
    case IoWantConn(fd, c) =>
      Jump(SetConn(s, c, s.conns[c].(owner := Some(t))), t, IoCheck(fd, c))
    case IoCheck(fd, c) => Jump(s, t, if s.conns[c].destroyed then Abandoned(c) else IoPeek(fd, c))
    case IoPeek(fd, c) =>
      Jump(s, t, if fd in s.open && s.open[fd] != [] then ReadWantQueue(c) else CloseWantQueue(c))
    case _ => s
  }

  function CloseStep(s: State, t: nat): State
    requires InRange(s) && t < |s.threads|
  {
    match s.threads[t]
    case CloseWantQueue(c) => Goto(s, t, ClosePush(c), s.tableOwner, Some(t))
    case ClosePush(c) =>
      var reported := SetConn(s, c, s.conns[c].(reports := s.conns[c].reports + 1));
      Jump(Push(reported, Item(CONNECTION_CLOSED, c, Closed, s.now)), t, CloseUnlockQueue(c))
    case CloseUnlockQueue(c) => Goto(s, t, DestroyWantTable(c, false), s.tableOwner, None)
    case _ => s
  }

  /** Removing frees the record the table has at that descriptor: its flag is set and its mutex unlocked. */
  function Remove(s: State, t: nat, fd: int, erring: bool): State
    requires InRange(s) && t < |s.threads|
  {
    if fd in s.table then
      var v := s.table[fd];
      var conn := s.conns[v];
      var freed := conn.(destroyed := true, owner := None, removals := conn.removals + 1);
      Jump(SetConn(s, v, freed).(table := s.table - {fd}), t, DestroyClose(v, erring))
    else Jump(s, t, DestroyUnlockTable(erring))
  }

  function DestroyStep(s: State, t: nat): State
    requires InRange(s) && t < |s.threads|
  {
    match s.threads[t]
    case DestroyWantTable(c, erring) => Goto(s, t, DestroyRemove(c, erring), Some(t), s.queueOwner)
    case DestroyRemove(c, erring) => Remove(s, t, s.conns[c].fd, erring)
    case DestroyClose(c, erring) =>
      Jump(SetConn(s, c, s.conns[c].(closed := true)).(open := s.open - {s.conns[c].fd}), t, DestroyUnlockTable(erring))
    case DestroyUnlockTable(erring) => Goto(s, t, if erring then ErrorUnlockQueue else Done, None, s.queueOwner)
    case ErrorUnlockQueue => Goto(s, t, Done, s.tableOwner, None)
    case _ => s
  }

  /** `fetch_item`: a framed object, read from the bytes `taken`, becomes a keep-alive refresh or one queue item. */
  function Fetched(s: State, c: nat, m: Messages.Message, taken: Text): State
    requires c < |s.conns|
  {
    var conn := s.conns[c].(frames := s.conns[c].frames + [m], read := s.conns[c].read + taken);
    if m.KeepAlive? then
      SetConn(s, c, conn.(lastKeepAlive := s.now, events := conn.events + [KeepAlive.Refresh(s.now)]))
    else Push(SetConn(s, c, conn), Item(m, c, Decoded, s.now))
  }

  function Arrived(s: State, fd: int): Text {
    if fd in s.open then s.open[fd] else []
  }

  /** `read` on a descriptor leaves `rest` to be read; there is nothing to leave on one that is not open. */
  function Leave(s: State, fd: int, rest: Text): State {
    if fd in s.open then s.(open := s.open[fd := rest]) else s
  }

  /**
    `fetch_item` and what object_reader does with its status. The object is read at once: bytes that arrive during the
    read might as well have been there before.
   */
  function FetchStep(s: State, t: nat, c: nat, f: Framer.Framed): State
    requires c < |s.conns| && t < |s.threads|
    requires !f.End? ==> |f.rest| <= |Arrived(s, s.conns[c].fd)|
  {
    var fd := s.conns[c].fd;
    var inbox := Arrived(s, fd);
    match f
    case Success(obj, rest) =>
      Jump(Fetched(Leave(s, fd, rest), c, Wire.Received(obj), inbox[..|inbox| - |rest|]), t, ReadUnlockQueue(c))
    case Error(rest) =>
      var failed := s.conns[c].(lost := s.conns[c].lost + inbox[..|inbox| - |rest|]);
      Jump(SetConn(Leave(s, fd, rest), c, failed), t, DestroyWantTable(c, true))
    case End => Jump(SetConn(Leave(s, fd, []), c, s.conns[c].(read := s.conns[c].read + inbox)), t, ReadUnlockQueue(c))
  }

  function ReadStep(s: State, t: nat): State
    requires InRange(s) && t < |s.threads|
  {
    match s.threads[t]
    case ReadWantQueue(c) => Goto(s, t, ReadFetch(c), s.tableOwner, Some(t))
    case ReadFetch(c) => FetchStep(s, t, c, Framer.Frame(Arrived(s, s.conns[c].fd)))
    case ReadUnlockQueue(c) => Goto(s, t, ReadUnlockConn(c), s.tableOwner, None)
    case ReadUnlockConn(c) => Jump(SetConn(s, c, s.conns[c].(owner := None)), t, Done)
    case _ => s
  }

  /** `accept` picks a descriptor that is not open. */
  function AcceptStep(s: State, t: nat, fd: int): State
    requires InRange(s) && t < |s.threads|
  {
    match s.threads[t]
    case AcceptStart =>
      Jump(s.(conns := s.conns + [NewConn(fd, s.now, t)], open := s.open[fd := []]), t, AcceptWantTable(|s.conns|))
    case AcceptWantTable(c) => Goto(s, t, AcceptInsert(c), Some(t), s.queueOwner)
    case AcceptInsert(c) =>
      if s.conns[c].fd in s.table then Jump(s, t, Done).(crashed := true)
      else
        Jump(SetConn(s, c, s.conns[c].(inserted := true)).(table := s.table[s.conns[c].fd := c]), t, AcceptUnlockTable)
    case AcceptUnlockTable => Goto(s, t, Done, None, s.queueOwner)
    case _ => s
  }

  /** `check_keep_alive` as far as the age of the last keep-alive. */
  function Visit(s: State, t: nat, todo: set<int>, c: nat): State
    requires t < |s.threads| && c < |s.conns|
  {
    var k := s.conns[c];
    Jump(SetConn(s, c, k.(events := k.events + [KeepAlive.Check(s.now)])), t,
         if s.now - k.lastKeepAlive > KeepAlive.KEEP_ALIVE_PROD then ScanTry(todo, c, s.now) else ScanNext(todo))
  }

  /** Whether an overdue check got the queue. */
  function Ended(k: Conn, ok: bool): Conn {
    k.(got := k.got + [ok])
  }

  /** `fd` is the descriptor the scan visits next. */
  function ScanStep(s: State, t: nat, fd: int): State
    requires InRange(s) && t < |s.threads|
  {
    match s.threads[t]
    case ScanStart =>
      if s.tableOwner.Some? then Jump(s, t, Done) else Goto(s, t, ScanNext(s.table.Keys), Some(t), s.queueOwner)
    case ScanNext(todo) =>
      if todo == {} then Goto(s, t, Done, None, s.queueOwner)
      else if fd in s.table then Visit(s, t, todo - {fd}, s.table[fd])
      else Jump(s, t, ScanNext(todo - {fd}))
    case ScanTry(todo, c, at) =>
      if s.queueOwner.Some? then Jump(SetConn(s, c, Ended(s.conns[c], false)), t, ScanNext(todo))
      else Goto(s, t, ScanPush(todo, c, at), s.tableOwner, Some(t))
    case ScanPush(todo, c, at) =>
      Jump(Push(SetConn(s, c, Ended(s.conns[c], true)), Item(CONNECTION_TIMEOUT, c, Timeout, at)), t,
           ScanUnlockQueue(todo))
    case ScanUnlockQueue(todo) => Goto(s, t, ScanNext(todo), s.tableOwner, None)
    case _ => s
  }

  function PopStep(s: State, t: nat): State
    requires t < |s.threads|
  {
    match s.threads[t]
    case PopStart => Goto(s, t, PopHead, s.tableOwner, Some(t))
    case PopHead =>
      var popped := if s.queue == [] then s else s.(popped := s.popped + [s.queue[0]], queue := s.queue[1..]);
      Jump(popped, t, PopUnlockQueue)
    case PopUnlockQueue => Goto(s, t, Done, s.tableOwner, None)
    case ListStart => Goto(s, t, ListUnlockTable, Some(t), s.queueOwner)
    case ListUnlockTable => Goto(s, t, Done, None, s.queueOwner)
    case _ => s
  }

  predicate IsIo(pc: Pc) { pc.IoStart? || pc.IoLookup? || pc.IoWantConn? || pc.IoCheck? || pc.IoPeek? }
  predicate IsClose(pc: Pc) { pc.CloseWantQueue? || pc.ClosePush? || pc.CloseUnlockQueue? }
  predicate IsRead(pc: Pc) { pc.ReadWantQueue? || pc.ReadFetch? || pc.ReadUnlockQueue? || pc.ReadUnlockConn? }
  predicate IsAccept(pc: Pc) { pc.AcceptStart? || pc.AcceptWantTable? || pc.AcceptInsert? || pc.AcceptUnlockTable? }
  predicate IsScan(pc: Pc) {
    pc.ScanStart? || pc.ScanNext? || pc.ScanTry? || pc.ScanPush? || pc.ScanUnlockQueue?
  }

  predicate IsDestroy(pc: Pc) {
    pc.DestroyWantTable? || pc.DestroyRemove? || pc.DestroyClose? || pc.DestroyUnlockTable? || pc.ErrorUnlockQueue?
  }

  /** What `fd` may be: a descriptor that is not open when one is accepted, one of those left when one is visited. */
  predicate Choosable(s: State, pc: Pc, fd: int) {
    match pc
    case AcceptStart => fd !in s.open
    case ScanNext(todo) => todo == {} || fd in todo
    case _ => true
  }

  function ThreadStep(s: State, t: nat, fd: int): State
    requires InRange(s) && Runnable(s, t)
  {
    var pc := s.threads[t];
    if IsIo(pc) then IoStep(s, t)
    else if IsClose(pc) then CloseStep(s, t)
    else if IsDestroy(pc) then DestroyStep(s, t)
    else if IsRead(pc) then ReadStep(s, t)
    else if IsAccept(pc) then AcceptStep(s, t, fd)
    else if IsScan(pc) then ScanStep(s, t, fd)
    else PopStep(s, t)
  }

  /** A thread goes on, a signal or timer or caller starts one, bytes arrive, or time passes. */
  datatype Action = Go(t: nat, fd: int) | Start(pc: Pc) | Arrive(fd: int, bytes: Text) | Tick

  predicate Startable(pc: Pc) {
    pc.IoStart? || pc.AcceptStart? || pc.ScanStart? || pc.PopStart? || pc.ListStart?
  }

  predicate Enabled(s: State, a: Action) {
    match a
    case Go(t, fd) => Runnable(s, t) && Choosable(s, s.threads[t], fd)
    case Start(pc) => Startable(pc)
    case Arrive(fd, _) => fd in s.open
    case Tick => true
  }

  /** The bytes belong to the one record with that descriptor that is not closed. */
  function Delivered(conns: seq<Conn>, fd: int, bytes: Text): seq<Conn> {
    seq(|conns|, c requires 0 <= c < |conns| =>
      if conns[c].fd == fd && !conns[c].closed then conns[c].(arrived := conns[c].arrived + bytes) else conns[c])
  }

  function Next(s: State, a: Action): State
    requires InRange(s) && Enabled(s, a)
  {
    match a
    case Go(t, fd) => ThreadStep(s, t, fd)
    case Start(pc) => s.(threads := s.threads + [pc])
    case Arrive(fd, bytes) =>
      s.(open := s.open[fd := s.open[fd] + bytes], conns := Delivered(s.conns, fd, bytes))
    case Tick => s.(now := s.now + 1)
  }

  function Initial(now: int): State {
    State(now, map[], [], map[], None, None, [], [], [], [], false)
  }
}
