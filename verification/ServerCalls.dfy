/** The server's routines on the queue and the connection table as they stand in memory: the steps that hold a lock. */
module ServerCalls {
  import opened Bytes
  import Messages
  import Representation
  import opened Framer
  import Wire
  import KeepAlive
  import opened Server
  import opened ServerInvariants

  datatype BufferItem = BufferItem(msg: Messages.Message, address: int, recvTime: int)

  class ConnectionData {
    const fd: int
    const address: int
    const socket: Socket
    var lastKeepAlive: int
    var destroyed: bool

    constructor (fd: int, address: int, socket: Socket, now: int)
      ensures this.fd == fd && this.address == address && this.socket == socket
      ensures lastKeepAlive == now && !destroyed
    {
      this.fd, this.address, this.socket := fd, address, socket;
      lastKeepAlive, destroyed := now, false;
    }
  }

  /** A state of the machine, the objects its connection records stand for, and the thread that is about to go on. */
  datatype Place = Place(s: State, records: seq<ConnectionData>, t: nat)

  function TimeoutItem(address: int, now: int): BufferItem {
    BufferItem(CONNECTION_TIMEOUT, address, now)
  }

  class ServerData {
    var readBuff: seq<BufferItem>
    var table: map<int, ConnectionData>
    var open: set<int>

    constructor ()
      ensures readBuff == [] && table == map[] && open == {}
      ensures forall now, t :: Mirrors(Place(Initial(now), [], t))
    {
      readBuff, table, open := [], map[], {};
    }

    // ---- Memory and machine ----

    /** The object is what the machine's record says. */
    ghost predicate Reflects(k: ConnectionData, conn: Conn, inboxes: map<int, Text>)
      reads k, k.socket
    {
      k.fd == conn.fd && k.lastKeepAlive == conn.lastKeepAlive && k.destroyed == conn.destroyed
      && (!conn.closed ==> conn.fd in inboxes && k.socket.available == inboxes[conn.fd])
    }

    ghost predicate AllApart(records: seq<ConnectionData>) {
      forall c, d :: 0 <= c < d < |records| ==> records[c] != records[d] && records[c].socket != records[d].socket
    }

    ghost predicate QueueMirrors(queue: seq<Item>, records: seq<ConnectionData>)
      reads this`readBuff
    {
      |readBuff| == |queue|
      && forall i :: 0 <= i < |queue| ==>
           queue[i].conn < |records|
           && readBuff[i] == BufferItem(queue[i].message, records[queue[i].conn].address, queue[i].time)
    }

    ghost predicate TableMirrors(s: State, records: seq<ConnectionData>)
      reads this`table
    {
      |records| == |s.conns| && table.Keys == s.table.Keys
      && forall fd :: fd in table ==>
           s.table[fd] < |records| && table[fd] == records[s.table[fd]] && table[fd].fd == fd
           && !s.conns[s.table[fd]].closed
    }

    /** Queue, table, descriptors and records are those of the machine's state. */
    ghost predicate Mirrors(p: Place)
      reads this, p.records, set k | k in p.records :: k.socket
    {
      InRange(p.s) && AllApart(p.records) && FdsOk(p.s.conns) && open == p.s.open.Keys
      && TableMirrors(p.s, p.records) && QueueMirrors(p.s.queue, p.records)
      && forall c :: 0 <= c < |p.records| ==> Reflects(p.records[c], p.s.conns[c], p.s.open)
    }

    /** Memory mirrors the machine, and thread `p.t` is at `pc`, which is about record `c`, that is `condata`. */
    ghost predicate Stands(p: Place, pc: Pc, c: nat, condata: ConnectionData)
      reads this, p.records, set k | k in p.records :: k.socket
    {
      Mirrors(p) && p.t < |p.s.threads| && p.s.threads[p.t] == pc && c < |p.records| && p.records[c] == condata
    }

    // ---- Reading ----

    /** What decode_message, or software_error in its place, leaves in the item. */
    method Interpret(obj: Text) returns (m: Messages.Message)
      ensures m == Wire.Received(obj)
    {
      hide Messages.Decode;
      var item := new Representation.MessageStruct();
      CStringTwice(obj);
      var ok := item.Decode(CString(obj));
      if !ok {
        item.SoftwareError(Wire.NOT_DECODED);
      }
      m := item.contents;
    }

    /** `fetch_item`: each framed object makes one queue item or one refresh, and nothing else changes either. */
    method FetchItem(condata: ConnectionData, now: int) returns (status: ReadStatus)
      modifies this`readBuff, condata`lastKeepAlive, condata.socket
      ensures var f := Frame(old(condata.socket.available));
              if f.Success? then
                status.SUCCESS? && condata.socket.available == f.rest
                && if Wire.Received(f.obj).KeepAlive? then condata.lastKeepAlive == now && readBuff == old(readBuff)
                   else condata.lastKeepAlive == old(condata.lastKeepAlive)
                        && readBuff == old(readBuff) + [BufferItem(Wire.Received(f.obj), condata.address, now)]
              else
                readBuff == old(readBuff) && condata.lastKeepAlive == old(condata.lastKeepAlive)
                && if f.Error? then status.ERROR? && condata.socket.available == f.rest
                   else status.END? && condata.socket.available == []
    {
      hide Frame, Wire.Received;
      var obj;
      status, obj := condata.socket.ReadJsonObject();
      if !status.SUCCESS? {
        return;
      }
      var m := Interpret(obj);
      if m.KeepAlive? {
        condata.lastKeepAlive := now;
      } else {
        readBuff := readBuff + [BufferItem(m, condata.address, now)];
      }
    }

    /**
      What object_reader does while it holds the queue: where memory mirrors the machine, it still does after the
      machine's reading step.
     */
    method ReadObject(condata: ConnectionData, now: int, ghost p: Place, ghost c: nat) returns (status: ReadStatus)
      requires Stands(p, ReadFetch(c), c, condata) && !p.s.conns[c].closed && now == p.s.now
      modifies this`readBuff, condata`lastKeepAlive, condata.socket
      ensures Mirrors(p.(s := ReadStep(p.s, p.t)))
      ensures status.ERROR? <==> ReadStep(p.s, p.t).threads[p.t] == DestroyWantTable(c, true)
    {
      hide Frame, Wire.Received, ReadStep, InRange;
      ghost var s, s' := p.s, ReadStep(p.s, p.t);
      FetchedShape(s, p.t, c);
      assert Reflects(condata, s.conns[c], s.open);
      status := FetchItem(condata, now);
      forall d | 0 <= d < |p.records| ensures Reflects(p.records[d], s'.conns[d], s'.open) {
        assert old(Reflects(p.records[d], s.conns[d], s.open));
      }
    }

    // ---- The queue ----

    /** `read_message`: the oldest item, or nothing. */
    method ReadMessage(ghost p: Place) returns (item: Option<BufferItem>)
      modifies this`readBuff
      ensures old(readBuff) == [] ==> item.None? && readBuff == []
      ensures old(readBuff) != [] ==> item.Some? && [item.value] + readBuff == old(readBuff)
      ensures old(Mirrors(p)) && p.t < |p.s.threads| && p.s.threads[p.t].PopHead? ==>
                Mirrors(p.(s := PopStep(p.s, p.t)))
    {
      hide InRange, PopStep;
      if Mirrors(p) && p.t < |p.s.threads| && p.s.threads[p.t].PopHead? {
        PopShape(p.s, p.t);
      }
      if readBuff == [] {
        return None;
      }
      item := Some(readBuff[0]);
      readBuff := readBuff[1..];
    }

    /** What report_close does while it holds the queue. */
    method QueueClose(condata: ConnectionData, now: int, ghost p: Place, ghost c: nat)
      modifies this`readBuff
      ensures readBuff == old(readBuff) + [BufferItem(CONNECTION_CLOSED, condata.address, now)]
      ensures old(Stands(p, ClosePush(c), c, condata)) && now == p.s.now ==> Mirrors(p.(s := CloseStep(p.s, p.t)))
    {
      readBuff := readBuff + [BufferItem(CONNECTION_CLOSED, condata.address, now)];
    }

    // ---- The table ----

    /** `destroy_connection` and the destructor it runs; a descriptor that is not in the table changes nothing. */
    method DestroyConnection(condata: ConnectionData)
      modifies this`table, this`open, if condata.fd in table then {table[condata.fd]} else {}
      ensures table == old(table) - {condata.fd}
      ensures condata.fd in old(table) ==>
                old(table)[condata.fd].destroyed && open == old(open) - {old(table)[condata.fd].fd}
      ensures condata.fd in old(table) ==>
                old(table)[condata.fd].lastKeepAlive == old(table[condata.fd].lastKeepAlive)
      ensures condata.fd !in old(table) ==> open == old(open)
    {
      var fd := condata.fd;
      if fd in table {
        var removed := table[fd];
        table := table - {fd};
        removed.destroyed := true;
        open := open - {removed.fd};
      }
    }

    /** Where memory mirrors the machine, it still does after the machine's tear-down. */
    method TearDown(condata: ConnectionData, ghost p: Place, ghost c: nat, ghost erring: bool)
      requires Stands(p, DestroyRemove(c, erring), c, condata)
      modifies this`table, this`open, if condata.fd in table then {table[condata.fd]} else {}
      ensures Mirrors(p.(s := TornDown(p.s, p.t)))
    {
      hide TornDown, InRange;
      ghost var s, s' := p.s, TornDown(p.s, p.t);
      TornDownShape(s, p.t, c, erring);
      assert Reflects(condata, s.conns[c], s.open);
      DestroyConnection(condata);
      forall d | 0 <= d < |p.records| ensures Reflects(p.records[d], s'.conns[d], s'.open) {
        assert old(Reflects(p.records[d], s.conns[d], s.open));
      }
    }

    /** connect_handler as far as the new record; `fd` is what `accept` returned, so it was not open before. */
    method Accept(fd: int, address: int, socket: Socket, now: int, ghost p: Place) returns (condata: ConnectionData)
      requires fd !in open
      modifies this`open
      ensures fresh(condata) && open == old(open) + {fd} && condata.fd == fd && condata.address == address
      ensures condata.socket == socket && condata.lastKeepAlive == now && !condata.destroyed
      ensures old(Mirrors(p)) && p.t < |p.s.threads| && p.s.threads[p.t].AcceptStart? && now == p.s.now
              && socket.available == [] && (forall k :: k in p.records ==> k.socket != socket) ==>
                Mirrors(Place(AcceptStep(p.s, p.t, fd), p.records + [condata], p.t))
    {
      hide InRange, AcceptStep;
      open := open + {fd};
      condata := new ConnectionData(fd, address, socket, now);
      if old(Mirrors(p)) && p.t < |p.s.threads| && p.s.threads[p.t].AcceptStart? {
        AcceptShape(p.s, p.t, fd);
      }
    }

    /** The rest of connect_handler, while it holds the table; a duplicate entry ends the program. */
    method Insert(condata: ConnectionData, ghost p: Place, ghost c: nat) returns (ok: bool)
      modifies this`table
      ensures ok <==> condata.fd !in old(table)
      ensures table == if ok then old(table)[condata.fd := condata] else old(table)
      ensures old(Stands(p, AcceptInsert(c), c, condata)) && !p.s.conns[c].closed ==>
                var s' := AcceptStep(p.s, p.t, condata.fd); if ok then Mirrors(p.(s := s')) else s'.crashed
    {
      hide InRange, AcceptStep;
      if Stands(p, AcceptInsert(c), c, condata) {
        InsertShape(p.s, p.t, c, condata.fd);
        assert Reflects(condata, p.s.conns[c], p.s.open);
      }
      ok := condata.fd !in table;
      if ok {
        table := table[condata.fd := condata];
      }
    }

    /** Keys are open descriptors. */
    ghost predicate Valid()
      reads this
    {
      table.Keys <= open
    }

    /** `connect_handler`: the descriptor is never in the table already. */
    method ConnectHandler(fd: int, address: int, socket: Socket, now: int) returns (condata: ConnectionData)
      requires Valid() && fd !in open
      modifies this`table, this`open
      ensures Valid() && fresh(condata) && table == old(table)[fd := condata] && open == old(open) + {fd}
      ensures fd !in old(table) && condata.fd == fd && condata.lastKeepAlive == now
    {
      ghost var nowhere := Place(Initial(0), [], 0);
      condata := Accept(fd, address, socket, now, nowhere);
      var ok := Insert(condata, nowhere, 0);
    }

    // ---- The keep-alive check ----

    /** The scan is about to visit the connection. */
    ghost predicate Visits(p: Place, todo: set<int>, c: nat, condata: ConnectionData, now: int)
      reads this, p.records, set k | k in p.records :: k.socket
    {
      Stands(p, ScanNext(todo), c, condata) && condata.fd in todo && condata.fd in p.s.table
      && p.s.table[condata.fd] == c && now == p.s.now
    }

    /** check_keep_alive as far as the age: whether the machine's scan finds the connection overdue. */
    method ReadAge(condata: ConnectionData, now: int, ghost p: Place, ghost todo: set<int>, ghost c: nat)
      returns (overdue: bool)
      ensures overdue <==> now - condata.lastKeepAlive > KeepAlive.KEEP_ALIVE_PROD
      ensures Visits(p, todo, c, condata, now) ==>
                var s' := ScanStep(p.s, p.t, condata.fd);
                Mirrors(p.(s := s')) && (overdue <==> s'.threads[p.t].ScanTry?)
    {
      hide InRange, Visit, ScanStep;
      var diff := now - condata.lastKeepAlive;
      overdue := diff > KeepAlive.KEEP_ALIVE_PROD;
      if Visits(p, todo, c, condata, now) {
        VisitShape(p.s, p.t, condata.fd, todo, c);
        assert Reflects(condata, p.s.conns[c], p.s.open);
        ghost var s' := ScanStep(p.s, p.t, condata.fd);
        forall d | 0 <= d < |p.records| ensures Reflects(p.records[d], s'.conns[d], s'.open) {
          assert Reflects(p.records[d], p.s.conns[d], p.s.open);
        }
      }
    }

    /** Its report, while it holds the queue; `at` is when it read the clock. */
    method QueueTimeout(condata: ConnectionData, at: int, ghost p: Place, ghost todo: set<int>, ghost c: nat)
      modifies this`readBuff
      ensures readBuff == old(readBuff) + [TimeoutItem(condata.address, at)]
      ensures old(Stands(p, ScanPush(todo, c, at), c, condata)) ==> Mirrors(p.(s := ScanStep(p.s, p.t, condata.fd)))
    {
      hide InRange, ScanStep;
      if Stands(p, ScanPush(todo, c, at), c, condata) {
        PushShape(p.s, p.t, condata.fd, todo, c, at);
      }
      readBuff := readBuff + [TimeoutItem(condata.address, at)];
    }

    /** `check_keep_alive`; `queueFree` is whether the queue's lock could be had. */
    method CheckKeepAlive(condata: ConnectionData, now: int, queueFree: bool)
      modifies this`readBuff
      ensures readBuff == old(readBuff)
                          + if now - condata.lastKeepAlive > KeepAlive.KEEP_ALIVE_PROD && queueFree
                            then [TimeoutItem(condata.address, now)] else []
    {
      ghost var nowhere := Place(Initial(0), [], 0);
      var overdue := ReadAge(condata, now, nowhere, {}, 0);
      if overdue {
        if !queueFree {
          return;
        }
        QueueTimeout(condata, now, nowhere, {}, 0);
      }
    }

    ghost predicate IsOverdue(fd: int, now: int)
      reads this, table.Values
    {
      fd in table && now - table[fd].lastKeepAlive > KeepAlive.KEEP_ALIVE_PROD
    }

    ghost function Reports(fds: seq<int>, now: int): (r: seq<BufferItem>)
      requires forall i :: 0 <= i < |fds| ==> fds[i] in table
      reads this
      ensures |r| == |fds|
    {
      var t := table;
      seq(|fds|, i requires 0 <= i < |fds| && fds[i] in t => TimeoutItem(t[fds[i]].address, now))
    }

    /**
      `iter_keep_alives`, when it gets the table; `free` are the connections at whose turn the queue's lock can be had.
      One timeout for each of these that is overdue, in the order `visited` in which the table yields them, and none
      for the others.
     */
    method IterKeepAlives(now: int, free: set<int>) returns (ghost visited: seq<int>)
      modifies this`readBuff
      ensures forall i, j :: 0 <= i < j < |visited| ==> visited[i] != visited[j]
      ensures forall fd :: fd in visited <==> IsOverdue(fd, now) && fd in free
      ensures forall i :: 0 <= i < |visited| ==> visited[i] in table
      ensures readBuff == old(readBuff) + Reports(visited, now)
    {
      visited := [];
      var todo := table.Keys;
      while todo != {}
        invariant todo <= table.Keys && table == old(table)
        invariant forall i, j :: 0 <= i < j < |visited| ==> visited[i] != visited[j]
        invariant forall fd :: fd in visited <==> IsOverdue(fd, now) && fd in free && fd !in todo
        invariant forall i :: 0 <= i < |visited| ==> visited[i] in table
        invariant readBuff == old(readBuff) + Reports(visited, now)
        decreases todo
      {
        EmptyOrNot(todo);
        var fd :| fd in todo;
        ghost var before := visited;
        CheckKeepAlive(table[fd], now, fd in free);
        if now - table[fd].lastKeepAlive > KeepAlive.KEEP_ALIVE_PROD && fd in free {
          visited := visited + [fd];
          assert Reports(visited, now) == Reports(before, now) + [TimeoutItem(table[fd].address, now)];
        }
        todo := todo - {fd};
      }
    }
  }

  // ---- The machine's steps, as far as memory shows them ----

  /** `destroy_connection` while it holds the table: the record goes, if it is there, and its descriptor is closed. */
  function TornDown(s: State, t: nat): State
    requires InRange(s) && t < |s.threads| && s.threads[t].DestroyRemove?
  {
    var s1 := DestroyStep(s, t);
    RemoveInRange(s, t);
    if s1.threads[t].DestroyClose? then DestroyStep(s1, t) else s1
  }

  /** The first step of the two. */
  lemma RemoveInRange(s: State, t: nat)
    requires InRange(s) && t < |s.threads| && s.threads[t].DestroyRemove?
    ensures var s1 := DestroyStep(s, t);
            var fd := s.conns[s.threads[t].c].fd;
            InRange(s1) && |s1.threads| == |s.threads| && s1.queue == s.queue && s1.open == s.open
            && if fd !in s.table then s1.threads[t].DestroyUnlockTable? && s1.conns == s.conns && s1.table == s.table
               else
                 var v := s.table[fd];
                 s1.threads[t] == DestroyClose(v, s.threads[t].erring) && s1.table == s.table - {fd}
                 && s1.conns == s.conns[v := Freed(s.conns[v])]
  {
    hide InRange;
    TableInRange(s);
    InRangeHere(s, t);
    InRangeStays(s, DestroyStep(s, t), t);
  }

  function Freed(k: Conn): Conn {
    k.(destroyed := true, owner := None, removals := k.removals + 1)
  }

  lemma CloseInRange(s: State, t: nat)
    requires InRange(s) && t < |s.threads| && s.threads[t].DestroyClose? && s.threads[t].c < |s.conns|
    ensures var s1 := DestroyStep(s, t);
            var c := s.threads[t].c;
            InRange(s1) && s1.queue == s.queue && s1.table == s.table && s1.open == s.open - {s.conns[c].fd}
            && s1.conns == s.conns[c := s.conns[c].(closed := true)]
  {
    hide InRange;
    TableInRange(s);
    InRangeStays(s, DestroyStep(s, t), t);
  }

  /** The machine's tear-down takes the record that the table has at the descriptor, and nothing else. */
  lemma TornDownShape(s: State, t: nat, c: nat, erring: bool)
    requires InRange(s) && t < |s.threads| && s.threads[t] == DestroyRemove(c, erring)
    ensures c < |s.conns|
    ensures var s' := TornDown(s, t);
            var fd := s.conns[c].fd;
            InRange(s') && s'.queue == s.queue
            && if fd !in s.table then s'.conns == s.conns && s'.table == s.table && s'.open == s.open
               else
                 s.table[fd] < |s.conns| && s'.table == s.table - {fd} && s'.open == s.open - {s.conns[s.table[fd]].fd}
                 && s'.conns == s.conns[s.table[fd] := Freed(s.conns[s.table[fd]]).(closed := true)]
  {
    InRangeHere(s, t);
    TableInRange(s);
    RemoveInRange(s, t);
    hide InRange, DestroyStep, PcInRange;
    var s1 := DestroyStep(s, t);
    if s1.threads[t].DestroyClose? {
      CloseInRange(s1, t);
    }
  }

  lemma VisitShape(s: State, t: nat, fd: int, todo: set<int>, c: nat)
    requires InRange(s) && t < |s.threads| && s.threads[t] == ScanNext(todo) && fd in todo
    requires fd in s.table && s.table[fd] == c && c < |s.conns|
    ensures var s' := ScanStep(s, t, fd);
            InRange(s') && s' == s.(conns := s'.conns, threads := s'.threads) && |s'.threads| == |s.threads|
            && |s'.conns| == |s.conns| && s'.conns == s.conns[c := s'.conns[c]]
            && SameIdentity(s.conns[c], s'.conns[c]) && s'.conns[c].lastKeepAlive == s.conns[c].lastKeepAlive
            && (s'.threads[t].ScanTry? <==> s.now - s.conns[c].lastKeepAlive > KeepAlive.KEEP_ALIVE_PROD)
  {
    hide InRange;
    TableInRange(s);
    InRangeStays(s, ScanStep(s, t, fd), t);
  }

  lemma PopShape(s: State, t: nat)
    requires InRange(s) && t < |s.threads| && s.threads[t].PopHead?
    ensures var s' := PopStep(s, t);
            InRange(s') && s'.conns == s.conns && s'.open == s.open && s'.table == s.table
            && s'.queue == if s.queue == [] then [] else s.queue[1..]
  {
    hide InRange;
    TableInRange(s);
    InRangeStays(s, PopStep(s, t), t);
  }

  lemma PushShape(s: State, t: nat, fd: int, todo: set<int>, c: nat, at: int)
    requires InRange(s) && t < |s.threads| && s.threads[t] == ScanPush(todo, c, at) && c < |s.conns|
    ensures var s' := ScanStep(s, t, fd);
            InRange(s') && s'.conns == s.conns[c := s'.conns[c]] && |s'.conns| == |s.conns| && s'.open == s.open
            && SameIdentity(s.conns[c], s'.conns[c]) && s'.conns[c].lastKeepAlive == s.conns[c].lastKeepAlive
            && s'.table == s.table && s'.queue == s.queue + [Item(CONNECTION_TIMEOUT, c, Timeout, at)]
  {
    hide InRange;
    TableInRange(s);
    InRangeStays(s, ScanStep(s, t, fd), t);
  }

  lemma InsertShape(s: State, t: nat, c: nat, fd: int)
    requires InRange(s) && t < |s.threads| && s.threads[t] == AcceptInsert(c) && c < |s.conns|
    ensures var s' := AcceptStep(s, t, fd);
            if s.conns[c].fd in s.table then s'.crashed
            else
              InRange(s') && s'.conns == s.conns[c := s.conns[c].(inserted := true)] && s'.open == s.open
              && s'.table == s.table[s.conns[c].fd := c] && s'.queue == s.queue
  {
    hide InRange;
    TableInRange(s);
    InRangeStays(s, AcceptStep(s, t, fd), t);
  }

  lemma AcceptShape(s: State, t: nat, fd: int)
    requires InRange(s) && t < |s.threads| && s.threads[t].AcceptStart?
    ensures var s' := AcceptStep(s, t, fd);
            InRange(s') && s'.conns == s.conns + [NewConn(fd, s.now, t)] && s'.open == s.open[fd := []]
            && s'.table == s.table && s'.queue == s.queue
  {
    hide InRange;
    TableInRange(s);
    InRangeStays(s, AcceptStep(s, t, fd), t);
  }

  /** What of the machine's reading step memory shows. */
  lemma FetchedShape(s: State, t: nat, c: nat)
    requires InRange(s) && t < |s.threads| && s.threads[t] == ReadFetch(c) && c < |s.conns|
    ensures var f := Frame(Arrived(s, s.conns[c].fd));
            var s' := ReadStep(s, t);
            InRange(s') && |s'.conns| == |s.conns| && s'.conns == s.conns[c := s'.conns[c]] && s'.table == s.table
            && s'.open == Leave(s, s.conns[c].fd, if f.End? then [] else f.rest).open
            && SameIdentity(s.conns[c], s'.conns[c])
            && s'.threads == s.threads[t := if f.Error? then DestroyWantTable(c, true) else ReadUnlockQueue(c)]
            && if f.Success? && Wire.Received(f.obj).KeepAlive? then
                 s'.conns[c].lastKeepAlive == s.now && s'.queue == s.queue
               else s'.conns[c].lastKeepAlive == s.conns[c].lastKeepAlive
                    && s'.queue == s.queue + if f.Success? then [Item(Wire.Received(f.obj), c, Decoded, s.now)] else []
  {
    hide Frame, Wire.Received, Fetched, InRange;
    var f := Frame(Arrived(s, s.conns[c].fd));
    var rest := if f.End? then [] else f.rest;
    LeaveSame(s, s.conns[c].fd, rest);
    if f.Success? {
      var left := Leave(s, s.conns[c].fd, rest);
      var inbox := Arrived(s, s.conns[c].fd);
      FetchedFields(left, c, Wire.Received(f.obj), inbox[..|inbox| - |rest|]);
    }
    assert s.queue + [] == s.queue;
    TableInRange(s);
    InRangeStays(s, ReadStep(s, t), t);
  }

  predicate SameIdentity(k: Conn, k': Conn) {
    k'.fd == k.fd && k'.destroyed == k.destroyed && k'.closed == k.closed
  }

  lemma FetchedFields(s: State, c: nat, m: Messages.Message, taken: Text)
    requires c < |s.conns|
    ensures var s' := Fetched(s, c, m, taken);
            |s'.conns| == |s.conns| && s'.conns == s.conns[c := s'.conns[c]] && SameIdentity(s.conns[c], s'.conns[c])
            && s' == s.(conns := s'.conns, queue := s'.queue, pushes := s'.pushes)
            && if m.KeepAlive? then s'.conns[c].lastKeepAlive == s.now && s'.queue == s.queue
               else s'.conns[c].lastKeepAlive == s.conns[c].lastKeepAlive
                    && s'.queue == s.queue + [Item(m, c, Decoded, s.now)]
  {
  }

  lemma InRangeStays(s: State, s': State, t: nat)
    requires InRange(s) && t < |s.threads| && |s'.threads| == |s.threads| && |s.conns| <= |s'.conns|
    requires s'.threads == s.threads[t := s'.threads[t]] && PcInRange(s'.threads[t], |s'.conns|)
    requires forall fd :: fd in s'.table ==> s'.table[fd] < |s'.conns|
    ensures InRange(s')
  {
  }

  lemma EmptyOrNot(s: set<int>)
    ensures s == {} || exists x :: x in s
  {
    if !exists x :: x in s {
      assert s == {};
    }
  }

  lemma CStringTwice(t: Text)
    ensures Messages.Decode(CString(t)) == Messages.Decode(t)
  {
    CStringOfNulFree(CString(t));
  }
}
