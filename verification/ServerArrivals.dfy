/** No byte is lost sight of: what was read from a connection, and what is waiting, is what arrived on it. */
module ServerArrivals {
  import opened Bytes
  import Messages
  import Framer
  import Wire
  import opened Server
  import opened ServerInvariants

  /** Bytes read, then those a failed read took, then those waiting; closing the descriptor drops the last. */
  predicate BytesKept(k: Conn, open: map<int, Text>) {
    if k.closed then k.read + k.lost <= k.arrived
    else k.fd in open && k.read + k.lost + open[k.fd] == k.arrived
  }

  predicate Conserved(s: State) {
    forall c :: 0 <= c < |s.conns| ==> BytesKept(s.conns[c], s.open)
  }

  predicate SameBytes(k: Conn, k': Conn) {
    k'.fd == k.fd && k'.closed == k.closed && k'.read == k.read && k'.lost == k.lost && k'.arrived == k.arrived
  }

  /** A step that moves no bytes. */
  predicate BytesStill(s: State, s': State) {
    s'.open == s.open && |s'.conns| == |s.conns|
    && forall c :: 0 <= c < |s.conns| ==> SameBytes(s.conns[c], s'.conns[c])
  }

  lemma StillConserved(s: State, s': State)
    requires Conserved(s) && BytesStill(s, s')
    ensures Conserved(s')
  {
    forall c | 0 <= c < |s'.conns| ensures BytesKept(s'.conns[c], s'.open) {
      assert BytesKept(s.conns[c], s.open) && SameBytes(s.conns[c], s'.conns[c]);
    }
  }

  /** Bytes move on record `c` alone, and on its descriptor, which is its own. */
  lemma OneRecord(s: State, s': State, c: nat)
    requires Conserved(s) && FdsOk(s.conns) && c < |s.conns| && !s.conns[c].closed
    requires |s'.conns| == |s.conns| && forall d :: 0 <= d < |s.conns| && d != c ==> s'.conns[d] == s.conns[d]
    requires forall fd :: fd in s.open && fd != s.conns[c].fd ==> fd in s'.open && s'.open[fd] == s.open[fd]
    requires BytesKept(s'.conns[c], s'.open)
    ensures Conserved(s')
  {
    forall d | 0 <= d < |s'.conns| ensures BytesKept(s'.conns[d], s'.open) {
      if d != c {
        assert BytesKept(s.conns[d], s.open);
        assert !s.conns[d].closed ==> s.conns[d].fd != s.conns[c].fd;
      }
    }
  }

  lemma IoConserves(s: State, t: nat)
    requires InRange(s) && Conserved(s) && t < |s.threads|
    ensures Conserved(IoStep(s, t))
  {
    hide Conserved;
    StillConserved(s, IoStep(s, t));
  }

  lemma CloseConserves(s: State, t: nat)
    requires InRange(s) && Conserved(s) && t < |s.threads|
    ensures Conserved(CloseStep(s, t))
  {
    hide Conserved;
    StillConserved(s, CloseStep(s, t));
  }

  lemma DestroyConserves(s: State, t: nat)
    requires Core(s) && InRange(s) && Conserved(s) && t < |s.threads|
    ensures Conserved(DestroyStep(s, t))
  {
    hide Core, Conserved;
    if s.threads[t].DestroyClose? {
      CloseDropsWaiting(s, t, s.threads[t].c, s.threads[t].erring);
    } else {
      StillConserved(s, DestroyStep(s, t));
    }
  }

  lemma CloseDropsWaiting(s: State, t: nat, c: nat, erring: bool)
    requires Core(s) && InRange(s) && Conserved(s) && t < |s.threads| && s.threads[t] == DestroyClose(c, erring)
    ensures Conserved(DestroyStep(s, t))
  {
    Here(s, t);
    assert BytesKept(s.conns[c], s.open);
    hide PcsOk, ConnsOk, TableOk, TableLock, QueueLock, ConnLocks, Conserved;
    OneRecord(s, DestroyStep(s, t), c);
  }

  /** A read leaves `rest` and enters the bytes it took, in order, on its record. */
  lemma TakenConserves(s: State, s': State, c: nat, rest: Text)
    requires Core(s) && Conserved(s) && c < |s.conns| && Sound(s.conns[c])
    requires |s'.conns| == |s.conns| && forall d :: 0 <= d < |s.conns| && d != c ==> s'.conns[d] == s.conns[d]
    requires s'.open == Leave(s, s.conns[c].fd, rest).open
    requires var k, k' := s.conns[c], s'.conns[c];
             k'.fd == k.fd && k'.closed == k.closed && k'.arrived == k.arrived
             && k'.read + k'.lost + rest == k.read + Arrived(s, k.fd)
    ensures Conserved(s')
  {
    var k := s.conns[c];
    assert BytesKept(k, s.open) && ConnOk(k, s.open.Keys);
    assert k.read + k.lost == k.read;
    hide PcsOk, ConnsOk, TableOk, TableLock, QueueLock, ConnLocks, Conserved;
    OneRecord(s, s', c);
  }

  lemma FetchedRecord(s: State, c: nat, m: Messages.Message, taken: Text)
    requires c < |s.conns|
    ensures var s' := Fetched(s, c, m, taken);
            s'.open == s.open && s'.threads == s.threads && |s'.conns| == |s.conns|
            && s'.conns == s.conns[c := s'.conns[c]]
            && var k, k' := s.conns[c], s'.conns[c];
               k'.fd == k.fd && k'.closed == k.closed && k'.arrived == k.arrived && k'.lost == k.lost
               && k'.read == k.read + taken
  {
  }

  lemma TakenRest(inbox: Text, n: nat, read: Text)
    requires n <= |inbox|
    ensures read + inbox[..n] + [] + inbox[n..] == read + inbox
    ensures read + ([] + inbox[..n]) + inbox[n..] == read + inbox
    ensures read + inbox + [] + [] == read + inbox
  {
  }

  lemma FetchConserves(s: State, t: nat, c: nat)
    requires Core(s) && Conserved(s) && t < |s.threads| && c < |s.conns| && Sound(s.conns[c])
    ensures Conserved(FetchStep(s, t, c, Framer.Frame(Arrived(s, s.conns[c].fd))))
  {
    hide Core, Conserved, Framer.Frame, Wire.Received, Fetched;
    var k := s.conns[c];
    var inbox := Arrived(s, k.fd);
    var f := Framer.Frame(inbox);
    var rest := if f.End? then [] else f.rest;
    var n := |inbox| - |rest|;
    var left := Leave(s, k.fd, rest);
    TakenRest(inbox, n, k.read);
    LeaveSame(s, k.fd, rest);
    hide Leave;
    var s' := FetchStep(s, t, c, f);
    if f.Success? {
      FetchedRecord(left, c, Wire.Received(f.obj), inbox[..n]);
    }
    TakenConserves(s, s', c, rest);
  }

  lemma ReadConserves(s: State, t: nat)
    requires Core(s) && InRange(s) && Conserved(s) && t < |s.threads|
    ensures Conserved(ReadStep(s, t))
  {
    hide Core, Conserved, FetchStep, Framer.Frame;
    if s.threads[t].ReadFetch? {
      Here(s, t);
      FetchConserves(s, t, s.threads[t].c);
    } else {
      StillConserved(s, ReadStep(s, t));
    }
  }

  lemma AcceptConserves(s: State, t: nat, fd: int)
    requires InRange(s) && Conserved(s) && t < |s.threads| && Choosable(s, s.threads[t], fd)
    ensures Conserved(AcceptStep(s, t, fd))
  {
    InRangeHere(s, t);
    hide Conserved, InRange;
    if s.threads[t].AcceptStart? {
      NewConserves(s, t, fd);
    } else {
      StillConserved(s, AcceptStep(s, t, fd));
    }
  }

  lemma NewConserves(s: State, t: nat, fd: int)
    requires InRange(s) && Conserved(s) && t < |s.threads| && s.threads[t].AcceptStart? && fd !in s.open
    ensures Conserved(AcceptStep(s, t, fd))
  {
    hide InRange;
    var s' := AcceptStep(s, t, fd);
    forall c | 0 <= c < |s'.conns| ensures BytesKept(s'.conns[c], s'.open) {
      if c < |s.conns| {
        assert BytesKept(s.conns[c], s.open);
      }
    }
  }

  lemma VisitConserves(s: State, t: nat, todo: set<int>, c: nat)
    requires Conserved(s) && t < |s.threads| && c < |s.conns|
    ensures Conserved(Visit(s, t, todo, c))
  {
    hide Conserved;
    StillConserved(s, Visit(s, t, todo, c));
  }

  lemma ScanConserves(s: State, t: nat, fd: int)
    requires InRange(s) && Conserved(s) && t < |s.threads|
    ensures Conserved(ScanStep(s, t, fd))
  {
    TableInRange(s);
    InRangeHere(s, t);
    hide Conserved, Visit, InRange;
    var pc := s.threads[t];
    if pc.ScanNext? && pc.todo != {} && fd in s.table {
      VisitConserves(s, t, pc.todo - {fd}, s.table[fd]);
    } else {
      StillConserved(s, ScanStep(s, t, fd));
    }
  }

  lemma PopConserves(s: State, t: nat)
    requires InRange(s) && Conserved(s) && t < |s.threads|
    ensures Conserved(PopStep(s, t))
  {
    hide Conserved, InRange;
    StillConserved(s, PopStep(s, t));
  }

  lemma ArriveConserves(s: State, fd: int, bytes: Text)
    requires Core(s) && Conserved(s) && fd in s.open
    ensures Conserved(s.(open := s.open[fd := s.open[fd] + bytes], conns := Delivered(s.conns, fd, bytes)))
  {
    hide Core;
    var s' := s.(open := s.open[fd := s.open[fd] + bytes], conns := Delivered(s.conns, fd, bytes));
    forall c | 0 <= c < |s'.conns| ensures BytesKept(s'.conns[c], s'.open) {
      var k := s.conns[c];
      assert BytesKept(k, s.open);
      if k.fd == fd && !k.closed {
        assert k.read + k.lost + (s.open[fd] + bytes) == k.read + k.lost + s.open[fd] + bytes;
      }
    }
  }

  /** Every step keeps the account of bytes. */
  lemma NextConserves(s: State, a: Action)
    requires Core(s) && InRange(s) && Enabled(s, a) && Conserved(s)
    ensures Conserved(Next(s, a))
  {
    hide Core, InRange, Conserved, IoStep, CloseStep, DestroyStep, ReadStep, AcceptStep, ScanStep, PopStep;
    match a
    case Go(t, fd) =>
      var pc := s.threads[t];
      if IsIo(pc) {
        IoConserves(s, t);
      } else if IsClose(pc) {
        CloseConserves(s, t);
      } else if IsDestroy(pc) {
        DestroyConserves(s, t);
      } else if IsRead(pc) {
        ReadConserves(s, t);
      } else if IsAccept(pc) {
        AcceptConserves(s, t, fd);
      } else if IsScan(pc) {
        ScanConserves(s, t, fd);
      } else {
        PopConserves(s, t);
      }
    case Start(pc) => StillConserved(s, Next(s, a));
    case Arrive(fd, bytes) => ArriveConserves(s, fd, bytes);
    case Tick => StillConserved(s, Next(s, a));
  }
}
