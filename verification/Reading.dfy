/** Bytes may arrive while the server reads an object byte by byte: it is as if they had been there at the start. */
module Reading {
  import opened Bytes
  import opened Framer

  /** A read is before the object, inside it with so many braces open, or over. */
  datatype Phase = Before | Inside(nest: nat) | Over(outcome: Framed)

  /** A read in progress: the bytes waiting, and the object as far as it was read. */
  datatype Reader = Reader(waiting: Text, obj: Text, phase: Phase)

  /** The reader takes a byte, or finds none; or bytes arrive. */
  datatype Arrival = Take | More(bytes: Text)

  function Advance(r: Reader, e: Arrival): Reader {
    match e
    case More(bytes) => r.(waiting := r.waiting + bytes)
    case Take =>
      if r.phase.Over? then r
      else if r.waiting == [] then r.(phase := Over(if r.phase.Before? then End else Error([])))
      else
        var c, rest := r.waiting[0], r.waiting[1..];
        if r.phase.Before? then
          if IsLineEnd(c) then Reader(rest, [], Before)
          else if c != LBRACE then Reader(rest, [], Over(Error(rest)))
          else Reader(rest, [c], Inside(1))
        else if r.phase.nest + Step(c) <= 0 then Reader(rest, r.obj + [c], Over(Success(r.obj + [c], rest)))
        else Reader(rest, r.obj + [c], Inside(r.phase.nest + Step(c)))
  }

  /** The read is over with the last of these events and not before. */
  predicate Ends(r: Reader, events: seq<Arrival>)
    decreases |events|
  {
    if events == [] then r.phase.Over? else !r.phase.Over? && Ends(Advance(r, events[0]), events[1..])
  }

  function Result(r: Reader, events: seq<Arrival>): Framed
    requires Ends(r, events)
    decreases |events|
  {
    if events == [] then r.phase.outcome else Result(Advance(r, events[0]), events[1..])
  }

  function Coming(events: seq<Arrival>): Text {
    if events == [] then []
    else (if events[0].More? then events[0].bytes else []) + Coming(events[1..])
  }

  /** What comes of a read that finds all of `s` waiting from where it stands on. */
  function Resumed(r: Reader, s: Text): Framed {
    match r.phase
    case Before => Frame(s)
    case Inside(nest) =>
      if nest == 0 then Error([])
      else
        (match Close(s, 0, nest)
         case None => Error([])
         case Some(e) => Success(r.obj + s[..e], s[e..]))
    case Over(outcome) => outcome
  }

  lemma {:induction false} CloseShift(c: byte, s: Text, i: nat, nest: nat)
    requires i <= |s| && nest > 0
    ensures var e := Close(s, i, nest);
            Close([c] + s, i + 1, nest) == if e.Some? then Some(e.value + 1) else None
    decreases |s| - i
  {
    assert i < |s| ==> ([c] + s)[i + 1] == s[i];
    if i < |s| && nest + Step(s[i]) > 0 {
      CloseShift(c, s, i + 1, nest + Step(s[i]));
    }
  }

  lemma Prepended(c: byte, s: Text, e: nat)
    requires e <= |s|
    ensures ([c] + s)[..e + 1] == [c] + s[..e] && ([c] + s)[e + 1..] == s[e..]
  {
  }

  /** Inside an object with `nest` braces open, the byte `c` first. */
  lemma InsideTakes(obj: Text, nest: nat, c: byte, s: Text)
    requires nest > 0
    ensures Resumed(Reader([], obj, Inside(nest)), [c] + s)
         == if nest + Step(c) <= 0 then Success(obj + [c], s)
            else Resumed(Reader([], obj + [c], Inside(nest + Step(c))), s)
  {
    var n := nest + Step(c);
    if n > 0 {
      CloseShift(c, s, 0, n);
      var e := Close(s, 0, n);
      assert Close([c] + s, 0, nest) == Close([c] + s, 1, n);
      if e.Some? {
        Prepended(c, s, e.value);
        assert obj + ([c] + s[..e.value]) == obj + [c] + s[..e.value];
      }
    } else {
      Prepended(c, s, 0);
    }
  }

  /** Before the object, the byte `c` first. */
  lemma BeforeTakes(c: byte, s: Text)
    ensures Frame([c] + s)
         == if IsLineEnd(c) then Frame(s)
            else if c != LBRACE then Error(s)
            else Resumed(Reader([], [c], Inside(1)), s)
  {
    assert ([c] + s)[1..] == s;
    if c == LBRACE {
      CloseShift(c, s, 0, 1);
      var e := Close(s, 0, 1);
      if e.Some? {
        Prepended(c, s, e.value);
      }
    }
  }

  /** Taking a byte leaves the outcome as it is. */
  lemma TakeResumes(r: Reader, s: Text)
    requires !r.phase.Over? && r.waiting != [] && (r.phase.Inside? ==> r.phase.nest > 0)
    ensures var r' := Advance(r, Take);
            (r'.phase.Inside? ==> r'.phase.nest > 0)
            && if r'.phase.Over? then s == [] ==> Resumed(r, r.waiting) == r'.phase.outcome
               else Resumed(r, r.waiting + s) == Resumed(r', r'.waiting + s)
  {
    var c, rest := r.waiting[0], r.waiting[1..] + s;
    assert r.waiting + s == [c] + rest;
    assert s == [] ==> rest == r.waiting[1..] && r.waiting == [c] + rest;
    hide Frame, Close;
    if r.phase.Before? {
      BeforeTakes(c, rest);
    } else {
      InsideTakes(r.obj, r.phase.nest, c, rest);
    }
  }

  /**
    A read that takes byte after byte while more bytes arrive comes out like one that found at its start all that had
    arrived by its end.
   */
  lemma {:induction false} ReadAtOnce(r: Reader, events: seq<Arrival>)
    requires Ends(r, events) && (r.phase.Inside? ==> r.phase.nest > 0)
    ensures !r.phase.Over? ==> Result(r, events) == Resumed(r, r.waiting + Coming(events))
    decreases |events|
  {
    hide Frame, Close;
    if events != [] {
      var e, rest := events[0], events[1..];
      if e.More? {
        ReadAtOnce(Advance(r, e), rest);
        assert r.waiting + e.bytes + Coming(rest) == r.waiting + (e.bytes + Coming(rest));
      } else if r.waiting == [] {
        assert rest == [];
        NothingWaiting(r);
      } else {
        assert Coming(events) == Coming(rest) by {
          assert [] + Coming(rest) == Coming(rest);
        }
        TakeResumes(r, Coming(rest));
        ReadAtOnce(Advance(r, e), rest);
        if Advance(r, e).phase.Over? {
          assert rest == [] && r.waiting + [] == r.waiting;
        }
      }
    }
  }

  lemma NothingWaiting(r: Reader)
    requires !r.phase.Over? && r.waiting == []
    ensures Advance(r, Take).phase == Over(Resumed(r, [] + Coming([Take])))
  {
    assert [Take][1..] == [];
  }

  /** In particular from the start: bytes that come in time are as good as bytes that were there. */
  lemma FrameAtOnce(arrived: Text, events: seq<Arrival>)
    requires Ends(Reader(arrived, [], Before), events)
    ensures Result(Reader(arrived, [], Before), events) == Frame(arrived + Coming(events))
  {
    hide Frame;
    ReadAtOnce(Reader(arrived, [], Before), events);
  }
}
