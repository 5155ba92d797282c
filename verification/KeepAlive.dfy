/** When the keep-alive check reports a connection, in whole seconds. */
module KeepAlive {
  const KEEP_ALIVE_INTERVAL: int := 10
  const KEEP_ALIVE_PROD: int := 30

  /** On one connection: a keep-alive is processed, or the periodic check reads when the last one was. */
  datatype Event = Refresh(at: int) | Check(at: int)

  /** The times of the checks that find the connection overdue, `last` being the latest refresh so far. */
  function Overdue(events: seq<Event>, last: int): seq<int> {
    if events == [] then []
    else
      match events[0]
      case Refresh(at) => Overdue(events[1..], at)
      case Check(at) => (if at - last > KEEP_ALIVE_PROD then [at] else []) + Overdue(events[1..], last)
  }

  /** The times for which the queue could be had. */
  function Kept(times: seq<int>, got: seq<bool>): seq<int>
    requires |times| == |got|
  {
    if times == [] then []
    else
      var n := |times| - 1;
      Kept(times[..n], got[..n]) + if got[n] then [times[n]] else []
  }

  lemma {:induction false} KeptAll(times: seq<int>, got: seq<bool>)
    requires |times| == |got| && forall i :: 0 <= i < |got| ==> got[i]
    ensures Kept(times, got) == times
  {
    if times != [] {
      KeptAll(times[..|times| - 1], got[..|times| - 1]);
    }
  }

  lemma {:induction false} KeptAmong(times: seq<int>, got: seq<bool>, at: int)
    requires |times| == |got|
    ensures at in Kept(times, got) <==> exists i :: 0 <= i < |times| && times[i] == at && got[i]
  {
    if times != [] {
      var n := |times| - 1;
      KeptAmong(times[..n], got[..n], at);
      if exists i :: 0 <= i < |times| && times[i] == at && got[i] {
        var i :| 0 <= i < |times| && times[i] == at && got[i];
        assert i < n ==> times[..n][i] == at && got[..n][i];
      }
    }
  }

  lemma KeptOne(times: seq<int>, got: seq<bool>, at: int, ok: bool)
    requires |times| == |got|
    ensures Kept(times + [at], got + [ok]) == Kept(times, got) + if ok then [at] else []
  {
    assert (times + [at])[..|times|] == times && (got + [ok])[..|got|] == got;
  }

  function LastRefresh(events: seq<Event>, last: int): int {
    if events == [] then last
    else LastRefresh(events[1..], if events[0].Refresh? then events[0].at else last)
  }

  /** How many keep-alives were processed. */
  function Refreshes(events: seq<Event>): nat {
    if events == [] then 0
    else Refreshes(events[..|events| - 1]) + if events[|events| - 1].Refresh? then 1 else 0
  }

  lemma RefreshesOne(events: seq<Event>, e: Event)
    ensures Refreshes(events + [e]) == Refreshes(events) + if e.Refresh? then 1 else 0
  {
    assert (events + [e])[..|events|] == events;
  }

  lemma {:induction false} OverdueAppend(a: seq<Event>, b: seq<Event>, last: int)
    ensures Overdue(a + b, last) == Overdue(a, last) + Overdue(b, LastRefresh(a, last))
  {
    if a == [] {
      assert a + b == b;
    } else {
      assert (a + b)[1..] == a[1..] + b;
      OverdueAppend(a[1..], b, if a[0].Refresh? then a[0].at else last);
    }
  }

  lemma {:induction false} LastAppend(a: seq<Event>, b: seq<Event>, last: int)
    ensures LastRefresh(a + b, last) == LastRefresh(b, LastRefresh(a, last))
  {
    if a == [] {
      assert a + b == b;
    } else {
      assert (a + b)[1..] == a[1..] + b;
      LastAppend(a[1..], b, if a[0].Refresh? then a[0].at else last);
    }
  }

  lemma EventOne(events: seq<Event>, e: Event, last: int)
    ensures LastRefresh(events + [e], last) == if e.Refresh? then e.at else LastRefresh(events, last)
    ensures Overdue(events + [e], last)
         == Overdue(events, last)
            + if e.Check? && e.at - LastRefresh(events, last) > KEEP_ALIVE_PROD then [e.at] else []
  {
    LastAppend(events, [e], last);
    OverdueAppend(events, [e], last);
    assert [e][1..] == [];
    var l := LastRefresh(events, last);
    assert Overdue([], if e.Refresh? then e.at else l) == [];
    assert LastRefresh([e], l) == LastRefresh([], if e.Refresh? then e.at else l);
  }

  /** A check that finds the connection overdue comes more than 30 seconds after the last refresh before it. */
  lemma {:induction false} OverdueIff(events: seq<Event>, last: int, at: int)
    ensures at in Overdue(events, last) <==>
            exists i :: 0 <= i < |events| && events[i] == Check(at)
                        && at - LastRefresh(events[..i], last) > KEEP_ALIVE_PROD
    decreases |events|
  {
    if events != [] {
      var n := |events| - 1;
      var before := events[..n];
      assert events == before + [events[n]];
      EventOne(before, events[n], last);
      OverdueIff(before, last, at);
      forall i | 0 <= i < n ensures before[..i] == events[..i] && before[i] == events[i] {
      }
    }
  }

  // ---- Silence ----

  /** `n` checks, the first at `start` and then one per interval. */
  function Checks(start: int, n: nat): seq<Event>
    decreases n
  {
    if n == 0 then [] else [Check(start)] + Checks(start + KEEP_ALIVE_INTERVAL, n - 1)
  }

  function Every(start: int, n: nat): seq<int>
    decreases n
  {
    if n == 0 then [] else [start] + Every(start + KEEP_ALIVE_INTERVAL, n - 1)
  }

  lemma {:induction false} AllTimeOut(start: int, n: nat, last: int)
    requires start - last > KEEP_ALIVE_PROD
    ensures Overdue(Checks(start, n), last) == Every(start, n)
    decreases n
  {
    if n > 0 {
      AllTimeOut(start + KEEP_ALIVE_INTERVAL, n - 1, last);
      assert Checks(start, n)[1..] == Checks(start + KEEP_ALIVE_INTERVAL, n - 1);
    }
  }

  lemma {:induction false} NoneTimeOut(start: int, n: nat, last: int)
    requires n > 0 ==> start + KEEP_ALIVE_INTERVAL * (n - 1) - last <= KEEP_ALIVE_PROD
    ensures Overdue(Checks(start, n), last) == []
    decreases n
  {
    if n > 0 {
      NoneTimeOut(start + KEEP_ALIVE_INTERVAL, n - 1, last);
      assert Checks(start, n)[1..] == Checks(start + KEEP_ALIVE_INTERVAL, n - 1);
    }
  }

  lemma {:induction false} ChecksSplit(start: int, n: nat, m: nat)
    ensures Checks(start, n + m) == Checks(start, n) + Checks(start + KEEP_ALIVE_INTERVAL * n, m)
    decreases n
  {
    if n == 0 {
      assert [] + Checks(start, m) == Checks(start, m);
    } else {
      ChecksSplit(start + KEEP_ALIVE_INTERVAL, n - 1, m);
    }
  }

  /**
    Silence since `t`, whatever happened before: of the checks that follow, one per interval and the first at
    `start`, exactly those from the fourth on find it overdue, so the first report comes more than 30 and at
    most 40 seconds after `t`.
   */
  lemma SilenceTimesOut(before: seq<Event>, last: int, t: int, start: int, n: nat)
    requires LastRefresh(before, last) == t && t < start <= t + KEEP_ALIVE_INTERVAL
    ensures Overdue(before + Checks(start, n), last)
         == Overdue(before, last) + if n <= 3 then [] else Every(start + 30, n - 3)
    ensures t + 30 < start + 30 <= t + 40
  {
    var checks := Checks(start, n);
    OverdueAppend(before, checks, last);
    if n <= 3 {
      NoneTimeOut(start, n, t);
    } else {
      ChecksSplit(start, 3, n - 3);
      OverdueAppend(Checks(start, 3), Checks(start + 30, n - 3), t);
      NoneTimeOut(start, 3, t);
      ChecksRefreshNothing(start, 3, t);
      AllTimeOut(start + 30, n - 3, t);
      assert [] + Every(start + 30, n - 3) == Every(start + 30, n - 3);
    }
  }

  lemma {:induction false} ChecksRefreshNothing(start: int, n: nat, last: int)
    ensures LastRefresh(Checks(start, n), last) == last
    decreases n
  {
    if n > 0 {
      ChecksRefreshNothing(start + KEEP_ALIVE_INTERVAL, n - 1, last);
      assert Checks(start, n)[1..] == Checks(start + KEEP_ALIVE_INTERVAL, n - 1);
    }
  }

  // ---- Keep-alives that come ----

  /** When keep-alive number `n` leaves a sender that connected at `connect`. */
  function SentAt(connect: int, n: nat): int {
    connect + KEEP_ALIVE_INTERVAL * (n + 1)
  }

  /** `n` keep-alives were processed before; each is processed, in order, within `delay` seconds after it was sent. */
  predicate Punctual(events: seq<Event>, n: nat, connect: int, delay: int) {
    events == []
    || (match events[0]
        case Refresh(at) =>
          SentAt(connect, n) <= at <= SentAt(connect, n) + delay && Punctual(events[1..], n + 1, connect, delay)
        case Check(at) => at <= SentAt(connect, n) + delay && Punctual(events[1..], n, connect, delay))
  }

  lemma {:induction false} PunctualNeverTimesOut(events: seq<Event>, n: nat, connect: int, delay: int, last: int)
    requires Punctual(events, n, connect, delay) && delay <= 20 && last >= connect + KEEP_ALIVE_INTERVAL * n
    ensures Overdue(events, last) == []
    decreases |events|
  {
    if events != [] {
      if events[0].Refresh? {
        PunctualNeverTimesOut(events[1..], n + 1, connect, delay, events[0].at);
      } else {
        PunctualNeverTimesOut(events[1..], n, connect, delay, last);
      }
    }
  }
}
