/**
  The budget of `runNarrativeLoop`: the calls of the last hour are kept in a list, and each tick claims at
  most what is left. Claims may return fewer requests than asked for; the clock never runs backwards.
  */
module NarrativeLoop {
  import opened Common

  const HOUR_MS := 60 * 60 * 1000

  /** One turn: the clock when it starts, and the clock at each request that could be served. */
  datatype Tick = Tick(start: int, served: seq<int>)

  /** `t` lies in the closed hour from `w`. */
  predicate InHour(t: int, w: int) {
    w <= t <= w + HOUR_MS
  }

  /** Calls in the closed hour from `w`. */
  ghost function Calls(log: seq<int>, w: int): nat {
    if log == [] then 0 else Calls(log[..|log|-1], w) + if InHour(log[|log|-1], w) then 1 else 0
  }

  lemma {:induction false} CallsAreFew(log: seq<int>, w: int)
    ensures Calls(log, w) <= |log|
  {
    if log != [] { CallsAreFew(log[..|log|-1], w); }
  }

  lemma {:induction false} EarlierCalls(log: seq<int>, w: int)
    requires forall k :: 0 <= k < |log| ==> log[k] < w
    ensures Calls(log, w) == 0
  {
    if log != [] {
      EarlierCalls(log[..|log|-1], w);
    }
  }

  lemma {:induction false} CallsAdd(a: seq<int>, b: seq<int>, w: int)
    ensures Calls(a + b, w) == Calls(a, w) + Calls(b, w)
  {
    if b == [] {
      assert a + b == a;
    } else {
      var m := |b| - 1;
      assert (a + b)[..|a + b| - 1] == a + b[..m];
      CallsAdd(a, b[..m], w);
    }
  }

  ghost predicate Capped(log: seq<int>, cap: int) {
    forall w :: Calls(log, w) <= cap
  }

  /** Every call ever made is either forgotten, hence over an hour old at `now`, or remembered. */
  ghost predicate Remembers(log: seq<int>, forgotten: seq<int>, calls: seq<int>, now: int) {
    && log == forgotten + calls
    && (forall k :: 0 <= k < |forgotten| ==> forgotten[k] < now - HOUR_MS)
    && (forall k :: 0 <= k < |calls| ==> calls[k] <= now)
    && (forall i, j :: 0 <= i < j < |calls| ==> calls[i] <= calls[j])
  }

  lemma OneMoreCall(log: seq<int>, forgotten: seq<int>, calls: seq<int>, now: int, t: int, cap: int)
    requires Remembers(log, forgotten, calls, now) && now <= t && Capped(log, cap) && |calls| < cap
    ensures Remembers(log + [t], forgotten, calls + [t], t) && Capped(log + [t], cap)
  {
    assert log + [t] == forgotten + (calls + [t]);
    forall w ensures Calls(log + [t], w) <= cap {
      assert (log + [t])[..|log|] == log;
      assert Calls(log, w) <= cap;
      if InHour(t, w) {
        EarlierCalls(forgotten, w);
        CallsAdd(forgotten, calls + [t], w);
        CallsAreFew(calls + [t], w);
      }
    }
  }

  /** What the run of ticks promises of the clock. */
  ghost predicate ClockMoves(ticks: seq<Tick>) {
    && (forall k :: 0 <= k < |ticks| ==> Increasing(ticks[k].start, ticks[k].served))
    && (forall i, j :: 0 <= i && j == i + 1 < |ticks| ==> LastOf(ticks[i]) <= ticks[j].start)
  }

  ghost predicate Increasing(from: int, times: seq<int>) {
    && (forall k :: 0 <= k < |times| ==> from <= times[k])
    && (forall i, j :: 0 <= i < j < |times| ==> times[i] <= times[j])
  }

  ghost function LastOf(tick: Tick): int {
    if tick.served == [] then tick.start else tick.served[|tick.served|-1]
  }

  /** The calls of the last hour, among those made so far. */
  function Recent(log: seq<int>, now: int): nat {
    if log == [] then 0 else Recent(log[..|log|-1], now) + if log[|log|-1] >= now - HOUR_MS then 1 else 0
  }

  /** How many of the requests offered are served: three at most, within what the last hour leaves of the cap. */
  function Served(log: seq<int>, tick: Tick, maxPerHour: int): nat {
    var budget := Min(3, maxPerHour - Recent(log, tick.start));
    if budget < 0 then 0 else Min(|tick.served|, budget)
  }

  /** The calls made by a run of ticks. */
  function Made(ticks: seq<Tick>, maxPerHour: int): seq<int> {
    if ticks == [] then []
    else
      var log, tick := Made(ticks[..|ticks|-1], maxPerHour), ticks[|ticks|-1];
      log + tick.served[..Served(log, tick, maxPerHour)]
  }

  lemma {:induction false} RecentIsRemembered(forgotten: seq<int>, calls: seq<int>, now: int)
    requires forall k :: 0 <= k < |forgotten| ==> forgotten[k] < now - HOUR_MS
    requires forall k :: 0 <= k < |calls| ==> calls[k] >= now - HOUR_MS
    ensures Recent(forgotten + calls, now) == |calls|
    decreases |forgotten| + |calls|
  {
    if calls != [] {
      var m := |calls| - 1;
      assert (forgotten + calls)[..|forgotten| + m] == forgotten + calls[..m];
      RecentIsRemembered(forgotten, calls[..m], now);
    } else if forgotten != [] {
      var m := |forgotten| - 1;
      assert (forgotten + calls)[..m] == forgotten[..m] + [];
      RecentIsRemembered(forgotten[..m], [], now);
    }
  }

  /** Forget what is over an hour old. */
  method Forget(calls0: seq<int>, now: int, ghost log: seq<int>, ghost forgotten0: seq<int>, ghost before: int)
    returns (calls: seq<int>, ghost forgotten: seq<int>)
    requires Remembers(log, forgotten0, calls0, before) && before <= now
    ensures Remembers(log, forgotten, calls, now) && |calls| == Recent(log, now)
  {
    var hourAgo := now - HOUR_MS;
    calls, forgotten := calls0, forgotten0;
    while |calls| > 0 && calls[0] < hourAgo
      invariant Remembers(log, forgotten, calls, now)
      decreases |calls|
    {
      assert calls == [calls[0]] + calls[1..];
      assert forgotten + calls == forgotten + [calls[0]] + calls[1..];
      calls, forgotten := calls[1..], forgotten + [calls[0]];
    }
    RecentIsRemembered(forgotten, calls, now);
  }

  /** One tick: claim at most the budget left, and call once per claim. */
  method Serve(tick: Tick, calls0: seq<int>, maxPerHour: int, log0: seq<int>, ghost forgotten: seq<int>)
    returns (calls: seq<int>, log: seq<int>, ghost last: int)
    requires Remembers(log0, forgotten, calls0, tick.start) && Increasing(tick.start, tick.served)
    requires Capped(log0, if maxPerHour < 0 then 0 else maxPerHour) && |calls0| == Recent(log0, tick.start)
    ensures Remembers(log, forgotten, calls, last) && Capped(log, if maxPerHour < 0 then 0 else maxPerHour)
    ensures log == log0 + tick.served[..Served(log0, tick, maxPerHour)] && tick.start <= last <= LastOf(tick)
  {
    var budget := Min(3, maxPerHour - |calls0|);
    calls, log, last := calls0, log0, tick.start;
    var i := 0;
    while i < |tick.served| && i < budget
      invariant 0 <= i <= |tick.served| && (i <= budget || i == 0) && |calls| == |calls0| + i
      invariant Remembers(log, forgotten, calls, last) && Capped(log, if maxPerHour < 0 then 0 else maxPerHour)
      invariant log == log0 + tick.served[..i] && last == if i == 0 then tick.start else tick.served[i-1]
    {
      OneMoreCall(log, forgotten, calls, last, tick.served[i], if maxPerHour < 0 then 0 else maxPerHour);
      assert tick.served[..i+1] == tick.served[..i] + [tick.served[i]];
      calls, log, last := calls + [tick.served[i]], log + [tick.served[i]], tick.served[i];
      i := i + 1;
    }
  }

  /**
    The calls made, in order: at each tick as many as the last hour leaves room for. Whatever the claims
    return, any closed hour holds at most `maxPerHour` of them.
    */
  method RunNarrativeLoop(ticks: seq<Tick>, maxPerHour: int) returns (log: seq<int>)
    requires ClockMoves(ticks)
    ensures log == Made(ticks, maxPerHour)
    ensures Capped(log, if maxPerHour < 0 then 0 else maxPerHour)
  {
    var calls: seq<int> := [];
    log := [];
    ghost var forgotten: seq<int> := [];
    ghost var last := if ticks == [] then 0 else ticks[0].start;
    for k := 0 to |ticks|
      invariant Remembers(log, forgotten, calls, last) && Capped(log, if maxPerHour < 0 then 0 else maxPerHour)
      invariant log == Made(ticks[..k], maxPerHour) && (k < |ticks| ==> last <= ticks[k].start)
    {
      assert ticks[..k+1][..k] == ticks[..k];
      calls, forgotten := Forget(calls, ticks[k].start, log, forgotten, last);
      calls, log, last := Serve(ticks[k], calls, maxPerHour, log, forgotten);
      assert k + 1 < |ticks| ==> LastOf(ticks[k]) <= ticks[k+1].start;
    }
    assert ticks[..|ticks|] == ticks;
  }

  // ---- Nothing is held back --------------------------------------------------------------------

  lemma {:induction false} RecentIsCalls(log: seq<int>, now: int)
    requires forall k :: 0 <= k < |log| ==> log[k] <= now
    ensures Recent(log, now) == Calls(log, now - HOUR_MS)
  {
    if log != [] { RecentIsCalls(log[..|log|-1], now); }
  }

  /** Nothing was called after the turn's last moment. */
  lemma {:induction false} MadeBefore(ticks: seq<Tick>, maxPerHour: int, k: nat)
    requires ClockMoves(ticks) && k <= |ticks|
    ensures forall i :: 0 <= i < |Made(ticks[..k], maxPerHour)| ==>
              (k > 0 && Made(ticks[..k], maxPerHour)[i] <= LastOf(ticks[k-1]))
  {
    if k > 0 {
      MadeBefore(ticks, maxPerHour, k - 1);
      assert ticks[..k][..k-1] == ticks[..k-1];
      assert k > 1 ==> LastOf(ticks[k-2]) <= ticks[k-1].start;
    }
  }

  /**
    A request offered is only turned away after three others at the same turn, or when the calls of the
    hour before the turn and those of the turn itself use up the cap.
    */
  lemma OnlyTheCapTurnsAway(ticks: seq<Tick>, maxPerHour: int, k: nat)
    requires ClockMoves(ticks) && k < |ticks|
    ensures var log, after := Made(ticks[..k], maxPerHour), Made(ticks[..k+1], maxPerHour);
            && log <= after
            && (after == log + ticks[k].served || |after| == |log| + 3
                || Calls(log, ticks[k].start - HOUR_MS) + (|after| - |log|) >= maxPerHour)
  {
    var log := Made(ticks[..k], maxPerHour);
    assert ticks[..k+1][..k] == ticks[..k];
    MadeBefore(ticks, maxPerHour, k);
    assert k > 0 ==> LastOf(ticks[k-1]) <= ticks[k].start;
    RecentIsCalls(log, ticks[k].start);
    assert ticks[k].served[..|ticks[k].served|] == ticks[k].served;
  }
}
