/**
  Two ways to count slow work between polls: a cursor over the Redis slow log, and differences of
  cumulative statement counters. Entries are counted at most once, and no more calls are reported than
  were made.
  */
module SlowLog {
  import opened Common

  type Command(==, !new)
  type Fingerprint(==, !new)

  /**
    An entry; it has no command when it must not be counted. `generation` is a history: which run of the
    server logged it.
    */
  datatype Entry = Entry(id: int, durationMs: real, command: Option<Command>, generation: nat)
  datatype Aggregate = Aggregate(calls: nat, totalMs: real)

  const WINDOW := 128

  /** The largest identifier listed, or -1. */
  function MaxId(events: seq<Entry>): int {
    if events == [] then -1 else Max(MaxId(events[..|events|-1]), events[|events|-1].id)
  }

  /** The entries a poll counts, given the cursor left by the previous one. */
  function Counted(last: Option<int>, events: seq<Entry>): seq<Entry> {
    if last.None? || MaxId(events) < last.value then [] else Newer(last.value, events)
  }

  function Newer(last: int, events: seq<Entry>): seq<Entry> {
    if events == [] then []
    else
      var e := events[|events|-1];
      Newer(last, events[..|events|-1]) + if e.id <= last || e.command.None? then [] else [e]
  }

  function ByCommand(counted: seq<Entry>, command: Command): Aggregate {
    if counted == [] then Aggregate(0, 0.0)
    else
      var a, e := ByCommand(counted[..|counted|-1], command), counted[|counted|-1];
      if e.command == Some(command) then Aggregate(a.calls + 1, a.totalMs + e.durationMs) else a
  }

  lemma {:induction false} NewerHas(last: int, events: seq<Entry>, e: Entry)
    ensures e in Newer(last, events) <==> e in events && e.id > last && e.command.Some?
  {
    if events != [] {
      var m := |events| - 1;
      NewerHas(last, events[..m], e);
      assert e in events <==> e in events[..m] || e == events[m];
    }
  }

  lemma {:induction false} MaxIdBounds(events: seq<Entry>, e: Entry)
    requires e in events
    ensures e.id <= MaxId(events)
  {
    var m := |events| - 1;
    if e != events[m] { MaxIdBounds(events[..m], e); }
  }

  /** `byCommand` holds exactly the commands of `counted`, each with its calls and total duration. */
  ghost predicate Aggregates(byCommand: map<Command, Aggregate>, counted: seq<Entry>) {
    forall c :: (if c in byCommand then byCommand[c] else Aggregate(0, 0.0)) == ByCommand(counted, c)
  }

  function OneMore(byCommand: map<Command, Aggregate>, e: Entry): Aggregate
    requires e.command.Some?
  {
    var a := if e.command.value in byCommand then byCommand[e.command.value] else Aggregate(0, 0.0);
    Aggregate(a.calls + 1, a.totalMs + e.durationMs)
  }

  lemma ByCommandNext(counted: seq<Entry>, e: Entry, c: Command)
    ensures var a := ByCommand(counted, c);
            ByCommand(counted + [e], c)
            == if e.command == Some(c) then Aggregate(a.calls + 1, a.totalMs + e.durationMs) else a
  {
    assert (counted + [e])[..|counted|] == counted;
  }

  lemma AggregatesNext(byCommand: map<Command, Aggregate>, counted: seq<Entry>, e: Entry)
    requires Aggregates(byCommand, counted) && e.command.Some?
    ensures Aggregates(byCommand[e.command.value := OneMore(byCommand, e)], counted + [e])
  {
    var after := byCommand[e.command.value := OneMore(byCommand, e)];
    forall c ensures (if c in after then after[c] else Aggregate(0, 0.0)) == ByCommand(counted + [e], c) {
      ByCommandNext(counted, e, c);
    }
  }

  lemma NothingAggregated()
    ensures Aggregates(map[], [])
  {
  }

  lemma NewerNext(last: int, events: seq<Entry>, i: nat)
    requires i < |events|
    ensures var e := events[i];
            Newer(last, events[..i+1])
            == if e.id <= last || e.command.None? then Newer(last, events[..i]) else Newer(last, events[..i]) + [e]
  {
    assert events[..i+1][..i] == events[..i];
  }

  /** A statement's cumulative counters as the engine reports them. */
  datatype Stats = Stats(id: Fingerprint, idLength: nat, calls: int, totalMs: real)
  datatype SlowQuery = SlowQuery(id: Fingerprint, durationMs: real, calls: int)

  const MAX_FINGERPRINT_LEN := 128
  const MAX_CALLS := 1_000_000_000

  function ClampCalls(n: int): int {
    if n > MAX_CALLS then MAX_CALLS else n
  }

  predicate Identified(s: Stats) {
    0 < s.idLength <= MAX_FINGERPRINT_LEN
  }

  /** What one statement's counters report, compared with the previous poll's. */
  function Report(prev: map<Fingerprint, Stats>, cur: Stats, thresholdMs: real): seq<SlowQuery> {
    if !Identified(cur) || cur.id !in prev || cur.calls <= prev[cur.id].calls then []
    else
      var calls := cur.calls - prev[cur.id].calls;
      var avgMs := (cur.totalMs - prev[cur.id].totalMs) / calls as real;
      if avgMs < thresholdMs || avgMs < 0.0 then [] else [SlowQuery(cur.id, avgMs, ClampCalls(calls))]
  }

  function Reports(prev: map<Fingerprint, Stats>, current: seq<Stats>, thresholdMs: real): seq<SlowQuery> {
    if current == [] then []
    else Reports(prev, current[..|current|-1], thresholdMs) + Report(prev, current[|current|-1], thresholdMs)
  }

  /** The counters remembered for the next poll: the last of each statement. */
  function Remembered(current: seq<Stats>): map<Fingerprint, Stats> {
    if current == [] then map[]
    else
      var cur, front := current[|current|-1], Remembered(current[..|current|-1]);
      if Identified(cur) then front[cur.id := cur] else front
  }

  class Monitor {
    var slowlogLastId: Option<int>
    var prevQueries: map<Fingerprint, Stats>

    constructor ()
      ensures slowlogLastId.None? && prevQueries == map[]
    {
      slowlogLastId := None;
      prevQueries := map[];
    }

    /** One poll of the slow log: move the cursor and aggregate what is newer, per command. */
    method SlowlogDeltas(events: seq<Entry>) returns (byCommand: map<Command, Aggregate>)
      modifies this`slowlogLastId
      ensures slowlogLastId == Some(MaxId(events))
      ensures Aggregates(byCommand, Counted(old(slowlogLastId), events))
    {
      var maxId := FindMaxId(events);
      var last := slowlogLastId;
      slowlogLastId := Some(maxId);
      byCommand := map[];
      NothingAggregated();
      if last.None? || maxId < last.value { return; }
      for i := 0 to |events|
        invariant Aggregates(byCommand, Newer(last.value, events[..i])) && slowlogLastId == Some(maxId)
      {
        var e := events[i];
        NewerNext(last.value, events, i);
        if e.id <= last.value || e.command.None? { continue; }
        AggregatesNext(byCommand, Newer(last.value, events[..i]), e);
        byCommand := byCommand[e.command.value := OneMore(byCommand, e)];
      }
      assert events[..|events|] == events;
    }

    /** One poll of the statement counters. */
    method SlowQueryDeltas(current: seq<Stats>, thresholdMs: real) returns (out: seq<SlowQuery>)
      modifies this`prevQueries
      ensures out == Reports(old(prevQueries), current, thresholdMs)
      ensures prevQueries == Remembered(current)
    {
      var next: map<Fingerprint, Stats> := map[];
      out := [];
      for i := 0 to |current|
        invariant out == Reports(prevQueries, current[..i], thresholdMs) && next == Remembered(current[..i])
        invariant prevQueries == old(prevQueries)
      {
        assert current[..i+1][..i] == current[..i];
        var cur := current[i];
        if !Identified(cur) { continue; }
        next := next[cur.id := cur];
        if cur.id !in prevQueries || cur.calls <= prevQueries[cur.id].calls { continue; }
        var calls := cur.calls - prevQueries[cur.id].calls;
        var avgMs := (cur.totalMs - prevQueries[cur.id].totalMs) / calls as real;
        if avgMs < thresholdMs || avgMs < 0.0 { continue; }
        out := out + [SlowQuery(cur.id, avgMs, ClampCalls(calls))];
      }
      assert current[..|current|] == current;
      prevQueries := next;
    }
  }

  method FindMaxId(events: seq<Entry>) returns (maxId: int)
    ensures maxId == MaxId(events)
  {
    maxId := -1;
    for i := 0 to |events|
      invariant maxId == MaxId(events[..i])
    {
      assert events[..i+1][..i] == events[..i];
      maxId := Max(maxId, events[i].id);
    }
    assert events[..|events|] == events;
  }

  // ---- Every entry at most once ----------------------------------------------------------------

  /**
    What happens to the log: entries are added with growing identifiers, the oldest or all of them go, the
    server restarts with an empty log and identifiers that start again, polls look.
    */
  datatype Event = Add(entry: Entry) | Drop(oldest: nat) | Restart | Poll

  /**
    `generation`, `highest` and `counted` are histories: how often the server has restarted, the largest
    identifier given since, and what polls have counted.
    */
  datatype State = State(log: seq<Entry>, generation: nat, highest: int, last: Option<int>, counted: seq<Entry>)

  /** The newest entries, up to the window's size. */
  function Window(log: seq<Entry>): seq<Entry> {
    if |log| <= WINDOW then log else log[|log| - WINDOW..]
  }

  function Next(s: State, e: Event): State {
    match e
    case Add(entry) =>
      if entry.generation == s.generation && entry.id > s.highest
      then s.(log := s.log + [entry], highest := entry.id) else s
    case Drop(k) => s.(log := if k <= |s.log| then s.log[k..] else [])
    case Restart => s.(log := [], generation := s.generation + 1, highest := -1)
    case Poll => s.(last := Some(MaxId(Window(s.log))), counted := s.counted + Counted(s.last, Window(s.log)))
  }

  function Run(events: seq<Event>): State {
    if events == [] then State([], 0, -1, None, []) else Next(Run(events[..|events|-1]), events[|events|-1])
  }

  ghost predicate SameEntry(a: Entry, b: Entry) {
    a.generation == b.generation && a.id == b.id
  }

  /** The identifiers of one run of the server grow. */
  ghost predicate Growing(s: State) {
    && (forall i, j :: 0 <= i < j < |s.log| ==> s.log[i].id < s.log[j].id)
    && (forall i :: 0 <= i < |s.log| ==> s.log[i].generation == s.generation && s.log[i].id <= s.highest)
    && (forall i :: 0 <= i < |s.counted| ==> Given(s, s.counted[i]))
  }

  /** The entry was logged before, in this run of the server or an earlier one. */
  ghost predicate Given(s: State, e: Entry) {
    e.generation < s.generation || (e.generation == s.generation && e.id <= s.highest)
  }

  /** A counted entry is behind the cursor, or gone from the log for good. */
  ghost predicate Behind(s: State, e: Entry) {
    (s.last.Some? && e.id <= s.last.value) || forall i :: 0 <= i < |s.log| ==> !SameEntry(s.log[i], e)
  }

  lemma LastIsMax(log: seq<Entry>)
    requires log != [] && forall i, j :: 0 <= i < j < |log| ==> log[i].id < log[j].id
    ensures forall i :: 0 <= i < |log| ==> log[i].id <= MaxId(Window(log))
  {
    var w := Window(log);
    assert w[|w|-1] == log[|log|-1];
    MaxIdBounds(w, w[|w|-1]);
  }

  lemma CountedHas(last: Option<int>, events: seq<Entry>, e: Entry)
    requires e in Counted(last, events)
    ensures e in events && last.Some? && e.id > last.value && e.id <= MaxId(events)
  {
    NewerHas(last.value, events, e);
    MaxIdBounds(events, e);
  }

  lemma InWindow(log: seq<Entry>, e: Entry) returns (k: nat)
    requires e in Window(log)
    ensures k < |log| && log[k] == e
  {
    var j :| 0 <= j < |Window(log)| && Window(log)[j] == e;
    k := if |log| <= WINDOW then j else |log| - WINDOW + j;
  }

  lemma {:induction false} RunIsGrowing(events: seq<Event>)
    ensures Growing(Run(events))
  {
    if events != [] {
      var s, e := Run(events[..|events|-1]), events[|events|-1];
      RunIsGrowing(events[..|events|-1]);
      if e.Poll? { PollIsGrowing(s); } else { NextIsGrowing(s, e); }
    }
  }

  lemma NextIsGrowing(s: State, e: Event)
    requires Growing(s) && !e.Poll?
    ensures Growing(Next(s, e))
  {
  }

  lemma PollIsGrowing(s: State)
    requires Growing(s)
    ensures Growing(Next(s, Poll))
  {
    var more := Counted(s.last, Window(s.log));
    forall i | 0 <= i < |more| ensures Given(s, more[i]) {
      CountedHas(s.last, Window(s.log), more[i]);
      var k := InWindow(s.log, more[i]);
    }
  }

  /** What was counted stays behind the cursor or out of the log. */
  lemma StaysBehind(s: State, e: Event, c: Entry)
    requires Growing(s) && Given(s, c) && Behind(s, c)
    ensures Behind(Next(s, e), c)
  {
    if e.Poll? && s.log != [] { LastIsMax(s.log); }
  }

  /** What a poll counts is behind the cursor it leaves. */
  lemma BecomesBehind(s: State, c: Entry)
    requires c in Counted(s.last, Window(s.log))
    ensures Behind(Next(s, Poll), c)
  {
    CountedHas(s.last, Window(s.log), c);
  }

  lemma {:induction false} RunIsBehind(events: seq<Event>, k: nat)
    requires k < |Run(events).counted|
    ensures Behind(Run(events), Run(events).counted[k])
  {
    var front, e := events[..|events|-1], events[|events|-1];
    var s := Run(front);
    if k < |s.counted| {
      RunIsGrowing(front);
      RunIsBehind(front, k);
      StaysBehind(s, e, s.counted[k]);
    } else {
      BecomesBehind(s, Run(events).counted[k]);
    }
  }

  ghost predicate AllDiffer(entries: seq<Entry>) {
    forall i, j :: 0 <= i < j < |entries| ==> !SameEntry(entries[i], entries[j])
  }

  lemma {:induction false} NewerOnce(last: int, events: seq<Entry>)
    requires forall i, j :: 0 <= i < j < |events| ==> events[i].id < events[j].id
    ensures AllDiffer(Newer(last, events))
  {
    if events != [] {
      var m := |events| - 1;
      NewerOnce(last, events[..m]);
      var front := Newer(last, events[..m]);
      forall i | 0 <= i < |front| ensures front[i].id != events[m].id {
        NewerHas(last, events[..m], front[i]);
        var k :| 0 <= k < m && events[..m][k] == front[i];
      }
    }
  }

  /** A poll counts nothing that was counted before. */
  lemma CountsNew(s: State, c: Entry, e: Entry)
    requires Behind(s, c) && e in Counted(s.last, Window(s.log))
    ensures !SameEntry(c, e)
  {
    CountedHas(s.last, Window(s.log), e);
    var k := InWindow(s.log, e);
    assert s.log[k] == e;
  }

  lemma JoinDiffers(a: seq<Entry>, b: seq<Entry>)
    requires AllDiffer(a) && AllDiffer(b)
    requires forall i, j :: 0 <= i < |a| && 0 <= j < |b| ==> !SameEntry(a[i], b[j])
    ensures AllDiffer(a + b)
  {
  }

  /**
    Every entry is counted by at most one poll, across resets, empty windows and restarts after which
    identifiers start again.
    */
  lemma {:induction false} CountedOnce(events: seq<Event>)
    ensures AllDiffer(Run(events).counted)
  {
    if events != [] {
      var front, e := events[..|events|-1], events[|events|-1];
      var s := Run(front);
      CountedOnce(front);
      if e.Poll? { PollCountsOnce(front); }
    }
  }

  lemma PollCountsOnce(events: seq<Event>)
    requires AllDiffer(Run(events).counted)
    ensures AllDiffer(Next(Run(events), Poll).counted)
  {
    var s := Run(events);
    var more := Counted(s.last, Window(s.log));
    RunIsGrowing(events);
    if more != [] { NewerOnce(s.last.value, Window(s.log)); }
    forall i, j | 0 <= i < |s.counted| && 0 <= j < |more| ensures !SameEntry(s.counted[i], more[j]) {
      RunIsBehind(events, i);
      CountsNew(s, s.counted[i], more[j]);
    }
    JoinDiffers(s.counted, more);
  }

  // ---- No more calls than were made ------------------------------------------------------------

  /** The calls a list of reports attributes to one statement. */
  function CallsOf(reports: seq<SlowQuery>, id: Fingerprint): int {
    if reports == [] then 0
    else CallsOf(reports[..|reports|-1], id) + if reports[|reports|-1].id == id then reports[|reports|-1].calls else 0
  }

  /** Everything reported for a statement over a run of polls. */
  function Reported(polls: seq<seq<Stats>>, thresholdMs: real, id: Fingerprint): int {
    if polls == [] then 0
    else
      var m := |polls| - 1;
      Reported(polls[..m], thresholdMs, id) + CallsOf(Reports(Before(polls, m), polls[m], thresholdMs), id)
  }

  /** How much a counter has risen over its readings; a fall is a reset and counts for nothing. */
  function Risen(counter: seq<int>): int {
    if |counter| < 2 then 0
    else Risen(counter[..|counter|-1]) + Max(0, counter[|counter|-1] - counter[|counter|-2])
  }

  /** A poll that lists the statement lists it once, with its counter; it may not list it at all. */
  ghost predicate Shows(current: seq<Stats>, id: Fingerprint, counter: int) {
    && (forall i :: 0 <= i < |current| && current[i].id == id ==> current[i].calls == counter)
    && (forall i, j :: 0 <= i < j < |current| && current[i].id == id ==> current[j].id != id)
  }

  lemma {:induction false} CallsOfOthers(prev: map<Fingerprint, Stats>, current: seq<Stats>, thresholdMs: real,
                                         id: Fingerprint)
    requires forall i :: 0 <= i < |current| ==> current[i].id != id
    ensures CallsOf(Reports(prev, current, thresholdMs), id) == 0
  {
    if current != [] {
      var m := |current| - 1;
      CallsOfOthers(prev, current[..m], thresholdMs, id);
      CallsOfMore(Reports(prev, current[..m], thresholdMs), Report(prev, current[m], thresholdMs), id);
    }
  }

  lemma CallsOfMore(reports: seq<SlowQuery>, more: seq<SlowQuery>, id: Fingerprint)
    requires |more| <= 1
    ensures CallsOf(reports + more, id)
         == CallsOf(reports, id) + if more != [] && more[0].id == id then more[0].calls else 0
  {
    if more == [] {
      assert reports + more == reports;
    } else {
      assert (reports + more)[..|reports|] == reports && (reports + more)[|reports|] == more[0];
    }
  }

  lemma {:induction false} RememberedIs(current: seq<Stats>, id: Fingerprint, counter: int)
    requires forall i :: 0 <= i < |current| && current[i].id == id ==> current[i].calls == counter
    ensures id in Remembered(current) ==> Remembered(current)[id].calls == counter
  {
    if current != [] { RememberedIs(current[..|current|-1], id, counter); }
  }

  lemma ReportAtMost(prev: map<Fingerprint, Stats>, cur: Stats, thresholdMs: real, before: int)
    requires cur.id in prev ==> prev[cur.id].calls == before
    ensures var r := Report(prev, cur, thresholdMs);
            |r| <= 1 && (r != [] ==> r[0].id == cur.id && 0 <= r[0].calls <= Max(0, cur.calls - before))
  {
  }

  lemma ReportsMore(prev: map<Fingerprint, Stats>, current: seq<Stats>, thresholdMs: real, id: Fingerprint, before: int)
    requires current != [] && (id in prev ==> prev[id].calls == before)
    ensures var cur, front := current[|current|-1], CallsOf(Reports(prev, current[..|current|-1], thresholdMs), id);
            var all := CallsOf(Reports(prev, current, thresholdMs), id);
            if cur.id == id then front <= all <= front + Max(0, cur.calls - before) else all == front
  {
    var cur, front := current[|current|-1], Reports(prev, current[..|current|-1], thresholdMs);
    ReportAtMost(prev, cur, thresholdMs, if cur.id in prev then prev[cur.id].calls else before);
    CallsOfMore(front, Report(prev, cur, thresholdMs), id);
  }

  lemma {:induction false} PollReportsAtMost(prev: map<Fingerprint, Stats>, current: seq<Stats>, thresholdMs: real,
                                             id: Fingerprint, before: int, now: int)
    requires Shows(current, id, now) && (id in prev ==> prev[id].calls == before)
    ensures 0 <= CallsOf(Reports(prev, current, thresholdMs), id) <= Max(0, now - before)
  {
    if current != [] {
      var m := |current| - 1;
      ReportsMore(prev, current, thresholdMs, id, before);
      if current[m].id == id {
        assert forall i :: 0 <= i < m ==> current[..m][i] == current[i];
        CallsOfOthers(prev, current[..m], thresholdMs, id);
      } else {
        PollReportsAtMost(prev, current[..m], thresholdMs, id, before, now);
      }
    }
  }

  /** The counters a poll compares with. */
  function Before(polls: seq<seq<Stats>>, m: nat): map<Fingerprint, Stats>
    requires m < |polls|
  {
    if m == 0 then map[] else Remembered(polls[m-1])
  }

  lemma LastPoll(polls: seq<seq<Stats>>, counter: seq<int>, thresholdMs: real, id: Fingerprint, m: nat)
    requires m < |polls| == |counter| && forall k :: 0 <= k < |polls| ==> Shows(polls[k], id, counter[k])
    ensures 0 <= CallsOf(Reports(Before(polls, m), polls[m], thresholdMs), id)
              <= if m == 0 then 0 else Max(0, counter[m] - counter[m-1])
  {
    assert Shows(polls[m], id, counter[m]);
    if m == 0 {
      PollReportsAtMost(map[], polls[m], thresholdMs, id, counter[m], counter[m]);
    } else {
      assert Shows(polls[m-1], id, counter[m-1]);
      RememberedIs(polls[m-1], id, counter[m-1]);
      PollReportsAtMost(Remembered(polls[m-1]), polls[m], thresholdMs, id, counter[m-1], counter[m]);
    }
  }

  /** The calls reported for a statement never exceed what its counter has risen by, across resets and evictions. */
  lemma {:induction false} ReportedAtMostMade(polls: seq<seq<Stats>>, counter: seq<int>, thresholdMs: real,
                                              id: Fingerprint)
    requires |counter| == |polls| && forall k :: 0 <= k < |polls| ==> Shows(polls[k], id, counter[k])
    ensures 0 <= Reported(polls, thresholdMs, id) <= Risen(counter)
  {
    if polls != [] {
      var m := |polls| - 1;
      assert forall k :: 0 <= k < m ==> polls[..m][k] == polls[k] && counter[..m][k] == counter[k];
      ReportedAtMostMade(polls[..m], counter[..m], thresholdMs, id);
      LastPoll(polls, counter, thresholdMs, id, m);
    }
  }

  // ---- Nothing slow is missed ------------------------------------------------------------------

  /** What a poll counts: exactly the entries it sees past the cursor, unless the cursor is ahead of them all. */
  lemma CountedExactly(last: Option<int>, events: seq<Entry>, e: Entry)
    ensures e in Counted(last, events) <==>
              last.Some? && last.value <= MaxId(events) && e in events && e.id > last.value && e.command.Some?
  {
    if last.Some? { NewerHas(last.value, events, e); }
  }

  lemma RunStep(events: seq<Event>, n: nat)
    requires n < |events|
    ensures Run(events[..n+1]) == Next(Run(events[..n]), events[n])
  {
    assert events[..n+1][..n] == events[..n];
  }

  /** The cursor is not ahead of the identifiers given, and nothing but a poll moves it. */
  ghost predicate CursorAt(s: State, cursor: int) {
    s.last == Some(cursor) && cursor <= s.highest
  }

  lemma PollSetsCursor(s: State)
    requires Growing(s) && -1 <= s.highest
    ensures CursorAt(Next(s, Poll), MaxId(Window(s.log)))
  {
    MaxIdIsGiven(s, |Window(s.log)|);
    assert Window(s.log)[..|Window(s.log)|] == Window(s.log);
  }

  lemma {:induction false} MaxIdIsGiven(s: State, n: nat)
    requires Growing(s) && -1 <= s.highest && n <= |Window(s.log)|
    ensures MaxId(Window(s.log)[..n]) <= s.highest
  {
    if n > 0 {
      var w := Window(s.log);
      MaxIdIsGiven(s, n - 1);
      assert w[..n][..n-1] == w[..n-1];
      var k := InWindow(s.log, w[n-1]);
    }
  }

  lemma {:induction false} HighestIsNatural(events: seq<Event>)
    ensures -1 <= Run(events).highest
  {
    if events != [] { HighestIsNatural(events[..|events|-1]); }
  }

  lemma {:induction false} CursorStays(events: seq<Event>, i: nat, n: nat, cursor: int)
    requires i <= n <= |events| && CursorAt(Run(events[..i]), cursor)
    requires forall k :: i <= k < n ==> !events[k].Poll? && !events[k].Restart?
    ensures CursorAt(Run(events[..n]), cursor)
  {
    if i < n {
      CursorStays(events, i, n - 1, cursor);
      RunStep(events, n - 1);
    }
  }

  /**
    Every slow command logged between two polls of one run of the server is counted by the second, if the
    window still shows it.
    */
  lemma NothingMissed(events: seq<Event>, i: nat, m: nat, j: nat)
    requires i < m < j < |events| && events[i].Poll? && events[m].Add? && events[j].Poll?
    requires forall k :: i < k < j ==> !events[k].Poll? && !events[k].Restart?
    requires var e := events[m].entry;
             e.command.Some? && e.id > Run(events[..m]).highest && e in Window(Run(events[..j]).log)
    ensures events[m].entry in Run(events[..j+1]).counted
  {
    var e, s := events[m].entry, Run(events[..j]);
    var cursor := MaxId(Window(Run(events[..i]).log));
    RunIsGrowing(events[..i]);
    HighestIsNatural(events[..i]);
    RunStep(events, i);
    PollSetsCursor(Run(events[..i]));
    CursorStays(events, i + 1, m, cursor);
    CursorStays(events, i + 1, j, cursor);
    RunStep(events, j);
    MaxIdBounds(Window(s.log), e);
    CountedExactly(s.last, Window(s.log), e);
  }

  /** The calls of a command are the entries counted for it. */
  lemma {:induction false} CallsAreEntries(counted: seq<Entry>, c: Command)
    ensures ByCommand(counted, c).calls == |set k | 0 <= k < |counted| && counted[k].command == Some(c)|
  {
    if counted != [] {
      var m := |counted| - 1;
      CallsAreEntries(counted[..m], c);
      var before := set k | 0 <= k < m && counted[..m][k].command == Some(c);
      var all := set k | 0 <= k < |counted| && counted[k].command == Some(c);
      assert forall k :: 0 <= k < m ==> counted[..m][k] == counted[k];
      assert all == if counted[m].command == Some(c) then before + {m} else before;
    }
  }

  /** The total lies where the durations do: between the number of calls times the shortest and times the longest. */
  lemma {:induction false} TotalIsInRange(counted: seq<Entry>, c: Command, shortest: real, longest: real)
    requires forall k :: 0 <= k < |counted| && counted[k].command == Some(c) ==>
               shortest <= counted[k].durationMs <= longest
    ensures var a := ByCommand(counted, c); a.calls as real * shortest <= a.totalMs <= a.calls as real * longest
  {
    if counted != [] {
      var m := |counted| - 1;
      TotalIsInRange(counted[..m], c, shortest, longest);
      OneMoreTime(ByCommand(counted[..m], c).calls, shortest);
      OneMoreTime(ByCommand(counted[..m], c).calls, longest);
    }
  }

  lemma OneMoreTime(n: nat, x: real)
    ensures (n + 1) as real * x == n as real * x + x
  {
    assert (n + 1) as real == n as real + 1.0;
  }

  /** An entry logged with a new identifier is in the window, and the next poll counts it. */
  lemma JustLoggedIsCounted(events: seq<Event>, e: Entry)
    requires var s := Run(events);
             && e.generation == s.generation && e.id > s.highest && e.command.Some?
             && s.last.Some? && s.last.value <= s.highest
    ensures e in Run(events + [Add(e)] + [Poll]).counted
  {
    RunMore(events, Add(e));
    RunMore(events + [Add(e)], Poll);
    var s := Run(events + [Add(e)]);
    var w := Window(s.log);
    assert w[|w|-1] == e;
    MaxIdBounds(w, e);
    CountedExactly(s.last, w, e);
  }

  lemma RunMore(events: seq<Event>, e: Event)
    ensures Run(events + [e]) == Next(Run(events), e)
  {
    assert (events + [e])[..|events|] == events;
  }

  /** Row `k` is the last one of its statement. */
  ghost predicate LastRow(current: seq<Stats>, id: Fingerprint, k: int) {
    && 0 <= k < |current| && current[k].id == id && Identified(current[k])
    && forall j :: k < j < |current| && current[j].id == id ==> !Identified(current[j])
  }

  /** A poll remembers the last counters of each statement with a usable fingerprint, and nothing else. */
  lemma {:induction false} RememberedExactly(current: seq<Stats>, id: Fingerprint, s: Stats)
    ensures (id in Remembered(current) && Remembered(current)[id] == s) <==>
              exists k :: LastRow(current, id, k) && current[k] == s
  {
    if current != [] {
      var m := |current| - 1;
      if Identified(current[m]) && current[m].id == id {
        assert LastRow(current, id, m);
      } else {
        RememberedExactly(current[..m], id, s);
        forall k ensures LastRow(current, id, k) <==> LastRow(current[..m], id, k) { }
      }
    }
  }

  /** `r` is what a statement's counters have risen by: its mean time is slow enough to matter. */
  ghost predicate IsRise(prev: map<Fingerprint, Stats>, cur: Stats, thresholdMs: real, r: SlowQuery) {
    && 0 < cur.idLength <= MAX_FINGERPRINT_LEN && cur.id in prev && r.id == cur.id
    && var calls := cur.calls - prev[cur.id].calls;
       && 0 < calls && r.calls == (if calls <= MAX_CALLS then calls else MAX_CALLS)
       && r.durationMs * calls as real == cur.totalMs - prev[cur.id].totalMs
       && thresholdMs <= r.durationMs && 0.0 <= r.durationMs
  }

  lemma Quotient(total: real, calls: real, mean: real)
    requires calls > 0.0
    ensures mean * calls == total <==> mean == total / calls
  {
  }

  lemma ReportIsRise(prev: map<Fingerprint, Stats>, cur: Stats, thresholdMs: real, r: SlowQuery)
    ensures r in Report(prev, cur, thresholdMs) <==> IsRise(prev, cur, thresholdMs, r)
  {
    if cur.id in prev && cur.calls > prev[cur.id].calls {
      Quotient(cur.totalMs - prev[cur.id].totalMs, (cur.calls - prev[cur.id].calls) as real, r.durationMs);
    }
  }

  /** A poll reports a statement if and only if its counters have risen, by calls slow enough on average. */
  lemma {:induction false} ReportsExactly(prev: map<Fingerprint, Stats>, current: seq<Stats>, thresholdMs: real,
                                          r: SlowQuery)
    ensures r in Reports(prev, current, thresholdMs) <==>
              exists cur :: cur in current && IsRise(prev, cur, thresholdMs, r)
  {
    if current != [] {
      var m := |current| - 1;
      ReportsExactly(prev, current[..m], thresholdMs, r);
      ReportIsRise(prev, current[m], thresholdMs, r);
      assert forall cur :: cur in current <==> cur in current[..m] || cur == current[m];
    }
  }
}
