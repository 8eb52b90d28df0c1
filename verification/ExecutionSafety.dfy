/**
  What holds over every run of the execution machine, whatever the interleaving: at most one live
  execution per action and host, the cooldown and the hourly cap, one-way statuses, and each execution
  handed out and answered at most once.
  */
module ExecutionSafety {
  import opened Common
  import opened Guard
  import opened Executions

  // ---- One statement ---------------------------------------------------------------------------

  function Rank(status: Status): int {
    match status
    case AwaitingApproval => 0
    case Pending => 1
    case Running => 2
    case _ => 3
  }

  /** What creation fixes for good. */
  predicate SameSnapshot(a: Row, b: Row) {
    && a.action == b.action && a.host == b.host
    && a.script == b.script && a.sha == b.sha && a.timeoutSec == b.timeoutSec
    && a.createdAt == b.createdAt && a.needsApproval == b.needsApproval && a.admission == b.admission
  }

  /** A row stays as it is, or moves forward and keeps its snapshot. */
  predicate Evolves(a: Row, b: Row) {
    b == a || (SameSnapshot(a, b) && Rank(a.status) < Rank(b.status))
  }

  lemma EvolvesOn(a: Row, b: Row, c: Row)
    requires Evolves(a, b) && Evolves(b, c)
    ensures Evolves(a, c)
  {
  }

  lemma ChangedEvolves(row: Row, k: nat, e: Event)
    ensures Evolves(row, Changed(row, k, e))
  {
  }

  /** Rows are never removed, never change their snapshot, and never leave a final status. */
  lemma NextEvolves(hash: Script -> Digest, s: State, e: Event, k: nat)
    requires k < |s.rows|
    ensures k < |Next(hash, s, e).rows| && Evolves(s.rows[k], Next(hash, s, e).rows[k])
  {
    UpdatedAt(s.rows, e, k);
    ChangedEvolves(s.rows[k], k, e);
  }

  /** Rows are only added, one at a time, by an insertion or for an action without a host to run on. */
  lemma OnlyCreationsAdd(hash: Script -> Digest, s: State, e: Event)
    ensures |s.rows| <= |Next(hash, s, e).rows| <= |s.rows| + 1
    ensures |Next(hash, s, e).rows| > |s.rows| ==> e.Insert? || (e.Ask? && e.target.None?)
  {
    UpdatedAt(s.rows, e, 0);
  }

  /** The same over whole runs. */
  lemma {:induction false} RunEvolves(hash: Script -> Digest, events: seq<Event>, n: nat, k: nat)
    requires n <= |events| && k < |Run(hash, events[..n]).rows|
    ensures k < |Run(hash, events).rows| && Evolves(Run(hash, events[..n]).rows[k], Run(hash, events).rows[k])
    decreases |events|
  {
    if n == |events| {
      assert events[..n] == events;
    } else {
      var front := events[..|events|-1];
      assert front[..n] == events[..n];
      RunEvolves(hash, front, n, k);
      NextEvolves(hash, Run(hash, front), events[|events|-1], k);
      EvolvesOn(Run(hash, events[..n]).rows[k], Run(hash, front).rows[k], Run(hash, events).rows[k]);
    }
  }

  lemma FinalStays(hash: Script -> Digest, events: seq<Event>, n: nat, k: nat)
    requires n <= |events| && k < |Run(hash, events[..n]).rows| && !Live(Run(hash, events[..n]).rows[k].status)
    ensures k < |Run(hash, events).rows| && Run(hash, events).rows[k] == Run(hash, events[..n]).rows[k]
  {
    RunEvolves(hash, events, n, k);
    FinalIsFixed(Run(hash, events[..n]).rows[k], Run(hash, events).rows[k]);
  }

  lemma FinalIsFixed(a: Row, b: Row)
    requires Evolves(a, b) && !Live(a.status)
    ensures b == a
  {
  }

  // ---- Calmer histories ------------------------------------------------------------------------

  /** The rows of a key that count: none live, none too young, not too many in the last hour. */
  ghost predicate Clear(rows: seq<Row>, action: ActionId, host: HostId, cooldownSec: int, maxRuns: int, now: int) {
    && (forall k :: 0 <= k < |rows| && rows[k].action == action && rows[k].host == Some(host)
                    && Counts(rows[k].status) ==>
          !Live(rows[k].status) && now - rows[k].createdAt >= cooldownSec * 1000)
    && KeyLoad(rows, action, host, now) < maxRuns
  }

  ghost predicate InHour(row: Row, action: ActionId, host: HostId, now: int) {
    row.action == action && row.host == Some(host) && Counts(row.status) && now - row.createdAt < HOUR_MS
  }

  /** Rows of a key that count and are less than an hour old. */
  ghost function KeyLoad(rows: seq<Row>, action: ActionId, host: HostId, now: int): nat {
    if rows == [] then 0
    else KeyLoad(rows[..|rows|-1], action, host, now) + if InHour(rows[|rows|-1], action, host, now) then 1 else 0
  }

  lemma {:induction false} HistoryLoad(rows: seq<Row>, action: ActionId, host: HostId, now: int)
    ensures HourLoad(History(rows, action, host), now) == KeyLoad(rows, action, host, now)
  {
    if rows != [] {
      var m := |rows| - 1;
      HistoryLoad(rows[..m], action, host, now);
      var front, e := History(rows[..m], action, host), Recent(rows[m].status, rows[m].createdAt);
      if OfKey(rows[m], action, host) {
        assert History(rows, action, host) == front + [e];
        HourLoadMore(front, e, now);
      } else {
        assert History(rows, action, host) == front;
      }
    }
  }

  lemma {:induction false} HistoryHas(rows: seq<Row>, action: ActionId, host: HostId, k: nat) returns (j: nat)
    requires k < |rows| && OfKey(rows[k], action, host)
    ensures j < |History(rows, action, host)|
              && History(rows, action, host)[j] == Recent(rows[k].status, rows[k].createdAt)
  {
    var m := |rows| - 1;
    if k < m { j := HistoryHas(rows[..m], action, host, k); } else { j := |History(rows[..m], action, host)|; }
  }

  /** The query reads the part of the history that matters. */
  lemma {:induction false} QueryIsBounded(rows: seq<Row>, action: Action, host: HostId, now: int)
    ensures Query(rows, action, host, now) == Bounded(History(rows, action.id, host), action.cooldownSec, now)
  {
    if rows != [] {
      var m := |rows| - 1;
      QueryIsBounded(rows[..m], action, host, now);
      var front, e := History(rows[..m], action.id, host), Recent(rows[m].status, rows[m].createdAt);
      if OfKey(rows[m], action.id, host) {
        assert History(rows, action.id, host) == front + [e];
        BoundedMore(front, e, action.cooldownSec, now);
      } else {
        assert History(rows, action.id, host) == front;
      }
    }
  }

  /** The verdict on the rows queried is the verdict on the full history of the action on the host. */
  lemma QueryIsEnough(rows: seq<Row>, action: Action, host: Host, sha: Digest, now: int)
    ensures GuardrailViolation(action, host, sha, Query(rows, action, host.id, now), now)
         == GuardrailViolation(action, host, sha, History(rows, action.id, host.id), now)
  {
    QueryIsBounded(rows, action, host.id, now);
    BoundedIsEnough(action, host, sha, History(rows, action.id, host.id), now);
  }

  lemma {:induction false} HistoryFrom(rows: seq<Row>, action: ActionId, host: HostId, j: nat) returns (k: nat)
    requires j < |History(rows, action, host)|
    ensures k < |rows| && rows[k].action == action && rows[k].host == Some(host)
    ensures History(rows, action, host)[j] == Recent(rows[k].status, rows[k].createdAt)
  {
    var m := |rows| - 1;
    if j < |History(rows[..m], action, host)| { k := HistoryFrom(rows[..m], action, host, j); } else { k := m; }
  }

  lemma ClearIsFree(rows: seq<Row>, action: ActionId, host: HostId, cooldownSec: int, maxRuns: int, now: int)
    ensures Free(History(rows, action, host), cooldownSec, maxRuns, now)
            <==> Clear(rows, action, host, cooldownSec, maxRuns, now)
  {
    var history := History(rows, action, host);
    HistoryLoad(rows, action, host, now);
    if Free(history, cooldownSec, maxRuns, now) {
      forall k | 0 <= k < |rows| && rows[k].action == action && rows[k].host == Some(host) && Counts(rows[k].status)
        ensures !Live(rows[k].status) && now - rows[k].createdAt >= cooldownSec * 1000
      {
        var j := HistoryHas(rows, action, host, k);
      }
    }
    if Clear(rows, action, host, cooldownSec, maxRuns, now) {
      forall j | 0 <= j < |history| && Counts(history[j].status)
        ensures !Live(history[j].status) && now - history[j].createdAt >= cooldownSec * 1000
      {
        var k := HistoryFrom(rows, action, host, j);
      }
    }
  }

  /** The query lets an execution through exactly when the policy does and the rows of the key are clear. */
  lemma NoViolationIsClear(rows: seq<Row>, action: Action, host: Host, sha: Digest, now: int)
    ensures GuardrailViolation(action, host, sha, Query(rows, action, host.id, now), now) == None <==>
              Accepts(action, host, sha)
              && Clear(rows, action.id, host.id, action.cooldownSec, action.maxRunsPerHour, now)
  {
    QueryIsEnough(rows, action, host, sha, now);
    GuardPasses(action, host, sha, History(rows, action.id, host.id), now);
    ClearIsFree(rows, action.id, host.id, action.cooldownSec, action.maxRunsPerHour, now);
  }

  /** `after` is `before` some statements later, without a counting row added for the key. */
  ghost predicate Calmer(before: seq<Row>, after: seq<Row>, action: ActionId, host: HostId) {
    && |before| <= |after|
    && (forall k :: 0 <= k < |before| ==> Evolves(before[k], after[k]))
    && (forall k :: |before| <= k < |after| ==> !(OfKey(after[k], action, host) && Counts(after[k].status)))
  }

  lemma {:induction false} CalmerLoad(before: seq<Row>, after: seq<Row>, n: nat, action: ActionId, host: HostId,
                                      now: int)
    requires n <= |before| <= |after| && forall k :: 0 <= k < n ==> Evolves(before[k], after[k])
    ensures KeyLoad(after[..n], action, host, now) <= KeyLoad(before[..n], action, host, now)
  {
    if n > 0 {
      CalmerLoad(before, after, n - 1, action, host, now);
      assert before[..n][..n-1] == before[..n-1] && after[..n][..n-1] == after[..n-1];
      assert Evolves(before[n-1], after[n-1]);
    }
  }

  lemma {:induction false} AddedLoad(rows: seq<Row>, n: nat, action: ActionId, host: HostId, now: int)
    requires n <= |rows| && forall k :: n <= k < |rows| ==> !(OfKey(rows[k], action, host) && Counts(rows[k].status))
    ensures KeyLoad(rows, action, host, now) == KeyLoad(rows[..n], action, host, now)
    decreases |rows|
  {
    if n < |rows| {
      var m := |rows| - 1;
      assert rows[..m][..n] == rows[..n];
      AddedLoad(rows[..m], n, action, host, now);
    } else {
      assert rows[..n] == rows;
    }
  }

  /** Statements of others never make an admission unsafe. */
  lemma CalmerIsClear(before: seq<Row>, after: seq<Row>, action: ActionId, host: HostId, cooldownSec: int,
                      maxRuns: int, now: int)
    requires Calmer(before, after, action, host) && Clear(before, action, host, cooldownSec, maxRuns, now)
    ensures Clear(after, action, host, cooldownSec, maxRuns, now)
  {
    CalmerLoad(before, after, |before|, action, host, now);
    assert before[..|before|] == before;
    AddedLoad(after, |before|, action, host, now);
    forall k | 0 <= k < |after| && OfKey(after[k], action, host) && Counts(after[k].status)
      ensures !Live(after[k].status) && now - after[k].createdAt >= cooldownSec * 1000
    {
      assert Evolves(before[k], after[k]);
    }
  }

  // ---- The lock --------------------------------------------------------------------------------

  ghost predicate SameKey(a: Request, b: Request) {
    a.action.id == b.action.id && a.host.id == b.host.id
  }

  /** At most one creation per action and host is past the lock. */
  ghost predicate Exclusive(requests: map<nat, Request>) {
    forall p, q :: (p in requests && q in requests && p != q && SameKey(requests[p], requests[q]))
                   ==> requests[p].phase == Waiting || requests[q].phase == Waiting
  }

  lemma NextIsExclusive(hash: Script -> Digest, s: State, e: Event)
    requires Exclusive(s.requests)
    ensures Exclusive(Requests(hash, s, e))
  {
  }

  lemma {:induction false} RunIsExclusive(hash: Script -> Digest, events: seq<Event>)
    ensures Exclusive(Run(hash, events).requests)
  {
    if events != [] {
      RunIsExclusive(hash, events[..|events|-1]);
      NextIsExclusive(hash, Run(hash, events[..|events|-1]), events[|events|-1]);
    }
  }

  /** Where an informed creation comes from. */
  lemma InformedOrigin(hash: Script -> Digest, s: State, e: Event, r: nat)
    requires r in Requests(hash, s, e) && Requests(hash, s, e)[r].phase.Informed?
    ensures r in s.requests
    ensures var before, after := s.requests[r], Requests(hash, s, e)[r];
            if e == Inquire(r) && before.phase == Holding
            then after == before.(phase := Informed(Query(s.rows, before.action, before.host.id, before.now)))
            else after == before
  {
  }

  /** An event that is no guarded update leaves the rows it found alone. */
  lemma {:induction false} NoUpdate(rows: seq<Row>, e: Event)
    requires e.Ask? || e.Lock? || e.Inquire? || e.Insert? || e.Abandon?
    ensures Updated(rows, e) == rows
  {
    if rows != [] { NoUpdate(rows[..|rows|-1], e); }
  }

  /** No event but its own insertion adds a counting row for a creation past the lock. */
  lemma NextIsCalmer(hash: Script -> Digest, s: State, e: Event, action: ActionId, host: HostId)
    requires e.Insert? && e.request in s.requests && s.requests[e.request].phase.Informed? ==>
               !(s.requests[e.request].action.id == action && s.requests[e.request].host.id == host)
    ensures Calmer(s.rows, Next(hash, s, e).rows, action, host)
  {
    var rows := Next(hash, s, e).rows;
    UpdatedAt(s.rows, e, 0);
    forall k | 0 <= k < |s.rows| ensures Evolves(s.rows[k], rows[k]) { NextEvolves(hash, s, e, k); }
  }

  /** An informed creation that the guard lets through is still safe now. */
  ghost predicate Ready(rows: seq<Row>, r: Request) {
    r.phase.Informed? && Verdict(r) == None ==>
      && Clear(rows, r.action.id, r.host.id, r.action.cooldownSec, r.action.maxRunsPerHour, r.now)
      && Accepts(r.action, r.host, r.sha)
  }

  lemma NextIsReady(hash: Script -> Digest, s: State, e: Event, r: nat)
    requires Exclusive(s.requests) && r in Requests(hash, s, e)
    requires r in s.requests ==> Ready(s.rows, s.requests[r])
    ensures Ready(Next(hash, s, e).rows, Requests(hash, s, e)[r])
  {
    var after := Requests(hash, s, e)[r];
    if after.phase.Informed? && Verdict(after) == None {
      InformedOrigin(hash, s, e, r);
      var before := s.requests[r];
      if e == Inquire(r) && before.phase == Holding {
        NoUpdate(s.rows, e);
        NoViolationIsClear(s.rows, before.action, before.host, before.sha, before.now);
        assert Next(hash, s, e).rows == s.rows;
      } else {
        if e.Insert? && e.request in s.requests && s.requests[e.request].phase.Informed? {
          assert e.request != r;
          assert !SameKey(s.requests[e.request], before);
        }
        NextIsCalmer(hash, s, e, before.action.id, before.host.id);
        CalmerIsClear(s.rows, Next(hash, s, e).rows, before.action.id, before.host.id,
                      before.action.cooldownSec, before.action.maxRunsPerHour, before.now);
      }
    }
  }

  lemma {:induction false} RunIsReady(hash: Script -> Digest, events: seq<Event>, r: nat)
    requires r in Run(hash, events).requests
    ensures Ready(Run(hash, events).rows, Run(hash, events).requests[r])
  {
    var front := events[..|events|-1];
    var s := Run(hash, front);
    RunIsExclusive(hash, front);
    if r in s.requests { RunIsReady(hash, front, r); }
    NextIsReady(hash, s, events[|events|-1], r);
  }

  // ---- Admissions ------------------------------------------------------------------------------

  /** A row that counts was admitted against a history that is still clear of it. */
  ghost predicate Admitted(rows: seq<Row>, j: nat)
    requires j < |rows|
  {
    var row := rows[j];
    Counts(row.status) ==>
      && row.admission.Some? && row.host == Some(row.admission.value.host.id)
      && row.action == row.admission.value.action.id
      && Clear(rows[..j], row.action, row.host.value, row.admission.value.action.cooldownSec,
               row.admission.value.action.maxRunsPerHour, row.createdAt)
  }

  lemma PrefixIsCalmer(rows: seq<Row>, e: Event, extra: seq<Row>, j: nat, action: ActionId, host: HostId)
    requires j <= |rows|
    ensures |Updated(rows, e)| == |rows| && Calmer(rows[..j], (Updated(rows, e) + extra)[..j], action, host)
  {
    var after := Updated(rows, e);
    UpdatedAt(rows, e, 0);
    forall k | 0 <= k < j ensures Evolves(rows[..j][k], (after + extra)[..j][k]) {
      UpdatedAt(rows, e, k);
      ChangedEvolves(rows[k], k, e);
    }
  }

  lemma StaysAdmitted(hash: Script -> Digest, s: State, e: Event, j: nat)
    requires j < |s.rows| && Admitted(s.rows, j)
    ensures j < |Next(hash, s, e).rows| && Admitted(Next(hash, s, e).rows, j)
  {
    var row, rows' := s.rows[j], Next(hash, s, e).rows;
    NextEvolves(hash, s, e, j);
    if Counts(rows'[j].status) {
      assert SameSnapshot(row, rows'[j]) && Counts(row.status);
      var terms := row.admission.value.action;
      PrefixIsCalmer(s.rows, e, Added(hash, s, e), j, row.action, row.host.value);
      CalmerIsClear(s.rows[..j], rows'[..j], row.action, row.host.value, terms.cooldownSec, terms.maxRunsPerHour,
                    row.createdAt);
    }
  }

  lemma NewIsAdmitted(hash: Script -> Digest, s: State, e: Event)
    requires forall r :: r in s.requests ==> Ready(s.rows, s.requests[r])
    requires Added(hash, s, e) != []
    ensures |s.rows| < |Next(hash, s, e).rows| && Admitted(Next(hash, s, e).rows, |s.rows|)
  {
    NoUpdate(s.rows, e);
    assert Next(hash, s, e).rows[..|s.rows|] == s.rows;
    if e.Insert? { assert Ready(s.rows, s.requests[e.request]); }
  }

  lemma {:induction false} RunIsAdmitted(hash: Script -> Digest, events: seq<Event>, j: nat)
    requires j < |Run(hash, events).rows|
    ensures Admitted(Run(hash, events).rows, j)
  {
    var front, e := events[..|events|-1], events[|events|-1];
    var s := Run(hash, front);
    if j < |s.rows| {
      RunIsAdmitted(hash, front, j);
      StaysAdmitted(hash, s, e, j);
    } else {
      RunAdmitsNew(hash, front, e, j);
    }
  }

  lemma RunAdmitsNew(hash: Script -> Digest, front: seq<Event>, e: Event, j: nat)
    requires |Run(hash, front).rows| <= j < |Next(hash, Run(hash, front), e).rows|
    ensures Admitted(Next(hash, Run(hash, front), e).rows, j)
  {
    var s := Run(hash, front);
    forall r | r in s.requests ensures Ready(s.rows, s.requests[r]) { RunIsReady(hash, front, r); }
    UpdatedAt(s.rows, e, 0);
    NewIsAdmitted(hash, s, e);
  }

  // ---- The limits ------------------------------------------------------------------------------

  predicate SameTarget(a: Row, b: Row) {
    a.action == b.action && a.host == b.host
  }

  /** At most one execution of an action on a host is live. */
  lemma OneLive(hash: Script -> Digest, events: seq<Event>, i: nat, j: nat)
    requires i < j < |Run(hash, events).rows|
    requires var rows := Run(hash, events).rows; SameTarget(rows[i], rows[j]) && Live(rows[i].status)
    ensures !Live(Run(hash, events).rows[j].status)
  {
    RunIsAdmitted(hash, events, j);
    var rows := Run(hash, events).rows;
    assert rows[..j][i] == rows[i];
  }

  /** Executions that count come in order, at least the later one's cooldown apart. */
  lemma Spaced(hash: Script -> Digest, events: seq<Event>, i: nat, j: nat)
    requires i < j < |Run(hash, events).rows|
    requires var rows := Run(hash, events).rows;
             SameTarget(rows[i], rows[j]) && Counts(rows[i].status) && Counts(rows[j].status)
    ensures var rows := Run(hash, events).rows;
            && rows[j].admission.Some?
            && rows[j].createdAt - rows[i].createdAt >= rows[j].admission.value.action.cooldownSec * 1000
  {
    RunIsAdmitted(hash, events, j);
    var rows := Run(hash, events).rows;
    assert rows[..j][i] == rows[i];
  }

  ghost predicate InWindow(row: Row, action: ActionId, host: HostId, from: int) {
    row.action == action && row.host == Some(host) && Counts(row.status) && from <= row.createdAt < from + HOUR_MS
  }

  /** The executions that count, created in the half-open hour starting at `from`. */
  ghost function WindowLoad(rows: seq<Row>, action: ActionId, host: HostId, from: int): nat {
    if rows == [] then 0
    else
      WindowLoad(rows[..|rows|-1], action, host, from)
      + if InWindow(rows[|rows|-1], action, host, from) then 1 else 0
  }

  /** Everything in the window of a row lies within an hour of it. */
  lemma {:induction false} WindowWithinHour(rows: seq<Row>, action: ActionId, host: HostId, from: int, now: int)
    requires from <= now < from + HOUR_MS
    ensures WindowLoad(rows, action, host, from) <= KeyLoad(rows, action, host, now)
  {
    if rows != [] { WindowWithinHour(rows[..|rows|-1], action, host, from, now); }
  }

  lemma {:induction false} WindowIsCapped(rows: seq<Row>, action: ActionId, host: HostId, from: int, cap: nat)
    requires forall j :: 0 <= j < |rows| ==> Admitted(rows, j)
    requires forall j :: 0 <= j < |rows| && OfKey(rows[j], action, host) && rows[j].admission.Some? ==>
               rows[j].admission.value.action.maxRunsPerHour <= cap
    ensures WindowLoad(rows, action, host, from) <= cap
  {
    if rows != [] {
      var m := |rows| - 1;
      if InWindow(rows[m], action, host, from) {
        assert Admitted(rows, m);
        WindowWithinHour(rows[..m], action, host, from, rows[m].createdAt);
      } else {
        forall j | 0 <= j < m ensures Admitted(rows[..m], j) {
          assert Admitted(rows, j) && rows[..m][..j] == rows[..j];
        }
        WindowIsCapped(rows[..m], action, host, from, cap);
      }
    }
  }

  /** Any half-open hour holds at most as many counting executions as the largest cap they were admitted under. */
  lemma HourlyCap(hash: Script -> Digest, events: seq<Event>, action: ActionId, host: HostId, from: int, cap: nat)
    requires forall row :: row in Run(hash, events).rows && OfKey(row, action, host) && row.admission.Some? ==>
               row.admission.value.action.maxRunsPerHour <= cap
    ensures WindowLoad(Run(hash, events).rows, action, host, from) <= cap
  {
    var rows := Run(hash, events).rows;
    forall j | 0 <= j < |rows| ensures Admitted(rows, j) { RunIsAdmitted(hash, events, j); }
    forall j | 0 <= j < |rows| && OfKey(rows[j], action, host) && rows[j].admission.Some?
      ensures rows[j].admission.value.action.maxRunsPerHour <= cap
    {
      assert rows[j] in rows;
    }
    WindowIsCapped(rows, action, host, from, cap);
  }
}
