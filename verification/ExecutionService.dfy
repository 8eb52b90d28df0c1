/**
  The operations of the remediation service as callers run them: several statements each, with whatever
  other processes do in between given by the lists of events they take. Their contracts are about the
  run so far (`trace`), so every theorem on runs applies to what they leave behind.
  */
module ExecutionService {
  import opened Common
  import opened Sequences
  import opened Guard
  import opened Executions
  import opened ExecutionSafety
  import opened Handovers

  /** What a creation comes to. A waiting one has been given up, without a row. */
  datatype Creation = Created(id: nat) | NoSuchAction | StillWaiting

  datatype Outcome = Ok(status: Status, reason: Option<Reason>) | NotFound | InvalidStatus

  /** The pending row of `host` created first; the lower number wins ties. */
  predicate IsOldestPending(rows: seq<Row>, host: HostId, id: nat) {
    && id < |rows| && rows[id].status == Pending && rows[id].host == Some(host)
    && forall k :: 0 <= k < |rows| && rows[k].status == Pending && rows[k].host == Some(host) ==>
         rows[id].createdAt <= rows[k].createdAt
  }

  predicate NothingPending(rows: seq<Row>, host: HostId) {
    forall k :: 0 <= k < |rows| ==> !(rows[k].status == Pending && rows[k].host == Some(host))
  }

  /** The event is not part of creation `request`. */
  predicate Foreign(e: Event, request: nat) {
    (e.Ask? || e.Lock? || e.Inquire? || e.Insert? || e.Abandon?) ==> e.request != request
  }

  /**
    A claim that began after `before`, found its row, and won it after others did `between`: the row was
    the oldest pending one when read, it is running now, and `h` is what the history says was handed out.
    */
  ghost predicate Won(hash: Script -> Digest, before: seq<Event>, between: seq<Event>, host: HostId, now: int,
                      h: Handover)
  {
    && IsOldestPending(Run(hash, before).rows, host, h.id)
    && var s, s' := Run(hash, before + between), Run(hash, before + between + [Collect(h.id, host, now)]);
       && h.host == host && s'.handed == s.handed + [h]
       && h.id < |s.rows| && s.rows[h.id].status == Pending
       && h.id < |s'.rows| && s'.rows[h.id] == s.rows[h.id].(status := Running, startedAt := Some(now))
  }

  function HandoverOf(id: nat, host: HostId, row: Row): Handover {
    Handover(id, host, row.script, row.sha, row.timeoutSec)
  }

  /** The row read before the update is good enough: its snapshot never changes. */
  lemma StaleReadIsFine(hash: Script -> Digest, before: seq<Event>, between: seq<Event>, host: HostId, now: int,
                        id: nat)
    requires IsOldestPending(Run(hash, before).rows, host, id)
    ensures id < |Run(hash, before + between).rows|
    ensures Run(hash, before + between).rows[id].status == Pending ==>
              Won(hash, before, between, host, now, HandoverOf(id, host, Run(hash, before).rows[id]))
  {
    var all := before + between;
    assert all[..|before|] == before;
    RunEvolves(hash, all, |before|, id);
    RunMore(hash, all, Collect(id, host, now));
    UpdatedAt(Run(hash, all).rows, Collect(id, host, now), id);
  }

  ghost predicate AllForeign(events: seq<Event>, request: nat) {
    forall k :: 0 <= k < |events| ==> Foreign(events[k], request)
  }

  /** A creation in flight is left alone by the events of others. */
  ghost predicate InFlight(s: State, request: nat, r: Request) {
    request in s.requests && s.requests[request] == r
  }

  lemma ForeignKeeps(hash: Script -> Digest, s: State, e: Event, request: nat, r: Request)
    requires Foreign(e, request) && InFlight(s, request, r)
    ensures InFlight(Next(hash, s, e), request, r)
  {
  }

  lemma {:induction false} OthersKeep(hash: Script -> Digest, before: seq<Event>, events: seq<Event>, request: nat,
                                      r: Request)
    requires AllForeign(events, request) && InFlight(Run(hash, before), request, r)
    ensures InFlight(Run(hash, before + events), request, r)
  {
    if events == [] {
      assert before + events == before;
    } else {
      var m := |events| - 1;
      OthersKeep(hash, before, events[..m], request, r);
      SliceMore(before, events, m);
      assert events[..m+1] == events;
      RunMore(hash, before + events[..m], events[m]);
      ForeignKeeps(hash, Run(hash, before + events[..m]), events[m], request, r);
    }
  }

  /**
    The row of a creation told the history at the end of `informed`: let through exactly when the policy
    accepts and the rows of the action on the host are clear, and waiting for a person only when it needs one.
    */
  ghost function RowDecided(hash: Script -> Digest, informed: seq<Event>, action: Action, host: Host,
                            needsApproval: bool, now: int): Row
  {
    var rows := Run(hash, informed).rows;
    var sha := hash(action.script);
    var through := Accepts(action, host, sha)
                   && Clear(rows, action.id, host.id, action.cooldownSec, action.maxRunsPerHour, now);
    Row(action.id, Some(host.id), action.script, sha, action.timeoutSec, now, needsApproval,
        Some(Decision(action, host)),
        if !through then Skipped else if needsApproval then AwaitingApproval else Pending,
        GuardrailViolation(action, host, sha, History(rows, action.id, host.id), now), None,
        if through then None else Some(now), None)
  }

  ghost function RowWithoutHost(action: Action, sha: Digest, needsApproval: bool, now: int): Row {
    Row(action.id, None, action.script, sha, action.timeoutSec, now, needsApproval, None, Skipped, Some(NoTargetHost),
        None, Some(now), None)
  }

  /** A creation once told the history. */
  ghost function Told(hash: Script -> Digest, informed: seq<Event>, r: Request): Request {
    r.(phase := Informed(Query(Run(hash, informed).rows, r.action, r.host.id, r.now)))
  }

  lemma InquireTells(hash: Script -> Digest, s: State, request: nat, r: Request)
    requires InFlight(s, request, r) && r.phase == Holding
    ensures InFlight(Next(hash, s, Inquire(request)), request,
                     r.(phase := Informed(Query(s.rows, r.action, r.host.id, r.now))))
  {
  }

  lemma InsertAdds(hash: Script -> Digest, informed: seq<Event>, s: State, request: nat, r: Request)
    requires InFlight(s, request, Told(hash, informed, r)) && r.sha == hash(r.action.script)
    ensures Next(hash, s, Insert(request)).rows
         == s.rows + [RowDecided(hash, informed, r.action, r.host, r.needsApproval, r.now)]
  {
    NoUpdate(s.rows, Insert(request));
    QueryIsEnough(Run(hash, informed).rows, r.action, r.host, r.sha, r.now);
    NoViolationIsClear(Run(hash, informed).rows, r.action, r.host, r.sha, r.now);
  }

  /** The row read was the oldest pending one, and it was no longer pending at the update. */
  ghost predicate Missed(hash: Script -> Digest, before: seq<Event>, between: seq<Event>, host: HostId, id: nat) {
    && IsOldestPending(Run(hash, before).rows, host, id)
    && id < |Run(hash, before + between).rows| && Run(hash, before + between).rows[id].status != Pending
  }

  /** The run after the attempts that lost the rows `missed`. */
  ghost function AfterTries(before: seq<Event>, others: seq<seq<Event>>, missed: seq<nat>, host: HostId, now: int)
    : seq<Event>
    requires |missed| <= |others|
  {
    if missed == [] then before
    else
      var m := |missed| - 1;
      AfterTries(before, others, missed[..m], host, now) + others[m] + [Collect(missed[m], host, now)]
  }

  ghost predicate AllMissed(hash: Script -> Digest, before: seq<Event>, others: seq<seq<Event>>, missed: seq<nat>,
                            host: HostId, now: int)
    requires |missed| <= |others|
  {
    missed == [] ||
    var m := |missed| - 1;
    && AllMissed(hash, before, others, missed[..m], host, now)
    && Missed(hash, AfterTries(before, others, missed[..m], host, now), others[m], host, missed[m])
  }

  lemma OneMoreMissed(hash: Script -> Digest, before: seq<Event>, others: seq<seq<Event>>, missed: seq<nat>, id: nat,
                      host: HostId, now: int)
    requires |missed| < |others| && AllMissed(hash, before, others, missed, host, now)
    requires Missed(hash, AfterTries(before, others, missed, host, now), others[|missed|], host, id)
    ensures AllMissed(hash, before, others, missed + [id], host, now)
    ensures AfterTries(before, others, missed + [id], host, now)
         == AfterTries(before, others, missed, host, now) + others[|missed|] + [Collect(id, host, now)]
  {
    assert (missed + [id])[..|missed|] == missed;
  }

  /** The run after others have taken their first `k` turns. */
  ghost function AfterTurns(before: seq<Event>, turns: seq<seq<Event>>, k: nat): seq<Event>
    requires k <= |turns|
  {
    if k == 0 then before else AfterTurns(before, turns, k - 1) + turns[k-1]
  }

  /** Somebody holds the lock the creation needs. */
  ghost predicate Busy(hash: Script -> Digest, trace: seq<Event>, r: Request) {
    Locked(Run(hash, trace).requests, r.action.id, r.host.id)
  }

  /** Somebody held the lock at each of the first `n` turns. */
  ghost predicate BusyThrough(hash: Script -> Digest, before: seq<Event>, turns: seq<seq<Event>>, n: nat, r: Request)
    requires n <= |turns|
  {
    forall k :: 0 <= k < n ==> Busy(hash, AfterTurns(before, turns, k), r)
  }

  /** `trace` is the run after `n` turns, at each of which somebody held the lock. */
  ghost predicate Waited(hash: Script -> Digest, before: seq<Event>, turns: seq<seq<Event>>, n: nat, r: Request,
                         trace: seq<Event>)
  {
    n <= |turns| && trace == AfterTurns(before, turns, n) && BusyThrough(hash, before, turns, n, r)
  }

  lemma WaitedMore(hash: Script -> Digest, before: seq<Event>, turns: seq<seq<Event>>, n: nat, r: Request,
                   trace: seq<Event>)
    requires n < |turns| && Waited(hash, before, turns, n, r, trace) && Busy(hash, trace, r)
    ensures Waited(hash, before, turns, n + 1, r, trace + turns[n])
  {
  }

  function RequestOf(hash: Script -> Digest, action: Action, host: Host, needsApproval: bool, now: int): Request {
    Request(action, host, hash(action.script), needsApproval, now, Waiting)
  }

  /** The rows others left, and after them the one decided on the history known at the end of `informed`. */
  ghost predicate InsertedAfter(hash: Script -> Digest, informed: seq<Event>, request: nat, r: Request,
                                beforeInsert: seq<Event>, rows: seq<Row>, id: nat)
  {
    && rows == Run(hash, informed + [Inquire(request)] + beforeInsert).rows
               + [RowDecided(hash, informed, r.action, r.host, r.needsApproval, r.now)]
    && id + 1 == |rows| && Admitted(rows, id)
  }

  /** Queued when the policy lets the script in now, and otherwise skipped, finished and given a reason. */
  ghost predicate ApprovedAs(row: Row, left: Row, decision: Option<Decision>, now: int) {
    if LetsIn(row, decision) then left == row.(status := Pending, reason := None, approval := decision)
    else
      && left.reason.Some? && (decision.None? ==> left.reason == Some(NoTargetHost))
      && left == row.(status := Skipped, reason := left.reason, approval := decision, finishedAt := Some(now))
  }

  /** What an approval does, on the row as it is at the update, with the verdict on the row as it was read. */
  lemma ApprovalIs(hash: Script -> Digest, before: seq<Event>, between: seq<Event>, id: nat, decision: Option<Decision>,
                   now: int)
    requires id < |Run(hash, before).rows| && Run(hash, before).rows[id].status == AwaitingApproval
    requires About(Run(hash, before).rows[id], decision)
    ensures var row, rows := Run(hash, before).rows[id], Run(hash, before + between).rows;
            var after := Run(hash, before + between + [Approve(id, decision, now)]).rows;
            var violation := ApprovalVerdict(row, decision, now);
            && id < |rows| && id < |after|
            && (rows[id].status != AwaitingApproval ==> after == rows)
            && (rows[id].status == AwaitingApproval ==>
                  && ApprovedAs(rows[id], after[id], decision, now)
                  && after[id].status == (if violation.Some? then Skipped else Pending)
                  && after[id].reason == violation)
  {
    var rows := Run(hash, before + between).rows;
    RowMeanwhile(hash, before, between, id);
    RunMore(hash, before + between, Approve(id, decision, now));
    UpdatedAt(rows, Approve(id, decision, now), id);
    ApprovalAsksPolicy(rows[id], decision, now);
    if rows[id].status != AwaitingApproval { SameRows(rows, Approve(id, decision, now)); }
  }

  class Database {
    const hash: Script -> Digest
    var state: State
    ghost var trace: seq<Event>

    ghost predicate Valid()
      reads this
    {
      state == Run(hash, trace)
    }

    constructor (hash: Script -> Digest)
      ensures Valid() && this.hash == hash && trace == []
    {
      this.hash := hash;
      state := State([], map[], [], []);
      trace := [];
    }

    /** One statement. */
    method Execute(e: Event)
      requires Valid()
      modifies this
      ensures Valid() && trace == old(trace) + [e] && state == Next(hash, old(state), e)
    {
      RunMore(hash, trace, e);
      state := Next(hash, state, e);
      trace := trace + [e];
    }

    /** What other processes do in the meantime. */
    method Elsewhere(events: seq<Event>)
      requires Valid()
      modifies this
      ensures Valid() && trace == old(trace) + events
    {
      for i := 0 to |events|
        invariant Valid() && trace == old(trace) + events[..i]
      {
        SliceMore(old(trace), events, i);
        Execute(events[i]);
      }
      assert events[..|events|] == events;
    }

    method FindOldestPending(host: HostId) returns (id: Option<nat>)
      ensures id.Some? ==> IsOldestPending(state.rows, host, id.value)
      ensures id.None? ==> NothingPending(state.rows, host)
    {
      var rows := state.rows;
      id := None;
      for k := 0 to |rows|
        invariant id.Some? ==> IsOldestPending(rows[..k], host, id.value)
        invariant id.None? ==> NothingPending(rows[..k], host)
      {
        if rows[k].status == Pending && rows[k].host == Some(host)
           && (id.None? || rows[k].createdAt < rows[id.value].createdAt)
        {
          id := Some(k);
        }
      }
      assert rows[..|rows|] == rows;
    }

    /** One attempt: read, let others act, compare and set. */
    method TryClaim(host: HostId, now: int, between: seq<Event>)
      returns (found: bool, handed: Option<Handover>, ghost id: nat)
      requires Valid()
      modifies this
      ensures Valid()
      ensures !found ==> handed.None? && trace == old(trace) && NothingPending(state.rows, host)
      ensures found ==> trace == old(trace) + between + [Collect(id, host, now)]
      ensures handed.Some? ==> found && handed.value.id == id && Won(hash, old(trace), between, host, now, handed.value)
      ensures found && handed.None? ==> Missed(hash, old(trace), between, host, id)
    {
      id := 0;
      var next := FindOldestPending(host);
      if next.None? { return false, None, id; }
      id := next.value;
      var row := state.rows[next.value];
      StaleReadIsFine(hash, trace, between, host, now, next.value);
      Elsewhere(between);
      var won := state.rows[next.value].status == Pending;
      Execute(Collect(next.value, host, now));
      return true, if won then Some(HandoverOf(next.value, host, row)) else None, id;
    }

    /**
      Hand the oldest pending execution of a host to its agent. Each attempt reads the oldest pending row
      and loses it when others take or cancel it before the update: `missed` are the rows lost. Three losses
      end the call, and so does a read that finds nothing; otherwise what is returned is what the history
      records as handed out, although it was read before the update.
      */
    method ClaimNextExecution(host: HostId, now: int, others: seq<seq<Event>>)
      returns (handed: Option<Handover>, ghost missed: seq<nat>)
      requires Valid() && |others| == 3
      modifies this
      ensures Valid() && |missed| <= 3 && AllMissed(hash, old(trace), others, missed, host, now)
      ensures var at := AfterTries(old(trace), others, missed, host, now);
              if handed.Some? then
                && |missed| < 3 && Won(hash, at, others[|missed|], host, now, handed.value)
                && trace == at + others[|missed|] + [Collect(handed.value.id, host, now)]
              else
                trace == at && (|missed| == 3 || NothingPending(Run(hash, at).rows, host))
    {
      handed, missed := None, [];
      for attempt := 0 to 3
        invariant Valid() && handed.None? && |missed| == attempt
        invariant AllMissed(hash, old(trace), others, missed, host, now)
        invariant trace == AfterTries(old(trace), others, missed, host, now)
      {
        var found;
        ghost var id;
        found, handed, id := TryClaim(host, now, others[attempt]);
        if !found || handed.Some? { return; }
        OneMoreMissed(hash, old(trace), others, missed, id, host, now);
        missed := missed + [id];
      }
    }

    /**
      Wait for the lock of a creation while others act. It is taken at the first turn at which nobody
      holds it; when the turns run out it was held at every one of them.
      */
    method AwaitLock(request: nat, ghost r: Request, turns: seq<seq<Event>>)
      returns (locked: bool, ghost turn: nat, ghost waited: seq<Event>)
      requires Valid() && InFlight(state, request, r) && r.phase == Waiting
      requires forall k :: 0 <= k < |turns| ==> AllForeign(turns[k], request)
      modifies this
      ensures Valid() && InFlight(state, request, if locked then r.(phase := Holding) else r)
      ensures Waited(hash, old(trace), turns, turn, r, waited) && (locked <==> turn < |turns|)
      ensures trace == if locked then waited + [Lock(request)] else waited
      ensures locked ==> !Busy(hash, waited, r)
    {
      turn, locked := 0, false;
      var k := 0;
      while k < |turns|
        invariant k <= |turns| && turn == k && !locked
        invariant Valid() && Waited(hash, old(trace), turns, k, r, trace) && InFlight(state, request, r)
      {
        waited := trace;
        locked := TryLock(request, r);
        if locked { return; }
        WaitedMore(hash, old(trace), turns, k, r, trace);
        Meanwhile(request, r, turns[k]);
        k, turn := k + 1, turn + 1;
      }
      waited := trace;
    }

    /** Take the lock if nobody holds it. */
    method TryLock(request: nat, ghost r: Request) returns (locked: bool)
      requires Valid() && InFlight(state, request, r) && r.phase == Waiting
      modifies this
      ensures Valid() && (locked <==> !Busy(hash, old(trace), r))
      ensures trace == if locked then old(trace) + [Lock(request)] else old(trace)
      ensures InFlight(state, request, if locked then r.(phase := Holding) else r)
    {
      var mine := state.requests[request];
      locked := !Locked(state.requests, mine.action.id, mine.host.id);
      if locked { Execute(Lock(request)); }
    }

    /** Others act; the creation in flight stays as it is. */
    method Meanwhile(ghost request: nat, ghost r: Request, events: seq<Event>)
      requires Valid() && InFlight(state, request, r) && AllForeign(events, request)
      modifies this
      ensures Valid() && InFlight(state, request, r) && trace == old(trace) + events
    {
      OthersKeep(hash, trace, events, request, r);
      Elsewhere(events);
    }

    /** Give up a creation: no row is touched. */
    method GiveUp(request: nat)
      requires Valid()
      modifies this
      ensures Valid() && state.rows == old(state.rows) && request !in state.requests
    {
      NoUpdate(state.rows, Abandon(request));
      Execute(Abandon(request));
    }

    /**
      Create an execution: read the versions, take the lock, ask for the history, insert. A row is inserted
      unless the action does not exist or the lock was held at every turn. Its verdict is the guard's on the
      full history of the action on the host at the moment of the query, and a row let through is still clear
      of every other run when it is inserted.
      */
    method CreateExecution(request: nat, action: Option<Action>, target: Option<Host>, needsApproval: bool, now: int,
                           turns: seq<seq<Event>>, beforeQuery: seq<Event>, beforeInsert: seq<Event>)
      returns (made: Creation, ghost turn: nat, ghost waited: seq<Event>, ghost informed: seq<Event>)
      requires Valid() && request !in state.requests
      requires forall k :: 0 <= k < |turns| ==> AllForeign(turns[k], request)
      requires AllForeign(beforeQuery, request) && AllForeign(beforeInsert, request)
      modifies this
      ensures Valid() && request !in state.requests
      ensures (made.NoSuchAction? <==> action.None?) && (action.None? ==> trace == old(trace))
      ensures action.Some? && target.None? ==>
                && made == Created(|old(state.rows)|)
                && state.rows == old(state.rows)
                                 + [RowWithoutHost(action.value, hash(action.value.script), needsApproval, now)]
      ensures action.Some? && target.Some? ==>
                var r := RequestOf(hash, action.value, target.value, needsApproval, now);
                var asked := old(trace) + [Ask(request, action.value, target, needsApproval, now)];
                && Run(hash, asked).rows == old(state.rows)
                && Waited(hash, asked, turns, turn, r, waited) && (made.StillWaiting? <==> turn == |turns|)
                && (made.StillWaiting? ==> state.rows == Run(hash, waited).rows)
                && (made.Created? ==>
                      && !Busy(hash, waited, r) && informed == waited + [Lock(request)] + beforeQuery
                      && InsertedAfter(hash, informed, request, r, beforeInsert, state.rows, made.id))
    {
      turn, waited, informed := 0, trace, trace;
      if action.None? {
        made := NoSuchAction;
        return;
      }
      var ask := Ask(request, action.value, target, needsApproval, now);
      NoUpdate(state.rows, ask);
      Execute(ask);
      if target.None? {
        made := Created(|state.rows| - 1);
        return;
      }
      ghost var r := RequestOf(hash, action.value, target.value, needsApproval, now);
      made, turn, waited, informed := Queue(request, r, turns, beforeQuery, beforeInsert);
    }

    /** The part of a creation done for a host that exists. */
    method Queue(request: nat, ghost r: Request, turns: seq<seq<Event>>, beforeQuery: seq<Event>,
                 beforeInsert: seq<Event>)
      returns (made: Creation, ghost turn: nat, ghost waited: seq<Event>, ghost informed: seq<Event>)
      requires Valid() && InFlight(state, request, r) && r.phase == Waiting && r.sha == hash(r.action.script)
      requires forall k :: 0 <= k < |turns| ==> AllForeign(turns[k], request)
      requires AllForeign(beforeQuery, request) && AllForeign(beforeInsert, request)
      modifies this
      ensures Valid() && !made.NoSuchAction? && request !in state.requests
      ensures Waited(hash, old(trace), turns, turn, r, waited) && (made.StillWaiting? <==> turn == |turns|)
      ensures made.StillWaiting? ==> state.rows == Run(hash, waited).rows
      ensures made.Created? ==>
                && !Busy(hash, waited, r) && informed == waited + [Lock(request)] + beforeQuery
                && InsertedAfter(hash, informed, request, r, beforeInsert, state.rows, made.id)
    {
      informed := trace;
      var locked;
      locked, turn, waited := AwaitLock(request, r, turns);
      if !locked {
        GiveUp(request);
        made := StillWaiting;
        return;
      }
      informed := Decide(request, r.(phase := Holding), beforeQuery, beforeInsert);
      RunIsAdmitted(hash, trace, |state.rows| - 1);
      made := Created(|state.rows| - 1);
    }

    /** Past the lock: ask for the history, then insert what the guard says. */
    method Decide(request: nat, ghost r: Request, beforeQuery: seq<Event>, beforeInsert: seq<Event>)
      returns (ghost informed: seq<Event>)
      requires Valid() && InFlight(state, request, r) && r.phase == Holding && r.sha == hash(r.action.script)
      requires AllForeign(beforeQuery, request) && AllForeign(beforeInsert, request)
      modifies this
      ensures Valid() && informed == old(trace) + beforeQuery && request !in state.requests
      ensures state.rows == Run(hash, informed + [Inquire(request)] + beforeInsert).rows
                            + [RowDecided(hash, informed, r.action, r.host, r.needsApproval, r.now)]
    {
      Meanwhile(request, r, beforeQuery);
      informed := AskHistory(request, r);
      InsertVerdict(request, r, informed, beforeInsert);
    }

    method InsertVerdict(request: nat, ghost r: Request, ghost informed: seq<Event>, beforeInsert: seq<Event>)
      requires Valid() && InFlight(state, request, Told(hash, informed, r)) && r.sha == hash(r.action.script)
      requires AllForeign(beforeInsert, request)
      modifies this
      ensures Valid() && request !in state.requests
      ensures state.rows == Run(hash, old(trace) + beforeInsert).rows
                            + [RowDecided(hash, informed, r.action, r.host, r.needsApproval, r.now)]
    {
      Meanwhile(request, Told(hash, informed, r), beforeInsert);
      InsertAdds(hash, informed, state, request, r);
      Execute(Insert(request));
    }

    method AskHistory(request: nat, ghost r: Request) returns (ghost informed: seq<Event>)
      requires Valid() && InFlight(state, request, r) && r.phase == Holding
      modifies this
      ensures Valid() && informed == old(trace) && trace == informed + [Inquire(request)]
      ensures InFlight(state, request, Told(hash, informed, r))
    {
      informed := trace;
      InquireTells(hash, state, request, r);
      Execute(Inquire(request));
    }

    /** Approve: read the row and what it refers to, ask the guard again, compare and set. */
    method ApproveExecution(id: nat, decision: Option<Decision>, now: int, between: seq<Event>) returns (r: Outcome)
      requires Valid() && (id < |state.rows| ==> About(state.rows[id], decision))
      modifies this
      ensures Valid() && old(trace) <= trace
      ensures r.NotFound? <==> id >= |old(state.rows)|
      ensures r.InvalidStatus? ==>
                id < |state.rows| && state.rows[id].status != AwaitingApproval
                && (trace == old(trace) || state.rows == Run(hash, old(trace) + between).rows)
      ensures r.Ok? ==>
                && trace == old(trace) + between + [Approve(id, decision, now)] && id < |state.rows|
                && id < |Run(hash, old(trace) + between).rows|
                && Run(hash, old(trace) + between).rows[id].status == AwaitingApproval
                && r == Outcome.Ok(state.rows[id].status, state.rows[id].reason)
                && ApprovedAs(Run(hash, old(trace) + between).rows[id], state.rows[id], decision, now)
    {
      if id >= |state.rows| { return NotFound; }
      var row := state.rows[id];
      if row.status != AwaitingApproval { return InvalidStatus; }
      var violation := ApprovalVerdict(row, decision, now);
      ApprovalIs(hash, trace, between, id, decision, now);
      Elsewhere(between);
      var count := if state.rows[id].status == AwaitingApproval then 1 else 0;
      Execute(Approve(id, decision, now));
      if count != 1 { return InvalidStatus; }
      return Outcome.Ok(if violation.Some? then Skipped else Pending, violation);
    }

    method CancelExecution(id: nat, now: int) returns (r: Outcome)
      requires Valid()
      modifies this
      ensures Valid() && trace == old(trace) + [Cancel(id, now)]
      ensures r.NotFound? <==> id >= |state.rows|
      ensures r.InvalidStatus? ==>
                id < |state.rows| && state.rows == old(state.rows)
                && state.rows[id].status !in {AwaitingApproval, Pending}
      ensures r.Ok? ==>
                id < |old(state.rows)| <= |state.rows| && old(state.rows)[id].status in {AwaitingApproval, Pending}
                && state.rows[id]
                   == old(state.rows)[id].(status := Cancelled, reason := Some(ByHand), finishedAt := Some(now))
    {
      var count := if id < |state.rows| && state.rows[id].status in {AwaitingApproval, Pending} then 1 else 0;
      UpdatedAt(state.rows, Cancel(id, now), id);
      if count != 1 { SameRows(state.rows, Cancel(id, now)); }
      Execute(Cancel(id, now));
      if count != 1 { return if id < |state.rows| then InvalidStatus else NotFound; }
      return Outcome.Ok(Cancelled, Some(ByHand));
    }

    /** Store an agent's result: only the host it was handed to, only while it runs. */
    method RecordExecutionResult(host: HostId, id: nat, outcome: Status, now: int) returns (stored: bool)
      requires Valid() && outcome in {Succeeded, Failed, TimedOut, Skipped}
      modifies this
      ensures Valid() && trace == old(trace) + [Report(id, host, outcome, now)]
      ensures stored <==> AwaitsResult(old(state.rows), id, host)
      ensures stored ==> id < |state.rows| && Answers(old(state.rows)[id], state.rows[id], outcome, now)
                         && state.results == old(state.results) + [id]
      ensures !stored ==> state.rows == old(state.rows) && state.results == old(state.results)
    {
      stored := AwaitsResult(state.rows, id, host);
      if stored {
        ResultStored(hash, state, id, host, outcome, now);
      } else {
        ResultRefused(hash, state, id, host, outcome, now);
      }
      Execute(Report(id, host, outcome, now));
    }

    /** Three statements. Whatever others do in between, every row overdue at the start has moved on. */
    method SweepExecutions(now: int, first: seq<Event>, second: seq<Event>)
      requires Valid()
      modifies this
      ensures Valid()
      ensures trace == old(trace) + [ExpirePending(now)] + first + [ExpireApproval(now)] + second + [Lose(now)]
      ensures forall k :: 0 <= k < |old(state.rows)| && Overdue(old(state.rows)[k], now) ==>
                k < |state.rows| && Rank(old(state.rows)[k].status) < Rank(state.rows[k].status)
      ensures var read2 := old(trace) + [ExpirePending(now)] + first;
              var read3 := read2 + [ExpireApproval(now)] + second;
              EndedBySweep(old(state.rows), Run(hash, read2).rows, Run(hash, read3).rows, state.rows, now)
    {
      SweepEnds(hash, trace, first, second, now);
      forall k | 0 <= k < |state.rows| && Overdue(state.rows[k], now)
        ensures Rises(hash, trace,
                      trace + [ExpirePending(now)] + first + [ExpireApproval(now)] + second + [Lose(now)], k)
      {
        OverdueRises(hash, trace, first, second, now, k);
      }
      Execute(ExpirePending(now));
      Elsewhere(first);
      Execute(ExpireApproval(now));
      Elsewhere(second);
      Execute(Lose(now));
    }
  }

  /**
    What became of the rows the three statements of a sweep read: a pending one, overdue, when the first
    ran is expired, and so is one waiting for approval when the second ran; one running when the third ran
    is given up; what the third did not end is as it was then.
    */
  ghost predicate EndedBySweep(rows1: seq<Row>, rows2: seq<Row>, rows3: seq<Row>, left: seq<Row>, now: int) {
    && AllExpired(rows1, left, Pending, now) && AllExpired(rows2, left, AwaitingApproval, now)
    && AllGivenUp(rows3, left, now)
  }

  ghost predicate AllExpired(rows: seq<Row>, left: seq<Row>, status: Status, now: int) {
    && |rows| <= |left|
    && forall k :: 0 <= k < |rows| && Overdue(rows[k], now) && rows[k].status == status ==>
         Expires(rows[k], left[k], now)
  }

  ghost predicate AllGivenUp(rows: seq<Row>, left: seq<Row>, now: int) {
    |rows| == |left| && forall k :: 0 <= k < |rows| ==> LostIsGivenUp(rows[k], left[k], now)
  }

  ghost predicate LostIsGivenUp(row: Row, left: Row, now: int) {
    if Overdue(row, now) && row.status == Running then GivenUp(row, left, now) else left == row
  }

  /** A row that a statement has ended stays as it is. */
  lemma EndedStays(hash: Script -> Digest, trace: seq<Event>, events: seq<Event>, k: nat)
    requires k < |Run(hash, trace).rows| && !Live(Run(hash, trace).rows[k].status)
    ensures k < |Run(hash, trace + events).rows| && Run(hash, trace + events).rows[k] == Run(hash, trace).rows[k]
  {
    assert (trace + events)[..|trace|] == trace;
    FinalStays(hash, trace + events, |trace|, k);
  }

  lemma Expiring(row: Row, k: nat, now: int)
    requires Overdue(row, now)
    ensures row.status == Pending ==> Expires(row, Changed(row, k, ExpirePending(now)), now)
    ensures row.status == AwaitingApproval ==> Expires(row, Changed(row, k, ExpireApproval(now)), now)
  {
  }

  lemma ExpiredStay(hash: Script -> Digest, trace: seq<Event>, e: Event, events: seq<Event>, status: Status, now: int)
    requires (e == ExpirePending(now) && status == Pending) || (e == ExpireApproval(now) && status == AwaitingApproval)
    ensures AllExpired(Run(hash, trace).rows, Run(hash, trace + [e] + events).rows, status, now)
  {
    NoFewerRows(hash, trace, [e] + events);
    assert trace + ([e] + events) == trace + [e] + events;
    var rows, left := Run(hash, trace).rows, Run(hash, trace + [e] + events).rows;
    forall k | 0 <= k < |rows| && Overdue(rows[k], now) && rows[k].status == status
      ensures Expires(rows[k], left[k], now)
    {
      RowAfter(hash, trace, e, k);
      Expiring(rows[k], k, now);
      EndedStays(hash, trace + [e], events, k);
    }
  }

  lemma LosingOne(row: Row, k: nat, now: int)
    ensures LostIsGivenUp(row, Changed(row, k, Lose(now)), now)
  {
  }

  lemma LostAreGivenUp(hash: Script -> Digest, trace: seq<Event>, now: int)
    ensures AllGivenUp(Run(hash, trace).rows, Run(hash, trace + [Lose(now)]).rows, now)
  {
    SweepStep(hash, trace, Lose(now));
    var rows := Run(hash, trace).rows;
    UpdatedAt(rows, Lose(now), 0);
    forall k | 0 <= k < |rows| ensures LostIsGivenUp(rows[k], Updated(rows, Lose(now))[k], now) {
      UpdatedAt(rows, Lose(now), k);
      LosingOne(rows[k], k, now);
    }
  }

  lemma NoFewerRows(hash: Script -> Digest, trace: seq<Event>, events: seq<Event>)
    ensures |Run(hash, trace).rows| <= |Run(hash, trace + events).rows|
  {
    if Run(hash, trace).rows != [] { RowMeanwhile(hash, trace, events, |Run(hash, trace).rows| - 1); }
  }

  lemma SweepEnds(hash: Script -> Digest, trace: seq<Event>, first: seq<Event>, second: seq<Event>, now: int)
    ensures var read2 := trace + [ExpirePending(now)] + first;
            var read3 := read2 + [ExpireApproval(now)] + second;
            EndedBySweep(Run(hash, trace).rows, Run(hash, read2).rows, Run(hash, read3).rows,
                         Run(hash, read3 + [Lose(now)]).rows, now)
  {
    var read2 := trace + [ExpirePending(now)] + first;
    var read3 := read2 + [ExpireApproval(now)] + second;
    FirstEnds(hash, trace, first, [ExpireApproval(now)] + second + [Lose(now)], now);
    Regroup(trace + [ExpirePending(now)] + first, [ExpireApproval(now)], second, [Lose(now)]);
    SecondEnds(hash, read2, second, [Lose(now)], now);
    LostAreGivenUp(hash, read3, now);
  }

  lemma Regroup(a: seq<Event>, b: seq<Event>, c: seq<Event>, d: seq<Event>)
    ensures a + (b + c + d) == a + b + c + d
  {
  }

  lemma FirstEnds(hash: Script -> Digest, trace: seq<Event>, first: seq<Event>, later: seq<Event>, now: int)
    ensures AllExpired(Run(hash, trace).rows, Run(hash, trace + [ExpirePending(now)] + first + later).rows, Pending,
                       now)
  {
    var e := ExpirePending(now);
    assert trace + [e] + first + later == trace + [e] + (first + later);
    ExpiredStay(hash, trace, e, first + later, Pending, now);
  }

  lemma SecondEnds(hash: Script -> Digest, trace: seq<Event>, second: seq<Event>, later: seq<Event>, now: int)
    ensures AllExpired(Run(hash, trace).rows, Run(hash, trace + [ExpireApproval(now)] + second + later).rows,
                       AwaitingApproval, now)
  {
    var e := ExpireApproval(now);
    assert trace + [e] + second + later == trace + [e] + (second + later);
    ExpiredStay(hash, trace, e, second + later, AwaitingApproval, now);
  }

  /** Row `k` has moved on between two moments of a run. */
  ghost predicate Rises(hash: Script -> Digest, before: seq<Event>, after: seq<Event>, k: nat) {
    && k < |Run(hash, before).rows| && k < |Run(hash, after).rows|
    && Rank(Run(hash, before).rows[k].status) < Rank(Run(hash, after).rows[k].status)
  }

  /** The row at the start, and before and after each of the three statements. */
  lemma OverdueRowRises(r0: Row, r1: Row, r2: Row, r3: Row, r4: Row, r5: Row, k: nat, now: int)
    requires Overdue(r0, now) && r1 == Changed(r0, k, ExpirePending(now)) && Evolves(r1, r2)
    requires r3 == Changed(r2, k, ExpireApproval(now)) && Evolves(r3, r4) && r5 == Changed(r4, k, Lose(now))
    ensures Rank(r0.status) < Rank(r5.status)
  {
  }

  lemma RowAfter(hash: Script -> Digest, trace: seq<Event>, e: Event, k: nat)
    requires k < |Run(hash, trace).rows|
    ensures k < |Run(hash, trace + [e]).rows|
              && Run(hash, trace + [e]).rows[k] == Changed(Run(hash, trace).rows[k], k, e)
  {
    RunMore(hash, trace, e);
    UpdatedAt(Run(hash, trace).rows, e, k);
  }

  lemma RowMeanwhile(hash: Script -> Digest, trace: seq<Event>, events: seq<Event>, k: nat)
    requires k < |Run(hash, trace).rows|
    ensures k < |Run(hash, trace + events).rows|
    ensures Evolves(Run(hash, trace).rows[k], Run(hash, trace + events).rows[k])
  {
    assert (trace + events)[..|trace|] == trace;
    RunEvolves(hash, trace + events, |trace|, k);
  }

  lemma OverdueRises(hash: Script -> Digest, trace: seq<Event>, first: seq<Event>, second: seq<Event>, now: int, k: nat)
    requires k < |Run(hash, trace).rows| && Overdue(Run(hash, trace).rows[k], now)
    ensures Rises(hash, trace, trace + [ExpirePending(now)] + first + [ExpireApproval(now)] + second + [Lose(now)], k)
  {
    var t1 := trace + [ExpirePending(now)];
    var t2 := t1 + first;
    var t3 := t2 + [ExpireApproval(now)];
    var t4 := t3 + second;
    RowAfter(hash, trace, ExpirePending(now), k);
    RowMeanwhile(hash, t1, first, k);
    RowAfter(hash, t2, ExpireApproval(now), k);
    RowMeanwhile(hash, t3, second, k);
    RowAfter(hash, t4, Lose(now), k);
    OverdueRowRises(Run(hash, trace).rows[k], Run(hash, t1).rows[k], Run(hash, t2).rows[k], Run(hash, t3).rows[k],
                    Run(hash, t4).rows[k], Run(hash, t4 + [Lose(now)]).rows[k], k, now);
  }

  /** Every row is as a sweep leaves it. */
  ghost predicate AllSwept(rows: seq<Row>, swept: seq<Row>, now: int) {
    |swept| == |rows| && forall k :: 0 <= k < |rows| ==> SweptTo(rows[k], swept[k], now)
  }

  lemma SweepRows(rows: seq<Row>, now: int)
    ensures AllSwept(rows, Updated(Updated(Updated(rows, ExpirePending(now)), ExpireApproval(now)), Lose(now)), now)
  {
    var rows1 := Updated(rows, ExpirePending(now));
    var rows2 := Updated(rows1, ExpireApproval(now));
    forall k: nat ensures |Updated(rows2, Lose(now))| == |rows|
                  ensures k < |rows| ==> SweptTo(rows[k], Updated(rows2, Lose(now))[k], now) {
      UpdatedAt(rows, ExpirePending(now), k);
      UpdatedAt(rows1, ExpireApproval(now), k);
      UpdatedAt(rows2, Lose(now), k);
      if k < |rows| { SweepEndsOverdue(rows[k], k, now); }
    }
  }

  lemma SweepStep(hash: Script -> Digest, trace: seq<Event>, e: Event)
    requires e.ExpirePending? || e.ExpireApproval? || e.Lose?
    ensures Run(hash, trace + [e]).rows == Updated(Run(hash, trace).rows, e)
  {
    RunMore(hash, trace, e);
  }

  /** Undisturbed, a sweep ends exactly the overdue rows. */
  lemma QuietSweep(hash: Script -> Digest, trace: seq<Event>, now: int)
    ensures AllSwept(Run(hash, trace).rows,
                     Run(hash, trace + [ExpirePending(now)] + [ExpireApproval(now)] + [Lose(now)]).rows, now)
  {
    SweepStep(hash, trace, ExpirePending(now));
    SweepStep(hash, trace + [ExpirePending(now)], ExpireApproval(now));
    SweepStep(hash, trace + [ExpirePending(now)] + [ExpireApproval(now)], Lose(now));
    SweepRows(Run(hash, trace).rows, now);
  }

  /** The row with the agent's result in it. */
  ghost predicate Answers(row: Row, left: Row, outcome: Status, now: int) {
    left == row.(status := outcome, reason := Some(Reported), finishedAt := Some(now))
  }

  predicate AwaitsResult(rows: seq<Row>, id: nat, host: HostId) {
    id < |rows| && rows[id].status == Running && rows[id].host == Some(host)
  }

  lemma ResultStored(hash: Script -> Digest, s: State, id: nat, host: HostId, outcome: Status, now: int)
    requires AwaitsResult(s.rows, id, host) && outcome in {Succeeded, Failed, TimedOut, Skipped}
    ensures var s' := Next(hash, s, Report(id, host, outcome, now));
            && id < |s'.rows| && Answers(s.rows[id], s'.rows[id], outcome, now)
            && s'.results == s.results + [id]
  {
    UpdatedAt(s.rows, Report(id, host, outcome, now), id);
  }

  lemma ResultRefused(hash: Script -> Digest, s: State, id: nat, host: HostId, outcome: Status, now: int)
    requires !AwaitsResult(s.rows, id, host)
    ensures var s' := Next(hash, s, Report(id, host, outcome, now)); s'.rows == s.rows && s'.results == s.results
  {
    var e := Report(id, host, outcome, now);
    forall k | 0 <= k < |s.rows| ensures Changed(s.rows[k], k, e) == s.rows[k] { }
    SameRows(s.rows, e);
  }

  lemma SameRows(rows: seq<Row>, e: Event)
    requires forall k :: 0 <= k < |rows| ==> Changed(rows[k], k, e) == rows[k]
    ensures Updated(rows, e) == rows
  {
    UpdatedAt(rows, e, 0);
    forall k | 0 <= k < |rows| ensures Updated(rows, e)[k] == rows[k] {
      UpdatedAt(rows, e, k);
    }
  }
}
