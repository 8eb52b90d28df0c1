/**
  The life of remediation executions as a state machine over atomic database statements. A run is any
  sequence of events: creations take their lock, read the history and insert their row one event at a
  time, and approvals, cancellations, claims, results and sweeps come in between. The action and host
  an event carries are whatever version that caller read, so edits in between are covered too.
  */
module Executions {
  import opened Common
  import opened Guard

  /** An action version and a host version that the guard was asked about. */
  datatype Decision = Decision(action: Action, host: Host)

  /**
    One row. `needsApproval`, `admission` and `approval` are histories: how the row was created, and on
    which decisions it was admitted and approved.
    */
  datatype Row = Row(action: ActionId, host: Option<HostId>, script: Script, sha: Digest, timeoutSec: int,
                     createdAt: int, needsApproval: bool, admission: Option<Decision>,
                     status: Status, reason: Option<Reason>, startedAt: Option<int>, finishedAt: Option<int>,
                     approval: Option<Decision>)

  /** How far a creation has got: waiting for the lock, holding it, or holding it and told the history. */
  datatype Phase = Waiting | Holding | Informed(recent: seq<Recent>)
  datatype Request = Request(action: Action, host: Host, sha: Digest, needsApproval: bool, now: int, phase: Phase)

  /** What an agent is handed. */
  datatype Handover = Handover(id: nat, host: HostId, script: Script, sha: Digest, timeoutSec: int)

  /** Rows are numbered in insertion order; `handed` and `results` are histories. */
  datatype State = State(rows: seq<Row>, requests: map<nat, Request>, handed: seq<Handover>, results: seq<nat>)

  datatype Event =
    | Ask(request: nat, action: Action, target: Option<Host>, needsApproval: bool, now: int)
    | Lock(request: nat)
    | Inquire(request: nat)
    | Insert(request: nat)
    | Abandon(request: nat)
    | Approve(id: nat, decision: Option<Decision>, now: int)
    | Cancel(id: nat, now: int)
    | Collect(id: nat, host: HostId, now: int)
    | Report(id: nat, host: HostId, outcome: Status, now: int)
    | ExpirePending(now: int)
    | ExpireApproval(now: int)
    | Lose(now: int)

  const RESULT_GRACE_MS := 2 * 60 * 1000
  const PENDING_TTL_MS := 60 * 60 * 1000
  const APPROVAL_TTL_MS := 24 * 60 * 60 * 1000

  predicate OfKey(row: Row, action: ActionId, host: HostId) {
    row.action == action && row.host == Some(host)
  }

  // ---- Creating --------------------------------------------------------------------------------

  function NewRow(action: Action, host: Option<HostId>, sha: Digest, now: int, needsApproval: bool,
                  admission: Option<Decision>, violation: Option<Reason>): Row
  {
    Row(action.id, host, action.script, sha, action.timeoutSec, now, needsApproval, admission,
        if violation.Some? then Skipped else if needsApproval then AwaitingApproval else Pending,
        violation, None, if violation.Some? then Some(now) else None, None)
  }

  /** The runs of an action on a host, as the guard sees them. */
  function History(rows: seq<Row>, action: ActionId, host: HostId): seq<Recent> {
    if rows == [] then []
    else
      var row := rows[|rows|-1];
      History(rows[..|rows|-1], action, host)
      + if OfKey(row, action, host) then [Recent(row.status, row.createdAt)] else []
  }

  /** The history query, in one statement. */
  function Query(rows: seq<Row>, action: Action, host: HostId, now: int): seq<Recent> {
    if rows == [] then []
    else
      var row := rows[|rows|-1];
      Query(rows[..|rows|-1], action, host, now) +
      if OfKey(row, action.id, host) && Kept(Recent(row.status, row.createdAt), action.cooldownSec, now)
      then [Recent(row.status, row.createdAt)] else []
  }

  predicate Locked(requests: map<nat, Request>, action: ActionId, host: HostId) {
    exists r :: r in requests && requests[r].action.id == action && requests[r].host.id == host
                && requests[r].phase != Waiting
  }

  function Verdict(request: Request): Option<Reason>
    requires request.phase.Informed?
  {
    GuardrailViolation(request.action, request.host, request.sha, request.phase.recent, request.now)
  }

  function Inserted(request: Request): Row
    requires request.phase.Informed?
  {
    NewRow(request.action, Some(request.host.id), request.sha, request.now, request.needsApproval,
           Some(Decision(request.action, request.host)), Verdict(request))
  }

  // ---- Guarded updates -------------------------------------------------------------------------

  /** The guard asked again at approval: no history, limits that cannot bite. */
  function ApprovalVerdict(row: Row, decision: Option<Decision>, now: int): Option<Reason> {
    if decision.None? then Some(NoTargetHost)
    else
      GuardrailViolation(decision.value.action.(cooldownSec := 0, maxRunsPerHour := 1000), decision.value.host,
                         row.sha, [], now)
  }

  /** The versions read belong to the row. */
  predicate About(row: Row, decision: Option<Decision>) {
    decision.Some? ==> decision.value.action.id == row.action && Some(decision.value.host.id) == row.host
  }

  function Approved(row: Row, decision: Option<Decision>, now: int): Row {
    var violation := ApprovalVerdict(row, decision, now);
    row.(status := if violation.Some? then Skipped else Pending, reason := violation, approval := decision,
         finishedAt := if violation.Some? then Some(now) else row.finishedAt)
  }

  function Ended(row: Row, status: Status, reason: Reason, now: int): Row {
    row.(status := status, reason := Some(reason), finishedAt := Some(now))
  }

  /** One statement's effect on one row. */
  function Changed(row: Row, k: nat, e: Event): Row {
    match e
    case Approve(id, decision, now) =>
      if k == id && row.status == AwaitingApproval && About(row, decision) then Approved(row, decision, now) else row
    case Cancel(id, now) =>
      if k == id && row.status in {AwaitingApproval, Pending} then Ended(row, Cancelled, ByHand, now) else row
    case Collect(id, host, now) =>
      if k == id && row.status == Pending && row.host == Some(host)
      then row.(status := Running, startedAt := Some(now)) else row
    case Report(id, host, outcome, now) =>
      if k == id && row.status == Running && row.host == Some(host) && outcome in {Succeeded, Failed, TimedOut, Skipped}
      then Ended(row, outcome, Reported, now) else row
    case ExpirePending(now) =>
      if row.status == Pending && row.createdAt < now - PENDING_TTL_MS then Ended(row, Cancelled, Expired, now) else row
    case ExpireApproval(now) =>
      if row.status == AwaitingApproval && row.createdAt < now - APPROVAL_TTL_MS
      then Ended(row, Cancelled, Expired, now) else row
    case Lose(now) =>
      if row.status == Running && row.startedAt.Some?
         && row.startedAt.value + row.timeoutSec * 1000 + RESULT_GRACE_MS < now
      then Ended(row, TimedOut, AgentLost, now) else row
    case _ => row
  }

  function Updated(rows: seq<Row>, e: Event): seq<Row> {
    if rows == [] then [] else Updated(rows[..|rows|-1], e) + [Changed(rows[|rows|-1], |rows| - 1, e)]
  }

  lemma {:induction false} UpdatedAt(rows: seq<Row>, e: Event, k: nat)
    ensures |Updated(rows, e)| == |rows|
    ensures k < |rows| ==> Updated(rows, e)[k] == Changed(rows[k], k, e)
  {
    if rows != [] { UpdatedAt(rows[..|rows|-1], e, k); }
  }

  // ---- The machine -----------------------------------------------------------------------------

  /** The row an event inserts, if any. */
  function Added(hash: Script -> Digest, s: State, e: Event): seq<Row> {
    match e
    case Ask(request, action, target, needsApproval, now) =>
      if target.None? && request !in s.requests
      then [NewRow(action, None, hash(action.script), now, needsApproval, None, Some(NoTargetHost))] else []
    case Insert(request) =>
      if request in s.requests && s.requests[request].phase.Informed? then [Inserted(s.requests[request])] else []
    case _ => []
  }

  function Requests(hash: Script -> Digest, s: State, e: Event): map<nat, Request> {
    match e
    case Ask(request, action, target, needsApproval, now) =>
      if target.None? || request in s.requests then s.requests
      else s.requests[request := Request(action, target.value, hash(action.script), needsApproval, now, Waiting)]
    case Lock(request) =>
      if request !in s.requests || s.requests[request].phase != Waiting
         || Locked(s.requests, s.requests[request].action.id, s.requests[request].host.id) then s.requests
      else s.requests[request := s.requests[request].(phase := Holding)]
    case Inquire(request) =>
      if request !in s.requests || s.requests[request].phase != Holding then s.requests
      else
        var r := s.requests[request];
        s.requests[request := r.(phase := Informed(Query(s.rows, r.action, r.host.id, r.now)))]
    case Insert(request) =>
      if request in s.requests && s.requests[request].phase.Informed? then s.requests - {request} else s.requests
    case Abandon(request) => s.requests - {request}
    case _ => s.requests
  }

  function HandedBy(s: State, e: Event): seq<Handover> {
    match e
    case Collect(id, host, now) =>
      if id < |s.rows| && s.rows[id].status == Pending && s.rows[id].host == Some(host)
      then [Handover(id, host, s.rows[id].script, s.rows[id].sha, s.rows[id].timeoutSec)] else []
    case _ => []
  }

  function ReportedBy(s: State, e: Event): seq<nat> {
    match e
    case Report(id, host, outcome, now) =>
      if id < |s.rows| && Changed(s.rows[id], id, e) != s.rows[id] then [id] else []
    case _ => []
  }

  function Next(hash: Script -> Digest, s: State, e: Event): State {
    State(Updated(s.rows, e) + Added(hash, s, e), Requests(hash, s, e), s.handed + HandedBy(s, e),
          s.results + ReportedBy(s, e))
  }

  function Run(hash: Script -> Digest, events: seq<Event>): State {
    if events == [] then State([], map[], [], [])
    else Next(hash, Run(hash, events[..|events|-1]), events[|events|-1])
  }

  lemma RunMore(hash: Script -> Digest, events: seq<Event>, e: Event)
    ensures Run(hash, events + [e]) == Next(hash, Run(hash, events), e)
  {
    assert (events + [e])[..|events|] == events;
  }
}
