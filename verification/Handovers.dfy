/**
  What agents are handed and what they report, over every run of the execution machine: each execution
  goes out at most once and gets at most one result, and what goes out is what was vetted.
  */
module Handovers {
  import opened Common
  import opened Guard
  import opened Executions
  import opened ExecutionSafety

  // ---- What is known of a row ------------------------------------------------------------------

  /** The decision let this script onto this row's host. */
  predicate LetsIn(row: Row, decision: Option<Decision>) {
    && decision.Some? && decision.value.action.id == row.action && row.host == Some(decision.value.host.id)
    && Accepts(decision.value.action, decision.value.host, row.sha)
  }

  /**
    The hash is that of the script; whatever may still run, or ever ran, was let in by the host's policy
    at creation, with the script and timeout the action had then, and again at approval when it needed one.
    */
  predicate Vetted(hash: Script -> Digest, row: Row) {
    && row.sha == hash(row.script)
    && (Live(row.status) || row.startedAt.Some? ==>
          && LetsIn(row, row.admission)
          && row.script == row.admission.value.action.script && row.timeoutSec == row.admission.value.action.timeoutSec)
    && (row.needsApproval && (row.status in {Pending, Running} || row.startedAt.Some?) ==> LetsIn(row, row.approval))
  }

  /** Finished exactly when no longer live; started while running; succeeded or failed only once started. */
  predicate WellTimed(row: Row) {
    && (row.finishedAt.Some? <==> !Live(row.status))
    && (row.status in {Running, Succeeded, Failed, TimedOut} ==> row.startedAt.Some?)
    && (row.status in {AwaitingApproval, Pending} ==> row.startedAt.None?)
  }

  lemma ApprovalAsksPolicy(row: Row, decision: Option<Decision>, now: int)
    requires About(row, decision)
    ensures ApprovalVerdict(row, decision, now) == None <==> LetsIn(row, decision)
  {
    if decision.Some? {
      var action := decision.value.action.(cooldownSec := 0, maxRunsPerHour := 1000);
      GuardPasses(action, decision.value.host, row.sha, [], now);
      assert Accepts(action, decision.value.host, row.sha)
          == Accepts(decision.value.action, decision.value.host, row.sha);
    }
  }

  lemma ChangedIsVetted(hash: Script -> Digest, row: Row, k: nat, e: Event)
    requires Vetted(hash, row) && WellTimed(row)
    ensures Vetted(hash, Changed(row, k, e)) && WellTimed(Changed(row, k, e))
  {
    if e.Approve? && About(row, e.decision) { ApprovalAsksPolicy(row, e.decision, e.now); }
  }

  /** The sha of a creation in flight is that of the action version it read. */
  predicate Hashed(hash: Script -> Digest, r: Request) {
    r.sha == hash(r.action.script)
  }

  lemma {:induction false} RunIsHashed(hash: Script -> Digest, events: seq<Event>, r: nat)
    requires r in Run(hash, events).requests
    ensures Hashed(hash, Run(hash, events).requests[r])
  {
    var front, e := events[..|events|-1], events[|events|-1];
    if r in Run(hash, front).requests { RunIsHashed(hash, front, r); }
    NextIsHashed(hash, Run(hash, front), e, r);
  }

  lemma NextIsHashed(hash: Script -> Digest, s: State, e: Event, r: nat)
    requires r in Requests(hash, s, e) && (r in s.requests ==> Hashed(hash, s.requests[r]))
    ensures Hashed(hash, Requests(hash, s, e)[r])
  {
  }

  lemma NewIsVetted(hash: Script -> Digest, s: State, e: Event)
    requires forall r :: r in s.requests ==> Ready(s.rows, s.requests[r]) && Hashed(hash, s.requests[r])
    ensures forall row :: row in Added(hash, s, e) ==> Vetted(hash, row) && WellTimed(row)
  {
    if e.Insert? && e.request in s.requests { assert Ready(s.rows, s.requests[e.request]); }
  }

  lemma {:induction false} RunIsVetted(hash: Script -> Digest, events: seq<Event>, k: nat)
    requires k < |Run(hash, events).rows|
    ensures Vetted(hash, Run(hash, events).rows[k]) && WellTimed(Run(hash, events).rows[k])
  {
    var front, e := events[..|events|-1], events[|events|-1];
    var s := Run(hash, front);
    UpdatedAt(s.rows, e, k);
    if k < |s.rows| {
      RunIsVetted(hash, front, k);
      ChangedIsVetted(hash, s.rows[k], k, e);
    } else {
      forall r | r in s.requests ensures Ready(s.rows, s.requests[r]) && Hashed(hash, s.requests[r]) {
        RunIsReady(hash, front, r);
        RunIsHashed(hash, front, r);
      }
      NewIsVetted(hash, s, e);
      assert Run(hash, events).rows[k] in Added(hash, s, e);
    }
  }

  // ---- Handed out once -------------------------------------------------------------------------

  ghost predicate HandedOut(s: State, id: nat) {
    exists h :: h in s.handed && h.id == id
  }

  /** What was handed out is what the row says. */
  ghost predicate Faithful(s: State, h: Handover) {
    && h.id < |s.rows|
    && var row := s.rows[h.id];
       row.host == Some(h.host) && row.script == h.script && row.sha == h.sha && row.timeoutSec == h.timeoutSec
  }

  /** A row has been started exactly when it was handed out, and then it is past the queue. */
  ghost predicate StartedIsHanded(s: State, k: nat)
    requires k < |s.rows|
  {
    && (s.rows[k].startedAt.Some? <==> HandedOut(s, k))
    && (s.rows[k].startedAt.Some? ==> Rank(s.rows[k].status) >= 2)
  }

  lemma HandedByIs(s: State, e: Event, h: Handover)
    requires h in HandedBy(s, e)
    ensures e == Collect(h.id, h.host, e.now) && HandedBy(s, e) == [h]
    ensures h.id < |s.rows| && s.rows[h.id].status == Pending && s.rows[h.id].host == Some(h.host)
    ensures h.script == s.rows[h.id].script && h.sha == s.rows[h.id].sha && h.timeoutSec == s.rows[h.id].timeoutSec
  {
  }

  lemma ChangedStart(row: Row, k: nat, e: Event)
    ensures Changed(row, k, e).startedAt == row.startedAt || (e == Collect(k, e.host, e.now) && row.status == Pending)
    ensures Rank(Changed(row, k, e).status) >= Rank(row.status)
  {
  }

  lemma StillHanded(hash: Script -> Digest, s: State, e: Event, id: nat)
    ensures HandedOut(Next(hash, s, e), id) <==> HandedOut(s, id) || exists h :: h in HandedBy(s, e) && h.id == id
  {
    var handed := Next(hash, s, e).handed;
    assert forall h :: h in handed <==> h in s.handed || h in HandedBy(s, e);
  }

  lemma StartedStaysHanded(hash: Script -> Digest, s: State, e: Event, k: nat)
    requires k < |s.rows| && StartedIsHanded(s, k)
    ensures k < |Next(hash, s, e).rows| && StartedIsHanded(Next(hash, s, e), k)
  {
    UpdatedAt(s.rows, e, k);
    ChangedStart(s.rows[k], k, e);
    StillHanded(hash, s, e, k);
    if e.Collect? && e.id == k && s.rows[k].status == Pending && s.rows[k].host == Some(e.host) {
      assert HandedBy(s, e)[0].id == k;
    }
  }

  /** Everything handed out has its row. */
  lemma {:induction false} RunIsFaithful(hash: Script -> Digest, events: seq<Event>, id: nat)
    requires HandedOut(Run(hash, events), id)
    ensures id < |Run(hash, events).rows|
    ensures forall h :: h in Run(hash, events).handed && h.id == id ==> Faithful(Run(hash, events), h)
  {
    var front, e := events[..|events|-1], events[|events|-1];
    var s := Run(hash, front);
    StillHanded(hash, s, e, id);
    if HandedOut(s, id) { RunIsFaithful(hash, front, id); }
    forall h | h in Run(hash, events).handed && h.id == id
      ensures id < |Run(hash, events).rows| && Faithful(Run(hash, events), h)
    {
      if h in HandedBy(s, e) { HandedByIs(s, e, h); }
      assert Faithful(s, h);
      NextEvolves(hash, s, e, id);
    }
  }

  lemma NewIsNotHanded(hash: Script -> Digest, s: State, e: Event, k: nat)
    requires |s.rows| <= k < |Next(hash, s, e).rows| && !HandedOut(s, k)
    ensures StartedIsHanded(Next(hash, s, e), k)
  {
    UpdatedAt(s.rows, e, k);
    StillHanded(hash, s, e, k);
  }

  lemma {:induction false} RunHandsWhatItStarts(hash: Script -> Digest, events: seq<Event>, k: nat)
    requires k < |Run(hash, events).rows|
    ensures StartedIsHanded(Run(hash, events), k)
  {
    var front, e := events[..|events|-1], events[|events|-1];
    var s := Run(hash, front);
    if k < |s.rows| {
      RunHandsWhatItStarts(hash, front, k);
      StartedStaysHanded(hash, s, e, k);
    } else {
      if HandedOut(s, k) { RunIsFaithful(hash, front, k); }
      NewIsNotHanded(hash, s, e, k);
    }
  }

  ghost predicate OncePerId(handed: seq<Handover>) {
    forall i, j :: 0 <= i < j < |handed| ==> handed[i].id != handed[j].id
  }

  /** Each execution is handed out at most once, however many claimers there are. */
  lemma {:induction false} HandedOnce(hash: Script -> Digest, events: seq<Event>)
    ensures OncePerId(Run(hash, events).handed)
  {
    if events != [] {
      var front, e := events[..|events|-1], events[|events|-1];
      var s := Run(hash, front);
      HandedOnce(hash, front);
      if HandedBy(s, e) != [] {
        var h := HandedBy(s, e)[0];
        HandedByIs(s, e, h);
        RunIsVetted(hash, front, h.id);
        RunHandsWhatItStarts(hash, front, h.id);
        assert !HandedOut(s, h.id);
      }
    }
  }

  /**
    What an agent receives: the script and timeout the action had at creation, with the script's own
    hash, let in by the host's policy then and, where approval was needed, at approval too.
    */
  lemma HandedIsVetted(hash: Script -> Digest, events: seq<Event>, h: Handover)
    requires h in Run(hash, events).handed
    ensures h.id < |Run(hash, events).rows| && h.sha == hash(h.script)
    ensures var row := Run(hash, events).rows[h.id];
            && row.host == Some(h.host) && LetsIn(row, row.admission)
            && h.script == row.admission.value.action.script && h.timeoutSec == row.admission.value.action.timeoutSec
            && (row.needsApproval ==> LetsIn(row, row.approval))
  {
    RunIsFaithful(hash, events, h.id);
    RunHandsWhatItStarts(hash, events, h.id);
    RunIsVetted(hash, events, h.id);
  }

  // ---- Answered once ---------------------------------------------------------------------------

  lemma ReportedByIs(s: State, e: Event, id: nat)
    requires id in ReportedBy(s, e)
    ensures ReportedBy(s, e) == [id] && id < |s.rows|
    ensures s.rows[id].status == Running && Changed(s.rows[id], id, e).reason == Some(Reported)
    ensures !Live(Changed(s.rows[id], id, e).status)
  {
  }

  /** A stored result stays: the row is final, its reason is the report, and it was handed out before. */
  ghost predicate Answered(s: State, id: nat) {
    && id < |s.rows| && !Live(s.rows[id].status) && s.rows[id].reason == Some(Reported) && s.rows[id].startedAt.Some?
  }

  lemma AnswerStays(hash: Script -> Digest, s: State, e: Event, id: nat)
    requires Answered(s, id)
    ensures Answered(Next(hash, s, e), id)
  {
    NextEvolves(hash, s, e, id);
  }

  lemma ReportAnswers(hash: Script -> Digest, s: State, e: Event, id: nat)
    requires id in ReportedBy(s, e)
    requires id < |s.rows| ==> WellTimed(s.rows[id])
    ensures Answered(Next(hash, s, e), id)
  {
    ReportedByIs(s, e, id);
    UpdatedAt(s.rows, e, id);
    ChangedStart(s.rows[id], id, e);
  }

  lemma {:induction false} RunIsAnswered(hash: Script -> Digest, events: seq<Event>, id: nat)
    requires id in Run(hash, events).results
    ensures Answered(Run(hash, events), id)
  {
    var front, e := events[..|events|-1], events[|events|-1];
    var s := Run(hash, front);
    if id in s.results {
      RunIsAnswered(hash, front, id);
      AnswerStays(hash, s, e, id);
    } else {
      if id < |s.rows| { RunIsVetted(hash, front, id); }
      ReportAnswers(hash, s, e, id);
    }
  }

  /** Only what was handed out is ever answered. */
  lemma AnsweredWasHanded(hash: Script -> Digest, events: seq<Event>, id: nat)
    requires id in Run(hash, events).results
    ensures HandedOut(Run(hash, events), id)
  {
    RunIsAnswered(hash, events, id);
    RunHandsWhatItStarts(hash, events, id);
  }

  lemma SuccessIsReported(hash: Script -> Digest, s: State, e: Event, k: nat)
    requires k < |Next(hash, s, e).rows| && Next(hash, s, e).rows[k].status in {Succeeded, Failed}
    requires k < |s.rows| && s.rows[k].status in {Succeeded, Failed} ==> k in s.results
    ensures k in Next(hash, s, e).results
  {
    UpdatedAt(s.rows, e, k);
  }

  /** Only a report makes an execution a success or a failure. */
  lemma {:induction false} OnlyReportsSucceed(hash: Script -> Digest, events: seq<Event>, k: nat)
    requires k < |Run(hash, events).rows| && Run(hash, events).rows[k].status in {Succeeded, Failed}
    ensures k in Run(hash, events).results
  {
    var front, e := events[..|events|-1], events[|events|-1];
    var s := Run(hash, front);
    if k < |s.rows| && s.rows[k].status in {Succeeded, Failed} { OnlyReportsSucceed(hash, front, k); }
    SuccessIsReported(hash, s, e, k);
  }

  ghost predicate Distinct(ids: seq<nat>) {
    forall i, j :: 0 <= i < j < |ids| ==> ids[i] != ids[j]
  }

  /** Each execution gets at most one stored result. */
  lemma {:induction false} AnsweredOnce(hash: Script -> Digest, events: seq<Event>)
    ensures Distinct(Run(hash, events).results)
  {
    if events != [] {
      var front, e := events[..|events|-1], events[|events|-1];
      var s := Run(hash, front);
      AnsweredOnce(hash, front);
      if ReportedBy(s, e) != [] {
        var id := ReportedBy(s, e)[0];
        ReportedByIs(s, e, id);
        if id in s.results { RunIsAnswered(hash, front, id); }
      }
    }
  }

  // ---- The sweep -------------------------------------------------------------------------------

  /** Still waiting, queued or running after its time. */
  predicate Overdue(row: Row, now: int) {
    || (row.status == Pending && row.createdAt < now - PENDING_TTL_MS)
    || (row.status == AwaitingApproval && row.createdAt < now - APPROVAL_TTL_MS)
    || (row.status == Running && row.startedAt.Some?
        && row.startedAt.value + row.timeoutSec * 1000 + RESULT_GRACE_MS < now)
  }

  function Swept(row: Row, k: nat, now: int): Row {
    Changed(Changed(Changed(row, k, ExpirePending(now)), k, ExpireApproval(now)), k, Lose(now))
  }

  /** The row as a sweep leaves it: one that waited too long is cancelled, one that ran too long is given up. */
  ghost predicate SweptTo(row: Row, left: Row, now: int) {
    if !Overdue(row, now) then left == row
    else if row.status == Running then GivenUp(row, left, now)
    else Expires(row, left, now)
  }

  /** The agent is taken for lost; nothing else about the row changes. */
  ghost predicate GivenUp(row: Row, left: Row, now: int) {
    left == row.(status := TimedOut, reason := Some(AgentLost), finishedAt := Some(now))
  }

  /** Nobody approved or collected it in time; nothing else about the row changes. */
  ghost predicate Expires(row: Row, left: Row, now: int) {
    left == row.(status := Cancelled, reason := Some(Expired), finishedAt := Some(now))
  }

  /** A sweep ends exactly the overdue rows, each in its own way: nothing is overdue after it. */
  lemma SweepEndsOverdue(row: Row, k: nat, now: int)
    ensures SweptTo(row, Swept(row, k, now), now) && !Overdue(Swept(row, k, now), now)
  {
  }

  /** An approval does not restart the clock: approved over an hour after creation, the next sweep cancels it. */
  lemma LateApprovalExpires(row: Row, k: nat, decision: Option<Decision>, approved: int, swept: int)
    requires row.status == AwaitingApproval && About(row, decision) && ApprovalVerdict(row, decision, approved) == None
    requires approved <= swept
    ensures Changed(Changed(row, k, Approve(k, decision, approved)), k, ExpirePending(swept)).status == Cancelled
            <==> row.createdAt < swept - PENDING_TTL_MS
  {
  }
}
