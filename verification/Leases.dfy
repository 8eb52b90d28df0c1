/** The lease keeps two workers from serving the same narrative request. */
module Leases {
  import opened Common
  import opened Narratives

  /** Nothing but claims, reads and feeding by workers, and writes that lost their compare-and-set. */
  ghost predicate Quiet(s: State, e: Event) {
    || e.Claim? || e.Read? || e.Crash?
    || (e.Feed? && s.incident.findings.Some?)
    || ((e.Store? || e.Refuse? || e.Fail?) && !Current(s, e.session))
  }

  ghost predicate QuietAt(events: seq<Event>, k: nat)
    requires k < |events|
  {
    Quiet(Run(events[..k]), events[k])
  }

  ghost predicate WinsAt(events: seq<Event>, k: nat)
    requires k < |events|
  {
    Wins(Run(events[..k]), events[k])
  }

  /** The request is leased until `until`, after the first `k` events. */
  ghost predicate LeasedAt(events: seq<Event>, k: nat, until: int)
    requires k <= |events|
  {
    var i := Run(events[..k]).incident;
    i.requestedAt == Some(until) && i.findings.Some?
  }

  lemma LeaseStep(events: seq<Event>, k: nat, until: int)
    requires k < |events| && LeasedAt(events, k, until) && QuietAt(events, k) && !WinsAt(events, k)
    ensures LeasedAt(events, k + 1, until)
  {
    RunStep(events, k);
  }

  lemma RunStep(events: seq<Event>, k: nat)
    requires k < |events|
    ensures Run(events[..k+1]) == Next(Run(events[..k]), events[k])
  {
    assert events[..k+1][..k] == events[..k];
  }

  lemma {:induction false} LeaseHolds(events: seq<Event>, from: nat, upTo: nat, until: int)
    requires from <= upTo <= |events| && LeasedAt(events, from, until)
    requires forall k :: from <= k < upTo ==> QuietAt(events, k) && !WinsAt(events, k)
    ensures LeasedAt(events, upTo, until)
    decreases upTo
  {
    if from < upTo {
      LeaseHolds(events, from, upTo - 1, until);
      LeaseStep(events, upTo - 1, until);
    }
  }

  lemma WinLeases(events: seq<Event>, i: nat)
    requires i < |events| && WinsAt(events, i) && Run(events[..i]).incident.findings.Some?
    ensures LeasedAt(events, i + 1, events[i].now + LEASE_MS)
  {
    RunStep(events, i);
  }

  /**
    Two workers do not serve the same request: while nobody re-analyses and the holder has not
    answered, the next claim comes at least a lease and a settling time after the previous one.
    */
  lemma ClaimsAreApart(events: seq<Event>, i: nat, j: nat)
    requires i < j < |events| && WinsAt(events, i) && WinsAt(events, j)
    requires forall k :: i < k < j ==> QuietAt(events, k) && !WinsAt(events, k)
    requires Run(events[..i]).incident.findings.Some?
    ensures events[j].settledBefore >= events[i].now + LEASE_MS
  {
    WinLeases(events, i);
    LeaseHolds(events, i + 1, j, events[i].now + LEASE_MS);
  }

  /** Whether a worker whose clock shows `clock` may claim. */
  ghost predicate MayClaimAt(i: Incident, clock: int) {
    Due(i, clock - SETTLE_MS)
  }

  /** A failure puts the request off by two minutes per attempt made; the last attempt is the end of it. */
  lemma FailureBacksOff(s: State, session: nat, now: int, clock: int)
    requires Current(s, session) && s.incident.attempts == s.sessions[session].attempts
    ensures MayClaimAt(Next(s, Fail(session, now)).incident, clock) <==>
              s.incident.attempts < 3 && clock >= now + s.incident.attempts * 120_000
  {
  }

  /** Asking again makes the request due at once, with all its attempts; a re-analysis once it has settled. */
  lemma RequestsAreDue(s: State, findings: Findings, stamp: int, now: int, clock: int)
    ensures MayClaimAt(Next(s, AskAgain(now)).incident, clock) <==> clock >= now
    ensures MayClaimAt(Next(s, Refresh(findings, stamp, true)).incident, clock) <==> clock >= stamp + 60_000
    ensures !MayClaimAt(Next(s, Refresh(findings, stamp, false)).incident, clock)
  {
  }

  /** A stored answer and a refusal end the request. */
  lemma AnswersEndIt(s: State, session: nat, text: Text, clock: int)
    requires Current(s, session)
    ensures !MayClaimAt(Next(s, Store(session, text)).incident, clock)
    ensures !MayClaimAt(Next(s, Refuse(session)).incident, clock)
    ensures Next(s, Store(session, text)).incident.narrative == Some(Narrative(text, s.sessions[session].about))
    ensures Next(s, Refuse(session)).incident.narrative == s.incident.narrative
  {
  }
}
