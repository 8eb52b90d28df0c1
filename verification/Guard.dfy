/**
  The guard-rails checked before an execution is queued: one function of early returns.
  Times are milliseconds, settings are seconds.
  */
module Guard {
  import opened Common

  type Script(==, !new)
  type Digest(==, !new)
  type OsFamily(==, !new)
  type ActionId(==, !new)
  type HostId(==, !new)

  datatype Status = AwaitingApproval | Pending | Running | Succeeded | Failed | TimedOut | Skipped | Cancelled

  datatype Reason = ActionDisabled | HostDisabled | HostNotAccepting | NotInAllowlist | OsNotAllowed
                  | AlreadyQueued | Cooldown | RateLimited | NoTargetHost | Expired | AgentLost | ByHand | Reported

  /** The remediation mode an agent reported; `Unknown` is any other text, or none. */
  datatype Mode = Allowlist | AnyScript | Unknown

  datatype Action = Action(id: ActionId, enabled: bool, osFamilies: seq<OsFamily>, cooldownSec: int,
                           maxRunsPerHour: int, script: Script, timeoutSec: int)
  datatype Host = Host(id: HostId, enabled: bool, os: Option<OsFamily>, mode: Mode, allowlist: seq<Digest>)
  datatype Recent = Recent(status: Status, createdAt: int)

  const HOUR_MS := 3600_000

  predicate Live(status: Status) {
    status in {AwaitingApproval, Pending, Running}
  }

  /** Counts against the limits: neither skipped nor cancelled. */
  predicate Counts(status: Status) {
    status !in {Skipped, Cancelled}
  }

  function Counted(recent: seq<Recent>): seq<Recent> {
    if recent == [] then []
    else Counted(recent[..|recent|-1]) + if Counts(recent[|recent|-1].status) then [recent[|recent|-1]] else []
  }

  /** How many started less than an hour before `now`. */
  function WithinHour(recent: seq<Recent>, now: int): nat {
    if recent == [] then 0
    else WithinHour(recent[..|recent|-1], now) + if now - recent[|recent|-1].createdAt < HOUR_MS then 1 else 0
  }

  function GuardrailViolation(action: Action, host: Host, sha: Digest, recent: seq<Recent>, now: int): Option<Reason> {
    if !action.enabled then Some(ActionDisabled)
    else if !host.enabled then Some(HostDisabled)
    else if host.mode != Allowlist && host.mode != AnyScript then Some(HostNotAccepting)
    else if host.mode == Allowlist && sha !in host.allowlist then Some(NotInAllowlist)
    else if |action.osFamilies| > 0 && (host.os == None || host.os.value !in action.osFamilies) then Some(OsNotAllowed)
    else
      var counted := Counted(recent);
      if exists e :: e in counted && Live(e.status) then Some(AlreadyQueued)
      else if exists e :: e in counted && now - e.createdAt < action.cooldownSec * 1000 then Some(Cooldown)
      else if WithinHour(counted, now) >= action.maxRunsPerHour then Some(RateLimited)
      else None
  }

  /** The host's own policy lets the script in. */
  predicate Accepts(action: Action, host: Host, sha: Digest) {
    && action.enabled && host.enabled
    && (host.mode == AnyScript || (host.mode == Allowlist && sha in host.allowlist))
    && (action.osFamilies == [] || (host.os.Some? && host.os.value in action.osFamilies))
  }

  /** No counted run is live, closer than the cooldown, or one too many in the last hour. */
  ghost predicate Free(recent: seq<Recent>, cooldownSec: int, maxRuns: int, now: int) {
    && (forall k :: 0 <= k < |recent| && Counts(recent[k].status) ==>
          !Live(recent[k].status) && now - recent[k].createdAt >= cooldownSec * 1000)
    && HourLoad(recent, now) < maxRuns
  }

  /** Counted runs less than an hour old. */
  ghost function HourLoad(recent: seq<Recent>, now: int): nat {
    if recent == [] then 0
    else
      var e := recent[|recent|-1];
      HourLoad(recent[..|recent|-1], now) + if Counts(e.status) && now - e.createdAt < HOUR_MS then 1 else 0
  }

  lemma {:induction false} CountedHas(recent: seq<Recent>, e: Recent)
    ensures e in Counted(recent) <==> e in recent && Counts(e.status)
  {
    if recent != [] {
      var m := |recent| - 1;
      CountedHas(recent[..m], e);
      assert e in recent <==> e in recent[..m] || e == recent[m];
    }
  }

  lemma WithinHourMore(recent: seq<Recent>, e: Recent, now: int)
    ensures WithinHour(recent + [e], now) == WithinHour(recent, now) + if now - e.createdAt < HOUR_MS then 1 else 0
  {
    assert (recent + [e])[..|recent|] == recent;
  }

  lemma HourLoadMore(recent: seq<Recent>, e: Recent, now: int)
    ensures HourLoad(recent + [e], now)
         == HourLoad(recent, now) + if Counts(e.status) && now - e.createdAt < HOUR_MS then 1 else 0
  {
    assert (recent + [e])[..|recent|] == recent;
  }

  lemma {:induction false} LoadIsCounted(recent: seq<Recent>, now: int)
    ensures WithinHour(Counted(recent), now) == HourLoad(recent, now)
  {
    if recent != [] {
      var m := |recent| - 1;
      LoadIsCounted(recent[..m], now);
      var front := Counted(recent[..m]);
      if Counts(recent[m].status) {
        assert Counted(recent) == front + [recent[m]];
        WithinHourMore(front, recent[m], now);
      } else {
        assert Counted(recent) == front;
      }
    }
  }

  /** When the guard lets a run through: the host's policy accepts the script and the history is free. */
  lemma GuardPasses(action: Action, host: Host, sha: Digest, recent: seq<Recent>, now: int)
    ensures GuardrailViolation(action, host, sha, recent, now) == None <==>
              Accepts(action, host, sha) && Free(recent, action.cooldownSec, action.maxRunsPerHour, now)
  {
    LoadIsCounted(recent, now);
    forall k | 0 <= k < |recent| && Counts(recent[k].status) ensures recent[k] in Counted(recent) {
      CountedHas(recent, recent[k]);
    }
    forall e | e in Counted(recent)
      ensures exists k :: 0 <= k < |recent| && Counts(recent[k].status) && recent[k] == e
    {
      CountedHas(recent, e);
      var k :| 0 <= k < |recent| && recent[k] == e;
    }
  }

  ghost predicate SomeLive(recent: seq<Recent>) {
    exists k :: 0 <= k < |recent| && Live(recent[k].status)
  }

  ghost predicate SomeYoung(recent: seq<Recent>, cooldownSec: int, now: int) {
    exists k :: 0 <= k < |recent| && Counts(recent[k].status) && now - recent[k].createdAt < cooldownSec * 1000
  }

  /** Which of the history's reasons is given: a live run before the cooldown, the cooldown before the cap. */
  lemma HistoryReasons(action: Action, host: Host, sha: Digest, recent: seq<Recent>, now: int)
    requires Accepts(action, host, sha)
    ensures GuardrailViolation(action, host, sha, recent, now) ==
              if SomeLive(recent) then Some(AlreadyQueued)
              else if SomeYoung(recent, action.cooldownSec, now) then Some(Cooldown)
              else if HourLoad(recent, now) >= action.maxRunsPerHour then Some(RateLimited)
              else None
  {
    LoadIsCounted(recent, now);
    forall k | 0 <= k < |recent| && Counts(recent[k].status) ensures recent[k] in Counted(recent) {
      CountedHas(recent, recent[k]);
    }
    forall e | e in Counted(recent)
      ensures exists k :: 0 <= k < |recent| && Counts(recent[k].status) && recent[k] == e
    {
      CountedHas(recent, e);
      var k :| 0 <= k < |recent| && recent[k] == e;
    }
  }

  /** Which of the policy's reasons is given, and before any of the history's. */
  lemma PolicyReasons(action: Action, host: Host, sha: Digest, recent: seq<Recent>, now: int)
    ensures var v := GuardrailViolation(action, host, sha, recent, now);
            && (v == Some(ActionDisabled) <==> !action.enabled)
            && (v == Some(HostDisabled) <==> action.enabled && !host.enabled)
            && (v == Some(HostNotAccepting) <==> action.enabled && host.enabled && host.mode == Unknown)
            && (v == Some(NotInAllowlist) <==>
                  action.enabled && host.enabled && host.mode == Allowlist && sha !in host.allowlist)
            && (v == Some(OsNotAllowed) <==>
                  && action.enabled && host.enabled
                  && (host.mode == AnyScript || (host.mode == Allowlist && sha in host.allowlist))
                  && action.osFamilies != [] && forall os :: host.os == Some(os) ==> os !in action.osFamilies)
  {
  }

  // ---- The bounded history ---------------------------------------------------------------------

  /** What the history query keeps: runs young enough for either limit, and live ones of any age. */
  predicate Kept(e: Recent, cooldownSec: int, now: int) {
    e.createdAt >= now - Max(3600, cooldownSec) * 1000 || Live(e.status)
  }

  function Bounded(all: seq<Recent>, cooldownSec: int, now: int): seq<Recent> {
    if all == [] then []
    else Bounded(all[..|all|-1], cooldownSec, now) + if Kept(all[|all|-1], cooldownSec, now) then [all[|all|-1]] else []
  }

  lemma BoundedMore(all: seq<Recent>, e: Recent, cooldownSec: int, now: int)
    ensures Bounded(all + [e], cooldownSec, now)
         == Bounded(all, cooldownSec, now) + if Kept(e, cooldownSec, now) then [e] else []
  {
    assert (all + [e])[..|all|] == all;
  }

  lemma {:induction false} BoundedHas(all: seq<Recent>, cooldownSec: int, now: int, e: Recent)
    ensures e in Bounded(all, cooldownSec, now) <==> e in all && Kept(e, cooldownSec, now)
  {
    if all != [] {
      var m := |all| - 1;
      BoundedHas(all[..m], cooldownSec, now, e);
      assert e in all <==> e in all[..m] || e == all[m];
    }
  }

  lemma {:induction false} BoundedLoad(all: seq<Recent>, cooldownSec: int, now: int)
    ensures HourLoad(Bounded(all, cooldownSec, now), now) == HourLoad(all, now)
  {
    if all != [] {
      var m := |all| - 1;
      BoundedLoad(all[..m], cooldownSec, now);
      var front := Bounded(all[..m], cooldownSec, now);
      if Kept(all[m], cooldownSec, now) {
        assert Bounded(all, cooldownSec, now) == front + [all[m]];
        HourLoadMore(front, all[m], now);
      } else {
        assert Bounded(all, cooldownSec, now) == front;
      }
    }
  }

  /** The bounded query gives the verdict of the full history. */
  lemma BoundedIsEnough(action: Action, host: Host, sha: Digest, all: seq<Recent>, now: int)
    ensures GuardrailViolation(action, host, sha, Bounded(all, action.cooldownSec, now), now)
         == GuardrailViolation(action, host, sha, all, now)
  {
    var bounded := Bounded(all, action.cooldownSec, now);
    LoadIsCounted(all, now);
    LoadIsCounted(bounded, now);
    BoundedLoad(all, action.cooldownSec, now);
    forall e: Recent | Live(e.status) || now - e.createdAt < action.cooldownSec * 1000
      ensures e in Counted(bounded) <==> e in Counted(all)
    {
      CountedHas(all, e);
      CountedHas(bounded, e);
      BoundedHas(all, action.cooldownSec, now, e);
    }
  }
}
