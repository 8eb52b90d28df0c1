/**
  Claiming due endpoint checks. A claim locks due rows that nobody else has locked and, when it commits,
  pushes their next run one interval ahead; any number of runners overlap, and people edit checks.
  */
module Checks {
  import opened Common
  import opened Sequences

  type CheckId(==, !new)

  /** `claimedAt` is a history: the last claim since the check was last edited. */
  datatype Check = Check(enabled: bool, nextRunAt: Option<int>, intervalSec: int, claimedAt: Option<int>)

  /** A claiming statement under way: its clock and the rows it has locked. */
  datatype Attempt = Attempt(now: int, ids: set<CheckId>)

  datatype State = State(checks: map<CheckId, Check>, attempts: map<nat, Attempt>)

  datatype Event =
    | Begin(runner: nat, now: int, limit: int, wanted: set<CheckId>)
    | Commit(runner: nat)
    | RollBack(runner: nat)
    | Edit(id: CheckId, enabled: bool, nextRunAt: Option<int>, intervalSec: int)
    | Delete(id: CheckId)

  predicate Due(c: Check, now: int) {
    c.enabled && (c.nextRunAt.None? || c.nextRunAt.value <= now)
  }

  predicate IsLocked(s: State, id: CheckId) {
    exists r :: r in s.attempts && id in s.attempts[r].ids
  }

  /** A statement may lock any set of due rows within its limit that skips locked ones. */
  predicate MayLock(s: State, now: int, limit: int, wanted: set<CheckId>) {
    |wanted| <= limit && forall id :: id in wanted ==> id in s.checks && Due(s.checks[id], now) && !IsLocked(s, id)
  }

  function Claimed(c: Check, now: int): Check {
    c.(nextRunAt := Some(now + c.intervalSec * 1000), claimedAt := Some(now))
  }

  function Next(s: State, e: Event): State {
    match e
    case Begin(runner, now, limit, wanted) =>
      if runner in s.attempts || !MayLock(s, now, limit, wanted) then s
      else s.(attempts := s.attempts[runner := Attempt(now, wanted)])
    case Commit(runner) =>
      if runner !in s.attempts then s
      else
        var a := s.attempts[runner];
        State(map id | id in s.checks :: if id in a.ids then Claimed(s.checks[id], a.now) else s.checks[id],
              s.attempts - {runner})
    case RollBack(runner) => s.(attempts := s.attempts - {runner})
    case Edit(id, enabled, nextRunAt, intervalSec) =>
      if IsLocked(s, id) then s
      else s.(checks := s.checks[id := Check(enabled, nextRunAt, intervalSec, None)])
    case Delete(id) => if IsLocked(s, id) then s else s.(checks := s.checks - {id})
  }

  function Run(events: seq<Event>): State {
    if events == [] then State(map[], map[]) else Next(Run(events[..|events|-1]), events[|events|-1])
  }

  /** Concurrent runners hold disjoint sets, and what they hold is still due. */
  ghost predicate Disjoint(s: State) {
    && (forall p, q :: p in s.attempts && q in s.attempts && p != q ==> s.attempts[p].ids !! s.attempts[q].ids)
    && (forall r, id :: r in s.attempts && id in s.attempts[r].ids ==>
          id in s.checks && Due(s.checks[id], s.attempts[r].now))
  }

  lemma NextIsDisjoint(s: State, e: Event)
    requires Disjoint(s)
    ensures Disjoint(Next(s, e))
  {
    var s' := Next(s, e);
    forall p, q | p in s'.attempts && q in s'.attempts && p != q ensures s'.attempts[p].ids !! s'.attempts[q].ids {
      if e.Begin? && p !in s.attempts { assert forall id :: id in s.attempts[q].ids ==> IsLocked(s, id); }
      if e.Begin? && q !in s.attempts { assert forall id :: id in s.attempts[p].ids ==> IsLocked(s, id); }
    }
    forall r, id | r in s'.attempts && id in s'.attempts[r].ids
      ensures id in s'.checks && Due(s'.checks[id], s'.attempts[r].now)
    {
      if r in s.attempts { assert IsLocked(s, id); }
    }
  }

  lemma {:induction false} RunIsDisjoint(events: seq<Event>)
    ensures Disjoint(Run(events))
  {
    if events != [] {
      RunIsDisjoint(events[..|events|-1]);
      NextIsDisjoint(Run(events[..|events|-1]), events[|events|-1]);
    }
  }

  /** A check claimed since its last edit is next due one interval after that claim. */
  ghost predicate Scheduled(c: Check) {
    c.claimedAt.Some? ==> c.nextRunAt == Some(c.claimedAt.value + c.intervalSec * 1000)
  }

  lemma {:induction false} RunIsScheduled(events: seq<Event>, id: CheckId)
    requires id in Run(events).checks
    ensures Scheduled(Run(events).checks[id])
  {
    var front := events[..|events|-1];
    if id in Run(front).checks { RunIsScheduled(front, id); }
  }

  /** Two claims of a check with no edit in between are at least its interval apart, whatever the clocks say. */
  lemma ClaimsAreApart(events: seq<Event>, runner: nat, id: CheckId)
    requires var s := Run(events); runner in s.attempts && id in s.attempts[runner].ids
    ensures id in Run(events).checks
    ensures var s := Run(events);
            var before, after := s.checks[id], Next(s, Commit(runner)).checks[id];
            && after.claimedAt == Some(s.attempts[runner].now)
            && (before.claimedAt.Some? ==> after.claimedAt.value - before.claimedAt.value >= before.intervalSec * 1000)
  {
    RunIsDisjoint(events);
    RunIsScheduled(events, id);
  }

  lemma RunMore(events: seq<Event>, e: Event)
    ensures Run(events + [e]) == Next(Run(events), e)
  {
    assert (events + [e])[..|events|] == events;
  }

  /**
    At any moment a runner may take any due checks within its limit that nobody holds; when it is done
    exactly those are next due one interval after its clock, and the others are as they were.
    */
  lemma ClaimAdvances(events: seq<Event>, runner: nat, now: int, limit: int, wanted: set<CheckId>)
    requires var s := Run(events);
             && runner !in s.attempts && |wanted| <= limit
             && forall id :: id in wanted ==>
                  && id in s.checks && s.checks[id].enabled
                  && (s.checks[id].nextRunAt.None? || s.checks[id].nextRunAt.value <= now)
                  && forall r :: r in s.attempts ==> id !in s.attempts[r].ids
    ensures var s, s' := Run(events), Run(events + [Begin(runner, now, limit, wanted)] + [Commit(runner)]);
            && s'.attempts == s.attempts && s'.checks.Keys == s.checks.Keys
            && forall id :: id in s.checks ==>
                 s'.checks[id] == if id in wanted
                                  then s.checks[id].(nextRunAt := Some(now + s.checks[id].intervalSec * 1000),
                                                     claimedAt := Some(now))
                                  else s.checks[id]
  {
    RunMore(events, Begin(runner, now, limit, wanted));
    RunMore(events + [Begin(runner, now, limit, wanted)], Commit(runner));
  }

  // ---- Probes in flight ------------------------------------------------------------------------

  /**
    One runner's loop. It asks for checks with a limit fixed at that moment and waits for the answer; probes
    end at any time, while it waits too. `asked` is the limit of the claim under way.
    */
  datatype Loop = Loop(inFlight: set<nat>, asked: Option<int>)

  /** `Answered` starts one probe per check claimed; a claim that fails starts none. */
  datatype Turn = Ask | Answered(probes: set<nat>) | ClaimFailed | Ended(probe: nat)

  /** A claim returns at most as many checks as its limit, and none for a limit that is not positive. */
  predicate WithinLimit(limit: int, probes: set<nat>) {
    |probes| <= Max(0, limit)
  }

  function NextTurn(l: Loop, concurrency: int, e: Turn): Loop {
    match e
    case Ask => if l.asked.Some? then l else l.(asked := Some(concurrency - |l.inFlight|))
    case Answered(probes) =>
      if l.asked.None? || !WithinLimit(l.asked.value, probes) then l else Loop(l.inFlight + probes, None)
    case ClaimFailed => l.(asked := None)
    case Ended(probe) => l.(inFlight := l.inFlight - {probe})
  }

  function RunLoop(concurrency: int, turns: seq<Turn>): Loop {
    if turns == [] then Loop({}, None)
    else NextTurn(RunLoop(concurrency, turns[..|turns|-1]), concurrency, turns[|turns|-1])
  }

  /** There is room for the probes in flight and for those a claim under way may bring. */
  ghost predicate HasRoom(l: Loop, concurrency: int) {
    |l.inFlight| <= concurrency && (l.asked.Some? ==> |l.inFlight| + Max(0, l.asked.value) <= concurrency)
  }

  lemma UnionSize(a: set<nat>, b: set<nat>)
    ensures |a + b| <= |a| + |b|
  {
    assert a + b == a + (b - a);
    assert |b - a| <= |b| by { SubsetSize(b - a, b); }
  }

  lemma NextHasRoom(l: Loop, concurrency: int, e: Turn)
    requires HasRoom(l, concurrency)
    ensures HasRoom(NextTurn(l, concurrency, e), concurrency)
  {
    match e
    case Answered(probes) => UnionSize(l.inFlight, probes);
    case Ended(probe) => SubsetSize(l.inFlight - {probe}, l.inFlight);
    case _ =>
  }

  /**
    Over every run of the loop, whatever the claims return and whenever probes end, at most `concurrency`
    are in flight.
    */
  lemma {:induction false} InFlightIsBounded(concurrency: nat, turns: seq<Turn>)
    ensures HasRoom(RunLoop(concurrency, turns), concurrency)
    ensures |RunLoop(concurrency, turns).inFlight| <= concurrency
  {
    if turns != [] {
      InFlightIsBounded(concurrency, turns[..|turns|-1]);
      NextHasRoom(RunLoop(concurrency, turns[..|turns|-1]), concurrency, turns[|turns|-1]);
    }
  }

  /** The loop as code: the limit is fixed before the wait, during which probes end. */
  class Runner {
    const concurrency: nat
    var inFlight: set<nat>
    ghost var turns: seq<Turn>

    ghost predicate Valid()
      reads this
    {
      RunLoop(concurrency, turns) == Loop(inFlight, None)
    }

    constructor (concurrency: nat)
      ensures Valid() && this.concurrency == concurrency && inFlight == {} && turns == []
    {
      this.concurrency := concurrency;
      inFlight, turns := {}, [];
    }

    /** One tick: claim, wait while the probes of `during` end, start what was claimed. */
    method Tick(during: seq<nat>, claimed: set<nat>)
      requires Valid()
      requires claimed == {} || |claimed| <= concurrency - |inFlight|
      modifies this
      ensures Valid() && |inFlight| <= concurrency
      ensures turns == old(turns) + [Ask] + Endings(during) + [Answered(claimed)]
      ensures inFlight == (old(inFlight) - Elements(during)) + claimed
    {
      var limit := concurrency - |inFlight|;
      TurnMore(concurrency, turns, Ask);
      turns := turns + [Ask];
      Wait(limit, during);
      Start(limit, claimed);
      InFlightIsBounded(concurrency, turns);
    }

    /** Start what was claimed. */
    method Start(ghost limit: int, claimed: set<nat>)
      requires RunLoop(concurrency, turns) == Loop(inFlight, Some(limit)) && WithinLimit(limit, claimed)
      modifies this
      ensures Valid() && turns == old(turns) + [Answered(claimed)] && inFlight == old(inFlight) + claimed
    {
      TurnMore(concurrency, turns, Answered(claimed));
      turns := turns + [Answered(claimed)];
      inFlight := inFlight + claimed;
    }

    /** Probes end while the claim is under way. */
    method Wait(ghost limit: int, during: seq<nat>)
      requires RunLoop(concurrency, turns) == Loop(inFlight, Some(limit))
      modifies this
      ensures RunLoop(concurrency, turns) == Loop(inFlight, Some(limit))
      ensures turns == old(turns) + Endings(during) && inFlight == old(inFlight) - Elements(during)
    {
      for k := 0 to |during|
        invariant RunLoop(concurrency, turns) == Loop(inFlight, Some(limit))
        invariant turns == old(turns) + Endings(during[..k]) && inFlight == old(inFlight) - Elements(during[..k])
      {
        EndingsMore(during, k);
        EndedMore(old(turns), Endings(during[..k]), old(inFlight), Elements(during[..k]), during[k]);
        End(during[k], limit);
      }
      assert during[..|during|] == during;
    }

    method End(probe: nat, ghost limit: int)
      requires RunLoop(concurrency, turns) == Loop(inFlight, Some(limit))
      modifies this
      ensures RunLoop(concurrency, turns) == Loop(inFlight, Some(limit))
      ensures turns == old(turns) + [Ended(probe)] && inFlight == old(inFlight) - {probe}
    {
      TurnMore(concurrency, turns, Ended(probe));
      turns := turns + [Ended(probe)];
      inFlight := inFlight - {probe};
    }
  }

  lemma EndedMore(turns: seq<Turn>, endings: seq<Turn>, inFlight: set<nat>, ended: set<nat>, probe: nat)
    ensures turns + endings + [Ended(probe)] == turns + (endings + [Ended(probe)])
    ensures inFlight - ended - {probe} == inFlight - (ended + {probe})
  {
  }

  lemma TurnMore(concurrency: int, turns: seq<Turn>, e: Turn)
    ensures RunLoop(concurrency, turns + [e]) == NextTurn(RunLoop(concurrency, turns), concurrency, e)
  {
    assert (turns + [e])[..|turns|] == turns;
  }

  function Endings(probes: seq<nat>): seq<Turn> {
    if probes == [] then [] else Endings(probes[..|probes|-1]) + [Ended(probes[|probes|-1])]
  }

  lemma EndingsMore(probes: seq<nat>, k: nat)
    requires k < |probes|
    ensures Endings(probes[..k+1]) == Endings(probes[..k]) + [Ended(probes[k])]
    ensures Elements(probes[..k+1]) == Elements(probes[..k]) + {probes[k]}
  {
    assert probes[..k+1][..k] == probes[..k];
    assert probes[..k+1] == probes[..k] + [probes[k]];
  }
}
