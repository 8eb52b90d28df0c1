/**
  A worker serving one incident's narrative, as code: the claim and each step of serving are separate
  statements, and the lists of events say what everyone else does in between.
  */
module NarrativeService {
  import opened Common
  import opened Sequences
  import opened Narratives

  datatype Reply = Answered(text: Text) | Refused | Failed(now: int)
  datatype Served = Stored | Stale | WasRefused | HasFailed

  predicate Foreign(e: Event, session: nat) {
    (e.Claim? || e.Read? || e.Feed? || e.Store? || e.Refuse? || e.Fail? || e.Crash?) ==> e.session != session
  }

  ghost predicate AllForeign(events: seq<Event>, session: nat) {
    forall k :: 0 <= k < |events| ==> Foreign(events[k], session)
  }

  ghost predicate At(s: State, session: nat, w: Session) {
    session in s.sessions && s.sessions[session] == w
  }

  lemma ForeignKeeps(s: State, e: Event, session: nat, w: Session)
    requires Foreign(e, session) && At(s, session, w)
    ensures At(Next(s, e), session, w)
  {
  }

  lemma {:induction false} OthersKeep(before: seq<Event>, events: seq<Event>, session: nat, w: Session)
    requires AllForeign(events, session) && At(Run(before), session, w)
    ensures At(Run(before + events), session, w)
  {
    if events == [] {
      assert before + events == before;
    } else {
      var m := |events| - 1;
      OthersKeep(before, events[..m], session, w);
      SliceMore(before, events, m);
      assert events[..m+1] == events;
      RunMore(before + events[..m], events[m]);
      ForeignKeeps(Run(before + events[..m]), events[m], session, w);
    }
  }

  class Worker {
    var state: State
    ghost var trace: seq<Event>

    ghost predicate Valid()
      reads this
    {
      state == Run(trace)
    }

    constructor ()
      ensures Valid() && trace == []
    {
      state, trace := START, [];
    }

    method Execute(e: Event)
      requires Valid()
      modifies this
      ensures Valid() && trace == old(trace) + [e] && state == Next(old(state), e)
    {
      RunMore(trace, e);
      state, trace := Next(state, e), trace + [e];
    }

    method Elsewhere(events: seq<Event>)
      requires Valid()
      modifies this
      ensures Valid() && trace == old(trace) + events
    {
      for i := 0 to |events|
        invariant Valid() && trace == old(trace) + events[..i]
      {
        SliceMore(old(trace), events, i);
        Execute(events[i]);
      }
      assert events[..|events|] == events;
    }

    /** Win the lease, then read the row that was won. */
    method ClaimRequest(session: nat, settledBefore: int, now: int, between: seq<Event>) returns (claimed: bool)
      requires Valid() && session !in state.sessions && AllForeign(between, session)
      modifies this
      ensures Valid()
      ensures claimed <==> Due(old(state).incident, settledBefore)
      ensures claimed ==> trace == old(trace) + [Claim(session, settledBefore, now)] + between + [Read(session)]
                          && At(state, session, Informed(state.incident.generatedAt, state.incident.attempts))
      ensures !claimed ==> state == old(state)
    {
      claimed := Due(state.incident, settledBefore);
      Execute(Claim(session, settledBefore, now));
      if !claimed { return; }
      OthersKeep(trace, between, session, Leased);
      Elsewhere(between);
      Execute(Read(session));
    }

    /** Write the reply of a fed worker, if the stamp it read is still the incident's. */
    method WriteReply(session: nat, reply: Reply) returns (r: Served)
      requires Valid() && session in state.sessions && state.sessions[session].Fed?
      modifies this
      ensures Valid() && session !in state.sessions && trace == old(trace) + [WriteOf(session, reply)]
      ensures var w, before := old(state).sessions[session], old(state).incident;
              && ResultIs(r, reply, before.generatedAt == w.stamp)
              && state.incident == Replied(before, before.generatedAt == w.stamp, reply, w.attempts, w.about)
    {
      var current := Current(state, session);
      match reply {
        case Answered(text) =>
          Execute(Store(session, text));
          return if current then Stored else Stale;
        case Refused =>
          Execute(Refuse(session));
          return WasRefused;
        case Failed(now) =>
          Execute(Fail(session, now));
          return HasFailed;
      }
    }

    /**
      Feed the model with the findings of the moment, and write its reply if their stamp has not changed.
      Without findings there is nothing to describe and the request is withdrawn; otherwise the answer is
      stored exactly when it is one and the stamp read is still the incident's, and any other reply leaves
      the narrative as it was.
      */
    method ServeNarrative(session: nat, reply: Reply, beforeFeed: seq<Event>, beforeWrite: seq<Event>)
      returns (r: Served)
      requires Valid() && session in state.sessions && state.sessions[session].Informed?
      requires AllForeign(beforeFeed, session) && AllForeign(beforeWrite, session)
      modifies this
      ensures Valid() && session !in state.sessions
      ensures ServedAs(old(trace), old(state).sessions[session], session, reply, beforeFeed, beforeWrite, trace, r)
      ensures r.Stored? && Safe(Gens(trace)) ==>
                state.incident.narrative.Some?
                && state.incident.findings == Some(state.incident.narrative.value.about)
    {
      OthersKeep(trace, beforeFeed, session, state.sessions[session]);
      Elsewhere(beforeFeed);
      Execute(Feed(session));
      if session !in state.sessions { return Stale; }
      OthersKeep(trace, beforeWrite, session, state.sessions[session]);
      Elsewhere(beforeWrite);
      r := WriteReply(session, reply);
      if Safe(Gens(trace)) { NarrativeMatches(trace); }
    }
  }

  function WriteOf(session: nat, reply: Reply): Event {
    match reply
    case Answered(text) => Store(session, text)
    case Refused => Refuse(session)
    case Failed(now) => Fail(session, now)
  }

  /** An answer is stored when the stamp is current and stale otherwise; a refusal and a failure are told as such. */
  ghost predicate ResultIs(r: Served, reply: Reply, current: bool) {
    && (r.Stored? <==> reply.Answered? && current)
    && (r.WasRefused? <==> reply.Refused?) && (r.HasFailed? <==> reply.Failed?)
  }

  /** The incident once a reply about `about` is written, or lost to newer findings. */
  ghost function Replied(i: Incident, current: bool, reply: Reply, attempts: nat, about: Findings): Incident {
    if !current then i
    else
      match reply
      case Answered(text) => i.(narrative := Some(Narrative(text, about)), requestedAt := None)
      case Refused => i.(requestedAt := None)
      case Failed(now) =>
        i.(requestedAt := if attempts >= MAX_ATTEMPTS then None
                          else Some(now + attempts * 2 * 60 * 1000 - SETTLE_MS))
  }

  /** Everything serving does, from the run `before` it to the run `after` it, for a worker `w`. */
  ghost predicate ServedAs(before: seq<Event>, w: Session, session: nat, reply: Reply, beforeFeed: seq<Event>,
                           beforeWrite: seq<Event>, after: seq<Event>, r: Served)
    requires w.Informed?
  {
    var fed := before + beforeFeed + [Feed(session)];
    var atFeed := Run(before + beforeFeed).incident;
    if atFeed.findings.None? then
      r == Stale && after == fed && Run(after).incident == atFeed.(requestedAt := None)
    else
      var atWrite := Run(fed + beforeWrite).incident;
      var current := atWrite.generatedAt == w.stamp;
      && ResultIs(r, reply, current)
      && after == fed + beforeWrite + [WriteOf(session, reply)]
      && Run(after).incident == Replied(atWrite, current, reply, w.attempts, atFeed.findings.value)
  }
}
