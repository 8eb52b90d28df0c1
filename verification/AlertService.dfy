/**
  Evaluating a rule on one series, and people acting on its incidents, as code: each operation is several
  statements, and the lists of events say what happens in between.
  */
module AlertService {
  import opened Common
  import opened Sequences
  import opened Alerts

  datatype Answer = Done | NotFound | InvalidStatus

  /** What people do; evaluations of one series never overlap. */
  predicate ByPeople(e: Event) {
    e.AskToAcknowledge? || e.AskToResolve? || e.HumanWrite?
  }

  ghost predicate AllByOthers(events: seq<Event>, person: nat) {
    forall k :: 0 <= k < |events| && ByPeople(events[k]) ==> events[k].person != person
  }

  ghost predicate AllByPeople(events: seq<Event>) {
    forall k :: 0 <= k < |events| ==> ByPeople(events[k])
  }

  lemma {:induction false} PeopleKeepLooked(before: seq<Event>, events: seq<Event>)
    requires AllByPeople(events)
    ensures Run(before + events).looked == Run(before).looked
  {
    if events == [] {
      assert before + events == before;
    } else {
      var m := |events| - 1;
      PeopleKeepLooked(before, events[..m]);
      SliceMore(before, events, m);
      assert events[..m+1] == events;
      RunMore(before + events[..m], events[m]);
    }
  }

  lemma {:induction false} OthersKeepPerson(before: seq<Event>, events: seq<Event>, person: nat, h: Human)
    requires AllByOthers(events, person) && person in Run(before).humans && Run(before).humans[person] == h
    ensures person in Run(before + events).humans && Run(before + events).humans[person] == h
  {
    if events == [] {
      assert before + events == before;
    } else {
      var m := |events| - 1;
      OthersKeepPerson(before, events[..m], person, h);
      SliceMore(before, events, m);
      assert events[..m+1] == events;
      RunMore(before + events[..m], events[m]);
      NextKeepsPerson(Run(before + events[..m]), events[m], person, h);
    }
  }

  lemma NextKeepsPerson(s: State, e: Event, person: nat, h: Human)
    requires ByPeople(e) ==> e.person != person
    requires person in s.humans && s.humans[person] == h
    ensures person in Next(s, e).humans && Next(s, e).humans[person] == h
  {
  }

  class Series {
    var state: State
    ghost var trace: seq<Event>

    ghost predicate Valid()
      reads this
    {
      state == Run(trace)
    }

    constructor ()
      ensures Valid() && trace == []
    {
      state, trace := State([], None, map[]), [];
    }

    method Execute(e: Event)
      requires Valid()
      modifies this
      ensures Valid() && trace == old(trace) + [e] && state == Next(old(state), e)
    {
      RunMore(trace, e);
      state, trace := Next(state, e), trace + [e];
    }

    method Elsewhere(events: seq<Event>)
      requires Valid()
      modifies this
      ensures Valid() && trace == old(trace) + events
    {
      for i := 0 to |events|
        invariant Valid() && trace == old(trace) + events[..i]
      {
        SliceMore(old(trace), events, i);
        Execute(events[i]);
      }
      assert events[..|events|] == events;
    }

    method FindUnresolved() returns (found: Option<nat>)
      ensures found == FirstUnresolved(state.incidents)
    {
      var incidents := state.incidents;
      found := None;
      for k := 0 to |incidents|
        invariant found == FirstUnresolved(incidents[..k])
      {
        assert incidents[..k+1][..k] == incidents[..k];
        if found.None? && incidents[k].status != Resolved { found := Some(k); }
      }
      assert incidents[..|incidents|] == incidents;
    }

    /** Read the history and look for an unresolved incident. */
    method LookUp(condition: Condition, value: real, history: seq<Point>, durationSec: int, now: int)
      returns (l: Looked)
      requires Valid() && state.looked.None?
      modifies this
      ensures Valid() && trace == old(trace) + [Look(condition, value, history, durationSec, now)]
      ensures state == old(state).(looked := Some(l))
    {
      var holds := v => ConditionHolds(condition, v);
      var since := StreakSince(Cut(history), holds);
      var sustained := IsSustained(since, durationSec, now);
      var found := FindUnresolved();
      l := Looked(condition, value, now, sustained, found);
      RunMore(trace, Look(condition, value, history, durationSec, now));
      state := state.(looked := Some(l));
      trace := trace + [Look(condition, value, history, durationSec, now)];
    }

    /** Open, update or resolve, on what was looked up. */
    method Write(l: Looked)
      requires Valid() && state.looked == Some(l)
      modifies this
      ensures Valid() && trace == old(trace) + [Act] && state.looked.None?
      ensures state.incidents == Acted(old(state.incidents), l)
    {
      RunMore(trace, Act);
      var incidents := state.incidents;
      if l.sustained && l.found.None? {
        incidents := incidents + [Incident(Open, l.now, l.value, l.value, [l.value])];
      } else if l.sustained && l.found.value < |incidents| {
        var i := incidents[l.found.value];
        incidents := incidents[l.found.value := i.(triggerValue := l.value,
                                                   peakValue := WorstFor(l.condition, i.peakValue, l.value),
                                                   seen := i.seen + [l.value])];
      } else if !l.sustained && l.found.Some? && l.found.value < |incidents| {
        incidents := incidents[l.found.value := incidents[l.found.value].(status := Resolved)];
      }
      state := State(incidents, None, state.humans);
      trace := trace + [Act];
    }

    /** One evaluation, people acting between its read and its write: one unresolved incident at most is left. */
    method Evaluate(condition: Condition, value: real, history: seq<Point>, durationSec: int, now: int,
                    between: seq<Event>)
      requires Valid() && state.looked.None? && AllByPeople(between)
      modifies this
      ensures Valid() && state.looked.None?
      ensures trace == old(trace) + [Look(condition, value, history, durationSec, now)] + between + [Act]
      ensures NoneLate(trace) ==> OneUnresolved(state.incidents)
      ensures var look := Look(condition, value, history, durationSec, now);
              NewestFirst(history) ==>
                var before := Run(old(trace) + [look] + between).incidents;
                && OpensWhenDue(old(state.incidents), look, before, state.incidents)
                && ResolvesWhenOver(old(state.incidents), look, before, state.incidents)
      ensures NewestFirst(history) && (history == [] || !ConditionHolds(condition, history[0].value)) ==>
                forall k: nat :: FirstOne(old(state.incidents), k) ==>
                  k < |state.incidents| && state.incidents[k].status == Resolved
    {
      ghost var look := Look(condition, value, history, durationSec, now);
      if NewestFirst(history) { EvaluationSettles(trace, look, between); }
      if history == [] || !ConditionHolds(condition, history[0].value) { NoStreak(look); }
      var l := LookUp(condition, value, history, durationSec, now);
      PeopleKeepLooked(trace, between);
      Elsewhere(between);
      Write(l);
      if NoneLate(trace) { AtMostOneUnresolved(trace); }
    }

    /** Acknowledge an open incident; the status may change between the read and the write. */
    method AcknowledgeIncident(person: nat, id: nat, between: seq<Event>) returns (r: Answer)
      requires Valid() && person !in state.humans && AllByOthers(between, person)
      modifies this
      ensures Valid()
      ensures r.NotFound? <==> id >= |old(state.incidents)|
      ensures r.Done? <==> id < |old(state.incidents)| && old(state.incidents)[id].status == Open
      ensures r.Done? ==> trace == old(trace) + [AskToAcknowledge(person, id)] + between + [HumanWrite(person)]
                          && id < |state.incidents| && state.incidents[id].status == Acknowledged
      ensures !r.Done? ==> state == old(state) && trace == old(trace)
    {
      if id >= |state.incidents| { return NotFound; }
      if state.incidents[id].status != Open { return InvalidStatus; }
      Execute(AskToAcknowledge(person, id));
      StillListed(trace, between, id);
      OthersKeepPerson(trace, between, person, Acknowledging(id));
      Elsewhere(between);
      Execute(HumanWrite(person));
      return Done;
    }

    /** Resolve an incident that is not resolved yet. */
    method ResolveIncident(person: nat, id: nat, between: seq<Event>) returns (r: Answer)
      requires Valid() && person !in state.humans && AllByOthers(between, person)
      modifies this
      ensures Valid()
      ensures r.NotFound? <==> id >= |old(state.incidents)|
      ensures r.Done? <==> id < |old(state.incidents)| && old(state.incidents)[id].status != Resolved
      ensures r.Done? ==> trace == old(trace) + [AskToResolve(person, id)] + between + [HumanWrite(person)]
                          && id < |state.incidents| && state.incidents[id].status == Resolved
      ensures !r.Done? ==> state == old(state) && trace == old(trace)
    {
      if id >= |state.incidents| { return NotFound; }
      if state.incidents[id].status == Resolved { return InvalidStatus; }
      Execute(AskToResolve(person, id));
      StillListed(trace, between, id);
      OthersKeepPerson(trace, between, person, Resolving(id));
      Elsewhere(between);
      Execute(HumanWrite(person));
      return Done;
    }
  }

  /** Incidents are never removed. */
  lemma {:induction false} StillListed(before: seq<Event>, events: seq<Event>, id: nat)
    requires id < |Run(before).incidents|
    ensures id < |Run(before + events).incidents|
  {
    if events == [] {
      assert before + events == before;
    } else {
      var m := |events| - 1;
      StillListed(before, events[..m], id);
      SliceMore(before, events, m);
      assert events[..m+1] == events;
      RunMore(before + events[..m], events[m]);
      NextListsMore(Run(before + events[..m]), events[m]);
    }
  }

  lemma EvaluationAt(start: seq<Event>, look: Event, between: seq<Event>)
    requires look.Look? && Run(start).looked.None? && AllByPeople(between)
    ensures var events := start + [look] + between + [Act];
            var l, a := |start|, |events| - 1;
            && events[..l] == start && events[l] == look
            && events[..a] == start + [look] + between && events[..a+1] == events
            && Evaluates(events, l, a)
  {
    var events := start + [look] + between + [Act];
    var l, a := |start|, |events| - 1;
    assert events[..l] == start;
    forall j | l < j < a ensures !events[j].Act? { assert events[j] == between[j-l-1] && ByPeople(between[j-l-1]); }
  }

  lemma EvaluationSettles(start: seq<Event>, look: Event, between: seq<Event>)
    requires look.Look? && NewestFirst(look.history) && Run(start).looked.None? && AllByPeople(between)
    ensures var before, after := Run(start + [look] + between), Run(start + [look] + between + [Act]);
            && OpensWhenDue(Run(start).incidents, look, before.incidents, after.incidents)
            && ResolvesWhenOver(Run(start).incidents, look, before.incidents, after.incidents)
  {
    var events := start + [look] + between + [Act];
    EvaluationAt(start, look, between);
    OpensExactly(events, |start|, |events| - 1);
    ResolvesExactly(events, |start|, |events| - 1);
  }
}
