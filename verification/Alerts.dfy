/**
  One alert rule on one series: when a breach counts as sustained, and the incidents it opens, updates
  and resolves while people acknowledge and resolve them. Times are milliseconds.
  */
module Alerts {
  import opened Common
  import Baseline

  datatype Operator = GT | GTE | LT | LTE | EQ | NEQ
  datatype Limit = Limit(operator: Operator, value: real)

  /** A baseline that has been computed: its scale has a positive floor. */
  type Learned = s: Baseline.Summary | s.scale > 0.0 witness Baseline.Summary(0.0, 1.0, 30)
  datatype Detector = Detector(baseline: Option<Learned>, sensitivity: Baseline.Sensitivity)

  datatype Condition = Condition(threshold: Option<Limit>, anomaly: Option<Detector>)
  datatype Point = Point(time: int, value: real)

  const HISTORY_LOOKBACK_POINTS := 500

  predicate Breaches(operator: Operator, value: real, threshold: real) {
    match operator
    case GT => value > threshold
    case GTE => value >= threshold
    case LT => value < threshold
    case LTE => value <= threshold
    case EQ => value == threshold
    case NEQ => value != threshold
  }

  /** The detector calls the value anomalous. */
  predicate Flags(detector: Detector, value: real)
    requires detector.baseline.Some?
  {
    Baseline.Assess(value, detector.baseline.value, detector.sensitivity).anomalous
  }

  predicate ConditionHolds(condition: Condition, value: real) {
    if condition.threshold.Some?
       && !Breaches(condition.threshold.value.operator, value, condition.threshold.value.value) then false
    else if condition.anomaly.Some? && condition.anomaly.value.baseline.None? then false
    else if condition.anomaly.Some?
            && !Flags(condition.anomaly.value, value) then false
    else condition.threshold.Some? || condition.anomaly.Some?
  }

  /**
    A limit and an anomaly must both hold when both are asked for; while the detector is still learning the
    anomaly does not, and a rule that asks for neither never fires.
    */
  lemma BothMustHold(condition: Condition, value: real)
    ensures ConditionHolds(condition, value) <==>
              && (condition.threshold.Some? || condition.anomaly.Some?)
              && (condition.threshold.Some? ==>
                    Breaches(condition.threshold.value.operator, value, condition.threshold.value.value))
              && (condition.anomaly.Some? ==>
                    var d := condition.anomaly.value;
                    && d.baseline.Some?
                    && AbsReal(value - d.baseline.value.median)
                       >= Baseline.Threshold(d.sensitivity) * d.baseline.value.scale)
  {
    if condition.anomaly.Some? && condition.anomaly.value.baseline.Some? {
      var d := condition.anomaly.value;
      Baseline.FarIsAnomalous(value, d.baseline.value, d.sensitivity);
    }
  }

  // ---- Streaks ---------------------------------------------------------------------------------

  /** How many of the newest points hold without a break; `points` are newest first. */
  function Streak(points: seq<Point>, holds: real -> bool): (n: nat)
    ensures n <= |points|
  {
    if points == [] || !holds(points[0].value) then 0 else 1 + Streak(points[1..], holds)
  }

  /** The streak is the longest unbroken one: everything in it holds, and what comes before it does not. */
  lemma {:induction false} StreakIsMaximal(points: seq<Point>, holds: real -> bool)
    ensures var n := Streak(points, holds);
            && (forall k :: 0 <= k < n ==> holds(points[k].value))
            && (n < |points| ==> !holds(points[n].value))
  {
    if points != [] && holds(points[0].value) {
      var n := Streak(points[1..], holds);
      StreakIsMaximal(points[1..], holds);
      assert forall k :: 1 <= k < n + 1 ==> points[k] == points[1..][k-1];
      assert n + 1 < |points| ==> points[n+1] == points[1..][n];
    }
  }

  function Since(points: seq<Point>, holds: real -> bool): Option<int> {
    var n := Streak(points, holds);
    if n == 0 then None else Some(points[n-1].time)
  }

  method StreakSince(pointsDesc: seq<Point>, holds: real -> bool) returns (since: Option<int>)
    ensures since == Since(pointsDesc, holds)
  {
    since := None;
    ghost var n := Streak(pointsDesc, holds);
    StreakIsMaximal(pointsDesc, holds);
    for i := 0 to |pointsDesc|
      invariant i <= n && since == if i == 0 then None else Some(pointsDesc[i-1].time)
    {
      if !holds(pointsDesc[i].value) { break; }
      since := Some(pointsDesc[i].time);
    }
  }

  predicate IsSustained(since: Option<int>, durationSec: int, now: int) {
    since.Some? && now - since.value >= durationSec * 1000
  }

  function Cut(points: seq<Point>): seq<Point> {
    if |points| <= HISTORY_LOOKBACK_POINTS then points else points[..HISTORY_LOOKBACK_POINTS]
  }

  lemma {:induction false} CutStreak(points: seq<Point>, k: nat, holds: real -> bool)
    requires k <= |points|
    ensures Streak(points[..k], holds) == if Streak(points, holds) < k then Streak(points, holds) else k
    decreases k
  {
    if k > 0 && holds(points[0].value) {
      assert points[..k][1..] == points[1..][..k-1];
      CutStreak(points[1..], k - 1, holds);
    }
  }

  ghost predicate NewestFirst(points: seq<Point>) {
    forall i, j :: 0 <= i < j < |points| ==> points[i].time >= points[j].time
  }

  /**
    Cutting the history never makes a breach look sustained when the whole history does not; it hides
    a sustained one exactly when the streak fills the lookback and the oldest point kept is too recent.
    */
  lemma CutIsSafe(points: seq<Point>, holds: real -> bool, durationSec: int, now: int)
    requires NewestFirst(points)
    ensures IsSustained(Since(Cut(points), holds), durationSec, now) <==>
              IsSustained(Since(points, holds), durationSec, now)
              && (Streak(points, holds) > HISTORY_LOOKBACK_POINTS ==>
                    now - points[HISTORY_LOOKBACK_POINTS-1].time >= durationSec * 1000)
  {
    if |points| > HISTORY_LOOKBACK_POINTS {
      CutStreak(points, HISTORY_LOOKBACK_POINTS, holds);
      var n := Streak(points, holds);
      if n > HISTORY_LOOKBACK_POINTS { assert points[HISTORY_LOOKBACK_POINTS-1].time >= points[n-1].time; }
    }
  }

  // ---- Incidents -------------------------------------------------------------------------------

  datatype Status = Open | Acknowledged | Resolved

  /** `seen` is a history: the values evaluated for this incident since it opened, the opening one first. */
  datatype Incident = Incident(status: Status, startedAt: int, triggerValue: real, peakValue: real, seen: seq<real>)

  /** What an evaluation has established before it writes. */
  datatype Looked = Looked(condition: Condition, value: real, now: int, sustained: bool, found: Option<nat>)

  /** A person's transaction: it has read the status and is about to write. */
  datatype Human = Acknowledging(id: nat) | Resolving(id: nat)

  datatype State = State(incidents: seq<Incident>, looked: Option<Looked>, humans: map<nat, Human>)

  datatype Event =
    | Look(condition: Condition, value: real, history: seq<Point>, durationSec: int, now: int)
    | Act
    | AskToAcknowledge(person: nat, id: nat)
    | AskToResolve(person: nat, id: nat)
    | HumanWrite(person: nat)

  ghost predicate Unresolved(incidents: seq<Incident>, id: nat) {
    id < |incidents| && incidents[id].status != Resolved
  }

  ghost predicate AllResolved(incidents: seq<Incident>) {
    forall k :: 0 <= k < |incidents| ==> incidents[k].status == Resolved
  }

  /** `findFirst` on the unresolved incidents. */
  function FirstUnresolved(incidents: seq<Incident>): Option<nat> {
    if incidents == [] then None
    else
      var m := |incidents| - 1;
      var earlier := FirstUnresolved(incidents[..m]);
      if earlier.Some? then earlier
      else if incidents[m].status != Resolved then Some(m) else None
  }

  lemma {:induction false} FirstUnresolvedIs(incidents: seq<Incident>)
    ensures var r := FirstUnresolved(incidents);
            && (r.Some? ==> Unresolved(incidents, r.value))
            && (r.None? <==> AllResolved(incidents))
  {
    if incidents != [] { FirstUnresolvedIs(incidents[..|incidents|-1]); }
  }

  /** The worse of two values, in the direction of the threshold, or else of the anomaly. */
  function WorstFor(condition: Condition, a: real, b: real): real {
    if condition.threshold.Some? then
      match condition.threshold.value.operator
      case GT => MaxReal(a, b)
      case GTE => MaxReal(a, b)
      case LT => MinReal(a, b)
      case LTE => MinReal(a, b)
      case _ => b
    else if condition.anomaly.Some? && condition.anomaly.value.baseline.Some? then
      var detector := condition.anomaly.value;
      var z := Baseline.Assess(b, detector.baseline.value, detector.sensitivity).z;
      if z >= 0.0 then MaxReal(a, b) else MinReal(a, b)
    else b
  }

  function Acted(incidents: seq<Incident>, l: Looked): seq<Incident> {
    if l.found.None? then
      if l.sustained then incidents + [Incident(Open, l.now, l.value, l.value, [l.value])] else incidents
    else if l.found.value >= |incidents| then incidents
    else
      var i := incidents[l.found.value];
      incidents[l.found.value :=
        if l.sustained then
          i.(triggerValue := l.value, peakValue := WorstFor(l.condition, i.peakValue, l.value),
             seen := i.seen + [l.value])
        else i.(status := Resolved)]
  }

  function Written(incidents: seq<Incident>, h: Human): seq<Incident> {
    if h.id >= |incidents| then incidents
    else incidents[h.id := incidents[h.id].(status := if h.Acknowledging? then Acknowledged else Resolved)]
  }

  function Next(s: State, e: Event): State {
    match e
    case Look(condition, value, history, durationSec, now) =>
      if s.looked.Some? then s
      else
        var sustained := IsSustained(Since(Cut(history), v => ConditionHolds(condition, v)), durationSec, now);
        s.(looked := Some(Looked(condition, value, now, sustained, FirstUnresolved(s.incidents))))
    case Act =>
      if s.looked.None? then s else s.(incidents := Acted(s.incidents, s.looked.value), looked := None)
    case AskToAcknowledge(person, id) =>
      if person in s.humans || id >= |s.incidents| || s.incidents[id].status != Open then s
      else s.(humans := s.humans[person := Acknowledging(id)])
    case AskToResolve(person, id) =>
      if person in s.humans || id >= |s.incidents| || s.incidents[id].status == Resolved then s
      else s.(humans := s.humans[person := Resolving(id)])
    case HumanWrite(person) =>
      if person !in s.humans then s
      else s.(incidents := Written(s.incidents, s.humans[person]), humans := s.humans - {person})
  }

  function Run(events: seq<Event>): State {
    if events == [] then State([], None, map[]) else Next(Run(events[..|events|-1]), events[|events|-1])
  }

  // ---- At most one unresolved ------------------------------------------------------------------

  ghost predicate OneUnresolved(incidents: seq<Incident>) {
    forall i, j :: 0 <= i < j < |incidents| ==> incidents[i].status == Resolved || incidents[j].status == Resolved
  }

  /** An acknowledgement lands late when its incident was resolved after the status was read. */
  ghost predicate Late(s: State, e: Event) {
    && e.HumanWrite? && e.person in s.humans && s.humans[e.person].Acknowledging?
    && s.humans[e.person].id < |s.incidents| && s.incidents[s.humans[e.person].id].status == Resolved
  }

  ghost predicate NoneLate(events: seq<Event>) {
    events == [] || (NoneLate(events[..|events|-1]) && !Late(Run(events[..|events|-1]), events[|events|-1]))
  }

  /** Nothing unresolved has appeared since an evaluation found nothing. */
  ghost predicate StillNone(s: State) {
    s.looked.Some? && s.looked.value.found.None? ==> AllResolved(s.incidents)
  }

  lemma NextKeepsOne(s: State, e: Event)
    requires OneUnresolved(s.incidents) && StillNone(s) && !Late(s, e)
    ensures OneUnresolved(Next(s, e).incidents) && StillNone(Next(s, e))
  {
    if e.Look? { FirstUnresolvedIs(s.incidents); }
  }

  /**
    Evaluating one series sequentially keeps at most one unresolved incident whatever people do in
    between, as long as no acknowledgement lands late.
    */
  lemma {:induction false} AtMostOneUnresolved(events: seq<Event>)
    requires NoneLate(events)
    ensures OneUnresolved(Run(events).incidents) && StillNone(Run(events))
  {
    if events != [] {
      AtMostOneUnresolved(events[..|events|-1]);
      NextKeepsOne(Run(events[..|events|-1]), events[|events|-1]);
    }
  }

  ghost predicate OtherUnresolved(incidents: seq<Incident>, id: int) {
    exists k :: 0 <= k < |incidents| && k != id && incidents[k].status != Resolved
  }

  /**
    The step does not add a second unresolved incident: no late acknowledgement beside another one, and
    no opening, on a look that found nothing, while something has become unresolved.
    */
  ghost predicate Harmless(s: State, e: Event) {
    && !(Late(s, e) && OtherUnresolved(s.incidents, s.humans[e.person].id))
    && !(e.Act? && s.looked.Some? && s.looked.value.found.None? && s.looked.value.sustained
         && OtherUnresolved(s.incidents, -1))
  }

  lemma StepIsExact(s: State, e: Event)
    requires OneUnresolved(s.incidents)
    ensures OneUnresolved(Next(s, e).incidents) <==> Harmless(s, e)
  {
    var after := Next(s, e).incidents;
    if Late(s, e) {
      var id := s.humans[e.person].id;
      assert after[id].status == Acknowledged;
      if k :| 0 <= k < |s.incidents| && k != id && s.incidents[k].status != Resolved {
        assert after[k].status != Resolved;
      }
    } else if e.Act? && s.looked.Some? && s.looked.value.found.None? && s.looked.value.sustained {
      assert after[|s.incidents|].status == Open;
      if k :| 0 <= k < |s.incidents| && k != -1 && s.incidents[k].status != Resolved {
        assert after[k].status != Resolved;
      }
    }
  }

  /** At every moment of the run at most one incident is unresolved. */
  ghost predicate AlwaysOne(events: seq<Event>) {
    forall n :: 0 <= n <= |events| ==> OneUnresolved(Run(events[..n]).incidents)
  }

  ghost predicate AllHarmless(events: seq<Event>) {
    forall n :: 0 <= n < |events| ==> Harmless(Run(events[..n]), events[n])
  }

  lemma AlwaysOneMore(front: seq<Event>, e: Event)
    ensures AlwaysOne(front + [e]) <==> AlwaysOne(front) && OneUnresolved(Run(front + [e]).incidents)
  {
    var all := front + [e];
    assert all[..|all|] == all;
    forall n | 0 <= n <= |front| ensures all[..n] == front[..n] { }
    if AlwaysOne(all) {
      forall n | 0 <= n <= |front| ensures OneUnresolved(Run(front[..n]).incidents) {
        assert OneUnresolved(Run(all[..n]).incidents);
      }
      assert OneUnresolved(Run(all[..|all|]).incidents);
    }
  }

  lemma AllHarmlessMore(front: seq<Event>, e: Event)
    ensures AllHarmless(front + [e]) <==> AllHarmless(front) && Harmless(Run(front), e)
  {
    var all := front + [e];
    assert all[..|front|] == front && all[|front|] == e;
    forall n | 0 <= n < |front| ensures all[..n] == front[..n] && all[n] == front[n] { }
    if AllHarmless(all) {
      forall n | 0 <= n < |front| ensures Harmless(Run(front[..n]), front[n]) {
        assert Harmless(Run(all[..n]), all[n]);
      }
      assert Harmless(Run(all[..|front|]), all[|front|]);
    }
  }

  /** Exactly when the code keeps the promise: all along a run, as long as every step is harmless. */
  lemma {:induction false} OneUnresolvedExactly(events: seq<Event>)
    ensures AlwaysOne(events) <==> AllHarmless(events)
  {
    if events == [] {
      assert forall n :: 0 <= n <= |events| ==> events[..n] == [];
    } else {
      var front, e := events[..|events|-1], events[|events|-1];
      assert events == front + [e] && front[..|front|] == front;
      OneUnresolvedExactly(front);
      AlwaysOneMore(front, e);
      AllHarmlessMore(front, e);
      if AlwaysOne(front) {
        assert OneUnresolved(Run(front[..|front|]).incidents);
        StepIsExact(Run(front), e);
      }
    }
  }

  lemma RunMore(events: seq<Event>, e: Event)
    ensures Run(events + [e]) == Next(Run(events), e)
  {
    assert (events + [e])[..|events|] == events;
  }

  /** An evaluation of a breaching point when everything is resolved opens an incident. */
  lemma LookOpens(events: seq<Event>, look: Event)
    requires look == Look(Condition(Some(Limit(GT, 0.0)), None), 1.0, [Point(0, 1.0)], 0, 0)
    requires Run(events).looked.None? && AllResolved(Run(events).incidents)
    ensures var s := Run(events);
            Run(events + [look] + [Act]) == s.(incidents := s.incidents + [Incident(Open, 0, 1.0, 1.0, [1.0])])
  {
    var s := Run(events);
    var holds := v => ConditionHolds(look.condition, v);
    FirstUnresolvedIs(s.incidents);
    PointHolds(look.condition);
    assert Streak(look.history[1..], holds) == 0;
    assert Since(Cut(look.history), holds) == Some(0);
    RunMore(events, look);
    RunMore(events + [look], Act);
  }

  lemma PointHolds(c: Condition)
    requires c == Condition(Some(Limit(GT, 0.0)), None)
    ensures ConditionHolds(c, 1.0)
  {
  }

  /** One person reads the first incident as open before another resolves it. */
  lemma ResolvedMeanwhile(look: Event) returns (events: seq<Event>)
    requires look == Look(Condition(Some(Limit(GT, 0.0)), None), 1.0, [Point(0, 1.0)], 0, 0)
    ensures Run(events) == State([Incident(Resolved, 0, 1.0, 1.0, [1.0])], None, map[1 := Acknowledging(0)])
  {
    LookOpens([], look);
    var two := [] + [look] + [Act];
    assert Run(two) == State([Incident(Open, 0, 1.0, 1.0, [1.0])], None, map[]);
    var three := two + [AskToAcknowledge(1, 0)];
    RunMore(two, AskToAcknowledge(1, 0));
    var four := three + [AskToResolve(2, 0)];
    RunMore(three, AskToResolve(2, 0));
    events := four + [HumanWrite(2)];
    RunMore(four, HumanWrite(2));
    assert Run(events).humans == map[1 := Acknowledging(0)];
  }

  /** A run that breaks it: the first incident is acknowledged late, after a second one has opened. */
  lemma LateAcknowledgementRevives() returns (events: seq<Event>)
    ensures !OneUnresolved(Run(events).incidents)
  {
    var look := Look(Condition(Some(Limit(GT, 0.0)), None), 1.0, [Point(0, 1.0)], 0, 0);
    var five := ResolvedMeanwhile(look);
    LookOpens(five, look);
    var seven := five + [look] + [Act];
    events := seven + [HumanWrite(1)];
    RunMore(seven, HumanWrite(1));
    assert Run(events).incidents[0].status == Acknowledged && Run(events).incidents[1].status == Open;
  }

  // ---- Openings and peaks ----------------------------------------------------------------------

  lemma RunStep(events: seq<Event>, n: nat)
    requires n < |events|
    ensures Run(events[..n+1]) == Next(Run(events[..n]), events[n])
  {
    assert events[..n+1][..n] == events[..n];
  }

  /** The condition held without a break for at least the rule's duration, counted on the whole history. */
  ghost predicate LongStreak(look: Event)
    requires look.Look?
  {
    var holds := v => ConditionHolds(look.condition, v);
    var n := Streak(look.history, holds);
    && n > 0 && (forall k :: 0 <= k < n ==> holds(look.history[k].value))
    && look.now - look.history[n-1].time >= look.durationSec * 1000
  }

  /** A streak that fills the lookback is long enough by its oldest point kept. */
  ghost predicate CutShows(look: Event)
    requires look.Look?
  {
    Streak(look.history, v => ConditionHolds(look.condition, v)) > HISTORY_LOOKBACK_POINTS ==>
      look.now - look.history[HISTORY_LOOKBACK_POINTS-1].time >= look.durationSec * 1000
  }

  /** The look at `l` begins an evaluation that has not written by `n`: no other look counts in between. */
  ghost predicate Underway(events: seq<Event>, l: nat, n: nat) {
    && l < n <= |events| && events[l].Look? && Run(events[..l]).looked.None?
    && forall j :: l < j < n ==> !events[j].Act?
  }

  /** The evaluation that begins at `l` writes at `a`. */
  ghost predicate Evaluates(events: seq<Event>, l: nat, a: nat) {
    Underway(events, l, a) && a < |events| && events[a].Act?
  }

  lemma UnderwayLess(events: seq<Event>, l: nat, n: nat)
    requires Underway(events, l, n) && l < n - 1
    ensures Underway(events, l, n - 1) && !events[n-1].Act?
  {
  }

  lemma UnderwayMore(events: seq<Event>, l: nat, n: nat)
    requires Underway(events, l, n) && n < |events| && !events[n].Act?
    ensures Underway(events, l, n + 1)
  {
  }

  lemma StepKeepsLook(events: seq<Event>, n: nat)
    requires n < |events| && Run(events[..n]).looked.Some? && !events[n].Act?
    ensures Run(events[..n+1]).looked == Run(events[..n]).looked
  {
    RunStep(events, n);
  }

  lemma {:induction false} LookStays(events: seq<Event>, l: nat, n: nat)
    requires Underway(events, l, n)
    ensures Run(events[..n]).looked.Some? && Run(events[..n]).looked == Next(Run(events[..l]), events[l]).looked
  {
    if n == l + 1 {
      RunStep(events, l);
    } else {
      UnderwayLess(events, l, n);
      LookStays(events, l, n - 1);
      StepKeepsLook(events, n - 1);
    }
  }

  lemma LookDecides(s: State, look: Event)
    requires look.Look? && s.looked.None? && NewestFirst(look.history)
    ensures var l := Next(s, look).looked;
            && l.Some? && l.value.now == look.now && l.value.value == look.value
            && (l.value.sustained <==> LongStreak(look) && CutShows(look))
            && (l.value.found.None? <==> AllResolved(s.incidents))
  {
    CutIsSafe(look.history, v => ConditionHolds(look.condition, v), look.durationSec, look.now);
    StreakIsMaximal(look.history, v => ConditionHolds(look.condition, v));
    FirstUnresolvedIs(s.incidents);
  }

  /**
    Given the incidents when it looked (`start`) and just before and after its write: the evaluation opens
    an incident, with its time and value, if and only if nothing was unresolved when it looked and the
    condition had held for the rule's duration, as far as the lookback shows.
    */
  ghost predicate OpensWhenDue(start: seq<Incident>, look: Event, before: seq<Incident>, after: seq<Incident>)
    requires look.Look?
  {
    && (|after| > |before| <==> AllResolved(start) && LongStreak(look) && CutShows(look))
    && (|after| > |before| ==> after == before + [Incident(Open, look.now, look.value, look.value, [look.value])])
    && (AllResolved(start) && !(LongStreak(look) && CutShows(look)) ==> after == before)
  }

  lemma ActOpens(incidents: seq<Incident>, l: Looked)
    ensures var after := Acted(incidents, l);
            && (|after| > |incidents| <==> l.found.None? && l.sustained)
            && (|after| > |incidents| ==> after == incidents + [Incident(Open, l.now, l.value, l.value, [l.value])])
            && (l.found.None? && !l.sustained ==> after == incidents)
  {
  }

  /** So it is in any run, whatever people do before the write. */
  lemma OpensExactly(events: seq<Event>, l: nat, a: nat)
    requires Evaluates(events, l, a) && NewestFirst(events[l].history)
    ensures OpensWhenDue(Run(events[..l]).incidents, events[l], Run(events[..a]).incidents,
                         Run(events[..a+1]).incidents)
  {
    LookStays(events, l, a);
    LookDecides(Run(events[..l]), events[l]);
    RunStep(events, a);
    ActOpens(Run(events[..a]).incidents, Run(events[..a]).looked.value);
  }

  lemma StepLooks(events: seq<Event>, n: nat)
    requires n < |events| && Run(events[..n+1]).looked.Some?
    ensures !events[n].Act? && (Run(events[..n]).looked.None? ==> Underway(events, n, n + 1))
  {
    RunStep(events, n);
  }

  lemma {:induction false} LookedBy(events: seq<Event>, n: nat) returns (l: nat)
    requires n <= |events| && Run(events[..n]).looked.Some?
    ensures Underway(events, l, n)
  {
    assert n > 0;
    StepLooks(events, n - 1);
    if Run(events[..n-1]).looked.None? {
      l := n - 1;
    } else {
      l := LookedBy(events, n - 1);
      UnderwayMore(events, l, n - 1);
    }
  }

  ghost predicate OpenedAt(incident: Incident, now: int, value: real) {
    incident.startedAt == now && incident.seen != [] && incident.seen[0] == value
  }

  lemma NextKeepsOpening(s: State, e: Event, k: nat, now: int, value: real)
    requires k < |s.incidents| && OpenedAt(s.incidents[k], now, value)
    ensures k < |Next(s, e).incidents| && OpenedAt(Next(s, e).incidents[k], now, value)
  {
  }

  lemma NextOpens(s: State, e: Event, k: nat)
    requires |s.incidents| <= k < |Next(s, e).incidents|
    ensures e.Act? && s.looked.Some? && k == |s.incidents|
    ensures OpenedAt(Next(s, e).incidents[k], s.looked.value.now, s.looked.value.value)
  {
  }

  /** Number `k` is the first unresolved incident. */
  ghost predicate FirstOne(incidents: seq<Incident>, k: nat) {
    Unresolved(incidents, k) && AllResolved(incidents[..k])
  }

  lemma {:induction false} FirstOneIsFound(incidents: seq<Incident>, k: nat)
    requires FirstOne(incidents, k)
    ensures FirstUnresolved(incidents) == Some(k)
  {
    var m := |incidents| - 1;
    FirstUnresolvedIs(incidents[..m]);
    if k < m {
      assert incidents[..m][..k] == incidents[..k];
      FirstOneIsFound(incidents[..m], k);
    } else {
      assert FirstUnresolved(incidents[..m]).None?;
    }
  }

  /** The value evaluated is recorded; nothing else about the incident changes but its peak. */
  ghost predicate Records(before: Incident, after: Incident, value: real) {
    after == before.(triggerValue := value, peakValue := after.peakValue, seen := before.seen + [value])
  }

  lemma ActResolves(incidents: seq<Incident>, l: Looked, k: nat)
    requires l.found == Some(k) && k < |incidents|
    ensures var after := Acted(incidents, l);
            && |after| == |incidents| && (forall j :: 0 <= j < |incidents| && j != k ==> after[j] == incidents[j])
            && if l.sustained then Records(incidents[k], after[k], l.value)
               else after[k] == incidents[k].(status := Resolved)
  {
  }

  /**
    Given the incidents when it looked and just before and after its write: the evaluation resolves the
    first unresolved incident if and only if the condition had not held for the rule's duration (as far as
    the lookback shows); otherwise it records the value there and leaves the status as people have left
    it. The other incidents stay as they are.
    */
  ghost predicate ResolvesWhenOver(start: seq<Incident>, look: Event, before: seq<Incident>, after: seq<Incident>)
    requires look.Look?
  {
    forall k: nat :: FirstOne(start, k) ==> EndsOrRecords(look, before, after, k)
  }

  ghost predicate EndsOrRecords(look: Event, before: seq<Incident>, after: seq<Incident>, k: nat)
    requires look.Look?
  {
    && k < |before| == |after| && (forall j :: 0 <= j < |before| && j != k ==> after[j] == before[j])
    && if LongStreak(look) && CutShows(look) then Records(before[k], after[k], look.value)
       else after[k] == before[k].(status := Resolved)
  }

  lemma ResolvesFound(events: seq<Event>, l: nat, a: nat, k: nat)
    requires Evaluates(events, l, a) && NewestFirst(events[l].history)
    requires FirstOne(Run(events[..l]).incidents, k)
    ensures EndsOrRecords(events[l], Run(events[..a]).incidents, Run(events[..a+1]).incidents, k)
  {
    LookStays(events, l, a);
    LookDecides(Run(events[..l]), events[l]);
    LookFinds(Run(events[..l]), events[l], k);
    StaysListed(events, l, a, k);
    RunStep(events, a);
    ActResolves(Run(events[..a]).incidents, Run(events[..a]).looked.value, k);
  }

  lemma LookFinds(s: State, look: Event, k: nat)
    requires look.Look? && s.looked.None? && FirstOne(s.incidents, k)
    ensures Next(s, look).looked.Some? && Next(s, look).looked.value.found == Some(k)
  {
    FirstOneIsFound(s.incidents, k);
  }

  /** So it is in any run, whatever people do before the write. */
  lemma ResolvesExactly(events: seq<Event>, l: nat, a: nat)
    requires Evaluates(events, l, a) && NewestFirst(events[l].history)
    ensures ResolvesWhenOver(Run(events[..l]).incidents, events[l], Run(events[..a]).incidents,
                             Run(events[..a+1]).incidents)
  {
    forall k: nat | FirstOne(Run(events[..l]).incidents, k)
      ensures EndsOrRecords(events[l], Run(events[..a]).incidents, Run(events[..a+1]).incidents, k)
    {
      ResolvesFound(events, l, a, k);
    }
  }

  lemma {:induction false} StaysListed(events: seq<Event>, l: nat, n: nat, k: nat)
    requires l <= n <= |events| && k < |Run(events[..l]).incidents|
    ensures k < |Run(events[..n]).incidents|
  {
    if l < n {
      StaysListed(events, l, n - 1, k);
      RunStep(events, n - 1);
      NextListsMore(Run(events[..n-1]), events[n-1]);
    }
  }

  lemma NextListsMore(s: State, e: Event)
    ensures |s.incidents| <= |Next(s, e).incidents|
  {
  }

  /** On a newest point for which the condition does not hold, there is no streak. */
  lemma NoStreak(look: Event)
    requires look.Look? && (look.history == [] || !ConditionHolds(look.condition, look.history[0].value))
    ensures !LongStreak(look)
  {
  }

  /** The look at `l` and the write at `a` opened incident number `k`. */
  ghost predicate Opens(events: seq<Event>, l: nat, a: nat, k: nat) {
    Evaluates(events, l, a) && |Run(events[..a]).incidents| == k < |Run(events[..a+1]).incidents|
  }

  lemma {:induction false} OpenedBy(events: seq<Event>, n: nat, k: nat) returns (l: nat, a: nat)
    requires n <= |events| && k < |Run(events[..n]).incidents| && AllNewestFirst(events)
    ensures Opens(events, l, a, k) && OpenedAt(Run(events[..n]).incidents[k], events[l].now, events[l].value)
  {
    RunStep(events, n - 1);
    if k < |Run(events[..n-1]).incidents| {
      l, a := OpenedBy(events, n - 1, k);
      NextKeepsOpening(Run(events[..n-1]), events[n-1], k, events[l].now, events[l].value);
    } else {
      NextOpens(Run(events[..n-1]), events[n-1], k);
      l := LookedBy(events, n - 1);
      a := n - 1;
      LookStays(events, l, a);
      LookDecides(Run(events[..l]), events[l]);
    }
  }

  /** The store returns every history newest first. */
  ghost predicate AllNewestFirst(events: seq<Event>) {
    forall i :: 0 <= i < |events| && events[i].Look? ==> NewestFirst(events[i].history)
  }

  /**
    Every incident of a run was opened by an evaluation whose look saw an unbroken streak of at least the
    rule's duration and nothing unresolved; it carries the time and the value of that look.
    */
  lemma OpenedBySustained(events: seq<Event>, k: nat) returns (l: nat, a: nat)
    requires k < |Run(events).incidents| && AllNewestFirst(events)
    ensures Opens(events, l, a, k) && LongStreak(events[l]) && AllResolved(Run(events[..l]).incidents)
    ensures OpenedAt(Run(events).incidents[k], events[l].now, events[l].value)
  {
    assert events[..|events|] == events;
    l, a := OpenedBy(events, |events|, k);
    OpensExactly(events, l, a);
  }

  /** What the peak of an incident is: the largest value, the smallest, or the latest. */
  datatype Side = Upper | Lower | Neither

  ghost function Extreme(values: seq<real>, side: Side): real
    requires values != []
  {
    var last := values[|values|-1];
    if |values| == 1 then last else Worse(Extreme(values[..|values|-1], side), last, side)
  }

  ghost function Worse(a: real, b: real, side: Side): real {
    match side
    case Upper => MaxReal(a, b)
    case Lower => MinReal(a, b)
    case Neither => b
  }

  lemma {:induction false} ExtremeIs(values: seq<real>, side: Side)
    requires values != []
    ensures Extreme(values, side) in values
    ensures match side
            case Upper => forall k :: 0 <= k < |values| ==> values[k] <= Extreme(values, side)
            case Lower => forall k :: 0 <= k < |values| ==> Extreme(values, side) <= values[k]
            case Neither => Extreme(values, side) == values[|values|-1]
  {
    if |values| > 1 { ExtremeIs(values[..|values|-1], side); }
  }

  lemma ExtremeOfOne(x: real, side: Side)
    ensures Extreme([x], side) == x
  {
  }

  lemma ExtremeMore(values: seq<real>, x: real, side: Side)
    requires values != []
    ensures Extreme(values + [x], side) == Worse(Extreme(values, side), x, side)
  {
    assert (values + [x])[..|values|] == values;
  }

  /** The peak is the worst value evaluated since opening. */
  ghost predicate PeakIsWorst(i: Incident, side: Side) {
    i.seen != [] && i.peakValue == Extreme(i.seen, side)
  }

  /** Which side of its limit a rule watches. */
  ghost predicate Watches(condition: Condition, side: Side) {
    condition.threshold.Some? &&
    condition.threshold.value.operator in
      match side
      case Upper => {GT, GTE}
      case Lower => {LT, LTE}
      case Neither => {EQ, NEQ}
  }

  ghost predicate AllWatch(events: seq<Event>, side: Side) {
    forall k :: 0 <= k < |events| && events[k].Look? ==> Watches(events[k].condition, side)
  }

  lemma ActKeepsPeaks(s: State, k: nat, side: Side)
    requires s.looked.Some? && Watches(s.looked.value.condition, side)
    requires k < |s.incidents| ==> PeakIsWorst(s.incidents[k], side)
    requires k < |Next(s, Act).incidents|
    ensures PeakIsWorst(Next(s, Act).incidents[k], side)
  {
    var l := s.looked.value;
    if k < |s.incidents| {
      ExtremeMore(s.incidents[k].seen, l.value, side);
    } else {
      ExtremeOfOne(l.value, side);
    }
  }

  /**
    Every incident's peak is the maximum of the values evaluated since it opened for an upper limit, the
    minimum for a lower one, and the latest when the rule watches for equality.
    */
  lemma {:induction false} PeaksAreWorst(events: seq<Event>, side: Side, k: nat)
    requires AllWatch(events, side) && k < |Run(events).incidents|
    ensures PeakIsWorst(Run(events).incidents[k], side)
  {
    var front, e := events[..|events|-1], events[|events|-1];
    var s := Run(front);
    LookedWatches(front, side);
    if k < |s.incidents| { PeaksAreWorst(front, side, k); }
    if e.Act? && s.looked.Some? { ActKeepsPeaks(s, k, side); }
  }

  lemma {:induction false} LookedWatches(events: seq<Event>, side: Side)
    requires AllWatch(events, side)
    ensures Run(events).looked.Some? ==> Watches(Run(events).looked.value.condition, side)
  {
    if events != [] {
      LookedWatches(events[..|events|-1], side);
      assert events[|events|-1].Look? ==> Watches(events[|events|-1].condition, side);
    }
  }

  /** The peak breaches an upper or lower limit if and only if some value seen does. */
  lemma PeakTells(i: Incident, limit: Limit, side: Side)
    requires Watches(Condition(Some(limit), None), side) && side != Neither && PeakIsWorst(i, side)
    ensures Breaches(limit.operator, i.peakValue, limit.value) <==>
              exists k :: 0 <= k < |i.seen| && Breaches(limit.operator, i.seen[k], limit.value)
  {
    ExtremeIs(i.seen, side);
    var j :| 0 <= j < |i.seen| && i.seen[j] == i.peakValue;
    assert Breaches(limit.operator, i.peakValue, limit.value) ==> Breaches(limit.operator, i.seen[j], limit.value);
  }

  function Opposite(operator: Operator): Operator {
    match operator
    case GT => LTE
    case GTE => LT
    case LT => GTE
    case LTE => GT
    case EQ => NEQ
    case NEQ => EQ
  }

  /** Each operator breaches exactly where its opposite does not, and the limit itself only where it should. */
  lemma OperatorsAreOpposite(operator: Operator, value: real, limit: real)
    ensures Breaches(operator, value, limit) <==> !Breaches(Opposite(operator), value, limit)
    ensures Breaches(operator, limit, limit) <==> operator in {GTE, LTE, EQ}
  {
  }

  /**
    Without a limit the anomaly decides: the peak moves to the newest value only when that lies further on
    its own side of the median.
    */
  lemma PeakFollowsAnomaly(condition: Condition, peak: real, value: real)
    requires condition.threshold.None? && condition.anomaly.Some? && condition.anomaly.value.baseline.Some?
    ensures WorstFor(condition, peak, value) ==
              if value >= condition.anomaly.value.baseline.value.median then MaxReal(peak, value)
              else MinReal(peak, value)
  {
    var detector := condition.anomaly.value;
    var summary := detector.baseline.value;
    SignOf(value - summary.median, summary.scale);
  }

  lemma SignOf(x: real, scale: real)
    requires scale > 0.0
    ensures x / scale >= 0.0 <==> x >= 0.0
  {
  }
}
