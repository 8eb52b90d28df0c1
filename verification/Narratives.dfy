/**
  The written narrative of one incident's findings: workers claim the request with a lease, read what
  they are to describe, ask the model, and store the answer only if the findings' stamp is unchanged.
  A run is any sequence of atomic statements of any number of workers, re-analyses and crashes.
  */
module Narratives {
  import opened Common

  type Findings(==, !new)
  type Text(==, !new)

  /** A narrative; `about` is a history: the findings the model was given. */
  datatype Narrative = Narrative(text: Text, about: Findings)

  datatype Incident = Incident(findings: Option<Findings>, generatedAt: Option<int>, narrative: Option<Narrative>,
                               requestedAt: Option<int>, attempts: nat)

  /** How far a worker has got: it won the lease, read the stamp, fed the model. */
  datatype Session = Leased
                   | Informed(stamp: Option<int>, attempts: nat)
                   | Fed(stamp: Option<int>, attempts: nat, about: Findings)

  datatype State = State(incident: Incident, sessions: map<nat, Session>)

  datatype Event =
    | Refresh(findings: Findings, stamp: int, wantsNarrative: bool)
    | AskAgain(now: int)
    | Claim(session: nat, settledBefore: int, now: int)
    | Read(session: nat)
    | Feed(session: nat)
    | Store(session: nat, text: Text)
    | Refuse(session: nat)
    | Fail(session: nat, now: int)
    | Crash(session: nat)

  const MAX_ATTEMPTS := 3
  const SETTLE_MS := 60_000
  const LEASE_MS := 10 * 60 * 1000

  /** The request is due: settled, not leased, attempts left. */
  predicate Due(i: Incident, settledBefore: int) {
    i.requestedAt.Some? && i.requestedAt.value <= settledBefore && i.attempts < MAX_ATTEMPTS
  }

  /** The compare-and-set of everything a fed worker writes. */
  predicate Current(s: State, session: nat) {
    session in s.sessions && s.sessions[session].Fed? && s.sessions[session].stamp == s.incident.generatedAt
  }

  function Next(s: State, e: Event): State {
    var i := s.incident;
    match e
    case Refresh(findings, stamp, wantsNarrative) =>
      s.(incident := Incident(Some(findings), Some(stamp), None, if wantsNarrative then Some(stamp) else None, 0))
    case AskAgain(now) =>
      s.(incident := i.(requestedAt := Some(now - SETTLE_MS), attempts := 0))
    case Claim(session, settledBefore, now) =>
      if session in s.sessions || !Due(i, settledBefore) then s
      else State(i.(requestedAt := Some(now + LEASE_MS), attempts := i.attempts + 1), s.sessions[session := Leased])
    case Read(session) =>
      if session !in s.sessions || !s.sessions[session].Leased? then s
      else s.(sessions := s.sessions[session := Informed(i.generatedAt, i.attempts)])
    case Feed(session) =>
      if session !in s.sessions || !s.sessions[session].Informed? then s
      else if i.findings.None? then State(i.(requestedAt := None), s.sessions - {session})
      else
        var w := s.sessions[session];
        s.(sessions := s.sessions[session := Fed(w.stamp, w.attempts, i.findings.value)])
    case Store(session, text) =>
      if session !in s.sessions || !s.sessions[session].Fed? then s
      else
        State(if Current(s, session)
              then i.(narrative := Some(Narrative(text, s.sessions[session].about)), requestedAt := None) else i,
              s.sessions - {session})
    case Refuse(session) =>
      if session !in s.sessions || !s.sessions[session].Fed? then s
      else State(if Current(s, session) then i.(requestedAt := None) else i, s.sessions - {session})
    case Fail(session, now) =>
      if session !in s.sessions || !s.sessions[session].Fed? then s
      else
        var attempts := s.sessions[session].attempts;
        State(if Current(s, session)
              then i.(requestedAt := if attempts >= MAX_ATTEMPTS then None
                                     else Some(now + attempts * 2 * 60 * 1000 - SETTLE_MS))
              else i,
              s.sessions - {session})
    case Crash(session) =>
      s.(sessions := s.sessions - {session})
  }

  const START := State(Incident(None, None, None, None, 0), map[])

  function Run(events: seq<Event>): State {
    if events == [] then START else Next(Run(events[..|events|-1]), events[|events|-1])
  }

  // ---- Narratives match findings ---------------------------------------------------------------

  /** What one re-analysis wrote. */
  datatype Generation = Generation(findings: Findings, stamp: int)

  /** The generations of findings so far, oldest first. */
  ghost function Gens(events: seq<Event>): seq<Generation> {
    if events == [] then []
    else
      var e := events[|events|-1];
      Gens(events[..|events|-1]) + if e.Refresh? then [Generation(e.findings, e.stamp)] else []
  }

  /** A stamp comes back only while the findings have stayed the same all along. */
  ghost predicate Safe(g: seq<Generation>) {
    forall i, k, j :: 0 <= i <= k <= j < |g| && g[i].stamp == g[j].stamp ==> g[k].findings == g[i].findings
  }

  ghost predicate Matches(i: Incident) {
    i.narrative.Some? ==> i.findings == Some(i.narrative.value.about)
  }

  /** The incident shows the last generation. */
  ghost predicate Shows(i: Incident, g: seq<Generation>) {
    if g == [] then i.findings.None? && i.generatedAt.None?
    else i.findings == Some(g[|g|-1].findings) && i.generatedAt == Some(g[|g|-1].stamp)
  }

  ghost predicate HasStamp(g: seq<Generation>, stamp: int) {
    exists i :: 0 <= i < |g| && g[i].stamp == stamp
  }

  /** Some generation had this stamp, and that one or a later one these findings. */
  ghost predicate HasBoth(g: seq<Generation>, stamp: int, about: Findings) {
    exists i, k :: 0 <= i <= k < |g| && g[i].stamp == stamp && g[k].findings == about
  }

  /** A worker holds the stamp of one generation and the findings of that one or a later one. */
  ghost predicate Traced(w: Session, g: seq<Generation>) {
    match w
    case Leased => true
    case Informed(stamp, _) => stamp.Some? ==> HasStamp(g, stamp.value)
    case Fed(stamp, _, about) => g != [] && (stamp.Some? ==> HasBoth(g, stamp.value, about))
  }

  lemma TracedMore(w: Session, g: seq<Generation>, more: seq<Generation>)
    requires Traced(w, g)
    ensures Traced(w, g + more)
  {
    match w
    case Leased =>
    case Informed(stamp, _) =>
      if stamp.Some? {
        var i :| 0 <= i < |g| && g[i].stamp == stamp.value;
        assert (g + more)[i] == g[i];
      }
    case Fed(stamp, _, about) =>
      if stamp.Some? {
        var i, k :| 0 <= i <= k < |g| && g[i].stamp == stamp.value && g[k].findings == about;
        assert (g + more)[i] == g[i] && (g + more)[k] == g[k];
      }
  }

  lemma ReadIsTraced(g: seq<Generation>, i: Incident)
    requires Shows(i, g)
    ensures Traced(Informed(i.generatedAt, i.attempts), g)
  {
  }

  lemma FeedIsTraced(g: seq<Generation>, i: Incident, w: Session)
    requires Shows(i, g) && i.findings.Some? && w.Informed? && Traced(w, g)
    ensures Traced(Fed(w.stamp, w.attempts, i.findings.value), g)
  {
    if w.stamp.Some? {
      var k :| 0 <= k < |g| && g[k].stamp == w.stamp.value;
      assert g[|g|-1].findings == i.findings.value;
    }
  }

  ghost function Added(e: Event): seq<Generation> {
    if e.Refresh? then [Generation(e.findings, e.stamp)] else []
  }

  lemma NextIsTraced(s: State, e: Event, g: seq<Generation>, n: nat)
    requires Shows(s.incident, g) && n in Next(s, e).sessions
    requires n in s.sessions ==> Traced(s.sessions[n], g)
    ensures Traced(Next(s, e).sessions[n], g + Added(e))
  {
    assert g + [] == g;
    if e.Read? && e.session == n && s.sessions[n].Leased? {
      ReadIsTraced(g, s.incident);
    } else if e.Feed? && e.session == n && s.sessions[n].Informed? && s.incident.findings.Some? {
      FeedIsTraced(g, s.incident, s.sessions[n]);
    } else if n in s.sessions {
      TracedMore(s.sessions[n], g, Added(e));
    }
  }

  lemma {:induction false} RunShows(events: seq<Event>)
    ensures Shows(Run(events).incident, Gens(events))
  {
    if events != [] { RunShows(events[..|events|-1]); }
  }

  lemma {:induction false} RunIsTraced(events: seq<Event>, n: nat)
    requires n in Run(events).sessions
    ensures Traced(Run(events).sessions[n], Gens(events))
  {
    var front, e := events[..|events|-1], events[|events|-1];
    RunShows(front);
    if n in Run(front).sessions { RunIsTraced(front, n); }
    NextIsTraced(Run(front), e, Gens(front), n);
  }

  /** Under safe stamps, a fed worker whose stamp is still current was given the findings still shown. */
  lemma FedIsCurrent(s: State, g: seq<Generation>, n: nat)
    requires Safe(g) && Shows(s.incident, g) && Current(s, n) && Traced(s.sessions[n], g)
    ensures s.incident.findings == Some(s.sessions[n].about)
  {
    var w, j := s.sessions[n], |g| - 1;
    var i, k :| 0 <= i <= k < |g| && g[i].stamp == w.stamp.value && g[k].findings == w.about;
    assert g[j].stamp == g[i].stamp;
    assert g[k].findings == g[i].findings && g[j].findings == g[i].findings;
  }

  /** Under safe stamps a stored narrative always describes the findings now on the incident. */
  lemma {:induction false} NarrativeMatches(events: seq<Event>)
    requires Safe(Gens(events))
    ensures Matches(Run(events).incident)
  {
    if events != [] {
      var front, e := events[..|events|-1], events[|events|-1];
      SafePrefix(Gens(front), Gens(events));
      NarrativeMatches(front);
      if e.Store? && Current(Run(front), e.session) {
        RunShows(front);
        RunIsTraced(front, e.session);
        FedIsCurrent(Run(front), Gens(front), e.session);
      }
    }
  }

  lemma SafePrefix(a: seq<Generation>, b: seq<Generation>)
    requires a <= b && Safe(b)
    ensures Safe(a)
  {
  }

  /** Strictly increasing stamps are one way to be safe. */
  lemma IncreasingIsSafe(g: seq<Generation>)
    requires forall i, j :: 0 <= i < j < |g| ==> g[i].stamp < g[j].stamp
    ensures Safe(g)
  {
    assert forall i, j :: 0 <= i < j < |g| ==> g[i].stamp != g[j].stamp;
  }

  // ---- And only under safe stamps --------------------------------------------------------------

  /** The re-analyses that produced generations `a` to `b`, each asking for a narrative. */
  ghost function Refreshes(g: seq<Generation>, a: nat, b: nat): seq<Event>
    requires a <= b <= |g|
  {
    if a == b then [] else Refreshes(g, a, b - 1) + [Refresh(g[b-1].findings, g[b-1].stamp, true)]
  }

  lemma RunMore(events: seq<Event>, e: Event)
    ensures Run(events + [e]) == Next(Run(events), e) && Gens(events + [e]) == Gens(events) + Added(e)
  {
    assert (events + [e])[..|events|] == events;
  }

  /** What re-analyses leave: the last generation, a request for it, and the workers as they were. */
  lemma {:induction false} RefreshesRun(events: seq<Event>, g: seq<Generation>, a: nat, b: nat)
    requires a <= b <= |g| && Gens(events) == g[..a]
    ensures Gens(events + Refreshes(g, a, b)) == g[..b]
    ensures Run(events + Refreshes(g, a, b)).sessions == Run(events).sessions
    ensures a < b ==> Run(events + Refreshes(g, a, b)).incident.requestedAt == Some(g[b-1].stamp)
                      && Run(events + Refreshes(g, a, b)).incident.attempts == 0
    decreases b - a
  {
    if a == b {
      assert events + [] == events;
    } else {
      RefreshesRun(events, g, a, b - 1);
      var before, e := events + Refreshes(g, a, b - 1), Refresh(g[b-1].findings, g[b-1].stamp, true);
      RunMore(before, e);
      assert before + [e] == events + Refreshes(g, a, b);
      assert g[..b-1] + [g[b-1]] == g[..b];
    }
  }

  /** A worker leased and informed of generation `i`. */
  lemma Inform(g: seq<Generation>, i: nat) returns (events: seq<Event>)
    requires i < |g|
    ensures Gens(events) == g[..i+1] && Run(events).sessions == map[0 := Informed(Some(g[i].stamp), 1)]
  {
    RefreshesRun([], g, 0, i + 1);
    var t := [] + Refreshes(g, 0, i + 1);
    RunShows(t);
    RunMore(t, Claim(0, g[i].stamp, 0));
    RunShows(t + [Claim(0, g[i].stamp, 0)]);
    RunMore(t + [Claim(0, g[i].stamp, 0)], Read(0));
    events := t + [Claim(0, g[i].stamp, 0)] + [Read(0)];
    assert g[..i+1] + [] == g[..i+1];
  }

  /** It is fed generation `k`. */
  lemma FeedAt(g: seq<Generation>, i: nat, k: nat) returns (events: seq<Event>)
    requires i <= k < |g|
    ensures Gens(events) == g[..k+1]
    ensures Run(events).sessions == map[0 := Fed(Some(g[i].stamp), 1, g[k].findings)]
  {
    var t := Inform(g, i);
    RefreshesRun(t, g, i + 1, k + 1);
    var u := t + Refreshes(g, i + 1, k + 1);
    RunShows(u);
    RunMore(u, Feed(0));
    events := u + [Feed(0)];
    assert g[..k+1] + [] == g[..k+1];
  }

  /** And stores while generation `j`, with the same stamp as `i` but other findings than `k`, is shown. */
  lemma Mislead(g: seq<Generation>, i: nat, k: nat, j: nat, text: Text) returns (events: seq<Event>)
    requires i <= k <= j < |g| && g[i].stamp == g[j].stamp && g[k].findings != g[j].findings
    ensures Gens(events) <= g && !Matches(Run(events).incident)
  {
    var t := FeedAt(g, i, k);
    RefreshesRun(t, g, k + 1, j + 1);
    var v := t + Refreshes(g, k + 1, j + 1);
    RunShows(v);
    RunMore(v, Store(0, text));
    events := v + [Store(0, text)];
    assert g[..j+1] + [] == g[..j+1];
  }

  lemma UnsafeMisleads(g: seq<Generation>, text: Text) returns (events: seq<Event>)
    requires !Safe(g)
    ensures Gens(events) <= g && !Matches(Run(events).incident)
  {
    var i, k, j :| 0 <= i <= k <= j < |g| && g[i].stamp == g[j].stamp && g[k].findings != g[i].findings;
    if g[k].findings != g[j].findings {
      events := Mislead(g, i, k, j, text);
    } else {
      events := Mislead(g, i, i, j, text);
    }
  }

  /**
    Exactly when stored narratives can be trusted: every run whose re-analyses are these, or the first of
    them, shows only matching narratives if and only if the stamps are safe.
    */
  lemma TrustedExactly(g: seq<Generation>, text: Text)
    ensures Safe(g) <==> forall events :: Gens(events) <= g ==> Matches(Run(events).incident)
  {
    if Safe(g) {
      forall events | Gens(events) <= g ensures Matches(Run(events).incident) {
        SafePrefix(Gens(events), g);
        NarrativeMatches(events);
      }
    } else {
      var events := UnsafeMisleads(g, text);
      assert Gens(events) <= g && !Matches(Run(events).incident);
    }
  }

  // ---- Attempts --------------------------------------------------------------------------------

  /** The claims won since the last re-analysis or explicit request. */
  ghost function Claims(events: seq<Event>): nat {
    if events == [] then 0
    else
      var front, e := events[..|events|-1], events[|events|-1];
      if e.Refresh? || e.AskAgain? then 0
      else Claims(front) + if Wins(Run(front), e) then 1 else 0
  }

  ghost predicate Wins(s: State, e: Event) {
    e.Claim? && e.session !in s.sessions && Due(s.incident, e.settledBefore)
  }

  /** Each generation of findings is claimed at most three times per request. */
  lemma {:induction false} ClaimsAreBounded(events: seq<Event>)
    ensures Claims(events) == Run(events).incident.attempts <= MAX_ATTEMPTS
  {
    if events != [] { ClaimsAreBounded(events[..|events|-1]); }
  }
}
