/**
  From the agent to the metric table: sending, buffering and replaying over a network that loses
  requests and answers. A ledger records what became of every payload produced.
  */
module Delivery {
  import opened MetricStore
  import opened Buffer

  /** What becomes of one request. An answer can be lost after the server stored everything. */
  datatype Fate = RequestLost | AnswerLost | Accepted | Refused(refusal: Refusal)
  datatype Refusal = ServerError | Invalid | ClockSkewed | Disabled

  /** What the agent makes of it. */
  datatype Outcome = Stored | Retry | Bug | ClockSkew | HostDisabled

  function OutcomeOf(fate: Fate): Outcome {
    match fate
    case RequestLost => Retry
    case AnswerLost => Retry
    case Accepted => Stored
    case Refused(ServerError) => Retry
    case Refused(Invalid) => Bug
    case Refused(ClockSkewed) => ClockSkew
    case Refused(Disabled) => HostDisabled
  }

  /** What became of the payloads produced so far; those in none of these are still buffered. */
  datatype Ledger = Ledger(produced: multiset<Body>, acknowledged: multiset<Body>, rejected: multiset<Body>,
                           evicted: multiset<Body>, expired: multiset<Body>, replaced: multiset<Body>)

  const BUFFER_FLUSH_BATCH := 20

  /** Nothing is lost and nothing is counted twice. */
  ghost predicate Balanced(l: Ledger, files: seq<Entry>) {
    l.produced == l.acknowledged + l.rejected + l.evicted + l.expired + l.replaced + Bodies(files)
  }

  /** Every acknowledged payload is in the table, whole. */
  ghost predicate Delivered(l: Ledger, rowsOf: Body -> seq<Row>, table: Table) {
    forall b :: b in l.acknowledged ==> HasAll(table, rowsOf(b))
  }

  lemma DeliveredStays(l: Ledger, rowsOf: Body -> seq<Row>, table: Table, more: seq<Row>)
    requires Delivered(l, rowsOf, table)
    ensures Delivered(l, rowsOf, InsertAll(table, more))
  {
    forall b | b in l.acknowledged ensures HasAll(InsertAll(table, more), rowsOf(b)) {
      StillHasAll(table, more, rowsOf(b));
    }
  }

  lemma HeadBody(files: seq<Entry>)
    requires files != []
    ensures Bodies(files) == multiset{files[0].body} + Bodies(files[1..])
  {
    Split(files, 1);
    assert files[..1] == [] + [files[0]];
    BodiesSnoc([], files[0]);
    BodiesJoin(files, [] + [files[0]], files[1..]);
  }

  lemma PruneBalances(l: Ledger, files: seq<Entry>, k: nat)
    requires k <= |files| && Balanced(l, files)
    ensures Balanced(l.(expired := l.expired + Bodies(files[..k])), files[k..])
  {
    BodiesSplit(files, k);
  }

  /** Buffering one more payload: the oldest make room, and a file of the same name is replaced. */
  ghost function Buffered(l: Ledger, files: seq<Entry>, f: Entry): Ledger {
    var k := Surplus(files);
    l.(produced := l.produced + multiset{f.body}, evicted := l.evicted + Bodies(files[..k]),
       replaced := l.replaced + Replaced(files[k..], f.name))
  }

  lemma PushBalances(l: Ledger, files: seq<Entry>, f: Entry)
    requires Balanced(l, files)
    ensures Balanced(Buffered(l, files, f), Put(files[Surplus(files)..], f))
  {
    var k := Surplus(files);
    BodiesSplit(files, k);
    PutBodies(files[k..], f);
    Rebalanced(l, f.body, Bodies(files), Bodies(files[..k]), Bodies(files[k..]), Bodies(Put(files[k..], f)),
               Replaced(files[k..], f.name));
  }

  lemma Rebalanced(l: Ledger, body: Body, all: multiset<Body>, evicted: multiset<Body>, kept: multiset<Body>,
                   after: multiset<Body>, replaced: multiset<Body>)
    requires l.produced == l.acknowledged + l.rejected + l.evicted + l.expired + l.replaced + all
    requires all == evicted + kept && after + replaced == kept + multiset{body}
    ensures l.produced + multiset{body}
         == l.acknowledged + l.rejected + (l.evicted + evicted) + l.expired + (l.replaced + replaced) + after
  {
    var l', r' := l.produced + multiset{body},
                  l.acknowledged + l.rejected + (l.evicted + evicted) + l.expired + (l.replaced + replaced) + after;
    forall b ensures l'[b] == r'[b] {
      assert l.produced[b] == (l.acknowledged + l.rejected + l.evicted + l.expired + l.replaced + all)[b];
      assert all[b] == (evicted + kept)[b];
      assert (after + replaced)[b] == (kept + multiset{body})[b];
    }
  }

  // ---- What each operation does ----------------------------------------------------------------

  /** The queue, the server's table, and what became of every payload. */
  datatype World = World(files: seq<Entry>, table: Table, ledger: Ledger)

  const EMPTY := Ledger(multiset{}, multiset{}, multiset{}, multiset{}, multiset{}, multiset{})

  function TableAfter(table: Table, rows: seq<Row>, fate: Fate): Table {
    if fate.AnswerLost? || fate.Accepted? then InsertAll(table, rows) else table
  }

  /** The payload is not known to have been dealt with. */
  predicate Lost(fate: Fate) {
    fate in {RequestLost, AnswerLost, Refused(ServerError)}
  }

  /** The server has told the agent for good that it does not take the payload. */
  predicate RefusedForGood(fate: Fate) {
    fate.Refused? && fate.refusal != ServerError
  }

  /** The files too old to be worth sending. */
  function Aged(files: seq<Entry>, now: int): nat {
    Expired(files, now - MAX_AGE)
  }

  ghost function Pruned(w: World, now: int): World {
    var e := Aged(w.files, now);
    World(w.files[e..], w.table, w.ledger.(expired := w.ledger.expired + Bodies(w.files[..e])))
  }

  /** One request for the oldest payload. */
  ghost function Replayed(w: World, rowsOf: Body -> seq<Row>, fate: Fate): World
    requires w.files != []
  {
    var body := w.files[0].body;
    var table := TableAfter(w.table, rowsOf(body), fate);
    if Lost(fate) then World(w.files, table, w.ledger)
    else World(w.files[1..], table, Labelled(w.ledger, Share(body, fate, true), Share(body, fate, false)))
  }

  /** The ledger once more payloads are acknowledged and rejected. */
  ghost function Labelled(l: Ledger, acknowledged: multiset<Body>, rejected: multiset<Body>): Ledger {
    l.(acknowledged := l.acknowledged + acknowledged, rejected := l.rejected + rejected)
  }

  /** A payload counts as accepted, or else as refused, by its own fate. */
  ghost function Share(body: Body, fate: Fate, accepted: bool): multiset<Body> {
    if fate.Accepted? == accepted then multiset{body} else multiset{}
  }

  /** Settling the oldest payload accounts for it, acknowledged or rejected. */
  lemma SettlingBalances(l: Ledger, files: seq<Entry>, fate: Fate)
    requires files != [] && Balanced(l, files)
    ensures Balanced(Labelled(l, Share(files[0].body, fate, true), Share(files[0].body, fate, false)), files[1..])
  {
    HeadBody(files);
    OneLeaves(l, files[0].body, fate, Bodies(files), Bodies(files[1..]));
  }

  lemma OneLeaves(l: Ledger, body: Body, fate: Fate, all: multiset<Body>, rest: multiset<Body>)
    requires l.produced == l.acknowledged + l.rejected + l.evicted + l.expired + l.replaced + all
    requires all == multiset{body} + rest
    ensures l.produced == (l.acknowledged + Share(body, fate, true)) + (l.rejected + Share(body, fate, false))
                          + l.evicted + l.expired + l.replaced + rest
  {
  }

  lemma LabelledTwice(l: Ledger, a: multiset<Body>, r: multiset<Body>, a': multiset<Body>, r': multiset<Body>)
    ensures Labelled(Labelled(l, a, r), a', r') == Labelled(l, a + a', r + r')
  {
    assert l.acknowledged + a + a' == l.acknowledged + (a + a');
    assert l.rejected + r + r' == l.rejected + (r + r');
  }

  /** One request after the other until one is lost. */
  ghost function ReplayedAll(w: World, rowsOf: Body -> seq<Row>, fates: seq<Fate>): World
    decreases |fates|
  {
    if fates == [] || w.files == [] then w
    else if Lost(fates[0]) then Replayed(w, rowsOf, fates[0])
    else ReplayedAll(Replayed(w, rowsOf, fates[0]), rowsOf, fates[1..])
  }

  function Batch(fates: seq<Fate>): seq<Fate> {
    if |fates| <= BUFFER_FLUSH_BATCH then fates else fates[..BUFFER_FLUSH_BATCH]
  }

  ghost function Flushed(w: World, rowsOf: Body -> seq<Row>, now: int, fates: seq<Fate>): World {
    ReplayedAll(Pruned(w, now), rowsOf, Batch(fates))
  }

  ghost function Sent(w: World, rowsOf: Body -> seq<Row>, body: Body, now: int, fate: Fate): World {
    var table, l := TableAfter(w.table, rowsOf(body), fate), w.ledger;
    if Lost(fate) then
      World(Put(w.files[Surplus(w.files)..], Entry(now, body)), table, Buffered(l, w.files, Entry(now, body)))
    else if fate.Accepted? then
      World(w.files, table,
            l.(produced := l.produced + multiset{body}, acknowledged := l.acknowledged + multiset{body}))
    else
      World(w.files, table, l.(produced := l.produced + multiset{body}, rejected := l.rejected + multiset{body}))
  }

  /** How many payloads of `n` are settled before a request is lost. */
  function Settled(fates: seq<Fate>, n: nat): (r: nat)
    ensures r <= n && r <= |fates|
    ensures forall k :: 0 <= k < r ==> !Lost(fates[k])
    ensures r < n && r < |fates| ==> Lost(fates[r])
  {
    if n == 0 || fates == [] || Lost(fates[0]) then 0 else Settled(fates[1..], n - 1) + 1
  }

  /** The payloads among the first `n` that were accepted, or else those refused. */
  ghost function Answered(files: seq<Entry>, fates: seq<Fate>, n: nat, accepted: bool): multiset<Body>
    requires n <= |files| && n <= |fates|
  {
    if n == 0 then multiset{}
    else
      Share(files[0].body, fates[0], accepted) + Answered(files[1..], fates[1..], n - 1, accepted)
  }

  /** The queue loses exactly the payloads settled. */
  lemma {:induction false} ReplayShortens(w: World, rowsOf: Body -> seq<Row>, fates: seq<Fate>)
    ensures ReplayedAll(w, rowsOf, fates).files == w.files[Settled(fates, |w.files|)..]
    decreases |fates|
  {
    if fates != [] && w.files != [] && !Lost(fates[0]) {
      ReplayStep(w, rowsOf, fates);
      ReplayShortens(Replayed(w, rowsOf, fates[0]), rowsOf, fates[1..]);
      var r := Settled(fates[1..], |w.files| - 1);
      assert w.files[1..][r..] == w.files[r+1..];
    }
  }

  lemma OneMoreLabel(l: Ledger, files: seq<Entry>, fates: seq<Fate>, n: nat)
    requires n < |files| && n < |fates|
    ensures var body, fate := files[0].body, fates[0];
            AllLabelled(Labelled(l, Share(body, fate, true), Share(body, fate, false)), files[1..], fates[1..], n)
            == AllLabelled(l, files, fates, n + 1)
  {
    var body, fate := files[0].body, fates[0];
    LabelledTwice(l, Share(body, fate, true), Share(body, fate, false),
                  Answered(files[1..], fates[1..], n, true), Answered(files[1..], fates[1..], n, false));
  }

  /** The ledger once the first `n` payloads are labelled, each by its own fate. */
  ghost function AllLabelled(l: Ledger, files: seq<Entry>, fates: seq<Fate>, n: nat): Ledger
    requires n <= |files| && n <= |fates|
  {
    Labelled(l, Answered(files, fates, n, true), Answered(files, fates, n, false))
  }

  lemma LabelNone(l: Ledger, files: seq<Entry>, fates: seq<Fate>)
    ensures AllLabelled(l, files, fates, 0) == l
  {
    assert l.acknowledged + multiset{} == l.acknowledged && l.rejected + multiset{} == l.rejected;
  }

  lemma ReplayStep(w: World, rowsOf: Body -> seq<Row>, fates: seq<Fate>)
    requires fates != [] && w.files != [] && !Lost(fates[0])
    ensures var next, body := Replayed(w, rowsOf, fates[0]), w.files[0].body;
            && ReplayedAll(w, rowsOf, fates) == ReplayedAll(next, rowsOf, fates[1..])
            && next.files == w.files[1..]
            && next.ledger == Labelled(w.ledger, Share(body, fates[0], true), Share(body, fates[0], false))
    ensures Settled(fates, |w.files|) == Settled(fates[1..], |w.files| - 1) + 1
  {
  }

  /** The payloads settled are labelled. */
  ghost predicate LabelsAll(w: World, rowsOf: Body -> seq<Row>, fates: seq<Fate>) {
    ReplayedAll(w, rowsOf, fates).ledger == AllLabelled(w.ledger, w.files, fates, Settled(fates, |w.files|))
  }

  lemma LabelsStep(w: World, rowsOf: Body -> seq<Row>, fates: seq<Fate>)
    requires fates != [] && w.files != [] && !Lost(fates[0])
    requires LabelsAll(Replayed(w, rowsOf, fates[0]), rowsOf, fates[1..])
    ensures LabelsAll(w, rowsOf, fates)
  {
    ReplayStep(w, rowsOf, fates);
    var body, fate, n := w.files[0].body, fates[0], Settled(fates[1..], |w.files| - 1);
    var l := Labelled(w.ledger, Share(body, fate, true), Share(body, fate, false));
    assert ReplayedAll(w, rowsOf, fates).ledger == AllLabelled(l, w.files[1..], fates[1..], n);
    OneMoreLabel(w.ledger, w.files, fates, n);
  }

  /** Each payload settled is labelled by its own fate. */
  lemma {:induction false} ReplayLabels(w: World, rowsOf: Body -> seq<Row>, fates: seq<Fate>)
    ensures LabelsAll(w, rowsOf, fates)
    decreases |fates|
  {
    if fates != [] && w.files != [] && !Lost(fates[0]) {
      ReplayLabels(Replayed(w, rowsOf, fates[0]), rowsOf, fates[1..]);
      LabelsStep(w, rowsOf, fates);
    } else {
      LabelNone(w.ledger, w.files, fates);
    }
  }

  /**
    A flush seen from outside: the expired files go, then the payloads settled before the first loss, each
    labelled by its own fate; the others stay.
    */
  ghost predicate FlushedTo(w: World, after: World, now: int, fates: seq<Fate>) {
    var young := Pruned(w, now);
    var r := Settled(Batch(fates), |young.files|);
    && after.files == young.files[r..]
    && after.ledger == AllLabelled(young.ledger, young.files, Batch(fates), r)
  }

  /**
    A payload young enough stays when it is at or behind the first one whose request is lost, or past the
    batch. `files[h]` is any young payload: at most as many requests as there are from it to `files[j]`
    come before the one for `files[j]`.
    */
  ghost predicate KeepsFromFirstLoss(files: seq<Entry>, after: seq<Entry>, now: int, fates: seq<Fate>) {
    forall h, j {:trigger files[h], files[j]} :: 0 <= h <= j < |files| && files[h].name >= now - MAX_AGE ==>
      (j - h >= BUFFER_FLUSH_BATCH || LossUpTo(fates, j - h)) ==> files[j] in after
  }

  ghost predicate LossUpTo(fates: seq<Fate>, n: nat) {
    exists i :: 0 <= i <= n && i < |fates| && fates[i] in {RequestLost, AnswerLost, Refused(ServerError)}
  }

  lemma YoungOnesStay(w: World, after: World, now: int, fates: seq<Fate>)
    requires Listing(w.files) && |fates| >= BUFFER_FLUSH_BATCH && FlushedTo(w, after, now, fates)
    ensures KeepsFromFirstLoss(w.files, after.files, now, fates)
  {
    var e := Aged(w.files, now);
    var young := w.files[e..];
    var r := Settled(Batch(fates), |young|);
    forall h, j | 0 <= h <= j < |w.files| && w.files[h].name >= now - MAX_AGE
      && (j - h >= BUFFER_FLUSH_BATCH || LossUpTo(fates, j - h))
      ensures w.files[j] in after.files
    {
      assert e <= h;
      assert r <= j - h;
      assert young[r..][j-e-r] == w.files[j];
    }
  }

  lemma FlushSettles(w: World, rowsOf: Body -> seq<Row>, now: int, fates: seq<Fate>)
    ensures FlushedTo(w, Flushed(w, rowsOf, now, fates), now, fates)
  {
    ReplayShortens(Pruned(w, now), rowsOf, Batch(fates));
    ReplayLabels(Pruned(w, now), rowsOf, Batch(fates));
  }

  /** What replaying keeps: nothing lost or counted twice, keys stored once, acknowledged payloads in the table. */
  ghost predicate Sound(w: World, rowsOf: Body -> seq<Row>) {
    && Listing(w.files) && |w.files| <= MAX_ENTRIES
    && Balanced(w.ledger, w.files) && KeysOnce(w.table) && Delivered(w.ledger, rowsOf, w.table)
  }

  lemma TableIsSound(l: Ledger, rowsOf: Body -> seq<Row>, table: Table, rows: seq<Row>, fate: Fate)
    requires KeysOnce(table) && Delivered(l, rowsOf, table)
    ensures var after := TableAfter(table, rows, fate);
            KeysOnce(after) && Delivered(l, rowsOf, after) && table <= after && (fate.Accepted? ==> HasAll(after, rows))
  {
    DeliveredStays(l, rowsOf, table, rows);
    InsertAllKeepsKeysOnce(table, rows);
    InsertAllExtends(table, rows);
    InsertedHasAll(table, rows);
  }

  lemma ReplayedIsSound(w: World, rowsOf: Body -> seq<Row>, fate: Fate)
    requires w.files != [] && Sound(w, rowsOf)
    ensures Sound(Replayed(w, rowsOf, fate), rowsOf)
  {
    TableIsSound(w.ledger, rowsOf, w.table, rowsOf(w.files[0].body), fate);
    SettlingBalances(w.ledger, w.files, fate);
  }

  lemma PrunedIsSound(w: World, rowsOf: Body -> seq<Row>, now: int)
    requires Sound(w, rowsOf)
    ensures Sound(Pruned(w, now), rowsOf)
  {
    PruneBalances(w.ledger, w.files, Aged(w.files, now));
  }

  lemma SentIsSound(w: World, rowsOf: Body -> seq<Row>, body: Body, now: int, fate: Fate)
    requires Sound(w, rowsOf)
    ensures Sound(Sent(w, rowsOf, body, now, fate), rowsOf)
  {
    TableIsSound(w.ledger, rowsOf, w.table, rowsOf(body), fate);
    if Lost(fate) {
      PushBalances(w.ledger, w.files, Entry(now, body));
      PutIsListing(w.files[Surplus(w.files)..], Entry(now, body));
    }
  }

  lemma NextFate(w: World, rowsOf: Body -> seq<Row>, fates: seq<Fate>, i: nat)
    requires i < BUFFER_FLUSH_BATCH <= |fates| && w.files != []
    ensures ReplayedAll(w, rowsOf, Batch(fates)[i..])
         == if Lost(fates[i]) then Replayed(w, rowsOf, fates[i])
            else ReplayedAll(Replayed(w, rowsOf, fates[i]), rowsOf, Batch(fates)[i+1..])
  {
    var rest := Batch(fates)[i..];
    assert rest[0] == fates[i] && rest[1..] == Batch(fates)[i+1..];
  }

  class Agent {
    const queue: Queue
    const rowsOf: Body -> seq<Row>
    var table: Table
    ghost var ledger: Ledger

    ghost function Current(): World
      reads this, queue
    {
      World(queue.files, table, ledger)
    }

    ghost predicate Valid()
      reads this, queue
    {
      queue.Valid() && Sound(Current(), rowsOf)
    }

    constructor (rowsOf: Body -> seq<Row>)
      ensures Valid() && fresh(queue) && Current() == World([], [], EMPTY)
    {
      this.rowsOf := rowsOf;
      queue := new Queue();
      table := [];
      ledger := EMPTY;
    }

    /** One request: stored or not, and what the agent learns of it. */
    method Send(body: Body, fate: Fate) returns (outcome: Outcome)
      modifies this`table
      ensures outcome == OutcomeOf(fate) && (outcome.Retry? <==> Lost(fate)) && (outcome.Stored? <==> fate.Accepted?)
      ensures outcome.ClockSkew? <==> fate == Refused(ClockSkewed)
      ensures outcome.HostDisabled? <==> fate == Refused(Disabled)
      ensures table == TableAfter(old(table), rowsOf(body), fate)
    {
      outcome := OutcomeOf(fate);
      if fate.AnswerLost? || fate.Accepted? {
        var stored;
        table, stored := WriteMetricRows(table, rowsOf(body));
      }
    }

    /**
      Replay the queue, oldest first, at most one batch, until a request is lost. The expired files go
      first; then exactly the payloads before the first loss go, each acknowledged or rejected by its own
      fate; the others stay.
      */
    method FlushBuffer(now: int, fates: seq<Fate>)
      requires Valid() && |fates| >= BUFFER_FLUSH_BATCH
      modifies this`table, this`ledger, queue
      ensures Valid() && Current() == Flushed(old(Current()), rowsOf, now, fates)
      ensures FlushedTo(old(Current()), Current(), now, fates)
      ensures KeepsFromFirstLoss(old(queue.files), queue.files, now, fates)
    {
      FlushSettles(Current(), rowsOf, now, fates);
      YoungOnesStay(Current(), Flushed(Current(), rowsOf, now, fates), now, fates);
      var entries := Prune(now);
      ReplayBatch(entries, fates);
    }

    method ReplayBatch(entries: seq<Entry>, fates: seq<Fate>)
      requires Valid() && entries == queue.files && |fates| >= BUFFER_FLUSH_BATCH
      modifies this`table, this`ledger, queue
      ensures Valid() && Current() == ReplayedAll(old(Current()), rowsOf, Batch(fates))
    {
      var i := 0;
      assert Batch(fates)[0..] == Batch(fates);
      while i < |entries| && i < BUFFER_FLUSH_BATCH
        invariant 0 <= i <= |entries| && i <= BUFFER_FLUSH_BATCH && Valid() && queue.files == entries[i..]
        invariant ReplayedAll(Current(), rowsOf, Batch(fates)[i..]) == ReplayedAll(old(Current()), rowsOf, Batch(fates))
      {
        NextFate(Current(), rowsOf, fates, i);
        var outcome := Replay(entries[i], fates[i]);
        if outcome.Retry? { return; }
        i := i + 1;
      }
    }

    /** List the queue, dropping what is too old. */
    method Prune(now: int) returns (entries: seq<Entry>)
      requires Valid()
      modifies this`ledger, queue
      ensures Valid() && Current() == Pruned(old(Current()), now) && entries == queue.files
    {
      PrunedIsSound(Current(), rowsOf, now);
      ghost var after := Pruned(Current(), now).ledger;
      entries := queue.Pending(now);
      ledger := after;
    }

    /** Replay the oldest file. */
    method Replay(entry: Entry, fate: Fate) returns (outcome: Outcome)
      requires Valid() && queue.files != [] && entry == queue.files[0]
      modifies this`table, this`ledger, queue
      ensures Valid() && outcome == OutcomeOf(fate) && (outcome.Retry? <==> Lost(fate))
      ensures Current() == Replayed(old(Current()), rowsOf, fate)
    {
      ReplayedIsSound(Current(), rowsOf, fate);
      ghost var after := Replayed(Current(), rowsOf, fate);
      outcome := Send(entry.body, fate);
      if !outcome.Retry? { queue.Remove(entry.name); }
      ledger := after.ledger;
      assert Current() == after;
    }

    /** Send a fresh payload; keep it for later when the request or its answer is lost. */
    method SendOrBuffer(body: Body, now: int, fate: Fate)
      requires Valid()
      modifies this`table, this`ledger, queue
      ensures Valid() && Current() == Sent(old(Current()), rowsOf, body, now, fate)
      ensures if fate in {RequestLost, AnswerLost, Refused(ServerError)} then Entry(now, body) in queue.files
              else queue.files == old(queue.files)
      ensures fate in {AnswerLost, Accepted} ==> HasAll(table, rowsOf(body))
      ensures fate !in {AnswerLost, Accepted} ==> table == old(table)
    {
      SentIsSound(Current(), rowsOf, body, now, fate);
      PutHas(queue.files[Surplus(queue.files)..], Entry(now, body), Entry(now, body));
      InsertedHasAll(table, rowsOf(body));
      ghost var after := Sent(Current(), rowsOf, body, now, fate);
      var outcome := Send(body, fate);
      if outcome.Retry? { queue.Push(body, now); }
      ledger := after.ledger;
    }
  }

  // ---- Over runs -------------------------------------------------------------------------------

  /** What happens to the agent: it replays its queue, or produces a payload. */
  datatype Event = Flush(now: int, fates: seq<Fate>) | Produce(body: Body, now: int, fate: Fate)

  ghost function Next(w: World, rowsOf: Body -> seq<Row>, e: Event): World {
    match e
    case Flush(now, fates) => Flushed(w, rowsOf, now, fates)
    case Produce(body, now, fate) => Sent(w, rowsOf, body, now, fate)
  }

  ghost function Run(rowsOf: Body -> seq<Row>, events: seq<Event>): World {
    if events == [] then World([], [], EMPTY)
    else Next(Run(rowsOf, events[..|events|-1]), rowsOf, events[|events|-1])
  }

  lemma {:induction false} ReplayedAllIsSound(w: World, rowsOf: Body -> seq<Row>, fates: seq<Fate>)
    requires Sound(w, rowsOf)
    ensures Sound(ReplayedAll(w, rowsOf, fates), rowsOf)
    decreases |fates|
  {
    if fates != [] && w.files != [] {
      ReplayedIsSound(w, rowsOf, fates[0]);
      if !Lost(fates[0]) { ReplayedAllIsSound(Replayed(w, rowsOf, fates[0]), rowsOf, fates[1..]); }
    }
  }

  /** Over every run the ledger balances, the queue is bounded, and what was acknowledged is stored once. */
  lemma {:induction false} RunIsSound(rowsOf: Body -> seq<Row>, events: seq<Event>)
    ensures Sound(Run(rowsOf, events), rowsOf)
  {
    if events != [] {
      var w, e := Run(rowsOf, events[..|events|-1]), events[|events|-1];
      RunIsSound(rowsOf, events[..|events|-1]);
      match e
      case Flush(now, fates) =>
        PrunedIsSound(w, rowsOf, now);
        ReplayedAllIsSound(Pruned(w, now), rowsOf, Batch(fates));
      case Produce(body, now, fate) => SentIsSound(w, rowsOf, body, now, fate);
    }
  }

  /** The event drops `f`: it is past its age, among the oldest of a full queue, or its name is written over. */
  ghost predicate Displaces(w: World, e: Event, f: Entry) {
    match e
    case Flush(now, _) => f.name < now - MAX_AGE
    case Produce(body, now, fate) =>
      Lost(fate) && f != Entry(now, body) && (f in w.files[..Surplus(w.files)] || f.name == now)
  }

  /** The event gets an answer for `f`: it is young enough, and no request before or for it is lost. */
  ghost predicate Settles(w: World, e: Event, f: Entry) {
    e.Flush? &&
    var young := w.files[Aged(w.files, e.now)..];
    f in young[..Settled(Batch(e.fates), |young|)]
  }

  /** Sorted by name, the first ones are those older than the cutoff. */
  lemma AgedAre(files: seq<Entry>, now: int, f: Entry)
    requires Listing(files) && f in files
    ensures f in files[Aged(files, now)..] <==> f.name >= now - MAX_AGE
  {
    var e := Aged(files, now);
    var k :| 0 <= k < |files| && files[k] == f;
    if k >= e {
      assert files[e..][k-e] == f;
      assert k > e ==> files[e].name < files[k].name;
    }
    if f in files[e..] {
      var j :| 0 <= j < |files[e..]| && files[e..][j] == f;
      assert files[e + j] == f;
    }
  }

  /** Cutting a listing keeps what is not in the part cut off. */
  lemma CutKeeps(files: seq<Entry>, k: nat, f: Entry)
    requires Listing(files) && k <= |files| && f in files
    ensures f in files[k..] <==> f !in files[..k]
  {
    var i :| 0 <= i < |files| && files[i] == f;
    if i < k {
      assert files[..k][i] == f;
      forall b | 0 <= b < |files[k..]| ensures files[k..][b] != f {
        assert files[i].name < files[k + b].name;
      }
    } else {
      assert files[k..][i-k] == f;
      forall a | 0 <= a < k ensures files[..k][a] != f {
        assert files[a].name < files[i].name;
      }
    }
  }

  /** Writing a file keeps the others. */
  lemma {:induction false} PutHas(files: seq<Entry>, g: Entry, f: Entry)
    requires Listing(files)
    ensures f in Put(files, g) <==> f == g || (f in files && f.name != g.name)
  {
    if files != [] {
      var m := |files| - 1;
      var last := files[m];
      assert f in files <==> f in files[..m] || f == last;
      if f in files[..m] {
        var k :| 0 <= k < m && files[..m][k] == f;
        assert files[k].name < files[m].name;
      }
      if last.name > g.name { PutHas(files[..m], g, f); }
    }
  }

  /** A buffered payload leaves the queue exactly when the event displaces it or gets an answer for it. */
  lemma LeavesOnlyWhen(w: World, rowsOf: Body -> seq<Row>, e: Event, f: Entry)
    requires Sound(w, rowsOf) && f in w.files
    ensures f in Next(w, rowsOf, e).files <==> !Displaces(w, e, f) && !Settles(w, e, f)
  {
    match e
    case Flush(now, fates) =>
      var young := w.files[Aged(w.files, now)..];
      AgedAre(w.files, now, f);
      ReplayShortens(Pruned(w, now), rowsOf, Batch(fates));
      if f in young { CutKeeps(young, Settled(Batch(fates), |young|), f); }
    case Produce(body, now, fate) =>
      if Lost(fate) {
        CutKeeps(w.files, Surplus(w.files), f);
        PutHas(w.files[Surplus(w.files)..], Entry(now, body), f);
      }
  }

  lemma RunStep(rowsOf: Body -> seq<Row>, events: seq<Event>, k: nat)
    requires k < |events|
    ensures Run(rowsOf, events[..k+1]) == Next(Run(rowsOf, events[..k]), rowsOf, events[k])
  {
    assert events[..k+1][..k] == events[..k];
  }

  ghost predicate Holds(rowsOf: Body -> seq<Row>, events: seq<Event>, k: nat, f: Entry) {
    k <= |events| && f in Run(rowsOf, events[..k]).files
  }

  /** What holds first and fails later stops holding somewhere. */
  lemma {:induction false} LastTime(p: int -> bool, n: int, m: int) returns (k: int)
    requires n < m && p(n) && !p(m)
    ensures n <= k < m && p(k) && !p(k + 1)
    decreases m - n
  {
    if p(m - 1) { k := m - 1; } else { k := LastTime(p, n, m - 1); }
  }

  lemma LeavesAt(rowsOf: Body -> seq<Row>, events: seq<Event>, k: nat, f: Entry)
    requires k < |events| && Holds(rowsOf, events, k, f) && !Holds(rowsOf, events, k + 1, f)
    ensures Displaces(Run(rowsOf, events[..k]), events[k], f) || Settles(Run(rowsOf, events[..k]), events[k], f)
  {
    RunStep(rowsOf, events, k);
    RunIsSound(rowsOf, events[..k]);
    LeavesOnlyWhen(Run(rowsOf, events[..k]), rowsOf, events[k], f);
  }

  /** A buffered payload that is gone left at some event that displaced it or got an answer for it. */
  lemma WhyItLeft(rowsOf: Body -> seq<Row>, events: seq<Event>, n: nat, f: Entry) returns (k: nat)
    requires Holds(rowsOf, events, n, f) && f !in Run(rowsOf, events).files
    ensures n <= k < |events| && Holds(rowsOf, events, k, f)
    ensures Displaces(Run(rowsOf, events[..k]), events[k], f) || Settles(Run(rowsOf, events[..k]), events[k], f)
  {
    assert events[..|events|] == events;
    assert !Holds(rowsOf, events, |events|, f);
    assert n < |events|;
    k := LastTime(i => i >= 0 && Holds(rowsOf, events, i, f), n, |events|);
    LeavesAt(rowsOf, events, k, f);
  }

  /** Every request of the event, or its answer, is lost. */
  ghost predicate AllLost(e: Event) {
    match e
    case Flush(_, fates) => forall k :: 0 <= k < |fates| ==> Lost(fates[k])
    case Produce(_, _, fate) => Lost(fate)
  }

  /** While every request or answer is lost, a payload stays buffered until its age, an eviction or an overwrite. */
  lemma LostStaysBuffered(rowsOf: Body -> seq<Row>, events: seq<Event>, n: nat, f: Entry)
    requires Holds(rowsOf, events, n, f)
    requires forall k :: n <= k < |events| ==> AllLost(events[k])
    requires forall k :: n <= k < |events| ==> !Displaces(Run(rowsOf, events[..k]), events[k], f)
    ensures f in Run(rowsOf, events).files
  {
    if f !in Run(rowsOf, events).files {
      var k := WhyItLeft(rowsOf, events, n, f);
      NothingSettled(Run(rowsOf, events[..k]), events[k], f);
      assert false;
    }
  }

  lemma NothingSettled(w: World, e: Event, f: Entry)
    requires AllLost(e)
    ensures !Settles(w, e, f)
  {
  }

  /** A payload produced while the network is down is buffered under its time. */
  lemma LostIsBuffered(rowsOf: Body -> seq<Row>, events: seq<Event>, e: Event)
    requires e.Produce? && Lost(e.fate)
    ensures Entry(e.now, e.body) in Run(rowsOf, events + [e]).files
  {
    assert (events + [e])[..|events|] == events;
    var w := Run(rowsOf, events);
    RunIsSound(rowsOf, events);
    PutHas(w.files[Surplus(w.files)..], Entry(e.now, e.body), Entry(e.now, e.body));
  }

  lemma LostIsHeld(rowsOf: Body -> seq<Row>, events: seq<Event>, n: nat)
    requires n < |events| && events[n].Produce? && Lost(events[n].fate)
    ensures Holds(rowsOf, events, n + 1, Entry(events[n].now, events[n].body))
  {
    LostIsBuffered(rowsOf, events[..n], events[n]);
    assert events[..n] + [events[n]] == events[..n+1];
  }

  /** Produced and kept while the network is down: from its own event to the end of the run, unless displaced. */
  lemma LostIsKept(rowsOf: Body -> seq<Row>, events: seq<Event>, n: nat)
    requires n < |events| && events[n].Produce?
    requires forall k :: n <= k < |events| ==> AllLost(events[k])
    requires var f := Entry(events[n].now, events[n].body);
             forall k :: n < k < |events| ==> !Displaces(Run(rowsOf, events[..k]), events[k], f)
    ensures Entry(events[n].now, events[n].body) in Run(rowsOf, events).files
  {
    LostIsHeld(rowsOf, events, n);
    LostStaysBuffered(rowsOf, events, n + 1, Entry(events[n].now, events[n].body));
  }

  // ---- What the ledger says --------------------------------------------------------------------

  /** The event gets this answer for the payload: an acceptance, or else a refusal for good. */
  ghost predicate Answers(w: World, e: Event, b: Body, accepted: bool) {
    match e
    case Flush(now, fates) =>
      var young := w.files[Aged(w.files, now)..];
      exists j :: 0 <= j < |young| && j < |Batch(fates)| && young[j].body == b && Says(Batch(fates)[j], accepted)
    case Produce(body, _, fate) => body == b && Says(fate, accepted)
  }

  predicate Says(fate: Fate, accepted: bool) {
    if accepted then fate.Accepted? else RefusedForGood(fate)
  }

  ghost function Side(l: Ledger, accepted: bool): multiset<Body> {
    if accepted then l.acknowledged else l.rejected
  }

  lemma {:induction false} AnsweredHas(files: seq<Entry>, fates: seq<Fate>, n: nat, accepted: bool, b: Body)
    returns (j: nat)
    requires n <= |files| && n <= |fates| && b in Answered(files, fates, n, accepted)
    ensures j < n && files[j].body == b && fates[j].Accepted? == accepted
  {
    if b in Share(files[0].body, fates[0], accepted) {
      j := 0;
    } else {
      j := AnsweredHas(files[1..], fates[1..], n - 1, accepted, b);
      j := j + 1;
    }
  }

  lemma FlushLabels(w: World, rowsOf: Body -> seq<Row>, now: int, fates: seq<Fate>, b: Body, accepted: bool)
    requires b in Side(Flushed(w, rowsOf, now, fates).ledger, accepted) && b !in Side(w.ledger, accepted)
    ensures Answers(w, Flush(now, fates), b, accepted)
  {
    FlushSettles(w, rowsOf, now, fates);
    var young := Pruned(w, now).files;
    var r := Settled(Batch(fates), |young|);
    assert b in Answered(young, Batch(fates), r, accepted);
    var j := AnsweredHas(young, Batch(fates), r, accepted, b);
    assert !Lost(Batch(fates)[j]);
    assert Says(Batch(fates)[j], accepted);
  }

  lemma NextLabels(w: World, rowsOf: Body -> seq<Row>, e: Event, b: Body, accepted: bool)
    requires b in Side(Next(w, rowsOf, e).ledger, accepted) && b !in Side(w.ledger, accepted)
    ensures Answers(w, e, b, accepted)
  {
    if e.Flush? { FlushLabels(w, rowsOf, e.now, e.fates, b, accepted); }
  }

  /**
    The ledger tells the truth: a payload counted as acknowledged was accepted at some event of the run,
    and one counted as rejected was refused for good, by anything but a server error.
    */
  lemma {:induction false} LedgerIsTrue(rowsOf: Body -> seq<Row>, events: seq<Event>, b: Body, accepted: bool)
    returns (k: nat)
    requires b in Side(Run(rowsOf, events).ledger, accepted)
    ensures k < |events| && Answers(Run(rowsOf, events[..k]), events[k], b, accepted)
  {
    var m := |events| - 1;
    if b in Side(Run(rowsOf, events[..m]).ledger, accepted) {
      k := LedgerIsTrue(rowsOf, events[..m], b, accepted);
      assert events[..m][..k] == events[..k];
    } else {
      NextLabels(Run(rowsOf, events[..m]), rowsOf, events[m], b, accepted);
      k := m;
    }
  }
}
