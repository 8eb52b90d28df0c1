/**
  `analyzeIncident`: what explains an incident, given the other incidents and the dependency map.
  Map nodes are listed by id; their labels and the incidents' titles are not modelled.
  */
module RootCause {
  import opened Common
  import opened Sequences
  import opened Digraph
  import opened DependencyMap

  type IncidentId(==, !new)
  type SourceId(==, !new)

  /** Times are in milliseconds. */
  datatype Incident = Incident(id: IncidentId, source: Option<SourceId>, startedAt: int, resolved: bool)
  datatype MapNode = MapNode(id: NodeId, refId: Option<SourceId>)
  datatype Topology = Topology(nodes: seq<MapNode>, edges: seq<Edge>)

  datatype Verdict = Symptom | RootCause | Isolated | NotMapped
  datatype Ref = Ref(id: IncidentId, offsetSec: int)
  datatype Group = Group(node: NodeId, incidents: seq<Ref>)
  datatype Findings = Findings(verdict: Verdict, node: Option<NodeId>, rootCauses: seq<Group>, impacted: seq<Group>,
                               radius: nat, reached: seq<NodeId>, sameSource: seq<Ref>, correlated: seq<Ref>,
                               firstToStart: bool, confidence: real)

  const CORRELATION_WINDOW_MS := 15 * 60 * 1000
  const MAX_LISTED := 10

  predicate InWindow(origin: Incident, other: Incident) {
    Abs(other.startedAt - origin.startedAt) <= CORRELATION_WINDOW_MS
  }

  /** Still active, or started at about the same time. */
  predicate Relevant(origin: Incident, other: Incident) {
    other.id != origin.id && (!other.resolved || InWindow(origin, other))
  }

  /** The map node monitored as `source`: the last one listed, as later entries of a `Map` replace earlier ones. */
  function NodeOf(nodes: seq<MapNode>, source: SourceId): Option<NodeId> {
    if nodes == [] then None
    else
      var last := nodes[|nodes|-1];
      if last.refId == Some(source) then Some(last.id) else NodeOf(nodes[..|nodes|-1], source)
  }

  /** Entry `k` is the last one for `source`. */
  ghost predicate LastFor(nodes: seq<MapNode>, source: SourceId, k: int) {
    && 0 <= k < |nodes| && nodes[k].refId == Some(source)
    && forall j :: k < j < |nodes| ==> nodes[j].refId != Some(source)
  }

  lemma {:induction false} NodeOfIsLast(nodes: seq<MapNode>, source: SourceId, n: NodeId)
    ensures NodeOf(nodes, source) == Some(n) <==> exists k :: LastFor(nodes, source, k) && nodes[k].id == n
  {
    if nodes != [] {
      var m := |nodes| - 1;
      if nodes[m].refId == Some(source) {
        assert LastFor(nodes, source, m);
      } else {
        NodeOfIsLast(nodes[..m], source, n);
        forall k ensures LastFor(nodes, source, k) <==> LastFor(nodes[..m], source, k) { }
      }
    }
  }

  function Mapped(topology: Topology, incident: Incident): Option<NodeId> {
    if incident.source.None? then None else NodeOf(topology.nodes, incident.source.value)
  }

  /** An incident sits on the last node listed for its source. */
  lemma MappedIsLast(topology: Topology, incident: Incident, n: NodeId)
    ensures Mapped(topology, incident) == Some(n) <==>
              incident.source.Some?
              && exists k :: LastFor(topology.nodes, incident.source.value, k) && topology.nodes[k].id == n
  {
    if incident.source.Some? { NodeOfIsLast(topology.nodes, incident.source.value, n); }
  }

  /** The relevant incidents of node `n`, in input order. */
  function At(origin: Incident, others: seq<Incident>, topology: Topology, n: NodeId): seq<Incident> {
    if others == [] then []
    else
      var front, last := others[..|others|-1], others[|others|-1];
      At(origin, front, topology, n) +
      if Relevant(origin, last) && Mapped(topology, last) == Some(n) then [last] else []
  }

  lemma {:induction false} AtHas(origin: Incident, others: seq<Incident>, topology: Topology, n: NodeId, o: Incident)
    ensures o in At(origin, others, topology, n) <==>
              o in others && Relevant(origin, o) && Mapped(topology, o) == Some(n)
  {
    if others != [] {
      var m := |others| - 1;
      AtHas(origin, others[..m], topology, n, o);
      assert o in others <==> o in others[..m] || o == others[m];
    }
  }

  type ByNode = map<NodeId, seq<Incident>>

  function Listed(byNode: ByNode, n: NodeId): seq<Incident> {
    if n in byNode then byNode[n] else []
  }

  /** `byNode` files the relevant incidents under their nodes; `keys` are its keys in insertion order. */
  ghost predicate Files(origin: Incident, others: seq<Incident>, topology: Topology, byNode: ByNode, keys: seq<NodeId>)
  {
    && NoDuplicates(keys)
    && (forall n :: n in keys <==> n in byNode)
    && (forall n :: Listed(byNode, n) == At(origin, others, topology, n))
    && (forall n :: n in byNode ==> byNode[n] != [])
  }

  method FileByNode(origin: Incident, others: seq<Incident>, topology: Topology)
    returns (byNode: ByNode, keys: seq<NodeId>)
    ensures Files(origin, others, topology, byNode, keys)
  {
    byNode, keys := map[], [];
    for i := 0 to |others|
      invariant Files(origin, others[..i], topology, byNode, keys)
    {
      var other := others[i];
      if !Relevant(origin, other) || Mapped(topology, other).None? {
        FilesSkips(origin, others, i, topology, byNode, keys);
        continue;
      }
      FilesNext(origin, others, i, topology, byNode, keys);
      var node := Mapped(topology, other).value;
      if node !in byNode { keys := keys + [node]; }
      byNode := byNode[node := Listed(byNode, node) + [other]];
    }
    assert others[..|others|] == others;
  }

  lemma AtNext(origin: Incident, others: seq<Incident>, i: nat, topology: Topology, n: NodeId)
    requires i < |others|
    ensures At(origin, others[..i+1], topology, n) == At(origin, others[..i], topology, n) +
              if Relevant(origin, others[i]) && Mapped(topology, others[i]) == Some(n) then [others[i]] else []
  {
    assert others[..i+1][..i] == others[..i];
  }

  lemma FilesSkips(origin: Incident, others: seq<Incident>, i: nat, topology: Topology, byNode: ByNode,
                   keys: seq<NodeId>)
    requires i < |others| && Files(origin, others[..i], topology, byNode, keys)
    requires !Relevant(origin, others[i]) || Mapped(topology, others[i]).None?
    ensures Files(origin, others[..i+1], topology, byNode, keys)
  {
    forall n ensures Listed(byNode, n) == At(origin, others[..i+1], topology, n) {
      AtNext(origin, others, i, topology, n);
    }
  }

  lemma FilesNext(origin: Incident, others: seq<Incident>, i: nat, topology: Topology, byNode: ByNode,
                  keys: seq<NodeId>)
    requires i < |others| && Files(origin, others[..i], topology, byNode, keys)
    requires Relevant(origin, others[i]) && Mapped(topology, others[i]).Some?
    ensures var node := Mapped(topology, others[i]).value;
            Files(origin, others[..i+1], topology, byNode[node := Listed(byNode, node) + [others[i]]],
                  if node in byNode then keys else keys + [node])
  {
    var node := Mapped(topology, others[i]).value;
    var byNode' := byNode[node := Listed(byNode, node) + [others[i]]];
    forall n ensures Listed(byNode', n) == At(origin, others[..i+1], topology, n) {
      AtNext(origin, others, i, topology, n);
    }
  }

  // ---- Failing dependencies and dependents -----------------------------------------------------

  /** Another relevant incident sits on node `n`. */
  ghost predicate FailsAt(origin: Incident, others: seq<Incident>, topology: Topology, n: NodeId) {
    exists o :: o in others && Relevant(origin, o) && Mapped(topology, o) == Some(n)
  }

  ghost predicate Upstream(origin: Incident, others: seq<Incident>, topology: Topology, self: NodeId, n: NodeId) {
    n != self && DependsOn(topology.edges, self, n) && FailsAt(origin, others, topology, n)
  }

  ghost predicate Downstream(origin: Incident, others: seq<Incident>, topology: Topology, self: NodeId, n: NodeId) {
    n != self && DependsOn(topology.edges, n, self) && FailsAt(origin, others, topology, n)
  }

  /** The incident's own node and every node another relevant incident sits on. */
  ghost function Unhealthy(origin: Incident, others: seq<Incident>, topology: Topology, self: NodeId): set<NodeId> {
    {self} + set o | o in others && Relevant(origin, o) && Mapped(topology, o).Some? :: Mapped(topology, o).value
  }

  lemma UnhealthyHas(origin: Incident, others: seq<Incident>, topology: Topology, self: NodeId, n: NodeId)
    ensures n in Unhealthy(origin, others, topology, self) <==> n == self || FailsAt(origin, others, topology, n)
  {
    if FailsAt(origin, others, topology, n) {
      var o :| o in others && Relevant(origin, o) && Mapped(topology, o) == Some(n);
      assert Mapped(topology, o).value == n;
    }
  }

  /** A failing dependency that explains failures above it: none of its own dependencies fails. */
  ghost predicate Origin(origin: Incident, others: seq<Incident>, topology: Topology, self: NodeId, n: NodeId) {
    && Upstream(origin, others, topology, self, n)
    && IsSink(topology.edges, Unhealthy(origin, others, topology, self), n)
  }

  /** The nodes of other relevant incidents. */
  ghost function Others(origin: Incident, others: seq<Incident>, topology: Topology): set<NodeId> {
    set o | o in others && Relevant(origin, o) && Mapped(topology, o).Some? :: Mapped(topology, o).value
  }

  lemma OthersHave(origin: Incident, others: seq<Incident>, topology: Topology, n: NodeId)
    ensures n in Others(origin, others, topology) <==> FailsAt(origin, others, topology, n)
  {
    if FailsAt(origin, others, topology, n) {
      var o :| o in others && Relevant(origin, o) && Mapped(topology, o) == Some(n);
      assert Mapped(topology, o).value == n;
    }
  }

  /** Failing dependencies and origins are those of the map, given which nodes fail. */
  lemma OriginsAreRoots(origin: Incident, others: seq<Incident>, topology: Topology, self: NodeId, n: NodeId)
    ensures var failing := Others(origin, others, topology);
            && (Upstream(origin, others, topology, self, n) <==> FailingAbove(topology.edges, self, failing, n))
            && (Origin(origin, others, topology, self, n) <==> RootAbove(topology.edges, self, failing, n))
  {
    var failing := Others(origin, others, topology);
    OthersHave(origin, others, topology, n);
    assert Unhealthy(origin, others, topology, self) == failing + {self};
  }

  /** Where nothing depended upon lies on a cycle, every failing dependency leads to an origin. */
  lemma SymptomsHaveOrigins(origin: Incident, others: seq<Incident>, topology: Topology, self: NodeId, n: NodeId)
    returns (root: NodeId)
    requires NoCycleBelow(topology.edges) && Upstream(origin, others, topology, self, n)
    ensures Origin(origin, others, topology, self, root)
    ensures root == n || DependsOn(topology.edges, n, root)
  {
    OriginsAreRoots(origin, others, topology, self, n);
    root := RootIsAbove(topology.edges, self, Others(origin, others, topology), n);
    OriginsAreRoots(origin, others, topology, self, root);
  }

  // ---- Lists -----------------------------------------------------------------------------------

  /** The members of `nodes` that are unhealthy, in order. */
  function Failing(nodes: seq<NodeId>, unhealthy: seq<NodeId>): seq<NodeId> {
    if nodes == [] then []
    else
      var front, last := nodes[..|nodes|-1], nodes[|nodes|-1];
      Failing(front, unhealthy) + if last in unhealthy then [last] else []
  }

  lemma {:induction false} FailingHas(nodes: seq<NodeId>, unhealthy: seq<NodeId>, n: NodeId)
    ensures n in Failing(nodes, unhealthy) <==> n in nodes && n in unhealthy
  {
    if nodes != [] {
      var m := |nodes| - 1;
      FailingHas(nodes[..m], unhealthy, n);
      assert n in nodes <==> n in nodes[..m] || n == nodes[m];
    }
  }

  lemma {:induction false} FailingDistinct(nodes: seq<NodeId>, unhealthy: seq<NodeId>)
    requires NoDuplicates(nodes)
    ensures NoDuplicates(Failing(nodes, unhealthy))
  {
    if nodes != [] {
      var m := |nodes| - 1;
      FailingDistinct(nodes[..m], unhealthy);
      FailingHas(nodes[..m], unhealthy, nodes[m]);
    }
  }

  /** Filtering keeps the order. */
  lemma {:induction false} FailingKeepsOrder(nodes: seq<NodeId>, unhealthy: seq<NodeId>, i: nat, j: nat)
    returns (p: nat, q: nat)
    requires i < j < |Failing(nodes, unhealthy)|
    ensures p < q < |nodes|
    ensures nodes[p] == Failing(nodes, unhealthy)[i] && nodes[q] == Failing(nodes, unhealthy)[j]
  {
    var m := |nodes| - 1;
    var front := Failing(nodes[..m], unhealthy);
    if j < |front| {
      p, q := FailingKeepsOrder(nodes[..m], unhealthy, i, j);
    } else {
      FailingHas(nodes[..m], unhealthy, front[i]);
      var k :| 0 <= k < m && nodes[..m][k] == front[i];
      p, q := k, m;
    }
  }

  lemma FailingBelow(edges: seq<Edge>, n: NodeId, nodes: seq<NodeId>, unhealthy: seq<NodeId>)
    requires NearestBelow(edges, n, nodes)
    ensures NearestBelow(edges, n, Failing(nodes, unhealthy))
  {
    var r := Failing(nodes, unhealthy);
    forall i, j | 0 <= i <= j < |r| ensures NoFartherBelow(edges, n, r[i], r[j]) {
      if i < j { var p, q := FailingKeepsOrder(nodes, unhealthy, i, j); }
    }
  }

  lemma FailingAboveFirst(edges: seq<Edge>, n: NodeId, nodes: seq<NodeId>, unhealthy: seq<NodeId>)
    requires NearestAbove(edges, n, nodes)
    ensures NearestAbove(edges, n, Failing(nodes, unhealthy))
  {
    var r := Failing(nodes, unhealthy);
    forall i, j | 0 <= i <= j < |r| ensures NoFartherAbove(edges, n, r[i], r[j]) {
      if i < j { var p, q := FailingKeepsOrder(nodes, unhealthy, i, j); }
    }
  }

  lemma FailingLargest(edges: seq<Edge>, collate: (NodeId, NodeId) -> int, nodes: seq<NodeId>, unhealthy: seq<NodeId>)
    requires LargestFirst(edges, collate, nodes)
    ensures LargestFirst(edges, collate, Failing(nodes, unhealthy))
  {
    var r := Failing(nodes, unhealthy);
    forall i, j | 0 <= i < j < |r| ensures MoreBreakage(edges, collate, r[i], r[j]) {
      var p, q := FailingKeepsOrder(nodes, unhealthy, i, j);
    }
  }

  /** `Math.round(ms / 1000)`: halves go up. */
  function Seconds(ms: int): int {
    (ms + 500) / 1000
  }

  function RefOf(origin: Incident, o: Incident): Ref {
    Ref(o.id, Seconds(o.startedAt - origin.startedAt))
  }

  function RefsOf(origin: Incident, incidents: seq<Incident>): seq<Ref> {
    if incidents == [] then []
    else RefsOf(origin, incidents[..|incidents|-1]) + [RefOf(origin, incidents[|incidents|-1])]
  }

  lemma {:induction false} RefsHave(origin: Incident, incidents: seq<Incident>, r: Ref)
    ensures r in RefsOf(origin, incidents) <==> exists o :: o in incidents && RefOf(origin, o) == r
  {
    if incidents != [] {
      var m := |incidents| - 1;
      RefsHave(origin, incidents[..m], r);
      assert forall o :: o in incidents <==> o in incidents[..m] || o == incidents[m];
    }
  }

  type Collation = (IncidentId, IncidentId) -> int

  /** Nearest in time first, identifiers breaking ties. */
  function ByOffset(collate: Collation): (Ref, Ref) -> bool {
    (a: Ref, b: Ref) =>
      Abs(a.offsetSec) < Abs(b.offsetSec)
      || (Abs(a.offsetSec) == Abs(b.offsetSec) && collate(a.id, b.id) <= 0)
  }

  function SortedRefs(origin: Incident, incidents: seq<Incident>, collate: Collation): seq<Ref> {
    Sort(RefsOf(origin, incidents), ByOffset(collate))
  }

  lemma ByOffsetIsOrder(collate: Collation)
    requires IsCollation(collate)
    ensures TotalPreorder(ByOffset(collate))
  {
    var le := ByOffset(collate);
    forall a, b ensures le(a, b) || le(b, a) {
      assert collate(a.id, b.id) <= 0 || collate(b.id, a.id) <= 0;
    }
    forall a, b, c | le(a, b) && le(b, c) ensures le(a, c) {
      if Abs(a.offsetSec) == Abs(b.offsetSec) == Abs(c.offsetSec) { assert collate(a.id, c.id) <= 0; }
    }
  }

  /** Every list of incidents is sorted, nearest in time first. */
  lemma RefsAreSorted(origin: Incident, incidents: seq<Incident>, collate: Collation)
    requires IsCollation(collate)
    ensures SortedBy(SortedRefs(origin, incidents, collate), ByOffset(collate))
  {
    ByOffsetIsOrder(collate);
    SortSorts(RefsOf(origin, incidents), ByOffset(collate));
  }

  lemma SortedRefsHave(origin: Incident, incidents: seq<Incident>, collate: Collation, r: Ref)
    ensures r in SortedRefs(origin, incidents, collate) <==> exists o :: o in incidents && RefOf(origin, o) == r
  {
    RefsHave(origin, incidents, r);
    Rearranged(RefsOf(origin, incidents), SortedRefs(origin, incidents, collate));
  }

  function Ids(refs: seq<Ref>): set<IncidentId> {
    set r | r in refs :: r.id
  }

  function GroupOf(origin: Incident, byNode: ByNode, collate: Collation, n: NodeId): Group {
    Group(n, SortedRefs(origin, Listed(byNode, n), collate))
  }

  function GroupsOf(origin: Incident, byNode: ByNode, collate: Collation, nodes: seq<NodeId>): seq<Group> {
    if nodes == [] then []
    else GroupsOf(origin, byNode, collate, nodes[..|nodes|-1]) + [GroupOf(origin, byNode, collate, nodes[|nodes|-1])]
  }

  /** The incidents filed under some nodes. */
  function IdsAt(origin: Incident, byNode: ByNode, collate: Collation, nodes: seq<NodeId>): set<IncidentId> {
    if nodes == [] then {}
    else
      IdsAt(origin, byNode, collate, nodes[..|nodes|-1])
      + Ids(GroupOf(origin, byNode, collate, nodes[|nodes|-1]).incidents)
  }

  /** One list of nodes with their incidents, and the identifiers it links to the incident analysed. */
  method ListGroups(origin: Incident, byNode: ByNode, collate: Collation, nodes: seq<NodeId>, linked0: set<IncidentId>)
    returns (groups: seq<Group>, linked: set<IncidentId>)
    ensures groups == GroupsOf(origin, byNode, collate, nodes)
    ensures linked == linked0 + IdsAt(origin, byNode, collate, nodes)
  {
    groups, linked := [], linked0;
    for i := 0 to |nodes|
      invariant groups == GroupsOf(origin, byNode, collate, nodes[..i])
      invariant linked == linked0 + IdsAt(origin, byNode, collate, nodes[..i])
    {
      GroupsNext(origin, byNode, collate, nodes, i);
      var group := GroupOf(origin, byNode, collate, nodes[i]);
      linked := linked + Ids(group.incidents);
      groups := groups + [group];
    }
    assert nodes[..|nodes|] == nodes;
  }

  lemma GroupsNext(origin: Incident, byNode: ByNode, collate: Collation, nodes: seq<NodeId>, i: nat)
    requires i < |nodes|
    ensures var group := GroupOf(origin, byNode, collate, nodes[i]);
            && GroupsOf(origin, byNode, collate, nodes[..i+1])
               == GroupsOf(origin, byNode, collate, nodes[..i]) + [group]
            && IdsAt(origin, byNode, collate, nodes[..i+1])
               == IdsAt(origin, byNode, collate, nodes[..i]) + Ids(group.incidents)
  {
    assert nodes[..i+1][..i] == nodes[..i];
  }

  /** Who is linked through a list of nodes. */
  lemma {:induction false} IdsAtHas(origin: Incident, others: seq<Incident>, topology: Topology, byNode: ByNode,
                                    keys: seq<NodeId>, collate: Collation, nodes: seq<NodeId>, id: IncidentId)
    requires Files(origin, others, topology, byNode, keys)
    ensures id in IdsAt(origin, byNode, collate, nodes) <==> IdAmong(origin, others, topology, nodes, id)
  {
    if nodes != [] {
      var m := |nodes| - 1;
      IdsAtHas(origin, others, topology, byNode, keys, collate, nodes[..m], id);
      GroupHas(origin, others, topology, byNode, keys, collate, nodes[m], id);
      IdAmongMore(origin, others, topology, nodes[..m], nodes[m], id);
      assert nodes == nodes[..m] + [nodes[m]];
    }
  }

  /** A relevant incident on node `n` has this identifier. */
  ghost predicate IdOn(origin: Incident, others: seq<Incident>, topology: Topology, n: NodeId, id: IncidentId) {
    exists o :: o in others && o.id == id && Relevant(origin, o) && Mapped(topology, o) == Some(n)
  }

  /** A relevant incident on one of `nodes` has this identifier. */
  ghost predicate IdAmong(origin: Incident, others: seq<Incident>, topology: Topology, nodes: seq<NodeId>,
                          id: IncidentId)
  {
    exists n :: n in nodes && IdOn(origin, others, topology, n, id)
  }

  lemma IdAmongMore(origin: Incident, others: seq<Incident>, topology: Topology, nodes: seq<NodeId>, n: NodeId,
                    id: IncidentId)
    ensures IdAmong(origin, others, topology, nodes + [n], id)
            <==> IdAmong(origin, others, topology, nodes, id) || IdOn(origin, others, topology, n, id)
  {
    assert n in nodes + [n];
    assert forall v :: v in nodes ==> v in nodes + [n];
  }

  lemma GroupHas(origin: Incident, others: seq<Incident>, topology: Topology, byNode: ByNode, keys: seq<NodeId>,
                 collate: Collation, n: NodeId, id: IncidentId)
    requires Files(origin, others, topology, byNode, keys)
    ensures id in Ids(GroupOf(origin, byNode, collate, n).incidents) <==> IdOn(origin, others, topology, n, id)
  {
    var group := GroupOf(origin, byNode, collate, n);
    if id in Ids(group.incidents) {
      var r :| r in group.incidents && r.id == id;
      SortedRefsHave(origin, Listed(byNode, n), collate, r);
      var o :| o in Listed(byNode, n) && RefOf(origin, o) == r;
      AtHas(origin, others, topology, n, o);
    }
    forall o | o in others && o.id == id && Relevant(origin, o) && Mapped(topology, o) == Some(n)
      ensures id in Ids(group.incidents)
    {
      AtHas(origin, others, topology, n, o);
      SortedRefsHave(origin, Listed(byNode, n), collate, RefOf(origin, o));
      assert RefOf(origin, o) in group.incidents;
    }
  }

  // ---- The analysis ----------------------------------------------------------------------------

  /** What the dependency map says: the verdict, and the failing nodes behind it. */
  datatype Story = Story(verdict: Verdict, upstream: seq<NodeId>, origins: seq<NodeId>, downstream: seq<NodeId>,
                         radius: seq<NodeId>)

  /** Who is upstream, downstream and at the origin, and the verdict that follows. */
  ghost predicate Tells(origin: Incident, others: seq<Incident>, topology: Topology, self: NodeId, story: Story) {
    && (forall n :: n in story.radius <==> n != self && DependsOn(topology.edges, n, self))
    && |story.radius| == |Dependents(topology.edges, self)|
    && (forall n :: n in story.upstream <==> Upstream(origin, others, topology, self, n))
    && (forall n :: n in story.downstream <==> Downstream(origin, others, topology, self, n))
    && OriginsOf(origin, others, topology, self, story)
    && NoDuplicates(story.upstream) && NoDuplicates(story.downstream) && NoDuplicates(story.origins)
    && story.verdict == if story.upstream != [] then Symptom else if story.downstream != [] then RootCause else Isolated
  }

  /**
    The order of the lists: dependents and dependencies nearest first; origins, when there are some, by the
    breakage they explain, largest first.
    */
  ghost predicate Ranked(origin: Incident, others: seq<Incident>, topology: Topology, self: NodeId,
                         collateNodes: (NodeId, NodeId) -> int, story: Story)
  {
    && NearestAbove(topology.edges, self, story.radius) && NearestAbove(topology.edges, self, story.downstream)
    && NearestBelow(topology.edges, self, story.upstream)
    && ((exists n :: Origin(origin, others, topology, self, n)) ==>
          LargestFirst(topology.edges, collateNodes, story.origins))
  }

  /** The origins, or every failing dependency when there is none, which needs a cycle something depends on. */
  ghost predicate OriginsOf(origin: Incident, others: seq<Incident>, topology: Topology, self: NodeId, story: Story) {
    if exists n :: Origin(origin, others, topology, self, n)
    then forall n :: n in story.origins <==> Origin(origin, others, topology, self, n)
    else story.origins == story.upstream && (story.upstream != [] ==> !NoCycleBelow(topology.edges))
  }

  function WithSelf(keys: seq<NodeId>, self: NodeId): seq<NodeId> {
    if self in keys then keys else keys + [self]
  }

  lemma KeysAreUnhealthy(origin: Incident, others: seq<Incident>, topology: Topology, byNode: ByNode, keys: seq<NodeId>,
                         self: NodeId, n: NodeId)
    requires Files(origin, others, topology, byNode, keys)
    ensures n in WithSelf(keys, self) <==> n == self || FailsAt(origin, others, topology, n)
    ensures n in keys <==> FailsAt(origin, others, topology, n)
  {
    assert n in keys <==> At(origin, others, topology, n) != [] by {
      assert Listed(byNode, n) == At(origin, others, topology, n);
    }
    if n in keys { AtHas(origin, others, topology, n, At(origin, others, topology, n)[0]); }
    forall o | o in others && Relevant(origin, o) && Mapped(topology, o) == Some(n) ensures n in keys {
      AtHas(origin, others, topology, n, o);
    }
  }

  lemma FailingUpstream(origin: Incident, others: seq<Incident>, topology: Topology, byNode: ByNode, keys: seq<NodeId>,
                        self: NodeId, nodes: seq<NodeId>, n: NodeId)
    requires Files(origin, others, topology, byNode, keys)
    requires n in nodes <==> n != self && DependsOn(topology.edges, self, n)
    ensures n in Failing(nodes, WithSelf(keys, self)) <==> Upstream(origin, others, topology, self, n)
  {
    FailingHas(nodes, WithSelf(keys, self), n);
    KeysAreUnhealthy(origin, others, topology, byNode, keys, self, n);
  }

  lemma FailingDownstream(origin: Incident, others: seq<Incident>, topology: Topology, byNode: ByNode,
                          keys: seq<NodeId>,
                          self: NodeId, nodes: seq<NodeId>, n: NodeId)
    requires Files(origin, others, topology, byNode, keys)
    requires n in nodes <==> n != self && DependsOn(topology.edges, n, self)
    ensures n in Failing(nodes, WithSelf(keys, self)) <==> Downstream(origin, others, topology, self, n)
  {
    FailingHas(nodes, WithSelf(keys, self), n);
    KeysAreUnhealthy(origin, others, topology, byNode, keys, self, n);
  }

  lemma UnhealthyIs(origin: Incident, others: seq<Incident>, topology: Topology, byNode: ByNode, keys: seq<NodeId>,
                    self: NodeId)
    requires Files(origin, others, topology, byNode, keys)
    ensures Elements(WithSelf(keys, self)) == Unhealthy(origin, others, topology, self)
  {
    forall n ensures n in WithSelf(keys, self) <==> n in Unhealthy(origin, others, topology, self) {
      KeysAreUnhealthy(origin, others, topology, byNode, keys, self, n);
      UnhealthyHas(origin, others, topology, self, n);
    }
  }

  lemma RootsAreOrigins(origin: Incident, others: seq<Incident>, topology: Topology, self: NodeId,
                        upstream: seq<NodeId>, candidates: seq<NodeId>, unhealthy: seq<NodeId>, n: NodeId)
    requires Elements(unhealthy) == Unhealthy(origin, others, topology, self)
    requires forall v :: v in candidates <==> v in unhealthy && IsSink(topology.edges, Elements(unhealthy), v)
    requires forall v :: v in upstream <==> Upstream(origin, others, topology, self, v)
    ensures n in Failing(candidates, upstream) <==> Origin(origin, others, topology, self, n)
  {
    FailingHas(candidates, upstream, n);
    UnhealthyHas(origin, others, topology, self, n);
    assert n in unhealthy <==> n in Elements(unhealthy);
  }

  lemma OriginsAreFound(origin: Incident, others: seq<Incident>, topology: Topology, self: NodeId,
                        roots: seq<NodeId>, story: Story)
    requires forall n :: n in roots <==> Origin(origin, others, topology, self, n)
    requires forall n :: n in story.upstream <==> Upstream(origin, others, topology, self, n)
    requires story.origins == if roots != [] then roots else story.upstream
    ensures OriginsOf(origin, others, topology, self, story)
  {
    if roots != [] {
      assert Origin(origin, others, topology, self, roots[0]);
    } else if story.upstream != [] && NoCycleBelow(topology.edges) {
      var root := SymptomsHaveOrigins(origin, others, topology, self, story.upstream[0]);
      assert root in roots;
    }
  }

  /** The part of the analysis done for a source on the map. */
  method Explain(origin: Incident, ghost others: seq<Incident>, topology: Topology, self: NodeId, byNode: ByNode,
                 keys: seq<NodeId>, collateNodes: (NodeId, NodeId) -> int)
    returns (story: Story)
    requires Files(origin, others, topology, byNode, keys) && IsCollation(collateNodes)
    ensures Tells(origin, others, topology, self, story)
    ensures Ranked(origin, others, topology, self, collateNodes, story)
  {
    var unhealthy := WithSelf(keys, self);
    var radius := BlastRadius(topology.edges, self);
    var dependencies := DependenciesOf(topology.edges, self);
    var upstream := Failing(dependencies, unhealthy);
    var downstream := Failing(radius, unhealthy);
    var candidates := RootCauseCandidates(topology.edges, unhealthy, collateNodes);
    var roots := Failing(candidates, upstream);
    var verdict := Isolated;
    if |upstream| > 0 { verdict := Symptom; }
    if |downstream| > 0 && verdict != Symptom { verdict := RootCause; }
    story := Story(verdict, upstream, if |roots| > 0 then roots else upstream, downstream, radius);

    forall n ensures n in upstream <==> Upstream(origin, others, topology, self, n) {
      FailingUpstream(origin, others, topology, byNode, keys, self, dependencies, n);
    }
    forall n ensures n in downstream <==> Downstream(origin, others, topology, self, n) {
      FailingDownstream(origin, others, topology, byNode, keys, self, radius, n);
    }
    UnhealthyIs(origin, others, topology, byNode, keys, self);
    forall n ensures n in roots <==> Origin(origin, others, topology, self, n) {
      RootsAreOrigins(origin, others, topology, self, upstream, candidates, unhealthy, n);
    }
    OriginsAreFound(origin, others, topology, self, roots, story);
    FailingDistinct(dependencies, unhealthy);
    FailingDistinct(radius, unhealthy);
    FailingDistinct(candidates, upstream);
    FailingBelow(topology.edges, self, dependencies, unhealthy);
    FailingAboveFirst(topology.edges, self, radius, unhealthy);
    FailingLargest(topology.edges, collateNodes, candidates, upstream);
  }

  /**
    Two active incidents on different nodes see each other alike: the analysis of one lists the other's
    node as a failing dependency exactly when the analysis of the other lists its node as a failing dependent.
    */
  lemma AnalysesAgree(a: Incident, b: Incident, othersOfA: seq<Incident>, othersOfB: seq<Incident>, topology: Topology,
                      nodeA: NodeId, nodeB: NodeId, storyOfA: Story, storyOfB: Story)
    requires a.id != b.id && !a.resolved && !b.resolved && b in othersOfA && a in othersOfB
    requires Mapped(topology, a) == Some(nodeA) && Mapped(topology, b) == Some(nodeB) && nodeA != nodeB
    requires Tells(a, othersOfA, topology, nodeA, storyOfA) && Tells(b, othersOfB, topology, nodeB, storyOfB)
    ensures nodeB in storyOfA.upstream <==> nodeA in storyOfB.downstream
  {
    assert Relevant(a, b) && Relevant(b, a);
    assert FailsAt(a, othersOfA, topology, nodeB) && FailsAt(b, othersOfB, topology, nodeA);
    assert nodeB in storyOfA.upstream <==> Upstream(a, othersOfA, topology, nodeA, nodeB);
    assert nodeA in storyOfB.downstream <==> Downstream(b, othersOfB, topology, nodeB, nodeA);
  }

  // ---- Findings --------------------------------------------------------------------------------

  /** A heuristic weight, not a probability. */
  function ConfidenceOf(verdict: Verdict, roots: nat, impacted: nat, correlated: nat, sameSource: nat,
                        first: bool): real
  {
    match verdict
    case Symptom => if roots == 1 then 0.8 else 0.6
    case RootCause =>
      var c := 0.7 + 0.05 * impacted as real + if first then 0.05 else 0.0;
      if c < 0.9 then c else 0.9
    case Isolated => if correlated > 0 then 0.35 else 0.5 + if sameSource > 0 then 0.1 else 0.0
    case NotMapped => if correlated > 0 || sameSource > 0 then 0.3 else 0.2
  }

  /** An explanation is never weighed below the lack of one, and no weight leaves its range. */
  lemma ExplanationsWeighMore(v: Verdict, w: Verdict, r: nat, i: nat, c: nat, s: nat, f: bool,
                              r': nat, i': nat, c': nat, s': nat, f': bool)
    requires v in {Symptom, RootCause} && w in {Isolated, NotMapped}
    ensures 0.2 <= ConfidenceOf(w, r', i', c', s', f') <= ConfidenceOf(v, r, i, c, s, f) <= 0.9
    ensures ConfidenceOf(w, r', i', c', s', f') == ConfidenceOf(v, r, i, c, s, f) ==>
              v == Symptom && r != 1 && w == Isolated && c' == 0 && s' > 0
  {
    assert 0.05 * i as real >= 0.0;
  }

  /**
    One failing dependency explains better than several; each dependent explained and an early start add
    to the weight of a root cause, never past 0.9; company in time or place takes from the lack of a link.
    */
  lemma WeightsFollow(i: nat, i': nat, c: nat, s: nat, f: bool, r: nat)
    requires r != 1 && i <= i'
    ensures ConfidenceOf(Symptom, 1, i, c, s, f) > ConfidenceOf(Symptom, r, i, c, s, f)
    ensures 0.7 <= ConfidenceOf(RootCause, r, i, c, s, f) <= ConfidenceOf(RootCause, r, i', c, s, f)
    ensures ConfidenceOf(RootCause, r, i, c, s, false) <= ConfidenceOf(RootCause, r, i, c, s, true)
    ensures var steps := i + if f then 1 else 0;
            ConfidenceOf(RootCause, r, i, c, s, f) == if steps >= 4 then 0.9 else 0.7 + 0.05 * steps as real
    ensures c > 0 ==> ConfidenceOf(Isolated, r, i, c, s, f) < ConfidenceOf(Isolated, r, i, 0, s, f)
    ensures s > 0 ==> ConfidenceOf(Isolated, r, i, 0, 0, f) < ConfidenceOf(Isolated, r, i, 0, s, f)
    ensures c + s > 0 ==> ConfidenceOf(NotMapped, r, i, 0, 0, f) < ConfidenceOf(NotMapped, r, i, c, s, f)
  {
    assert 0.0 <= 0.05 * i as real <= 0.05 * i' as real;
    var steps := i + if f then 1 else 0;
    assert 0.05 * steps as real == 0.05 * i as real + if f then 0.05 else 0.0;
    assert steps >= 4 ==> 0.05 * steps as real >= 0.2;
  }

  predicate SameSource(origin: Incident, o: Incident) {
    Relevant(origin, o) && o.source.Some? && o.source == origin.source
  }

  function OnSameSource(origin: Incident, others: seq<Incident>): seq<Incident> {
    if others == [] then []
    else
      OnSameSource(origin, others[..|others|-1])
      + if SameSource(origin, others[|others|-1]) then [others[|others|-1]] else []
  }

  lemma {:induction false} OnSameSourceHas(origin: Incident, others: seq<Incident>, o: Incident)
    ensures o in OnSameSource(origin, others) <==> o in others && SameSource(origin, o)
  {
    if others != [] {
      var m := |others| - 1;
      OnSameSourceHas(origin, others[..m], o);
      assert o in others <==> o in others[..m] || o == others[m];
    }
  }

  /** Started at about the same time, and nothing links it. */
  predicate Coincident(origin: Incident, linked: set<IncidentId>, o: Incident) {
    o.id != origin.id && InWindow(origin, o) && o.id !in linked
  }

  function Coincidences(origin: Incident, others: seq<Incident>, linked: set<IncidentId>): seq<Incident> {
    if others == [] then []
    else
      Coincidences(origin, others[..|others|-1], linked) +
      if Coincident(origin, linked, others[|others|-1]) then [others[|others|-1]] else []
  }

  lemma {:induction false} CoincidencesHave(origin: Incident, others: seq<Incident>, linked: set<IncidentId>,
                                            o: Incident)
    ensures o in Coincidences(origin, others, linked) <==> o in others && Coincident(origin, linked, o)
  {
    if others != [] {
      var m := |others| - 1;
      CoincidencesHave(origin, others[..m], linked, o);
      assert o in others <==> o in others[..m] || o == others[m];
    }
  }

  predicate StartedFirst(origin: Incident, others: seq<Incident>) {
    forall o :: o in others && o.id != origin.id && InWindow(origin, o) ==> o.startedAt >= origin.startedAt
  }

  /** On the same source, or on a failing dependency or dependent of it. */
  ghost predicate Linked(origin: Incident, others: seq<Incident>, topology: Topology, o: Incident) {
    || SameSource(origin, o)
    || (&& Relevant(origin, o) && Mapped(topology, origin).Some? && Mapped(topology, o).Some?
        && var self, n := Mapped(topology, origin).value, Mapped(topology, o).value;
           n != self && (DependsOn(topology.edges, self, n) || DependsOn(topology.edges, n, self)))
  }

  ghost predicate LinkedId(origin: Incident, others: seq<Incident>, topology: Topology, id: IncidentId) {
    exists o :: o in others && o.id == id && Linked(origin, others, topology, o)
  }

  /** `linked` holds the identifiers of exactly the linked incidents. */
  ghost predicate Links(origin: Incident, others: seq<Incident>, topology: Topology, linked: set<IncidentId>) {
    forall id :: id in linked <==> LinkedId(origin, others, topology, id)
  }

  /** Every incident of the window is either linked or listed as a coincidence, never both. */
  lemma EveryPeerIsPlaced(origin: Incident, others: seq<Incident>, topology: Topology, linked: set<IncidentId>,
                          collate: Collation, o: Incident)
    requires Links(origin, others, topology, linked)
    requires o in others && o.id != origin.id && InWindow(origin, o)
    ensures RefOf(origin, o) in SortedRefs(origin, Coincidences(origin, others, linked), collate)
            <==> !LinkedId(origin, others, topology, o.id)
  {
    var r := RefOf(origin, o);
    SortedRefsHave(origin, Coincidences(origin, others, linked), collate, r);
    CoincidencesHave(origin, others, linked, o);
    forall p | p in Coincidences(origin, others, linked) && RefOf(origin, p) == r ensures o.id !in linked {
      CoincidencesHave(origin, others, linked, p);
    }
  }

  lemma SameSourceIds(origin: Incident, others: seq<Incident>, collate: Collation, id: IncidentId)
    ensures id in Ids(SortedRefs(origin, OnSameSource(origin, others), collate)) <==>
              exists o :: o in others && o.id == id && SameSource(origin, o)
  {
    var refs := SortedRefs(origin, OnSameSource(origin, others), collate);
    if id in Ids(refs) {
      var r :| r in refs && r.id == id;
      SortedRefsHave(origin, OnSameSource(origin, others), collate, r);
      var o :| o in OnSameSource(origin, others) && RefOf(origin, o) == r;
      OnSameSourceHas(origin, others, o);
    }
    forall o | o in others && o.id == id && SameSource(origin, o) ensures id in Ids(refs) {
      OnSameSourceHas(origin, others, o);
      SortedRefsHave(origin, OnSameSource(origin, others), collate, RefOf(origin, o));
      assert RefOf(origin, o) in refs;
    }
  }

  /** A relevant incident on a failing node is linked, and its node is failing by definition. */
  lemma LinkedByNode(origin: Incident, others: seq<Incident>, topology: Topology, self: NodeId, story: Story,
                     o: Incident)
    requires Tells(origin, others, topology, self, story) && Mapped(topology, origin) == Some(self) && o in others
    ensures Linked(origin, others, topology, o) <==>
              || SameSource(origin, o)
              || (&& Relevant(origin, o) && Mapped(topology, o).Some?
                  && (Mapped(topology, o).value in story.upstream || Mapped(topology, o).value in story.downstream))
  {
  }

  lemma OriginsAreUpstream(origin: Incident, others: seq<Incident>, topology: Topology, self: NodeId, story: Story,
                           n: NodeId)
    requires Tells(origin, others, topology, self, story) && n in story.origins
    ensures n in story.upstream
  {
  }

  lemma LinksAre(origin: Incident, others: seq<Incident>, topology: Topology, self: NodeId, story: Story,
                 byNode: ByNode, keys: seq<NodeId>, collate: Collation, linked: set<IncidentId>)
    requires Tells(origin, others, topology, self, story) && Mapped(topology, origin) == Some(self)
    requires Files(origin, others, topology, byNode, keys)
    requires linked == Ids(SortedRefs(origin, OnSameSource(origin, others), collate))
                       + IdsAt(origin, byNode, collate, story.upstream) + IdsAt(origin, byNode, collate, story.origins)
                       + IdsAt(origin, byNode, collate, story.downstream)
    ensures Links(origin, others, topology, linked)
  {
    forall n | n in story.origins ensures n in story.upstream {
      OriginsAreUpstream(origin, others, topology, self, story, n);
    }
    forall id ensures id in linked <==> LinkedId(origin, others, topology, id) {
      SameSourceIds(origin, others, collate, id);
      IdsAtHas(origin, others, topology, byNode, keys, collate, story.origins, id);
      IdsAtHas(origin, others, topology, byNode, keys, collate, story.upstream, id);
      IdsAtHas(origin, others, topology, byNode, keys, collate, story.downstream, id);
      forall o | o in others
        ensures Linked(origin, others, topology, o) <==>
                  || SameSource(origin, o)
                  || (&& Relevant(origin, o) && Mapped(topology, o).Some?
                      && (Mapped(topology, o).value in story.upstream || Mapped(topology, o).value in story.downstream))
      {
        LinkedByNode(origin, others, topology, self, story, o);
      }
    }
  }

  lemma LinksWhenUnmapped(origin: Incident, others: seq<Incident>, topology: Topology, collate: Collation)
    requires Mapped(topology, origin).None?
    ensures Links(origin, others, topology, Ids(SortedRefs(origin, OnSameSource(origin, others), collate)))
  {
    forall id
      ensures id in Ids(SortedRefs(origin, OnSameSource(origin, others), collate)) <==>
                LinkedId(origin, others, topology, id)
    {
      SameSourceIds(origin, others, collate, id);
    }
  }

  /** The groups listed for some nodes: each with the relevant incidents of its node, nearest in time first. */
  function GroupsAt(origin: Incident, others: seq<Incident>, topology: Topology, collate: Collation, nodes: seq<NodeId>)
    : (groups: seq<Group>)
  {
    if nodes == [] then []
    else
      var n := nodes[|nodes|-1];
      GroupsAt(origin, others, topology, collate, nodes[..|nodes|-1])
      + [Group(n, SortedRefs(origin, At(origin, others, topology, n), collate))]
  }

  lemma {:induction false} GroupsAreAt(origin: Incident, others: seq<Incident>, topology: Topology, byNode: ByNode,
                                       keys: seq<NodeId>, collate: Collation, nodes: seq<NodeId>)
    requires Files(origin, others, topology, byNode, keys)
    ensures GroupsOf(origin, byNode, collate, nodes) == GroupsAt(origin, others, topology, collate, nodes)
    ensures |GroupsOf(origin, byNode, collate, nodes)| == |nodes|
  {
    if nodes != [] {
      GroupsAreAt(origin, others, topology, byNode, keys, collate, nodes[..|nodes|-1]);
      assert Listed(byNode, nodes[|nodes|-1]) == At(origin, others, topology, nodes[|nodes|-1]);
    }
  }

  function Take<T>(s: seq<T>): (r: seq<T>)
    ensures r <= s && |r| == Min(|s|, MAX_LISTED)
  {
    if |s| <= MAX_LISTED then s else s[..MAX_LISTED]
  }

  /** Nearest in time first, whether before or after; identifiers break ties. */
  ghost predicate NearestInTime(refs: seq<Ref>, collate: Collation) {
    forall i, j :: 0 <= i < j < |refs| ==> NoLater(refs[i], refs[j], collate)
  }

  ghost predicate NoLater(a: Ref, b: Ref, collate: Collation) {
    || -Abs(b.offsetSec) < a.offsetSec < Abs(b.offsetSec)
    || ((a.offsetSec == b.offsetSec || a.offsetSec == -b.offsetSec) && collate(a.id, b.id) <= 0)
  }

  /** The list is sorted, and the entries kept come before all those cut off. */
  ghost predicate KeepsFirst(refs: seq<Ref>, collate: Collation) {
    && NearestInTime(refs, collate)
    && forall i, j :: 0 <= i < |Take(refs)| <= j < |refs| ==> NoLater(Take(refs)[i], refs[j], collate)
  }

  lemma ListKeepsFirst(origin: Incident, incidents: seq<Incident>, collate: Collation)
    requires IsCollation(collate)
    ensures KeepsFirst(SortedRefs(origin, incidents, collate), collate)
  {
    RefsAreSorted(origin, incidents, collate);
    var refs := SortedRefs(origin, incidents, collate);
    forall i, j | 0 <= i < j < |refs| ensures NoLater(refs[i], refs[j], collate) {
      ByOffsetIsNoLater(refs[i], refs[j], collate);
    }
  }

  lemma ByOffsetIsNoLater(a: Ref, b: Ref, collate: Collation)
    requires ByOffset(collate)(a, b)
    ensures NoLater(a, b, collate)
  {
    assert Abs(a.offsetSec) < Abs(b.offsetSec)
           || (Abs(a.offsetSec) == Abs(b.offsetSec) && collate(a.id, b.id) <= 0);
  }

  ghost predicate GroupsSorted(groups: seq<Group>, collate: Collation) {
    forall k :: 0 <= k < |groups| ==> NearestInTime(groups[k].incidents, collate)
  }

  lemma {:induction false} GroupsAreSorted(origin: Incident, others: seq<Incident>, topology: Topology,
                                           collate: Collation,
                                           nodes: seq<NodeId>)
    requires IsCollation(collate)
    ensures GroupsSorted(GroupsAt(origin, others, topology, collate, nodes), collate)
  {
    if nodes != [] {
      GroupsAreSorted(origin, others, topology, collate, nodes[..|nodes|-1]);
      ListKeepsFirst(origin, At(origin, others, topology, nodes[|nodes|-1]), collate);
    }
  }

  /** Every list of incidents is sorted before it is cut, so that what is kept is nearest in time. */
  ghost predicate InOrder(f: Findings, collate: Collation) {
    && KeepsFirst(f.sameSource, collate) && KeepsFirst(f.correlated, collate)
    && GroupsSorted(f.rootCauses, collate) && GroupsSorted(f.impacted, collate)
  }

  /** What is stored: lists are cut to their first entries, counts and weights are not. */
  function Capped(f: Findings): Findings {
    f.(rootCauses := Take(f.rootCauses), impacted := Take(f.impacted), reached := Take(f.reached),
       sameSource := Take(f.sameSource), correlated := Take(f.correlated))
  }

  /** What the findings say before lists are cut, given the story the map tells and the identifiers linked. */
  ghost predicate Reports(origin: Incident, others: seq<Incident>, topology: Topology, collate: Collation,
                          collateNodes: (NodeId, NodeId) -> int, story: Story, linked: set<IncidentId>, f: Findings)
  {
    && f.node == Mapped(topology, origin)
    && (f.node.Some? ==> Tells(origin, others, topology, f.node.value, story)
                         && Ranked(origin, others, topology, f.node.value, collateNodes, story))
    && (f.node.None? ==> story == Story(NotMapped, [], [], [], []))
    && Links(origin, others, topology, linked) && InOrder(f, collate)
    && f.verdict == story.verdict
    && f.rootCauses == GroupsAt(origin, others, topology, collate, story.origins)
    && f.impacted == GroupsAt(origin, others, topology, collate, story.downstream)
    && f.reached == story.radius && f.radius == |story.radius|
    && f.sameSource == SortedRefs(origin, OnSameSource(origin, others), collate)
    && f.correlated == SortedRefs(origin, Coincidences(origin, others, linked), collate)
    && f.firstToStart == StartedFirst(origin, others)
    && f.confidence == ConfidenceOf(story.verdict, |story.origins|, |story.downstream|, |f.correlated|, |f.sameSource|,
                                    f.firstToStart)
  }

  lemma FindingsInOrder(origin: Incident, others: seq<Incident>, topology: Topology, collate: Collation, story: Story,
                        linked: set<IncidentId>, f: Findings)
    requires IsCollation(collate)
    requires f.sameSource == SortedRefs(origin, OnSameSource(origin, others), collate)
    requires f.correlated == SortedRefs(origin, Coincidences(origin, others, linked), collate)
    requires f.rootCauses == GroupsAt(origin, others, topology, collate, story.origins)
    requires f.impacted == GroupsAt(origin, others, topology, collate, story.downstream)
    ensures InOrder(f, collate)
  {
    ListKeepsFirst(origin, OnSameSource(origin, others), collate);
    ListKeepsFirst(origin, Coincidences(origin, others, linked), collate);
    GroupsAreSorted(origin, others, topology, collate, story.origins);
    GroupsAreSorted(origin, others, topology, collate, story.downstream);
  }

  /**
    `r` tells of incident `o`: still active or started at about the same time, and how long after this one
    it started, to the nearest second, halves up. A start before this one's shows as negative.
    */
  ghost predicate TellsOf(origin: Incident, o: Incident, r: Ref) {
    && o.id == r.id && o.id != origin.id
    && (!o.resolved || -CORRELATION_WINDOW_MS <= o.startedAt - origin.startedAt <= CORRELATION_WINDOW_MS)
    && -500 < r.offsetSec * 1000 - (o.startedAt - origin.startedAt) <= 500
    && (o.startedAt < origin.startedAt - 500 ==> r.offsetSec < 0)
    && (o.startedAt > origin.startedAt + 500 ==> r.offsetSec > 0)
  }

  ghost predicate AllTell(origin: Incident, others: seq<Incident>, refs: seq<Ref>) {
    forall r :: r in refs ==> exists o :: o in others && TellsOf(origin, o, r)
  }

  /** Every incident listed anywhere is one of the others, with its true offset. */
  ghost predicate ListsTell(origin: Incident, others: seq<Incident>, f: Findings) {
    && AllTell(origin, others, f.sameSource) && AllTell(origin, others, f.correlated)
    && (forall k :: 0 <= k < |f.rootCauses| ==> AllTell(origin, others, f.rootCauses[k].incidents))
    && (forall k :: 0 <= k < |f.impacted| ==> AllTell(origin, others, f.impacted[k].incidents))
  }

  lemma RefTells(origin: Incident, o: Incident)
    requires o.id != origin.id && (!o.resolved || InWindow(origin, o))
    ensures TellsOf(origin, o, RefOf(origin, o))
  {
  }

  lemma RefsTell(origin: Incident, others: seq<Incident>, incidents: seq<Incident>, collate: Collation)
    requires forall o :: o in incidents ==> o in others && o.id != origin.id && (!o.resolved || InWindow(origin, o))
    ensures AllTell(origin, others, SortedRefs(origin, incidents, collate))
  {
    forall r | r in SortedRefs(origin, incidents, collate) ensures exists o :: o in others && TellsOf(origin, o, r) {
      SortedRefsHave(origin, incidents, collate, r);
      var o :| o in incidents && RefOf(origin, o) == r;
      RefTells(origin, o);
    }
  }

  lemma {:induction false} GroupsTell(origin: Incident, others: seq<Incident>, topology: Topology, collate: Collation,
                                      nodes: seq<NodeId>)
    ensures forall k :: 0 <= k < |GroupsAt(origin, others, topology, collate, nodes)| ==>
              AllTell(origin, others, GroupsAt(origin, others, topology, collate, nodes)[k].incidents)
  {
    if nodes != [] {
      var n := nodes[|nodes|-1];
      GroupsTell(origin, others, topology, collate, nodes[..|nodes|-1]);
      forall o | o in At(origin, others, topology, n) ensures o in others && Relevant(origin, o) {
        AtHas(origin, others, topology, n, o);
      }
      RefsTell(origin, others, At(origin, others, topology, n), collate);
    }
  }

  lemma FindingsTell(origin: Incident, others: seq<Incident>, topology: Topology, collate: Collation, story: Story,
                     linked: set<IncidentId>, f: Findings)
    requires f.sameSource == SortedRefs(origin, OnSameSource(origin, others), collate)
    requires f.correlated == SortedRefs(origin, Coincidences(origin, others, linked), collate)
    requires f.rootCauses == GroupsAt(origin, others, topology, collate, story.origins)
    requires f.impacted == GroupsAt(origin, others, topology, collate, story.downstream)
    ensures ListsTell(origin, others, f)
  {
    forall o | o in OnSameSource(origin, others) ensures o in others && Relevant(origin, o) {
      OnSameSourceHas(origin, others, o);
    }
    RefsTell(origin, others, OnSameSource(origin, others), collate);
    forall o | o in Coincidences(origin, others, linked) ensures o in others && Coincident(origin, linked, o) {
      CoincidencesHave(origin, others, linked, o);
    }
    RefsTell(origin, others, Coincidences(origin, others, linked), collate);
    GroupsTell(origin, others, topology, collate, story.origins);
    GroupsTell(origin, others, topology, collate, story.downstream);
  }

  lemma CappedTells(origin: Incident, others: seq<Incident>, f: Findings)
    requires ListsTell(origin, others, f)
    ensures ListsTell(origin, others, Capped(f))
  {
    assert forall r :: r in Take(f.sameSource) ==> r in f.sameSource;
    assert forall r :: r in Take(f.correlated) ==> r in f.correlated;
  }

  /** How findings came about: the full lists, the map's story and the identifiers linked. */
  datatype Account = Account(full: Findings, story: Story, linked: set<IncidentId>)

  ghost predicate Accounts(a: Account, origin: Incident, others: seq<Incident>, topology: Topology, collate: Collation,
                           collateNodes: (NodeId, NodeId) -> int, f: Findings)
  {
    f == Capped(a.full) && Reports(origin, others, topology, collate, collateNodes, a.story, a.linked, a.full)
  }

  ghost predicate IsReport(origin: Incident, others: seq<Incident>, topology: Topology, collate: Collation,
                           collateNodes: (NodeId, NodeId) -> int, f: Findings)
  {
    exists a {:trigger Accounts(a, origin, others, topology, collate, collateNodes, f)} ::
      Accounts(a, origin, others, topology, collate, collateNodes, f)
  }

  /** The verdict, from the map and the other incidents alone. */
  ghost predicate Deserves(origin: Incident, others: seq<Incident>, topology: Topology, verdict: Verdict) {
    match Mapped(topology, origin)
    case None => verdict == NotMapped
    case Some(self) =>
      if exists n :: Upstream(origin, others, topology, self, n) then verdict == Symptom
      else if exists n :: Downstream(origin, others, topology, self, n) then verdict == RootCause
      else verdict == Isolated
  }

  lemma StoryDeserves(origin: Incident, others: seq<Incident>, topology: Topology, self: NodeId, story: Story)
    requires Mapped(topology, origin) == Some(self) && Tells(origin, others, topology, self, story)
    ensures Deserves(origin, others, topology, story.verdict)
  {
    if story.upstream != [] { assert Upstream(origin, others, topology, self, story.upstream[0]); }
    if story.downstream != [] { assert Downstream(origin, others, topology, self, story.downstream[0]); }
  }

  method AnalyzeIncident(origin: Incident, others: seq<Incident>, topology: Topology, collate: Collation,
                         collateNodes: (NodeId, NodeId) -> int)
    returns (f: Findings)
    requires IsCollation(collate) && IsCollation(collateNodes)
    ensures IsReport(origin, others, topology, collate, collateNodes, f)
    ensures f.node == Mapped(topology, origin) && Deserves(origin, others, topology, f.verdict)
    ensures f.firstToStart <==>
              forall o :: o in others && o.id != origin.id
                          && -CORRELATION_WINDOW_MS <= o.startedAt - origin.startedAt <= CORRELATION_WINDOW_MS ==>
                o.startedAt >= origin.startedAt
    ensures ListsTell(origin, others, f)
  {
    var byNode, keys := FileByNode(origin, others, topology);
    var self := Mapped(topology, origin);
    var sameSource := SortedRefs(origin, OnSameSource(origin, others), collate);
    var linked := Ids(sameSource);
    var verdict := NotMapped;
    var rootCauses, impacted, radius: seq<NodeId> := [], [], [];
    ghost var story := Story(NotMapped, [], [], [], []);
    if self.Some? {
      var told := Explain(origin, others, topology, self.value, byNode, keys, collateNodes);
      verdict, radius := told.verdict, told.radius;
      var _, linked1 := ListGroups(origin, byNode, collate, told.upstream, linked);
      var linked2, linked3;
      rootCauses, linked2 := ListGroups(origin, byNode, collate, told.origins, linked1);
      impacted, linked3 := ListGroups(origin, byNode, collate, told.downstream, linked2);
      GroupsAreAt(origin, others, topology, byNode, keys, collate, told.origins);
      GroupsAreAt(origin, others, topology, byNode, keys, collate, told.downstream);
      LinksAre(origin, others, topology, self.value, told, byNode, keys, collate, linked3);
      StoryDeserves(origin, others, topology, self.value, told);
      linked, story := linked3, told;
    } else {
      LinksWhenUnmapped(origin, others, topology, collate);
    }
    var correlated := SortedRefs(origin, Coincidences(origin, others, linked), collate);
    var first := StartedFirst(origin, others);
    var findings := Findings(verdict, self, rootCauses, impacted, |radius|, radius, sameSource, correlated, first,
                             ConfidenceOf(verdict, |rootCauses|, |impacted|, |correlated|, |sameSource|, first));
    f := Capped(findings);
    FindingsInOrder(origin, others, topology, collate, story, linked, findings);
    FindingsTell(origin, others, topology, collate, story, linked, findings);
    CappedTells(origin, others, findings);
    assert Accounts(Account(findings, story, linked), origin, others, topology, collate, collateNodes, f);
  }
}
