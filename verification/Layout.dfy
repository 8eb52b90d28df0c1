/**
  `layeredLayout`: the edges closing cycles are set aside, each node goes to the row of its longest
  path, each row is ordered by the mean position of the parents, and nodes without any dependency get
  a bottom row of their own.
  */
module Layout {
  import opened Sequences
  import opened Digraph
  import opened Walks
  import opened DepthFirst
  import opened Cycles
  import opened Layering
  import opened Rows

  /** The edges between two different known nodes. */
  function Valid(known: set<NodeId>, edges: seq<Edge>): seq<Edge> {
    if edges == [] then []
    else
      var front, e := edges[..|edges|-1], edges[|edges|-1];
      Valid(known, front) + if e.parent in known && e.child in known && e.parent != e.child then [e] else []
  }

  lemma {:induction false} ValidAre(known: set<NodeId>, edges: seq<Edge>, e: Edge)
    ensures e in Valid(known, edges) <==> e in edges && e.parent in known && e.child in known && e.parent != e.child
  {
    if edges != [] {
      var m := |edges| - 1;
      ValidAre(known, edges[..m], e);
      assert e in edges <==> e in edges[..m] || e == edges[m];
    }
  }

  /** Every node some edge starts or ends at. */
  function Ends(edges: seq<Edge>): set<NodeId> {
    (set e | e in edges :: e.parent) + (set e | e in edges :: e.child)
  }

  /** `dag` is `valid` without the edges of `back`. */
  ghost predicate BreaksCycles(valid: seq<Edge>, back: set<Arc>, dag: seq<Edge>) {
    && dag == Keep(Arcs(valid), back) && Acyclic(dag)
    && (forall a :: a in back ==> a in Arcs(valid) && ClosesCycle(dag, a.edge))
    && (Acyclic(valid) ==> back == {} && dag == valid)
  }

  lemma {:induction false} KeepAll(edges: seq<Edge>)
    ensures Keep(Arcs(edges), {}) == edges
  {
    if edges != [] {
      var m := |edges| - 1;
      KeepAll(edges[..m]);
      assert Arcs(edges)[..m] == Arcs(edges[..m]);
    }
  }

  lemma KeptAreValid(ids: seq<NodeId>, edges: seq<Edge>, back: set<Arc>, e: Edge)
    requires e in Keep(Arcs(Valid(Elements(ids), edges)), back)
    ensures e.parent in ids && e.child in ids
    ensures e.parent in Ends(Valid(Elements(ids), edges)) && e.child in Ends(Valid(Elements(ids), edges))
  {
    var valid := Valid(Elements(ids), edges);
    KeptAre(Arcs(valid), back, e);
    var a :| a in Arcs(valid) && a !in back && a.edge == e;
    assert e in valid;
    ValidAre(Elements(ids), edges, e);
  }

  // ---- Layers ----------------------------------------------------------------------------------

  /** Each layer is the length of the longest path to the node. */
  ghost predicate LongestLayers(ids: seq<NodeId>, dag: seq<Edge>, layer: map<NodeId, int>) {
    layer.Keys == Elements(ids) && forall v :: v in layer ==> IsLongest(dag, v, layer[v])
  }

  lemma LayersAreNatural(ids: seq<NodeId>, dag: seq<Edge>, layer: map<NodeId, int>, v: NodeId)
    requires LongestLayers(ids, dag, layer) && v in layer
    ensures 0 <= layer[v]
  {
    assert PathTo(dag, [v], v);
  }

  lemma ExtendedPath(dag: seq<Edge>, u: NodeId, v: NodeId, j: int, k: int)
    requires Edge(u, v) in dag && IsLongest(dag, u, j) && IsLongest(dag, v, k)
    ensures j < k
  {
    var p :| PathTo(dag, p, u) && |p| - 1 == j;
    assert PathTo(dag, p + [v], v);
  }

  /** A node below the first layer has a parent on the layer just above. */
  lemma ParentJustAbove(ids: seq<NodeId>, dag: seq<Edge>, layer: map<NodeId, int>, v: NodeId) returns (u: NodeId)
    requires LongestLayers(ids, dag, layer) && EndsIn(ids, dag) && v in layer && layer[v] > 0
    ensures Edge(u, v) in dag && u in layer && layer[u] == layer[v] - 1
  {
    var p :| PathTo(dag, p, v) && |p| - 1 == layer[v];
    u := p[|p|-2];
    assert Edge(u, v) in dag;
    assert PathTo(dag, p[..|p|-1], u);
    ExtendedPath(dag, u, v, layer[u], layer[v]);
  }

  lemma ParentOnRow(ids: seq<NodeId>, dag: seq<Edge>, layer: map<NodeId, int>, connected: set<NodeId>, v: NodeId)
    returns (u: NodeId)
    requires LongestLayers(ids, dag, layer) && EndsIn(ids, dag) && v in layer && layer[v] > 0
    requires forall e :: e in dag ==> e.parent in connected
    ensures u in RowOf(ids, connected, layer, layer[v] - 1)
  {
    u := ParentJustAbove(ids, dag, layer, v);
    assert Edge(u, v).parent in connected;
    RowOfHas(ids, connected, layer, layer[v] - 1, u);
  }

  lemma NoGapAbove(ids: seq<NodeId>, dag: seq<Edge>, layer: map<NodeId, int>, connected: set<NodeId>, d: int)
    requires LongestLayers(ids, dag, layer) && EndsIn(ids, dag) && d > 0
    requires forall e :: e in dag ==> e.parent in connected
    requires RowOf(ids, connected, layer, d) != []
    ensures RowOf(ids, connected, layer, d - 1) != []
  {
    var v := RowOf(ids, connected, layer, d)[0];
    RowOfHas(ids, connected, layer, d, v);
    var u := ParentOnRow(ids, dag, layer, connected, v);
  }

  /** Connected layers have no gap. */
  lemma {:induction false} NoGap(ids: seq<NodeId>, dag: seq<Edge>, layer: map<NodeId, int>, connected: set<NodeId>,
                                 layers: seq<seq<NodeId>>, d: nat)
    requires LongestLayers(ids, dag, layer) && EndsIn(ids, dag)
    requires Grouped(ids, connected, layer, layers) && (layers != [] ==> layers[|layers|-1] != [])
    requires forall e :: e in dag ==> e.parent in connected
    requires d < |layers|
    ensures layers[d] != []
    decreases |layers| - d
  {
    if d < |layers| - 1 {
      NoGap(ids, dag, layer, connected, layers, d + 1);
      NoGapAbove(ids, dag, layer, connected, d + 1);
    }
  }

  // ---- Levels ----------------------------------------------------------------------------------

  /** The row of a node: its layer, or the bottom row when nothing connects it. */
  ghost function Level(connected: set<NodeId>, layer: map<NodeId, int>, bottom: int, v: NodeId): int {
    if v in connected && v in layer then layer[v] else bottom
  }

  /** Every node stands in the row of its level, once; no row is empty. */
  ghost predicate Levelled(ids: seq<NodeId>, connected: set<NodeId>, layer: map<NodeId, int>, bottom: int,
                           rows: seq<seq<NodeId>>)
  {
    && (forall d, i :: 0 <= d < |rows| && 0 <= i < |rows[d]| ==>
          rows[d][i] in ids && Level(connected, layer, bottom, rows[d][i]) == d)
    && (forall v :: v in ids ==>
          var d := Level(connected, layer, bottom, v); 0 <= d < |rows| && v in rows[d])
    && (forall d :: 0 <= d < |rows| ==> NoDuplicates(rows[d]) && rows[d] != [])
  }

  /** The nodes outside `connected`, in input order. */
  function Isolated(ids: seq<NodeId>, connected: set<NodeId>): seq<NodeId> {
    if ids == [] then []
    else
      var front, last := ids[..|ids|-1], ids[|ids|-1];
      Isolated(front, connected) + if last in connected then [] else [last]
  }

  lemma {:induction false} IsolatedHas(ids: seq<NodeId>, connected: set<NodeId>, v: NodeId)
    ensures v in Isolated(ids, connected) <==> v in ids && v !in connected
  {
    if ids != [] {
      var m := |ids| - 1;
      IsolatedHas(ids[..m], connected, v);
      assert v in ids <==> v in ids[..m] || v == ids[m];
    }
  }

  lemma {:induction false} IsolatedDistinct(ids: seq<NodeId>, connected: set<NodeId>)
    requires NoDuplicates(ids)
    ensures NoDuplicates(Isolated(ids, connected))
  {
    if ids != [] {
      var m := |ids| - 1;
      IsolatedDistinct(ids[..m], connected);
      IsolatedHas(ids[..m], connected, ids[m]);
    }
  }

  /** Isolated nodes keep their input order. */
  lemma {:induction false} IsolatedInOrder(ids: seq<NodeId>, connected: set<NodeId>, i: nat, j: nat)
    requires i < j < |Isolated(ids, connected)|
    ensures Before(ids, Isolated(ids, connected)[i], Isolated(ids, connected)[j])
  {
    var m := |ids| - 1;
    var front := Isolated(ids[..m], connected);
    if j < |front| {
      IsolatedInOrder(ids[..m], connected, i, j);
      var p, q :| 0 <= p < q < m && ids[..m][p] == front[i] && ids[..m][q] == front[j];
      assert ids[p] == front[i] && ids[q] == front[j];
    } else {
      IsolatedHas(ids[..m], connected, front[i]);
      var p :| 0 <= p < m && ids[..m][p] == front[i];
      assert ids[p] == front[i] && ids[m] == Isolated(ids, connected)[j];
    }
  }

  function WithBottomRow(rows: seq<seq<NodeId>>, isolated: seq<NodeId>): seq<seq<NodeId>> {
    rows + if isolated == [] then [] else [isolated]
  }

  /** A sorted row holds the nodes of its layer, once each. */
  lemma SortedRowHas(layers: seq<seq<NodeId>>, parentsOf: Index, d: nat, v: NodeId)
    requires d < |layers|
    ensures v in SortedRow(layers, parentsOf, d) <==> v in layers[d]
    ensures |SortedRow(layers, parentsOf, d)| == |layers[d]|
    ensures NoDuplicates(layers[d]) ==> NoDuplicates(SortedRow(layers, parentsOf, d))
  {
    Rearranged(layers[d], SortedRow(layers, parentsOf, d));
  }

  /** Row `d` of the drawing holds the nodes of level `d`. */
  lemma RowHas(ids: seq<NodeId>, connected: set<NodeId>, layer: map<NodeId, int>, layers: seq<seq<NodeId>>,
               parentsOf: Index, d: nat, v: NodeId)
    requires NoDuplicates(ids) && layer.Keys == Elements(ids) && Grouped(ids, connected, layer, layers)
    requires forall u :: u in layer ==> 0 <= layer[u]
    ensures var rows := WithBottomRow(SortedRows(layers, parentsOf, |layers|), Isolated(ids, connected));
            d < |rows| ==>
              && (v in rows[d] <==> v in ids && Level(connected, layer, |layers|, v) == d)
              && NoDuplicates(rows[d])
  {
    if d < |layers| {
      SortedRowsAre(layers, parentsOf, |layers|, d);
      SortedRowHas(layers, parentsOf, d, v);
      RowOfHas(ids, connected, layer, d, v);
      RowOfDistinct(ids, connected, layer, d);
    } else {
      IsolatedHas(ids, connected, v);
      IsolatedDistinct(ids, connected);
      assert v in ids && v in connected ==> layer[v] < |layers| by {
        if v in ids && v in connected { var k :| 0 <= k < |ids| && ids[k] == v; }
      }
    }
  }

  lemma RowIsFilled(layers: seq<seq<NodeId>>, parentsOf: Index, isolated: seq<NodeId>, d: nat)
    requires forall k :: 0 <= k < |layers| ==> layers[k] != []
    ensures var rows := WithBottomRow(SortedRows(layers, parentsOf, |layers|), isolated);
            d < |rows| ==> rows[d] != []
  {
    if d < |layers| {
      SortedRowsAre(layers, parentsOf, |layers|, d);
      if layers[d] != [] { SortedRowHas(layers, parentsOf, d, layers[d][0]); }
    }
  }

  lemma LevelExists(ids: seq<NodeId>, connected: set<NodeId>, layer: map<NodeId, int>, layers: seq<seq<NodeId>>,
                    parentsOf: Index, v: NodeId)
    requires v in ids && layer.Keys == Elements(ids) && Grouped(ids, connected, layer, layers)
    requires forall u :: u in layer ==> 0 <= layer[u]
    ensures var rows := WithBottomRow(SortedRows(layers, parentsOf, |layers|), Isolated(ids, connected));
            0 <= Level(connected, layer, |layers|, v) < |rows|
  {
    var k :| 0 <= k < |ids| && ids[k] == v;
    IsolatedHas(ids, connected, v);
  }

  lemma RowsAreLevelled(ids: seq<NodeId>, connected: set<NodeId>, layer: map<NodeId, int>, layers: seq<seq<NodeId>>,
                        parentsOf: Index)
    requires NoDuplicates(ids) && layer.Keys == Elements(ids) && Grouped(ids, connected, layer, layers)
    requires forall u :: u in layer ==> 0 <= layer[u]
    requires forall k :: 0 <= k < |layers| ==> layers[k] != []
    ensures Levelled(ids, connected, layer, |layers|,
                     WithBottomRow(SortedRows(layers, parentsOf, |layers|), Isolated(ids, connected)))
  {
    var rows := WithBottomRow(SortedRows(layers, parentsOf, |layers|), Isolated(ids, connected));
    forall d, i | 0 <= d < |rows| && 0 <= i < |rows[d]|
      ensures rows[d][i] in ids && Level(connected, layer, |layers|, rows[d][i]) == d
    {
      RowHas(ids, connected, layer, layers, parentsOf, d, rows[d][i]);
    }
    forall d | 0 <= d < |rows| ensures NoDuplicates(rows[d]) && rows[d] != [] {
      RowIsFilled(layers, parentsOf, Isolated(ids, connected), d);
      RowHas(ids, connected, layer, layers, parentsOf, d, rows[d][0]);
    }
    forall v | v in ids
      ensures var d := Level(connected, layer, |layers|, v); 0 <= d < |rows| && v in rows[d]
    {
      LevelExists(ids, connected, layer, layers, parentsOf, v);
      RowHas(ids, connected, layer, layers, parentsOf, Level(connected, layer, |layers|, v), v);
    }
  }

  lemma LevelledIsOnePlaceEach(ids: seq<NodeId>, connected: set<NodeId>, layer: map<NodeId, int>, bottom: int,
                               rows: seq<seq<NodeId>>)
    requires Levelled(ids, connected, layer, bottom, rows)
    ensures OnePlaceEach(rows)
  {
  }

  /** A node is drawn as far down as its level says. */
  lemma HeightIsLevel(ids: seq<NodeId>, connected: set<NodeId>, layer: map<NodeId, int>, bottom: int,
                      rows: seq<seq<NodeId>>, columnGap: real, rowGap: real, positions: map<NodeId, Position>,
                      v: NodeId)
    requires Levelled(ids, connected, layer, bottom, rows) && Draws(rows, columnGap, rowGap, positions) && v in ids
    ensures v in positions && positions[v].y == Level(connected, layer, bottom, v) as real * rowGap
  {
    var d := Level(connected, layer, bottom, v);
    var i :| 0 <= i < |rows[d]| && rows[d][i] == v;
  }

  // ---- The order within a row ------------------------------------------------------------------

  lemma {:induction false} PlaceRowHas(order: map<NodeId, real>, row: seq<NodeId>, n: nat, v: NodeId)
    requires n <= |row|
    ensures v in PlaceRow(order, row, n) <==> v in order || exists i :: 0 <= i < n && row[i] == v
    ensures v in order && (forall i :: 0 <= i < n ==> row[i] != v) ==> PlaceRow(order, row, n)[v] == order[v]
  {
    if n > 0 { PlaceRowHas(order, row, n - 1, v); }
  }

  lemma {:induction false} PlaceRowAt(order: map<NodeId, real>, row: seq<NodeId>, n: nat, i: nat)
    requires i < n <= |row| && NoDuplicates(row)
    ensures row[i] in PlaceRow(order, row, n) && PlaceRow(order, row, n)[row[i]] == Centred(i, |row|)
  {
    if i < n - 1 { PlaceRowAt(order, row, n - 1, i); }
  }

  /** `layer` tells the layer of every node of `layers`. */
  ghost predicate Stratified(layers: seq<seq<NodeId>>, layer: map<NodeId, int>) {
    forall k, i :: 0 <= k < |layers| && 0 <= i < |layers[k]| ==> layers[k][i] in layer && layer[layers[k][i]] == k
  }

  lemma WholeRow(order: map<NodeId, real>, layer: seq<NodeId>, row: seq<NodeId>, v: NodeId)
    requires multiset(row) == multiset(layer)
    ensures v in PlaceRow(order, row, |row|) <==> v in order || v in layer
    ensures v in order && v !in layer ==> PlaceRow(order, row, |row|)[v] == order[v]
  {
    Rearranged(layer, row);
    PlaceRowHas(order, row, |row|, v);
  }

  lemma NextLayer(layers: seq<seq<NodeId>>, parentsOf: Index, n: nat)
    requires n < |layers|
    ensures var row := SortedRow(layers, parentsOf, n);
            OrderAfter(layers, parentsOf, n + 1) == PlaceRow(OrderAfter(layers, parentsOf, n), row, |row|)
            && multiset(row) == multiset(layers[n])
  {
  }

  lemma OrderStep(layers: seq<seq<NodeId>>, parentsOf: Index, n: nat, v: NodeId)
    requires n < |layers|
    ensures v in OrderAfter(layers, parentsOf, n + 1) <==> v in OrderAfter(layers, parentsOf, n) || v in layers[n]
    ensures v in OrderAfter(layers, parentsOf, n) && v !in layers[n]
            ==> OrderAfter(layers, parentsOf, n + 1)[v] == OrderAfter(layers, parentsOf, n)[v]
  {
    NextLayer(layers, parentsOf, n);
    WholeRow(OrderAfter(layers, parentsOf, n), layers[n], SortedRow(layers, parentsOf, n), v);
  }

  ghost predicate InFirst(layers: seq<seq<NodeId>>, n: nat, v: NodeId)
    requires n <= |layers|
  {
    n > 0 && (InFirst(layers, n - 1, v) || v in layers[n-1])
  }

  lemma {:induction false} InFirstBy(layers: seq<seq<NodeId>>, n: nat, k: nat, v: NodeId)
    requires k < n <= |layers| && v in layers[k]
    ensures InFirst(layers, n, v)
  {
    if k < n - 1 { InFirstBy(layers, n - 1, k, v); }
  }

  /** The nodes placed so far are those of the layers above. */
  lemma {:induction false} OrderHolds(layers: seq<seq<NodeId>>, parentsOf: Index, n: nat, v: NodeId)
    requires n <= |layers|
    ensures v in OrderAfter(layers, parentsOf, n) <==> InFirst(layers, n, v)
  {
    if n > 0 {
      OrderHolds(layers, parentsOf, n - 1, v);
      OrderStep(layers, parentsOf, n - 1, v);
    }
  }

  lemma {:induction false} AbsentBelow(layers: seq<seq<NodeId>>, layer: map<NodeId, int>, n: nat, m: nat, v: NodeId)
    requires n <= m < |layers| && Stratified(layers, layer) && InFirst(layers, n, v)
    ensures v !in layers[m]
  {
    if v !in layers[n-1] { AbsentBelow(layers, layer, n - 1, m, v); }
  }

  ghost predicate Keeps(before: map<NodeId, real>, after: map<NodeId, real>, v: NodeId) {
    v in before && v in after && after[v] == before[v]
  }

  lemma KeepsStep(layers: seq<seq<NodeId>>, parentsOf: Index, layer: map<NodeId, int>, n: nat, m: nat, v: NodeId)
    requires n <= m < |layers| && Stratified(layers, layer)
    requires v in OrderAfter(layers, parentsOf, n) && v in OrderAfter(layers, parentsOf, m)
    ensures Keeps(OrderAfter(layers, parentsOf, m), OrderAfter(layers, parentsOf, m + 1), v)
  {
    OrderHolds(layers, parentsOf, n, v);
    AbsentBelow(layers, layer, n, m, v);
    OrderStep(layers, parentsOf, m, v);
  }

  ghost predicate StepKeeps(orders: nat -> map<NodeId, real>, k: nat, v: NodeId) {
    v in orders(k) ==> Keeps(orders(k), orders(k + 1), v)
  }

  lemma {:induction false} StepsKeep(orders: nat -> map<NodeId, real>, n: nat, m: nat, v: NodeId)
    requires n <= m && v in orders(n) && forall k :: n <= k < m ==> StepKeeps(orders, k, v)
    ensures Keeps(orders(n), orders(m), v)
  {
    if n < m {
      StepsKeep(orders, n, m - 1, v);
      assert StepKeeps(orders, m - 1, v);
    }
  }

  /** The offsets known after each number of layers. */
  ghost function Orders(layers: seq<seq<NodeId>>, parentsOf: Index): nat -> map<NodeId, real> {
    (k: nat) => if k <= |layers| then OrderAfter(layers, parentsOf, k) else map[]
  }

  lemma OrdersKeep(layers: seq<seq<NodeId>>, parentsOf: Index, layer: map<NodeId, int>, n: nat, k: nat, v: NodeId)
    requires n <= k < |layers| && Stratified(layers, layer) && v in OrderAfter(layers, parentsOf, n)
    ensures StepKeeps(Orders(layers, parentsOf), k, v)
  {
    if v in OrderAfter(layers, parentsOf, k) { KeepsStep(layers, parentsOf, layer, n, k, v); }
  }

  /** What a layer gives a node, later layers leave alone. */
  lemma OrderStays(layers: seq<seq<NodeId>>, parentsOf: Index, layer: map<NodeId, int>, n: nat, m: nat, v: NodeId)
    requires n <= m <= |layers| && Stratified(layers, layer) && v in OrderAfter(layers, parentsOf, n)
    ensures Keeps(OrderAfter(layers, parentsOf, n), OrderAfter(layers, parentsOf, m), v)
  {
    var orders := Orders(layers, parentsOf);
    forall k | n <= k < m ensures StepKeeps(orders, k, v) { OrdersKeep(layers, parentsOf, layer, n, k, v); }
    assert orders(n) == OrderAfter(layers, parentsOf, n) && orders(m) == OrderAfter(layers, parentsOf, m);
    StepsKeep(orders, n, m, v);
  }

  lemma {:induction false} PlacedAgree(parents: seq<NodeId>, a: map<NodeId, real>, b: map<NodeId, real>)
    requires forall p :: p in parents ==> Keeps(a, b, p)
    ensures Placed(parents, a) == Placed(parents, b)
  {
    if parents != [] {
      var m := |parents| - 1;
      PlacedAgree(parents[..m], a, b);
      assert parents[m] in parents;
    }
  }

  /** A row is ordered when all its nodes' parents have their final place. */
  lemma ScoreIsFinal(ids: seq<NodeId>, dag: seq<Edge>, layer: map<NodeId, int>, layers: seq<seq<NodeId>>,
                     parentsOf: Index, d: nat, v: NodeId)
    requires LongestLayers(ids, dag, layer) && Stratified(layers, layer) && d < |layers|
    requires forall e :: e in dag ==>
              e.parent in layer && 0 <= layer[e.parent] < |layers| && e.parent in layers[layer[e.parent]]
    requires Lookup(parentsOf, v) == Neighbours(dag, Child, v)
    requires v in layer && layer[v] == d
    ensures ScoreOf(Lookup(parentsOf, v), OrderAfter(layers, parentsOf, d))
         == ScoreOf(Neighbours(dag, Child, v), OrderAfter(layers, parentsOf, |layers|))
  {
    var a, b := OrderAfter(layers, parentsOf, d), OrderAfter(layers, parentsOf, |layers|);
    forall p | p in Lookup(parentsOf, v) ensures Keeps(a, b, p) {
      NeighboursAre(dag, Child, v, p);
      var e := Edge(p, v);
      ExtendedPath(dag, p, v, layer[p], d);
      assert e.parent in layers[layer[p]];
      InFirstBy(layers, d, layer[p], p);
      OrderHolds(layers, parentsOf, d, p);
      OrderStays(layers, parentsOf, layer, d, |layers|, p);
    }
    PlacedAgree(Lookup(parentsOf, v), a, b);
  }

  ghost function MeanOfParents(dag: seq<Edge>, order: map<NodeId, real>, v: NodeId): Score {
    ScoreOf(Neighbours(dag, Child, v), order)
  }

  /**
    `a` may stand left of `b`: the mean position of its parents is smaller, or equal and `a` comes first in
    the input.
    */
  ghost predicate InOrder(ids: seq<NodeId>, dag: seq<Edge>, order: map<NodeId, real>, a: NodeId, b: NodeId) {
    var x, y := MeanOfParents(dag, order, a), MeanOfParents(dag, order, b);
    ScoreLe(x, y) && (x == y ==> Before(ids, a, b))
  }

  ghost predicate Ordered(ids: seq<NodeId>, dag: seq<Edge>, order: map<NodeId, real>, row: seq<NodeId>) {
    forall i, j :: 0 <= i < j < |row| ==> InOrder(ids, dag, order, row[i], row[j])
  }

  lemma EitherFirst(s: seq<NodeId>, a: NodeId, b: NodeId)
    requires a in s && b in s && a != b
    ensures Before(s, a, b) || Before(s, b, a)
  {
    var i :| 0 <= i < |s| && s[i] == a;
    var j :| 0 <= j < |s| && s[j] == b;
  }

  lemma NotBoth(s: seq<NodeId>, i: nat, j: nat)
    requires NoDuplicates(s) && i < j < |s|
    ensures !Before(s, s[j], s[i])
  {
  }

  /** Sorting keeps the input order of two nodes with the same score. */
  lemma TiesKeepOrder(ids: seq<NodeId>, connected: set<NodeId>, layer: map<NodeId, int>, le: (NodeId, NodeId) -> bool,
                      d: int, i: nat, j: nat)
    requires NoDuplicates(ids) && (forall v :: v in ids ==> v in layer) && TotalPreorder(le)
    requires var row := Sort(RowOf(ids, connected, layer, d), le); i < j < |row| && le(row[j], row[i])
    ensures var row := Sort(RowOf(ids, connected, layer, d), le); Before(ids, row[i], row[j])
  {
    var group := RowOf(ids, connected, layer, d);
    var row := Sort(group, le);
    var a, b := row[i], row[j];
    Rearranged(group, row);
    RowOfDistinct(ids, connected, layer, d);
    RowOfHas(ids, connected, layer, d, a);
    RowOfHas(ids, connected, layer, d, b);
    EitherFirst(ids, a, b);
    if Before(ids, b, a) {
      RowOfKeepsOrder(ids, connected, layer, d, b, a);
      SortIsStable(group, le, b, a);
      NotBoth(row, i, j);
    }
  }

  /** What the ordering pass knows about its layers. */
  ghost predicate Layered(ids: seq<NodeId>, dag: seq<Edge>, connected: set<NodeId>, layer: map<NodeId, int>,
                          layers: seq<seq<NodeId>>, parentsOf: Index)
  {
    && NoDuplicates(ids) && LongestLayers(ids, dag, layer)
    && Grouped(ids, connected, layer, layers)
    && (forall v :: v in layer ==> 0 <= layer[v])
    && (forall e :: e in dag ==> e.parent in ids && e.parent in connected && e.child in connected)
    && (forall v :: Lookup(parentsOf, v) == Neighbours(dag, Child, v))
  }

  lemma LayersAreStratified(ids: seq<NodeId>, dag: seq<Edge>, connected: set<NodeId>, layer: map<NodeId, int>,
                            layers: seq<seq<NodeId>>, parentsOf: Index)
    requires Layered(ids, dag, connected, layer, layers, parentsOf)
    ensures Stratified(layers, layer)
    ensures forall e :: e in dag ==>
              e.parent in layer && 0 <= layer[e.parent] < |layers| && e.parent in layers[layer[e.parent]]
  {
    forall k, i | 0 <= k < |layers| && 0 <= i < |layers[k]|
      ensures layers[k][i] in layer && layer[layers[k][i]] == k
    {
      RowOfHas(ids, connected, layer, k, layers[k][i]);
    }
    forall e | e in dag
      ensures e.parent in layer && 0 <= layer[e.parent] < |layers| && e.parent in layers[layer[e.parent]]
    {
      var k :| 0 <= k < |ids| && ids[k] == e.parent;
      RowOfHas(ids, connected, layer, layer[e.parent], e.parent);
    }
  }

  lemma FinalScore(ids: seq<NodeId>, dag: seq<Edge>, connected: set<NodeId>, layer: map<NodeId, int>,
                   layers: seq<seq<NodeId>>, parentsOf: Index, d: nat, v: NodeId)
    requires Layered(ids, dag, connected, layer, layers, parentsOf)
    requires d < |layers| && v in SortedRow(layers, parentsOf, d)
    ensures ScoreOf(Lookup(parentsOf, v), OrderAfter(layers, parentsOf, d))
         == MeanOfParents(dag, OrderAfter(layers, parentsOf, |layers|), v)
  {
    LayersAreStratified(ids, dag, connected, layer, layers, parentsOf);
    SortedRowHas(layers, parentsOf, d, v);
    RowOfHas(ids, connected, layer, d, v);
    ScoreIsFinal(ids, dag, layer, layers, parentsOf, d, v);
  }

  /** Each row is ordered by the final positions of its nodes' parents. */
  lemma RowIsOrdered(ids: seq<NodeId>, dag: seq<Edge>, connected: set<NodeId>, layer: map<NodeId, int>,
                     layers: seq<seq<NodeId>>, parentsOf: Index, d: nat)
    requires Layered(ids, dag, connected, layer, layers, parentsOf) && d < |layers|
    ensures Ordered(ids, dag, OrderAfter(layers, parentsOf, |layers|), SortedRow(layers, parentsOf, d))
  {
    var row, le := SortedRow(layers, parentsOf, d), ByScore(parentsOf, OrderAfter(layers, parentsOf, d));
    var order := OrderAfter(layers, parentsOf, |layers|);
    ScoresAreOrdered(parentsOf, OrderAfter(layers, parentsOf, d));
    SortSorts(layers[d], le);
    forall i, j | 0 <= i < j < |row| ensures InOrder(ids, dag, order, row[i], row[j]) {
      FinalScore(ids, dag, connected, layer, layers, parentsOf, d, row[i]);
      FinalScore(ids, dag, connected, layer, layers, parentsOf, d, row[j]);
      assert le(row[i], row[j]);
      if MeanOfParents(dag, order, row[i]) == MeanOfParents(dag, order, row[j]) {
        TiesKeepOrder(ids, connected, layer, le, d, i, j);
      }
    }
  }

  /** The order map holds the final offset of each node. */
  lemma OffsetIsFinal(layer: map<NodeId, int>, layers: seq<seq<NodeId>>, parentsOf: Index, d: nat, i: nat)
    requires Stratified(layers, layer) && d < |layers| && NoDuplicates(layers[d])
    requires i < |SortedRow(layers, parentsOf, d)|
    ensures var row, order := SortedRow(layers, parentsOf, d), OrderAfter(layers, parentsOf, |layers|);
            row[i] in order && order[row[i]] == Centred(i, |row|)
  {
    OffsetIsSet(layers, parentsOf, d, i);
    OrderStays(layers, parentsOf, layer, d + 1, |layers|, SortedRow(layers, parentsOf, d)[i]);
  }

  lemma OffsetIsSet(layers: seq<seq<NodeId>>, parentsOf: Index, d: nat, i: nat)
    requires d < |layers| && NoDuplicates(layers[d]) && i < |SortedRow(layers, parentsOf, d)|
    ensures var row, order := SortedRow(layers, parentsOf, d), OrderAfter(layers, parentsOf, d + 1);
            row[i] in order && order[row[i]] == Centred(i, |row|)
  {
    var row := SortedRow(layers, parentsOf, d);
    SortedRowHas(layers, parentsOf, d, row[i]);
    NextLayer(layers, parentsOf, d);
    PlaceRowAt(OrderAfter(layers, parentsOf, d), row, |row|, i);
  }

  // ---- The whole layout ------------------------------------------------------------------------

  lemma LayoutIsLayered(ids: seq<NodeId>, edges: seq<Edge>, back: set<Arc>, dag: seq<Edge>, layer: map<NodeId, int>,
                        layers: seq<seq<NodeId>>, parentsOf: Index)
    requires var valid := Valid(Elements(ids), edges);
             && NoDuplicates(ids) && dag == Keep(Arcs(valid), back) && LongestLayers(ids, dag, layer)
             && Grouped(ids, Ends(valid), layer, layers) && (layers != [] ==> layers[|layers|-1] != [])
             && forall v :: Lookup(parentsOf, v) == Neighbours(dag, Child, v)
    ensures Layered(ids, dag, Ends(Valid(Elements(ids), edges)), layer, layers, parentsOf)
    ensures forall d :: 0 <= d < |layers| ==> layers[d] != []
  {
    var connected := Ends(Valid(Elements(ids), edges));
    forall e | e in dag ensures e.parent in ids && e.child in ids && e.parent in connected && e.child in connected {
      KeptAreValid(ids, edges, back, e);
    }
    forall v | v in layer ensures 0 <= layer[v] { LayersAreNatural(ids, dag, layer, v); }
    forall d | 0 <= d < |layers| ensures layers[d] != [] { NoGap(ids, dag, layer, connected, layers, d); }
  }

  lemma NoRowIsSkipped(layers: seq<seq<NodeId>>, parentsOf: Index)
    requires forall d :: 0 <= d < |layers| ==> layers[d] != []
    ensures NonEmpty(SortedRows(layers, parentsOf, |layers|)) == SortedRows(layers, parentsOf, |layers|)
  {
    var rows := SortedRows(layers, parentsOf, |layers|);
    forall d | 0 <= d < |rows| ensures rows[d] != [] {
      RowIsFilled(layers, parentsOf, [], d);
    }
    NothingSkipped(rows);
  }

  lemma IsolatedAreOrdered(ids: seq<NodeId>, dag: seq<Edge>, connected: set<NodeId>, order: map<NodeId, real>)
    requires forall e :: e in dag ==> e.child in connected
    ensures Ordered(ids, dag, order, Isolated(ids, connected))
  {
    var row := Isolated(ids, connected);
    forall i, j | 0 <= i < j < |row| ensures InOrder(ids, dag, order, row[i], row[j]) {
      IsolatedInOrder(ids, connected, i, j);
      NoNeighbours(ids, dag, connected, row[i]);
      NoNeighbours(ids, dag, connected, row[j]);
    }
  }

  lemma NoNeighbours(ids: seq<NodeId>, dag: seq<Edge>, connected: set<NodeId>, v: NodeId)
    requires (forall e :: e in dag ==> e.child in connected) && v in Isolated(ids, connected)
    ensures Neighbours(dag, Child, v) == []
  {
    IsolatedHas(ids, connected, v);
    var parents := Neighbours(dag, Child, v);
    if parents != [] { NeighboursAre(dag, Child, v, parents[0]); }
  }

  /** The drawing: where rows stand, the order within each, and the offsets in the first `bottom` ones. */
  ghost predicate Drawn(ids: seq<NodeId>, dag: seq<Edge>, connected: set<NodeId>, layer: map<NodeId, int>, bottom: nat,
                        order: map<NodeId, real>, rows: seq<seq<NodeId>>)
  {
    && Levelled(ids, connected, layer, bottom, rows)
    && bottom <= |rows|
    && (forall v :: v in ids && v in connected ==> v in layer && layer[v] < bottom)
    && (forall d :: 0 <= d < |rows| ==> Ordered(ids, dag, order, rows[d]))
    && (forall d, i :: 0 <= d < bottom && 0 <= i < |rows[d]| ==>
          rows[d][i] in order && order[rows[d][i]] == Centred(i, |rows[d]|))
  }

  lemma RowsAreOrdered(ids: seq<NodeId>, dag: seq<Edge>, connected: set<NodeId>, layer: map<NodeId, int>,
                       layers: seq<seq<NodeId>>, parentsOf: Index, rows: seq<seq<NodeId>>, d: nat)
    requires Layered(ids, dag, connected, layer, layers, parentsOf)
    requires rows == WithBottomRow(SortedRows(layers, parentsOf, |layers|), Isolated(ids, connected)) && d < |rows|
    ensures Ordered(ids, dag, OrderAfter(layers, parentsOf, |layers|), rows[d])
  {
    if d < |layers| {
      SortedRowsAre(layers, parentsOf, |layers|, d);
      RowIsOrdered(ids, dag, connected, layer, layers, parentsOf, d);
    } else {
      IsolatedAreOrdered(ids, dag, connected, OrderAfter(layers, parentsOf, |layers|));
    }
  }

  lemma OffsetIsCentred(ids: seq<NodeId>, dag: seq<Edge>, connected: set<NodeId>, layer: map<NodeId, int>,
                        layers: seq<seq<NodeId>>, parentsOf: Index, rows: seq<seq<NodeId>>, d: nat, i: nat)
    requires Layered(ids, dag, connected, layer, layers, parentsOf) && d < |layers|
    requires rows == WithBottomRow(SortedRows(layers, parentsOf, |layers|), Isolated(ids, connected)) && i < |rows[d]|
    ensures var order := OrderAfter(layers, parentsOf, |layers|);
            rows[d][i] in order && order[rows[d][i]] == Centred(i, |rows[d]|)
  {
    LayersAreStratified(ids, dag, connected, layer, layers, parentsOf);
    SortedRowsAre(layers, parentsOf, |layers|, d);
    RowOfDistinct(ids, connected, layer, d);
    OffsetIsFinal(layer, layers, parentsOf, d, i);
  }

  lemma LayoutIsDrawn(ids: seq<NodeId>, dag: seq<Edge>, connected: set<NodeId>, layer: map<NodeId, int>,
                      layers: seq<seq<NodeId>>, parentsOf: Index)
    requires Layered(ids, dag, connected, layer, layers, parentsOf)
    requires forall d :: 0 <= d < |layers| ==> layers[d] != []
    ensures Drawn(ids, dag, connected, layer, |layers|, OrderAfter(layers, parentsOf, |layers|),
                  WithBottomRow(SortedRows(layers, parentsOf, |layers|), Isolated(ids, connected)))
  {
    var order := OrderAfter(layers, parentsOf, |layers|);
    var rows := WithBottomRow(SortedRows(layers, parentsOf, |layers|), Isolated(ids, connected));
    RowsAreLevelled(ids, connected, layer, layers, parentsOf);
    forall d | 0 <= d < |rows| ensures Ordered(ids, dag, order, rows[d]) {
      RowsAreOrdered(ids, dag, connected, layer, layers, parentsOf, rows, d);
    }
    forall d, i | 0 <= d < |layers| && 0 <= i < |rows[d]|
      ensures rows[d][i] in order && order[rows[d][i]] == Centred(i, |rows[d]|)
    {
      OffsetIsCentred(ids, dag, connected, layer, layers, parentsOf, rows, d, i);
    }
    forall v | v in ids && v in connected ensures v in layer && layer[v] < |layers| {
      var k :| 0 <= k < |ids| && ids[k] == v;
    }
  }

  /** One position each, and no two nodes share one. */
  lemma EveryNodeHasItsPlace(ids: seq<NodeId>, connected: set<NodeId>, layer: map<NodeId, int>, bottom: int,
                             rows: seq<seq<NodeId>>, columnGap: real, rowGap: real, positions: map<NodeId, Position>)
    requires Levelled(ids, connected, layer, bottom, rows) && Draws(rows, columnGap, rowGap, positions)
    ensures positions.Keys == Elements(ids)
    ensures columnGap > 0.0 && rowGap > 0.0 ==>
              forall u, v :: u in ids && v in ids && u != v ==> positions[u] != positions[v]
  {
    forall v | v in ids ensures v in positions {
      HeightIsLevel(ids, connected, layer, bottom, rows, columnGap, rowGap, positions, v);
    }
    forall v | v in positions ensures v in ids {
      var d, i :| 0 <= d < |rows| && 0 <= i < |rows[d]| && rows[d][i] == v;
    }
    if columnGap > 0.0 && rowGap > 0.0 {
      forall u, v | u in ids && v in ids && u != v ensures positions[u] != positions[v] {
        PositionsDiffer(rows, columnGap, rowGap, positions, u, v);
      }
    }
  }

  lemma EdgeDescends(dag: seq<Edge>, connected: set<NodeId>, layer: map<NodeId, int>, bottom: int, e: Edge)
    requires e in dag && e.parent in connected && e.child in connected && e.parent in layer && e.child in layer
    requires IsLongest(dag, e.parent, layer[e.parent]) && IsLongest(dag, e.child, layer[e.child])
    ensures Level(connected, layer, bottom, e.parent) < Level(connected, layer, bottom, e.child)
  {
    assert e == Edge(e.parent, e.child);
    ExtendedPath(dag, e.parent, e.child, layer[e.parent], layer[e.child]);
  }

  /** A node on a lower row is drawn lower. */
  lemma LowerRow(ids: seq<NodeId>, connected: set<NodeId>, layer: map<NodeId, int>, bottom: int,
                 rows: seq<seq<NodeId>>, columnGap: real, rowGap: real, positions: map<NodeId, Position>,
                 u: NodeId, v: NodeId)
    requires Levelled(ids, connected, layer, bottom, rows) && Draws(rows, columnGap, rowGap, positions) && rowGap > 0.0
    requires u in ids && v in ids && Level(connected, layer, bottom, u) < Level(connected, layer, bottom, v)
    ensures u in positions && v in positions && positions[u].y < positions[v].y
  {
    HeightIsLevel(ids, connected, layer, bottom, rows, columnGap, rowGap, positions, u);
    HeightIsLevel(ids, connected, layer, bottom, rows, columnGap, rowGap, positions, v);
    Scale(Level(connected, layer, bottom, u) as real, Level(connected, layer, bottom, v) as real, rowGap);
  }

  /** Every kept edge points down. */
  lemma EdgesPointDown(ids: seq<NodeId>, edges: seq<Edge>, back: set<Arc>, dag: seq<Edge>, layer: map<NodeId, int>,
                       bottom: nat, rows: seq<seq<NodeId>>, columnGap: real, rowGap: real,
                       positions: map<NodeId, Position>, e: Edge)
    requires Levelled(ids, Ends(Valid(Elements(ids), edges)), layer, bottom, rows)
    requires Draws(rows, columnGap, rowGap, positions) && rowGap > 0.0
    requires BreaksCycles(Valid(Elements(ids), edges), back, dag) && LongestLayers(ids, dag, layer) && e in dag
    ensures e.parent in positions && e.child in positions && positions[e.parent].y < positions[e.child].y
  {
    var connected := Ends(Valid(Elements(ids), edges));
    KeptAreValid(ids, edges, back, e);
    EdgeDescends(dag, connected, layer, bottom, e);
    LowerRow(ids, connected, layer, bottom, rows, columnGap, rowGap, positions, e.parent, e.child);
  }

  /**
    How a layout came about: the edges set aside and those left, the layer of each node, the number of
    the row for isolated nodes, the horizontal offsets of connected nodes, and the rows.
    */
  datatype Picture = Picture(back: set<Arc>, dag: seq<Edge>, layer: map<NodeId, int>, bottom: nat,
                             order: map<NodeId, real>, rows: seq<seq<NodeId>>)

  /** `p` explains `positions`: the lemmas above say what follows for any such picture. */
  ghost predicate Depicts(p: Picture, ids: seq<NodeId>, edges: seq<Edge>, columnGap: real, rowGap: real,
                          positions: map<NodeId, Position>)
  {
    && BreaksCycles(Valid(Elements(ids), edges), p.back, p.dag)
    && LongestLayers(ids, p.dag, p.layer)
    && Drawn(ids, p.dag, Ends(Valid(Elements(ids), edges)), p.layer, p.bottom, p.order, p.rows)
    && Draws(p.rows, columnGap, rowGap, positions)
  }

  ghost predicate IsLayout(ids: seq<NodeId>, edges: seq<Edge>, columnGap: real, rowGap: real,
                           positions: map<NodeId, Position>)
  {
    exists p {:trigger Depicts(p, ids, edges, columnGap, rowGap, positions)} ::
      Depicts(p, ids, edges, columnGap, rowGap, positions)
  }

  /** A connected node is on the row of its longest chain of dependents, above the bottom; an isolated one there. */
  ghost predicate OnItsRow(p: Picture, connected: set<NodeId>, v: NodeId) {
    var level := Level(connected, p.layer, p.bottom, v);
    if v in connected then IsLongest(p.dag, v, level) && level < p.bottom else level == p.bottom
  }

  /** The row number times the row gap, and for a connected node its offset times the column gap. */
  ghost predicate AtItsPlace(p: Picture, connected: set<NodeId>, columnGap: real, rowGap: real,
                             positions: map<NodeId, Position>, v: NodeId)
  {
    && v in positions && AtHeight(positions[v], Level(connected, p.layer, p.bottom, v), rowGap)
    && (v in connected ==> v in p.order && AtOffset(positions[v], p.order[v], columnGap))
  }

  ghost predicate AtHeight(at: Position, level: int, rowGap: real) {
    at.y == level as real * rowGap
  }

  ghost predicate AtOffset(at: Position, offset: real, columnGap: real) {
    at.x == offset * columnGap
  }

  lemma LevelIsDepth(p: Picture, ids: seq<NodeId>, connected: set<NodeId>, v: NodeId)
    requires Drawn(ids, p.dag, connected, p.layer, p.bottom, p.order, p.rows) && LongestLayers(ids, p.dag, p.layer)
    requires v in ids
    ensures OnItsRow(p, connected, v)
  {
  }

  /** Offsets times the gap are the x coordinates. */
  lemma OffsetIsDrawn(p: Picture, ids: seq<NodeId>, connected: set<NodeId>, columnGap: real, rowGap: real,
                      positions: map<NodeId, Position>, v: NodeId)
    requires Drawn(ids, p.dag, connected, p.layer, p.bottom, p.order, p.rows)
    requires Draws(p.rows, columnGap, rowGap, positions) && v in ids && v in connected
    ensures v in p.order && v in positions && AtOffset(positions[v], p.order[v], columnGap)
  {
    var d := p.layer[v];
    assert Level(connected, p.layer, p.bottom, v) == d;
    var i :| 0 <= i < |p.rows[d]| && p.rows[d][i] == v;
  }

  lemma NodeStands(p: Picture, ids: seq<NodeId>, connected: set<NodeId>, columnGap: real, rowGap: real,
                   positions: map<NodeId, Position>, v: NodeId)
    requires Drawn(ids, p.dag, connected, p.layer, p.bottom, p.order, p.rows) && LongestLayers(ids, p.dag, p.layer)
    requires Levelled(ids, connected, p.layer, p.bottom, p.rows)
    requires Draws(p.rows, columnGap, rowGap, positions) && v in ids
    ensures OnItsRow(p, connected, v) && AtItsPlace(p, connected, columnGap, rowGap, positions, v)
  {
    LevelIsDepth(p, ids, connected, v);
    HeightIsLevel(ids, connected, p.layer, p.bottom, p.rows, columnGap, rowGap, positions, v);
    if v in connected { OffsetIsDrawn(p, ids, connected, columnGap, rowGap, positions, v); }
  }

  // ---- Left and right --------------------------------------------------------------------------

  /** The x coordinates of the parents of `v` added up, parallel edges counted. */
  ghost function ParentsX(dag: seq<Edge>, positions: map<NodeId, Position>, v: NodeId): real {
    if dag == [] then 0.0
    else
      var e := dag[|dag|-1];
      ParentsX(dag[..|dag|-1], positions, v)
      + if e.child == v && e.parent in positions then positions[e.parent].x else 0.0
  }

  ghost function ParentCount(dag: seq<Edge>, v: NodeId): nat {
    if dag == [] then 0 else ParentCount(dag[..|dag|-1], v) + if dag[|dag|-1].child == v then 1 else 0
  }

  /** The parents of `u` are further left on average than those of `v`, or as far and `u` comes first in the input. */
  ghost predicate ParentsFurtherLeft(ids: seq<NodeId>, dag: seq<Edge>, positions: map<NodeId, Position>, u: NodeId,
                                     v: NodeId)
  {
    var x, n := ParentsX(dag, positions, u), ParentCount(dag, u);
    var y, m := ParentsX(dag, positions, v), ParentCount(dag, v);
    MeanLess(x, n, y, m) || (MeanSame(x, n, y, m) && Before(ids, u, v))
  }

  /** `x / n` is less than `y / m`. */
  ghost predicate MeanLess(x: real, n: nat, y: real, m: nat) {
    x * m as real < y * n as real
  }

  ghost predicate MeanSame(x: real, n: nat, y: real, m: nat) {
    x * m as real == y * n as real
  }

  /** Scaling respects sums. */
  ghost predicate Adds(scale: real -> real, a: real, b: real) {
    scale(a + b) == scale(a) + scale(b)
  }

  ghost predicate Additive(scale: real -> real) {
    scale(0.0) == 0.0 && forall a, b :: Adds(scale, a, b)
  }

  ghost predicate ParentsAreAt(dag: seq<Edge>, order: map<NodeId, real>, scale: real -> real,
                               positions: map<NodeId, Position>)
  {
    forall e :: e in dag ==> IsAt(order, scale, positions, e.parent)
  }

  ghost predicate IsAt(order: map<NodeId, real>, scale: real -> real, positions: map<NodeId, Position>, u: NodeId) {
    u in order && u in positions && positions[u].x == scale(order[u])
  }

  lemma {:induction false} ParentsAgree(dag: seq<Edge>, order: map<NodeId, real>, scale: real -> real,
                                        positions: map<NodeId, Position>, v: NodeId)
    requires Additive(scale) && ParentsAreAt(dag, order, scale, positions)
    ensures var placed := Placed(Neighbours(dag, Child, v), order);
            |placed| == ParentCount(dag, v) && scale(Sum(placed)) == ParentsX(dag, positions, v)
  {
    if dag != [] {
      var m := |dag| - 1;
      var front, e := dag[..m], dag[m];
      assert dag == front + [e];
      ParentsAgree(front, order, scale, positions, v);
      if e.child == v {
        OneMoreParent(Neighbours(front, Child, v), order, e.parent);
        assert Adds(scale, Sum(Placed(Neighbours(front, Child, v), order)), order[e.parent]);
      } else {
        assert Neighbours(dag, Child, v) == Neighbours(front, Child, v);
      }
    }
  }

  lemma OneMoreParent(parents: seq<NodeId>, order: map<NodeId, real>, u: NodeId)
    requires u in order
    ensures Placed(parents + [u], order) == Placed(parents, order) + [order[u]]
    ensures Sum(Placed(parents + [u], order)) == Sum(Placed(parents, order)) + order[u]
  {
    assert (parents + [u])[..|parents|] == parents;
    var placed := Placed(parents, order);
    assert (placed + [order[u]])[..|placed|] == placed;
  }

  /** Means compare as their cross products, also when scaled. */
  lemma CompareMeans(a: real, n: nat, b: real, m: nat, gap: real)
    requires n > 0 && m > 0 && gap > 0.0
    ensures a / n as real <= b / m as real <==> (a * gap) * m as real <= (b * gap) * n as real
    ensures a / n as real == b / m as real <==> (a * gap) * m as real == (b * gap) * n as real
  {
    var x, y, k, l := a / n as real, b / m as real, n as real, m as real;
    assert a == x * k && b == y * l;
    Rescale(x, y, k, l, gap);
  }

  lemma Rescale(x: real, y: real, k: real, l: real, gap: real)
    requires k > 0.0 && l > 0.0 && gap > 0.0
    ensures x <= y <==> (x * k * gap) * l <= (y * l * gap) * k
    ensures x == y <==> (x * k * gap) * l == (y * l * gap) * k
  {
    var c := k * l * gap;
    assert (x * k * gap) * l == x * c && (y * l * gap) * k == y * c;
    assert k * l > 0.0;
    assert c > 0.0;
    ScaleBoth(x, y, c);
  }

  lemma ScaleBoth(x: real, y: real, c: real)
    requires c > 0.0
    ensures x <= y <==> x * c <= y * c
    ensures x == y <==> x * c == y * c
  {
    if x < y { Scale(x, y, c); }
    if y < x { Scale(y, x, c); }
  }

  lemma {:induction false} ParentCounted(dag: seq<Edge>, v: NodeId)
    ensures ParentCount(dag, v) > 0 <==> exists e :: e in dag && e.child == v
  {
    if dag != [] {
      var m := |dag| - 1;
      ParentCounted(dag[..m], v);
      assert dag == dag[..m] + [dag[m]];
    }
  }

  /** A node has parents exactly when it is not on the first row. */
  lemma ParentsBelowFirst(dag: seq<Edge>, v: NodeId, k: int)
    requires IsLongest(dag, v, k)
    ensures ParentCount(dag, v) > 0 <==> k > 0
  {
    ParentCounted(dag, v);
    if ParentCount(dag, v) > 0 {
      var e :| e in dag && e.child == v;
      assert e == Edge(e.parent, v);
      assert PathTo(dag, [e.parent, v], v);
    }
    if k > 0 {
      var p :| PathTo(dag, p, v) && |p| - 1 == k;
      assert Edge(p[|p|-2], v) in dag;
    }
  }

  /** `x` is the scaled sum whose mean is the score. */
  ghost predicate ScoreFrom(s: Score, x: real, n: nat, gap: real) {
    exists a {:trigger SumGives(s, x, n, gap, a)} :: SumGives(s, x, n, gap, a)
  }

  ghost predicate SumGives(s: Score, x: real, n: nat, gap: real, a: real) {
    x == a * gap && s == if n == 0 then NoParents else Mean(a / n as real)
  }

  lemma ScoresCompare(s: Score, x: real, n: nat, t: Score, y: real, m: nat, gap: real)
    requires gap > 0.0 && (n > 0 <==> m > 0) && ScoreFrom(s, x, n, gap) && ScoreFrom(t, y, m, gap)
    ensures ScoreLe(s, t) ==> MeanLess(x, n, y, m) || MeanSame(x, n, y, m)
    ensures MeanSame(x, n, y, m) ==> s == t
  {
    var a :| SumGives(s, x, n, gap, a);
    var b :| SumGives(t, y, m, gap, b);
    if n > 0 { CompareMeans(a, n, b, m, gap); }
  }

  ghost function Scaling(gap: real): real -> real {
    x => x * gap
  }

  lemma ScalingAdds(gap: real)
    ensures Additive(Scaling(gap))
  {
    forall a, b ensures Adds(Scaling(gap), a, b) { }
  }

  lemma SumScores(s: Score, a: real, x: real, n: nat, gap: real)
    requires s == (if n == 0 then NoParents else Mean(a / n as real)) && Scaling(gap)(a) == x
    ensures ScoreFrom(s, x, n, gap)
  {
    assert SumGives(s, x, n, gap, a);
  }

  lemma ScoreIsMean(parents: seq<NodeId>, order: map<NodeId, real>)
    ensures var placed := Placed(parents, order);
            ScoreOf(parents, order) == if |placed| == 0 then NoParents else Mean(Sum(placed) / |placed| as real)
  {
  }

  lemma MeanIsFrom(dag: seq<Edge>, order: map<NodeId, real>, columnGap: real, positions: map<NodeId, Position>,
                   v: NodeId)
    requires ParentsAreAt(dag, order, Scaling(columnGap), positions)
    ensures ScoreFrom(MeanOfParents(dag, order, v), ParentsX(dag, positions, v), ParentCount(dag, v), columnGap)
  {
    ScalingAdds(columnGap);
    ParentsAgree(dag, order, Scaling(columnGap), positions, v);
    ScoreIsMean(Neighbours(dag, Child, v), order);
    SumScores(MeanOfParents(dag, order, v), Sum(Placed(Neighbours(dag, Child, v), order)),
              ParentsX(dag, positions, v), ParentCount(dag, v), columnGap);
  }

  lemma InOrderMeans(ids: seq<NodeId>, dag: seq<Edge>, order: map<NodeId, real>, columnGap: real,
                     positions: map<NodeId, Position>, u: NodeId, v: NodeId)
    requires columnGap > 0.0 && ParentsAreAt(dag, order, Scaling(columnGap), positions)
    requires ParentCount(dag, u) > 0 <==> ParentCount(dag, v) > 0
    requires InOrder(ids, dag, order, u, v)
    ensures ParentsFurtherLeft(ids, dag, positions, u, v)
  {
    MeanIsFrom(dag, order, columnGap, positions, u);
    MeanIsFrom(dag, order, columnGap, positions, v);
    ScoresCompare(MeanOfParents(dag, order, u), ParentsX(dag, positions, u), ParentCount(dag, u),
                  MeanOfParents(dag, order, v), ParentsX(dag, positions, v), ParentCount(dag, v), columnGap);
  }

  lemma BeforeOnce(ids: seq<NodeId>, u: NodeId, v: NodeId)
    requires NoDuplicates(ids) && Before(ids, u, v)
    ensures !Before(ids, v, u)
  {
    var i, j :| 0 <= i < j < |ids| && ids[i] == u && ids[j] == v;
    NotBoth(ids, i, j);
  }

  lemma NotBothLeft(ids: seq<NodeId>, dag: seq<Edge>, positions: map<NodeId, Position>, u: NodeId, v: NodeId)
    requires NoDuplicates(ids) && ParentsFurtherLeft(ids, dag, positions, u, v)
    ensures !ParentsFurtherLeft(ids, dag, positions, v, u)
  {
    if Before(ids, u, v) { BeforeOnce(ids, u, v); }
  }

  lemma CentredGrows(i: int, j: int, n: int, gap: real)
    requires gap > 0.0
    ensures Centred(i, n) * gap < Centred(j, n) * gap <==> i < j
  {
    if i < j { Scale(Centred(i, n), Centred(j, n), gap); }
    if j < i { Scale(Centred(j, n), Centred(i, n), gap); }
  }

  lemma SideIsIndex(rows: seq<seq<NodeId>>, columnGap: real, rowGap: real, positions: map<NodeId, Position>, d: nat,
                    i: nat, j: nat)
    requires Draws(rows, columnGap, rowGap, positions) && columnGap > 0.0
    requires d < |rows| && i < |rows[d]| && j < |rows[d]|
    ensures rows[d][i] in positions && rows[d][j] in positions
    ensures positions[rows[d][i]].x < positions[rows[d][j]].x <==> i < j
  {
    CentredGrows(i, j, |rows[d]|, columnGap);
  }

  lemma ScaledOffset(order: map<NodeId, real>, columnGap: real, positions: map<NodeId, Position>, u: NodeId)
    requires u in order && u in positions && AtOffset(positions[u], order[u], columnGap)
    ensures IsAt(order, Scaling(columnGap), positions, u)
  {
  }

  lemma IsDrawn(p: Picture, ids: seq<NodeId>, connected: set<NodeId>, columnGap: real, rowGap: real,
                positions: map<NodeId, Position>, u: NodeId)
    requires Drawn(ids, p.dag, connected, p.layer, p.bottom, p.order, p.rows)
    requires Draws(p.rows, columnGap, rowGap, positions) && u in ids && u in connected
    ensures IsAt(p.order, Scaling(columnGap), positions, u)
  {
    OffsetIsDrawn(p, ids, connected, columnGap, rowGap, positions, u);
    ScaledOffset(p.order, columnGap, positions, u);
  }

  lemma ParentsAreDrawn(p: Picture, ids: seq<NodeId>, edges: seq<Edge>, columnGap: real, rowGap: real,
                        positions: map<NodeId, Position>)
    requires Depicts(p, ids, edges, columnGap, rowGap, positions)
    ensures ParentsAreAt(p.dag, p.order, Scaling(columnGap), positions)
  {
    var connected := Ends(Valid(Elements(ids), edges));
    forall e | e in p.dag ensures IsAt(p.order, Scaling(columnGap), positions, e.parent) {
      KeptAreValid(ids, edges, p.back, e);
      IsDrawn(p, ids, connected, columnGap, rowGap, positions, e.parent);
    }
  }

  lemma SameRowParents(p: Picture, ids: seq<NodeId>, edges: seq<Edge>, columnGap: real, rowGap: real,
                       positions: map<NodeId, Position>, u: NodeId, v: NodeId)
    requires Depicts(p, ids, edges, columnGap, rowGap, positions) && u in ids && v in ids
    requires var connected := Ends(Valid(Elements(ids), edges));
             Level(connected, p.layer, p.bottom, u) == Level(connected, p.layer, p.bottom, v)
    ensures ParentCount(p.dag, u) > 0 <==> ParentCount(p.dag, v) > 0
  {
    HasParentsByRow(p, ids, edges, columnGap, rowGap, positions, u);
    HasParentsByRow(p, ids, edges, columnGap, rowGap, positions, v);
  }

  lemma HasParentsByRow(p: Picture, ids: seq<NodeId>, edges: seq<Edge>, columnGap: real, rowGap: real,
                        positions: map<NodeId, Position>, v: NodeId)
    requires Depicts(p, ids, edges, columnGap, rowGap, positions) && v in ids
    ensures var level := Level(Ends(Valid(Elements(ids), edges)), p.layer, p.bottom, v);
            ParentCount(p.dag, v) > 0 <==> 0 < level < p.bottom
  {
    var connected := Ends(Valid(Elements(ids), edges));
    LevelIsDepth(p, ids, connected, v);
    if v in connected {
      ParentsBelowFirst(p.dag, v, Level(connected, p.layer, p.bottom, v));
    } else {
      ParentCounted(p.dag, v);
      forall e | e in p.dag ensures e.child in connected { KeptAreValid(ids, edges, p.back, e); }
    }
  }

  /** On a row, the nodes whose parents are further left stand further left. */
  lemma RowFollowsParents(p: Picture, ids: seq<NodeId>, edges: seq<Edge>, columnGap: real, rowGap: real,
                          positions: map<NodeId, Position>, d: nat, i: nat, j: nat)
    requires Depicts(p, ids, edges, columnGap, rowGap, positions) && columnGap > 0.0
    requires d < |p.rows| && i < j < |p.rows[d]|
    ensures ParentsFurtherLeft(ids, p.dag, positions, p.rows[d][i], p.rows[d][j])
  {
    ParentsAreDrawn(p, ids, edges, columnGap, rowGap, positions);
    SameRowParents(p, ids, edges, columnGap, rowGap, positions, p.rows[d][i], p.rows[d][j]);
    InOrderMeans(ids, p.dag, p.order, columnGap, positions, p.rows[d][i], p.rows[d][j]);
  }

  lemma RowFollowsBack(p: Picture, ids: seq<NodeId>, edges: seq<Edge>, columnGap: real, rowGap: real,
                       positions: map<NodeId, Position>, d: nat, i: nat, j: nat)
    requires Depicts(p, ids, edges, columnGap, rowGap, positions) && columnGap > 0.0 && NoDuplicates(ids)
    requires d < |p.rows| && j < i < |p.rows[d]|
    ensures !ParentsFurtherLeft(ids, p.dag, positions, p.rows[d][i], p.rows[d][j])
  {
    RowFollowsParents(p, ids, edges, columnGap, rowGap, positions, d, j, i);
    NotBothLeft(ids, p.dag, positions, p.rows[d][j], p.rows[d][i]);
  }

  lemma LeftByIndex(p: Picture, ids: seq<NodeId>, edges: seq<Edge>, columnGap: real, rowGap: real,
                    positions: map<NodeId, Position>, d: nat, i: nat, j: nat)
    requires Depicts(p, ids, edges, columnGap, rowGap, positions) && columnGap > 0.0 && NoDuplicates(ids)
    requires d < |p.rows| && i < |p.rows[d]| && j < |p.rows[d]| && i != j
    ensures p.rows[d][i] in positions && p.rows[d][j] in positions
    ensures positions[p.rows[d][i]].x < positions[p.rows[d][j]].x
            <==> ParentsFurtherLeft(ids, p.dag, positions, p.rows[d][i], p.rows[d][j])
  {
    SideIsIndex(p.rows, columnGap, rowGap, positions, d, i, j);
    if i < j {
      RowFollowsParents(p, ids, edges, columnGap, rowGap, positions, d, i, j);
    } else {
      RowFollowsBack(p, ids, edges, columnGap, rowGap, positions, d, i, j);
    }
  }

  lemma FindOnRow(ids: seq<NodeId>, connected: set<NodeId>, layer: map<NodeId, int>, bottom: int,
                  rows: seq<seq<NodeId>>, v: NodeId) returns (i: nat)
    requires Levelled(ids, connected, layer, bottom, rows) && v in ids
    ensures var d := Level(connected, layer, bottom, v); 0 <= d < |rows| && i < |rows[d]| && rows[d][i] == v
  {
    var d := Level(connected, layer, bottom, v);
    i :| 0 <= i < |rows[d]| && rows[d][i] == v;
  }

  /** Which of two nodes on one row stands left is decided by where their parents stand, and by the input order. */
  lemma LeftExactly(p: Picture, ids: seq<NodeId>, edges: seq<Edge>, columnGap: real, rowGap: real,
                    positions: map<NodeId, Position>, u: NodeId, v: NodeId)
    requires Depicts(p, ids, edges, columnGap, rowGap, positions) && columnGap > 0.0 && NoDuplicates(ids)
    requires u in ids && v in ids && u != v
    requires var connected := Ends(Valid(Elements(ids), edges));
             Level(connected, p.layer, p.bottom, u) == Level(connected, p.layer, p.bottom, v)
    ensures u in positions && v in positions
    ensures positions[u].x < positions[v].x <==> ParentsFurtherLeft(ids, p.dag, positions, u, v)
  {
    var connected := Ends(Valid(Elements(ids), edges));
    var d := Level(connected, p.layer, p.bottom, u);
    var i := FindOnRow(ids, connected, p.layer, p.bottom, p.rows, u);
    var j := FindOnRow(ids, connected, p.layer, p.bottom, p.rows, v);
    LeftByIndex(p, ids, edges, columnGap, rowGap, positions, d, i, j);
  }

  /**
    Seen on the coordinates alone: of two nodes at one height, the one whose parents are further left on
    average is further left; when their parents are as far left, or they have none, the input order decides.
    */
  ghost predicate RowsFollowParents(ids: seq<NodeId>, dag: seq<Edge>, positions: map<NodeId, Position>) {
    forall u, v :: u in ids && v in ids && u != v ==> SideFollows(ids, dag, positions, u, v)
  }

  ghost predicate SideFollows(ids: seq<NodeId>, dag: seq<Edge>, positions: map<NodeId, Position>, u: NodeId,
                              v: NodeId)
  {
    && u in positions && v in positions
    && (positions[u].y == positions[v].y ==>
          (positions[u].x < positions[v].x <==> ParentsFurtherLeft(ids, dag, positions, u, v)))
  }

  lemma SameHeight(ids: seq<NodeId>, connected: set<NodeId>, layer: map<NodeId, int>, bottom: int,
                   rows: seq<seq<NodeId>>, columnGap: real, rowGap: real, positions: map<NodeId, Position>,
                   u: NodeId, v: NodeId)
    requires Levelled(ids, connected, layer, bottom, rows) && Draws(rows, columnGap, rowGap, positions) && rowGap > 0.0
    requires u in ids && v in ids && u in positions && v in positions && positions[u].y == positions[v].y
    ensures Level(connected, layer, bottom, u) == Level(connected, layer, bottom, v)
  {
    var a, b := Level(connected, layer, bottom, u), Level(connected, layer, bottom, v);
    if a < b {
      LowerRow(ids, connected, layer, bottom, rows, columnGap, rowGap, positions, u, v);
    } else if b < a {
      LowerRow(ids, connected, layer, bottom, rows, columnGap, rowGap, positions, v, u);
    }
  }

  lemma SideIsFollowed(p: Picture, ids: seq<NodeId>, edges: seq<Edge>, columnGap: real, rowGap: real,
                       positions: map<NodeId, Position>, u: NodeId, v: NodeId)
    requires Depicts(p, ids, edges, columnGap, rowGap, positions) && columnGap > 0.0 && rowGap > 0.0
    requires NoDuplicates(ids) && u in ids && v in ids && u != v && u in positions && v in positions
    ensures SideFollows(ids, p.dag, positions, u, v)
  {
    if positions[u].y == positions[v].y {
      SameHeight(ids, Ends(Valid(Elements(ids), edges)), p.layer, p.bottom, p.rows, columnGap, rowGap, positions, u, v);
      LeftExactly(p, ids, edges, columnGap, rowGap, positions, u, v);
    }
  }

  lemma SidesAreFollowed(p: Picture, ids: seq<NodeId>, edges: seq<Edge>, columnGap: real, rowGap: real,
                         positions: map<NodeId, Position>)
    requires Depicts(p, ids, edges, columnGap, rowGap, positions) && columnGap > 0.0 && rowGap > 0.0
    requires NoDuplicates(ids) && forall v :: v in ids ==> v in positions
    ensures RowsFollowParents(ids, p.dag, positions)
  {
    forall u, v | u in ids && v in ids && u != v ensures SideFollows(ids, p.dag, positions, u, v) {
      SideIsFollowed(p, ids, edges, columnGap, rowGap, positions, u, v);
    }
  }

  /** What anyone can see of a layout, whatever the cycles in the edges. */
  lemma LayoutIsReadable(ids: seq<NodeId>, edges: seq<Edge>, columnGap: real, rowGap: real,
                         positions: map<NodeId, Position>)
    requires IsLayout(ids, edges, columnGap, rowGap, positions)
    ensures positions.Keys == Elements(ids)
    ensures columnGap > 0.0 && rowGap > 0.0 ==>
              forall u, v :: u in ids && v in ids && u != v ==> positions[u] != positions[v]
    ensures rowGap > 0.0 && Acyclic(Valid(Elements(ids), edges)) ==>
              forall e :: e in Valid(Elements(ids), edges) ==>
                e.parent in positions && e.child in positions && positions[e.parent].y < positions[e.child].y
    ensures NoDuplicates(ids) && columnGap > 0.0 && rowGap > 0.0 ==>
              forall p {:trigger Depicts(p, ids, edges, columnGap, rowGap, positions)} ::
                Depicts(p, ids, edges, columnGap, rowGap, positions) ==> RowsFollowParents(ids, p.dag, positions)
    ensures forall p, v :: Depicts(p, ids, edges, columnGap, rowGap, positions) && v in ids ==>
              && OnItsRow(p, Ends(Valid(Elements(ids), edges)), v)
              && AtItsPlace(p, Ends(Valid(Elements(ids), edges)), columnGap, rowGap, positions, v)
  {
    var connected := Ends(Valid(Elements(ids), edges));
    forall p, v | Depicts(p, ids, edges, columnGap, rowGap, positions) && v in ids
      ensures OnItsRow(p, connected, v) && AtItsPlace(p, connected, columnGap, rowGap, positions, v)
    {
      NodeStands(p, ids, connected, columnGap, rowGap, positions, v);
    }
    var p :| Depicts(p, ids, edges, columnGap, rowGap, positions);
    EveryNodeHasItsPlace(ids, connected, p.layer, p.bottom, p.rows, columnGap, rowGap, positions);
    if NoDuplicates(ids) && columnGap > 0.0 && rowGap > 0.0 {
      forall q | Depicts(q, ids, edges, columnGap, rowGap, positions) ensures RowsFollowParents(ids, q.dag, positions) {
        SidesAreFollowed(q, ids, edges, columnGap, rowGap, positions);
      }
    }
    if rowGap > 0.0 && Acyclic(Valid(Elements(ids), edges)) {
      forall e | e in Valid(Elements(ids), edges)
        ensures e.parent in positions && e.child in positions && positions[e.parent].y < positions[e.child].y
      {
        EdgesPointDown(ids, edges, p.back, p.dag, p.layer, p.bottom, p.rows, columnGap, rowGap, positions, e);
      }
    }
  }

  /** The layout of any node list and any edge list. */
  method LayeredLayout(ids: seq<NodeId>, edges: seq<Edge>, columnGap: real, rowGap: real)
    returns (positions: map<NodeId, Position>)
    requires NoDuplicates(ids)
    ensures IsLayout(ids, edges, columnGap, rowGap, positions)
    ensures positions.Keys == Elements(ids)
    ensures columnGap > 0.0 && rowGap > 0.0 ==>
              forall u, v :: u in ids && v in ids && u != v ==> positions[u] != positions[v]
    ensures columnGap > 0.0 && rowGap > 0.0 && Acyclic(Valid(Elements(ids), edges)) ==>
              RowsFollowParents(ids, Valid(Elements(ids), edges), positions)
  {
    var known := Elements(ids);
    var valid := Valid(known, edges);
    forall e | e in valid ensures e.parent in ids { ValidAre(known, edges, e); }
    var back := BackEdges(ids, valid);
    var dag := Keep(Arcs(valid), back);
    if Acyclic(valid) { KeepAll(valid); }
    ghost var picture;
    positions, picture := LayOut(ids, edges, columnGap, rowGap, back, dag);
    assert Depicts(picture, ids, edges, columnGap, rowGap, positions);
    LayoutIsReadable(ids, edges, columnGap, rowGap, positions);
  }

  /** The layout of the edges kept. */
  method LayOut(ids: seq<NodeId>, edges: seq<Edge>, columnGap: real, rowGap: real, back: set<Arc>, dag: seq<Edge>)
    returns (positions: map<NodeId, Position>, ghost p: Picture)
    requires NoDuplicates(ids) && BreaksCycles(Valid(Elements(ids), edges), back, dag)
    ensures Depicts(p, ids, edges, columnGap, rowGap, positions)
  {
    var connected := Ends(Valid(Elements(ids), edges));
    var parentsOf := BuildIndex(dag, Child);
    forall e | e in dag ensures e.parent in ids && e.child in ids { KeptAreValid(ids, edges, back, e); }
    var layer, topological := LongestPathLayers(ids, dag);
    forall v | v in ids ensures v in layer && 0 <= layer[v] { LayersAreNatural(ids, dag, layer, v); }
    var layers := GroupByLayer(ids, connected, layer);
    var isolated := Isolated(ids, connected);
    var sorted := OrderLayers(layers, parentsOf);
    LayoutIsLayered(ids, edges, back, dag, layer, layers, parentsOf);
    NoRowIsSkipped(layers, parentsOf);
    LayoutIsDrawn(ids, dag, connected, layer, layers, parentsOf);
    var rows := WithBottomRow(NonEmpty(sorted), isolated);
    LevelledIsOnePlaceEach(ids, connected, layer, |layers|, rows);
    positions := Place(rows, columnGap, rowGap);
    p := Picture(back, dag, layer, |layers|, OrderAfter(layers, parentsOf, |layers|), rows);
  }
}
