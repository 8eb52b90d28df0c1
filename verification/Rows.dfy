/**
  The three loops that end `layeredLayout`: nodes are grouped by layer, each row is ordered by the
  mean position of its nodes' parents, and rows are placed centred on x = 0. Coordinates are real
  numbers.
  */
module Rows {
  import opened Common
  import opened Sequences
  import opened Digraph
  import opened Walks
  import opened Layering

  datatype Position = Position(x: real, y: real)

  // ---- Grouping by layer -----------------------------------------------------------------------

  /** The connected nodes among `ids` on layer `d`, in input order. */
  function RowOf(ids: seq<NodeId>, connected: set<NodeId>, layer: map<NodeId, int>, d: int): seq<NodeId>
    requires forall v :: v in ids ==> v in layer
  {
    if ids == [] then []
    else
      var front, last := ids[..|ids|-1], ids[|ids|-1];
      RowOf(front, connected, layer, d) + if last in connected && layer[last] == d then [last] else []
  }

  lemma {:induction false} RowOfHas(ids: seq<NodeId>, connected: set<NodeId>, layer: map<NodeId, int>, d: int,
                                    v: NodeId)
    requires forall v :: v in ids ==> v in layer
    ensures v in RowOf(ids, connected, layer, d) <==> v in ids && v in connected && layer[v] == d
  {
    if ids != [] {
      var m := |ids| - 1;
      RowOfHas(ids[..m], connected, layer, d, v);
      assert v in ids <==> v in ids[..m] || v == ids[m];
    }
  }

  lemma {:induction false} RowOfDistinct(ids: seq<NodeId>, connected: set<NodeId>, layer: map<NodeId, int>, d: int)
    requires NoDuplicates(ids) && forall v :: v in ids ==> v in layer
    ensures NoDuplicates(RowOf(ids, connected, layer, d))
  {
    if ids != [] {
      var m := |ids| - 1;
      RowOfDistinct(ids[..m], connected, layer, d);
      RowOfHas(ids[..m], connected, layer, d, ids[m]);
    }
  }

  /** Input order is kept within a row. */
  lemma {:induction false} RowOfKeepsOrder(ids: seq<NodeId>, connected: set<NodeId>, layer: map<NodeId, int>, d: int,
                                           a: NodeId, b: NodeId)
    requires forall v :: v in ids ==> v in layer
    requires Before(ids, a, b)
    requires a in RowOf(ids, connected, layer, d) && b in RowOf(ids, connected, layer, d)
    ensures Before(RowOf(ids, connected, layer, d), a, b)
  {
    var m := |ids| - 1;
    var front := RowOf(ids[..m], connected, layer, d);
    RowOfHas(ids, connected, layer, d, a);
    RowOfHas(ids, connected, layer, d, b);
    RowOfHas(ids[..m], connected, layer, d, a);
    RowOfHas(ids[..m], connected, layer, d, b);
    var i, j :| 0 <= i < j < |ids| && ids[i] == a && ids[j] == b;
    assert ids[..m][i] == a;
    var k :| 0 <= k < |front| && front[k] == a;
    var row := RowOf(ids, connected, layer, d);
    if j < m {
      assert ids[..m][j] == b;
      RowOfKeepsOrder(ids[..m], connected, layer, d, a, b);
      var p, q :| 0 <= p < q < |front| && front[p] == a && front[q] == b;
      assert row[p] == a && row[q] == b;
    } else {
      assert row[k] == a && row[|front|] == b;
    }
  }

  /** `layers` holds the rows of `ids`, down to the deepest one. */
  ghost predicate Grouped(ids: seq<NodeId>, connected: set<NodeId>, layer: map<NodeId, int>, layers: seq<seq<NodeId>>)
    requires forall v :: v in ids ==> v in layer
  {
    && (forall d :: 0 <= d < |layers| ==> layers[d] == RowOf(ids, connected, layer, d))
    && Covered(ids, connected, layer, |layers|)
  }

  ghost predicate Covered(ids: seq<NodeId>, connected: set<NodeId>, layer: map<NodeId, int>, n: nat)
    requires forall v :: v in ids ==> v in layer
  {
    forall k :: 0 <= k < |ids| && ids[k] in connected ==> layer[ids[k]] < n
  }

  lemma CoveredOneMore(ids: seq<NodeId>, i: nat, connected: set<NodeId>, layer: map<NodeId, int>, n: nat, m: nat)
    requires i < |ids| && (forall v :: v in ids ==> v in layer) && Covered(ids[..i], connected, layer, n)
    requires n <= m && (ids[i] in connected ==> layer[ids[i]] < m)
    ensures Covered(ids[..i+1], connected, layer, m)
  {
    forall k | 0 <= k < i && ids[k] in connected ensures layer[ids[k]] < m {
      assert ids[..i][k] == ids[k];
    }
  }

  /** The layers with `id` added to layer `depth`, which is created, with those above it, when it is missing. */
  function Pushed(layers: seq<seq<NodeId>>, depth: nat, id: NodeId): (r: seq<seq<NodeId>>)
    ensures |r| == Max(|layers|, depth + 1)
    ensures forall d :: 0 <= d < |r| ==>
              r[d] == (if d < |layers| then layers[d] else []) + if d == depth then [id] else []
    ensures layers == [] || layers[|layers|-1] != [] ==> r[|r|-1] != []
  {
    var grown := if depth < |layers| then layers else layers + seq(depth + 1 - |layers|, _ => []);
    grown[depth := grown[depth] + [id]]
  }

  lemma RowOneMore(ids: seq<NodeId>, i: nat, connected: set<NodeId>, layer: map<NodeId, int>,
                   layers: seq<seq<NodeId>>, d: nat)
    requires i < |ids| && forall v :: v in ids ==> v in layer && 0 <= layer[v]
    requires Grouped(ids[..i], connected, layer, layers) && ids[i] in connected
    requires d < |Pushed(layers, layer[ids[i]], ids[i])|
    ensures Pushed(layers, layer[ids[i]], ids[i])[d] == RowOf(ids[..i+1], connected, layer, d)
  {
    assert ids[..i+1][..i] == ids[..i];
    if d >= |layers| { NewRowIsEmpty(ids[..i], connected, layer, |layers|, d); }
  }

  lemma GroupOneMore(ids: seq<NodeId>, i: nat, connected: set<NodeId>, layer: map<NodeId, int>,
                     layers: seq<seq<NodeId>>)
    requires i < |ids| && forall v :: v in ids ==> v in layer && 0 <= layer[v]
    requires Grouped(ids[..i], connected, layer, layers) && ids[i] in connected
    ensures Grouped(ids[..i+1], connected, layer, Pushed(layers, layer[ids[i]], ids[i]))
  {
    var pushed := Pushed(layers, layer[ids[i]], ids[i]);
    forall d | 0 <= d < |pushed| ensures pushed[d] == RowOf(ids[..i+1], connected, layer, d) {
      RowOneMore(ids, i, connected, layer, layers, d);
    }
    CoveredOneMore(ids, i, connected, layer, |layers|, |pushed|);
  }

  lemma GroupSkips(ids: seq<NodeId>, i: nat, connected: set<NodeId>, layer: map<NodeId, int>,
                   layers: seq<seq<NodeId>>)
    requires i < |ids| && forall v :: v in ids ==> v in layer && 0 <= layer[v]
    requires Grouped(ids[..i], connected, layer, layers) && ids[i] !in connected
    ensures Grouped(ids[..i+1], connected, layer, layers)
  {
    assert ids[..i+1][..i] == ids[..i];
  }

  method GroupByLayer(ids: seq<NodeId>, connected: set<NodeId>, layer: map<NodeId, int>)
    returns (layers: seq<seq<NodeId>>)
    requires forall v :: v in ids ==> v in layer && 0 <= layer[v]
    ensures Grouped(ids, connected, layer, layers)
    ensures layers != [] ==> layers[|layers|-1] != []
  {
    layers := [];
    for i := 0 to |ids|
      invariant Grouped(ids[..i], connected, layer, layers)
      invariant layers != [] ==> layers[|layers|-1] != []
    {
      var id := ids[i];
      if id !in connected {
        GroupSkips(ids, i, connected, layer, layers);
        continue;
      }
      GroupOneMore(ids, i, connected, layer, layers);
      layers := Pushed(layers, layer[id], id);
    }
    assert ids[..|ids|] == ids;
  }

  lemma NewRowIsEmpty(ids: seq<NodeId>, connected: set<NodeId>, layer: map<NodeId, int>, n: nat, d: int)
    requires forall v :: v in ids ==> v in layer
    requires Covered(ids, connected, layer, n) && n <= d
    ensures RowOf(ids, connected, layer, d) == []
  {
    var row := RowOf(ids, connected, layer, d);
    if row != [] { RowOfHas(ids, connected, layer, d, row[0]); }
  }

  // ---- Ordering rows ---------------------------------------------------------------------------

  datatype Score = Mean(value: real) | NoParents

  predicate ScoreLe(a: Score, b: Score) {
    b.NoParents? || (a.Mean? && a.value <= b.value)
  }

  /** The parents already placed, with repetition. */
  function Placed(parents: seq<NodeId>, order: map<NodeId, real>): seq<real> {
    if parents == [] then []
    else
      var last := parents[|parents|-1];
      Placed(parents[..|parents|-1], order) + if last in order then [order[last]] else []
  }

  function Sum(s: seq<real>): real {
    if s == [] then 0.0 else Sum(s[..|s|-1]) + s[|s|-1]
  }

  /** The barycentre of the parents already placed. */
  function ScoreOf(parents: seq<NodeId>, order: map<NodeId, real>): Score {
    var placed := Placed(parents, order);
    if placed == [] then NoParents else Mean(Sum(placed) / |placed| as real)
  }

  function ByScore(parentsOf: Index, order: map<NodeId, real>): (NodeId, NodeId) -> bool {
    (a: NodeId, b: NodeId) => ScoreLe(ScoreOf(Lookup(parentsOf, a), order), ScoreOf(Lookup(parentsOf, b), order))
  }

  /** Distance from the middle of a row of `n` nodes. */
  function Centred(i: int, n: int): real {
    i as real - (n as real - 1.0) / 2.0
  }

  function PlaceRow(order: map<NodeId, real>, row: seq<NodeId>, n: nat): map<NodeId, real>
    requires n <= |row|
  {
    if n == 0 then order else PlaceRow(order, row, n - 1)[row[n-1] := Centred(n - 1, |row|)]
  }

  /** The order map once the first `n` layers are placed. */
  function OrderAfter(layers: seq<seq<NodeId>>, parentsOf: Index, n: nat): map<NodeId, real>
    requires n <= |layers|
  {
    if n == 0 then map[]
    else
      var order := OrderAfter(layers, parentsOf, n - 1);
      var row := Sort(layers[n-1], ByScore(parentsOf, order));
      PlaceRow(order, row, |row|)
  }

  function SortedRow(layers: seq<seq<NodeId>>, parentsOf: Index, d: nat): seq<NodeId>
    requires d < |layers|
  {
    Sort(layers[d], ByScore(parentsOf, OrderAfter(layers, parentsOf, d)))
  }

  method PlaceInOrder(order0: map<NodeId, real>, row: seq<NodeId>) returns (order: map<NodeId, real>)
    ensures order == PlaceRow(order0, row, |row|)
  {
    order := order0;
    for i := 0 to |row|
      invariant order == PlaceRow(order0, row, i)
    {
      order := order[row[i] := Centred(i, |row|)];
    }
  }

  /** The first `n` layers, each sorted by what is placed above it. */
  function SortedRows(layers: seq<seq<NodeId>>, parentsOf: Index, n: nat): (rows: seq<seq<NodeId>>)
    requires n <= |layers|
    ensures |rows| == n
  {
    if n == 0 then [] else SortedRows(layers, parentsOf, n - 1) + [SortedRow(layers, parentsOf, n - 1)]
  }

  lemma SortedRowsStep(layers: seq<seq<NodeId>>, parentsOf: Index, n: nat)
    requires 0 < n <= |layers|
    ensures SortedRows(layers, parentsOf, n)[n-1] == SortedRow(layers, parentsOf, n - 1)
    ensures SortedRows(layers, parentsOf, n)[..n-1] == SortedRows(layers, parentsOf, n - 1)
  {
    var above, last := SortedRows(layers, parentsOf, n - 1), SortedRow(layers, parentsOf, n - 1);
    assert SortedRows(layers, parentsOf, n) == above + [last];
  }

  lemma {:induction false} SortedRowsAre(layers: seq<seq<NodeId>>, parentsOf: Index, n: nat, d: nat)
    requires d < n <= |layers|
    ensures SortedRows(layers, parentsOf, n)[d] == SortedRow(layers, parentsOf, d)
  {
    SortedRowsStep(layers, parentsOf, n);
    if d < n - 1 {
      SortedRowsAre(layers, parentsOf, n - 1, d);
      assert SortedRows(layers, parentsOf, n)[d] == SortedRows(layers, parentsOf, n)[..n-1][d];
    }
  }

  method OrderLayers(layers: seq<seq<NodeId>>, parentsOf: Index) returns (rows: seq<seq<NodeId>>)
    ensures rows == SortedRows(layers, parentsOf, |layers|)
  {
    rows := [];
    var order: map<NodeId, real> := map[];
    for d := 0 to |layers|
      invariant order == OrderAfter(layers, parentsOf, d)
      invariant rows == SortedRows(layers, parentsOf, d)
    {
      var row := Sort(layers[d], ByScore(parentsOf, order));
      order := PlaceInOrder(order, row);
      rows := rows + [row];
    }
  }

  lemma ScoresAreOrdered(parentsOf: Index, order: map<NodeId, real>)
    ensures TotalPreorder(ByScore(parentsOf, order))
  {
  }

  /** The rows left once holes are skipped. */
  function NonEmpty(layers: seq<seq<NodeId>>): seq<seq<NodeId>> {
    if layers == [] then []
    else NonEmpty(layers[..|layers|-1]) + if layers[|layers|-1] == [] then [] else [layers[|layers|-1]]
  }

  lemma {:induction false} NothingSkipped(layers: seq<seq<NodeId>>)
    requires forall d :: 0 <= d < |layers| ==> layers[d] != []
    ensures NonEmpty(layers) == layers
  {
    if layers != [] { NothingSkipped(layers[..|layers|-1]); }
  }

  // ---- Placing rows ----------------------------------------------------------------------------

  /** No node stands at two places. */
  ghost predicate OnePlaceEach(rows: seq<seq<NodeId>>) {
    forall d, i, e, j ::
      (0 <= d < |rows| && 0 <= i < |rows[d]| && 0 <= e < |rows| && 0 <= j < |rows[e]| && rows[d][i] == rows[e][j])
      ==> d == e && i == j
  }

  ghost predicate InRows(rows: seq<seq<NodeId>>, v: NodeId) {
    exists d, i :: 0 <= d < |rows| && 0 <= i < |rows[d]| && rows[d][i] == v
  }

  function PositionOf(rows: seq<seq<NodeId>>, d: int, i: int, columnGap: real, rowGap: real): Position
    requires 0 <= d < |rows|
  {
    Position(Centred(i, |rows[d]|) * columnGap, d as real * rowGap)
  }

  /** `positions` draws `rows`. */
  ghost predicate Draws(rows: seq<seq<NodeId>>, columnGap: real, rowGap: real, positions: map<NodeId, Position>) {
    && (forall v :: v in positions ==> InRows(rows, v))
    && (forall d, i :: 0 <= d < |rows| && 0 <= i < |rows[d]| ==>
          rows[d][i] in positions && positions[rows[d][i]] == PositionOf(rows, d, i, columnGap, rowGap))
  }

  method Place(rows: seq<seq<NodeId>>, columnGap: real, rowGap: real) returns (positions: map<NodeId, Position>)
    requires OnePlaceEach(rows)
    ensures Draws(rows, columnGap, rowGap, positions)
  {
    positions := map[];
    for depth := 0 to |rows|
      invariant forall v :: v in positions ==> InRows(rows, v)
      invariant forall d, i :: 0 <= d < depth && 0 <= i < |rows[d]| ==>
                  rows[d][i] in positions && positions[rows[d][i]] == PositionOf(rows, d, i, columnGap, rowGap)
    {
      var row := rows[depth];
      for index := 0 to |row|
        invariant forall v :: v in positions ==> InRows(rows, v)
        invariant forall d, i :: 0 <= d < |rows| && 0 <= i < |rows[d]| && (d < depth || (d == depth && i < index)) ==>
                    rows[d][i] in positions && positions[rows[d][i]] == PositionOf(rows, d, i, columnGap, rowGap)
      {
        assert rows[depth][index] == row[index];
        positions := positions[row[index] := PositionOf(rows, depth, index, columnGap, rowGap)];
      }
    }
  }

  lemma PlacesDiffer(rows: seq<seq<NodeId>>, columnGap: real, rowGap: real, d: int, i: int, e: int, j: int)
    requires columnGap > 0.0 && rowGap > 0.0 && 0 <= d < |rows| && 0 <= e < |rows| && (d != e || i != j)
    ensures PositionOf(rows, d, i, columnGap, rowGap) != PositionOf(rows, e, j, columnGap, rowGap)
  {
    if d == e {
      Cancel(Centred(i, |rows[d]|), Centred(j, |rows[d]|), columnGap);
    } else {
      Cancel(d as real, e as real, rowGap);
    }
  }

  /** Two nodes never share a position. */
  lemma PositionsDiffer(rows: seq<seq<NodeId>>, columnGap: real, rowGap: real, positions: map<NodeId, Position>,
                        u: NodeId, v: NodeId)
    requires Draws(rows, columnGap, rowGap, positions) && columnGap > 0.0 && rowGap > 0.0
    requires u in positions && v in positions && u != v
    ensures positions[u] != positions[v]
  {
    var d, i :| 0 <= d < |rows| && 0 <= i < |rows[d]| && rows[d][i] == u;
    var e, j :| 0 <= e < |rows| && 0 <= j < |rows[e]| && rows[e][j] == v;
    PlacesDiffer(rows, columnGap, rowGap, d, i, e, j);
  }

  lemma Cancel(a: real, b: real, gap: real)
    requires gap > 0.0 && a != b
    ensures a * gap != b * gap
  {
    if a < b { Scale(a, b, gap); } else { Scale(b, a, gap); }
  }

  lemma Scale(a: real, b: real, gap: real)
    requires gap > 0.0 && a < b
    ensures a * gap < b * gap
  {
    assert (b - a) * gap > 0.0;
  }

  lemma NextOffset(i: int, n: int, gap: real)
    ensures Centred(i + 1, n) * gap - Centred(i, n) * gap == gap
  {
    assert Centred(i + 1, n) == Centred(i, n) + 1.0;
    assert (Centred(i, n) + 1.0) * gap == Centred(i, n) * gap + gap;
  }

  /** Neighbours on a row are exactly one column gap apart, and rows one row gap. */
  lemma RowIsSpaced(rows: seq<seq<NodeId>>, columnGap: real, rowGap: real, positions: map<NodeId, Position>, d: nat,
                    i: nat)
    requires Draws(rows, columnGap, rowGap, positions) && d < |rows| && i + 1 < |rows[d]|
    ensures var a, b := rows[d][i], rows[d][i+1];
            && a in positions && b in positions
            && positions[b].x - positions[a].x == columnGap && positions[b].y == positions[a].y
  {
    NextOffset(i, |rows[d]|, columnGap);
  }

  /** The x coordinates of a row, added up. */
  ghost function SumOfX(positions: map<NodeId, Position>, row: seq<NodeId>): real
    requires forall i :: 0 <= i < |row| ==> row[i] in positions
  {
    if row == [] then 0.0 else SumOfX(positions, row[..|row|-1]) + positions[row[|row|-1]].x
  }

  lemma AddOne(m: real, l: real, gap: real)
    ensures (m - 1.0) * (m - 1.0 - l) / 2.0 * gap + (m - 1.0 - (l - 1.0) / 2.0) * gap == m * (m - l) / 2.0 * gap
  {
    var a, b := (m - 1.0) * (m - 1.0 - l) / 2.0, m - 1.0 - (l - 1.0) / 2.0;
    assert (m - 1.0) * (m - 1.0 - l) == m * (m - l) - m - (m - l) + 1.0;
    assert a + b == m * (m - l) / 2.0;
    assert a * gap + b * gap == (a + b) * gap;
  }

  /** What the first `n` x coordinates of a row of `l` add up to. */
  ghost function PartialSum(n: int, l: int, gap: real): real {
    n as real * (n as real - l as real) / 2.0 * gap
  }

  lemma PartialSumGrows(n: nat, l: nat, gap: real)
    requires n > 0
    ensures PartialSum(n - 1, l, gap) + Centred(n - 1, l) * gap == PartialSum(n, l, gap)
  {
    assert (n - 1) as real == n as real - 1.0;
    AddOne(n as real, l as real, gap);
  }

  lemma {:induction false} SumOfXIs(rows: seq<seq<NodeId>>, columnGap: real, rowGap: real,
                                    positions: map<NodeId, Position>, d: nat, n: nat)
    requires d < |rows| && n <= |rows[d]| && Draws(rows, columnGap, rowGap, positions)
    ensures SumOfX(positions, rows[d][..n]) == PartialSum(n, |rows[d]|, columnGap)
  {
    if n > 0 {
      SumOfXIs(rows, columnGap, rowGap, positions, d, n - 1);
      assert rows[d][..n][..n-1] == rows[d][..n-1];
      PartialSumGrows(n, |rows[d]|, columnGap);
    }
  }

  /** Every row is centred: its x coordinates add up to zero. */
  lemma RowIsCentred(rows: seq<seq<NodeId>>, columnGap: real, rowGap: real, positions: map<NodeId, Position>, d: nat)
    requires d < |rows| && Draws(rows, columnGap, rowGap, positions)
    ensures SumOfX(positions, rows[d]) == 0.0
  {
    SumOfXIs(rows, columnGap, rowGap, positions, d, |rows[d]|);
    assert rows[d][..|rows[d]|] == rows[d];
  }
}
