/**
  The server's metric table: rows are inserted unless their key is already there, in chunks of one
  statement each. Inserting in chunks is inserting at once, and inserting again changes nothing.
  */
module MetricStore {
  import opened Common

  /** A series at an instant: source, metric, instance and time. */
  type Key(==, !new)
  type Reading(==, !new)

  datatype Row = Row(key: Key, reading: Reading)
  type Table = seq<Row>

  const METRIC_INSERT_CHUNK := 5000

  predicate HasKey(table: Table, key: Key) {
    exists k :: 0 <= k < |table| && table[k].key == key
  }

  /** `ON CONFLICT DO NOTHING`. */
  function Insert(table: Table, row: Row): Table {
    if HasKey(table, row.key) then table else table + [row]
  }

  /** One statement: a key met twice keeps its first row. */
  function InsertAll(table: Table, rows: seq<Row>): Table {
    if rows == [] then table else Insert(InsertAll(table, rows[..|rows|-1]), rows[|rows|-1])
  }

  ghost predicate KeysOnce(table: Table) {
    forall i, j :: 0 <= i < j < |table| ==> table[i].key != table[j].key
  }

  /** What is stored is never changed or removed. */
  lemma {:induction false} InsertAllExtends(table: Table, rows: seq<Row>)
    ensures table <= InsertAll(table, rows)
  {
    if rows != [] { InsertAllExtends(table, rows[..|rows|-1]); }
  }

  /** Each key is stored at most once. */
  lemma {:induction false} InsertAllKeepsKeysOnce(table: Table, rows: seq<Row>)
    requires KeysOnce(table)
    ensures KeysOnce(InsertAll(table, rows))
  {
    if rows != [] { InsertAllKeepsKeysOnce(table, rows[..|rows|-1]); }
  }

  /** Afterwards the table has the keys it had and those of the rows. */
  lemma {:induction false} InsertAllHas(table: Table, rows: seq<Row>, key: Key)
    ensures HasKey(InsertAll(table, rows), key) <==> HasKey(table, key) || HasKey(rows, key)
  {
    if rows != [] {
      var m := |rows| - 1;
      InsertAllHas(table, rows[..m], key);
      HasKeyAppend(rows[..m], rows[m], key);
      HasKeyAppend(InsertAll(table, rows[..m]), rows[m], key);
      assert rows == rows[..m] + [rows[m]];
    }
  }

  lemma HasKeyAppend(table: Table, row: Row, key: Key)
    ensures HasKey(table + [row], key) <==> HasKey(table, key) || row.key == key
  {
    if HasKey(table, key) {
      var k :| 0 <= k < |table| && table[k].key == key;
      assert (table + [row])[k].key == key;
    }
    if row.key == key { assert (table + [row])[|table|].key == key; }
  }

  lemma {:induction false} InsertInParts(table: Table, a: seq<Row>, b: seq<Row>)
    ensures InsertAll(table, a + b) == InsertAll(InsertAll(table, a), b)
  {
    if b == [] {
      assert a + b == a;
    } else {
      var m := |b| - 1;
      assert (a + b)[..|a + b| - 1] == a + b[..m];
      InsertInParts(table, a, b[..m]);
    }
  }

  ghost predicate HasAll(table: Table, rows: seq<Row>) {
    forall k :: 0 <= k < |rows| ==> HasKey(table, rows[k].key)
  }

  lemma {:induction false} NothingNew(table: Table, rows: seq<Row>)
    requires HasAll(table, rows)
    ensures InsertAll(table, rows) == table
  {
    if rows != [] { NothingNew(table, rows[..|rows|-1]); }
  }

  lemma InsertedHasAll(table: Table, rows: seq<Row>)
    ensures HasAll(InsertAll(table, rows), rows)
  {
    forall k | 0 <= k < |rows| ensures HasKey(InsertAll(table, rows), rows[k].key) {
      InsertAllHas(table, rows, rows[k].key);
      assert HasKey(rows, rows[k].key);
    }
  }

  lemma StillHasAll(table: Table, more: seq<Row>, rows: seq<Row>)
    requires HasAll(table, rows)
    ensures HasAll(InsertAll(table, more), rows)
  {
    forall k | 0 <= k < |rows| ensures HasKey(InsertAll(table, more), rows[k].key) {
      InsertAllHas(table, more, rows[k].key);
    }
  }

  /** Retrying a batch, however much later, stores nothing twice and changes nothing. */
  lemma ReplayIsHarmless(table: Table, rows: seq<Row>, later: seq<Row>)
    ensures var after := InsertAll(InsertAll(table, rows), later); InsertAll(after, rows) == after
  {
    InsertedHasAll(table, rows);
    StillHasAll(InsertAll(table, rows), later, rows);
    NothingNew(InsertAll(InsertAll(table, rows), later), rows);
  }

  /** The chunk loop: the same table as one statement, and the number of rows really inserted. */
  method WriteMetricRows(table0: Table, rows: seq<Row>) returns (table: Table, stored: nat)
    ensures table == InsertAll(table0, rows)
    ensures stored == |table| - |table0|
  {
    table, stored := table0, 0;
    var i := 0;
    while i < |rows|
      invariant 0 <= i
      invariant table == InsertAll(table0, rows[..Min(i, |rows|)])
      invariant stored == |table| - |table0|
    {
      var next := Min(i + METRIC_INSERT_CHUNK, |rows|);
      var chunk := rows[i..next];
      InsertInParts(table0, rows[..i], chunk);
      assert rows[..i] + chunk == rows[..next];
      InsertAllExtends(table, chunk);
      var after := InsertAll(table, chunk);
      stored := stored + (|after| - |table|);
      table := after;
      i := i + METRIC_INSERT_CHUNK;
    }
    assert rows[..|rows|] == rows;
  }
}
