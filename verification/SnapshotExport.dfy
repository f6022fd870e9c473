/**
 The snapshot (ext/snapshot.c): the tables to export, and the set-returning function that
 emits one row of one of them per call.

 What the catalog query returns and what the tables contain is fixed by the snapshot the
 transaction uses. A cursor is the table it reads and the number of rows it has returned.
 */
module SnapshotExport {
  import opened Basics
  import opened AvroModel
  import opened Conversion
  import opened Rows
  import opened SchemaCaching
  import opened Server
  import opened KafkaLog
  import opened SchemaFlow
  import opened SchemaAgreement
  import opened ChangeLog
  import opened EndToEnd
  import opened InFlightRing
  import opened RingRefinement
  import Mapper
  import Pipeline
  import SnapshotPhase

  // ---- The list of tables

  /** A row of the catalog query; a table comes once for each index that qualifies as its key. */
  datatype Listed = Listed(relid: Oid, indexName: Option<string>)

  datatype ListError = AmbiguousKey | NoKey

  predicate Repeats(rows: seq<Listed>, j: nat, i: nat)
    requires j < i < |rows|
  {
    rows[j].relid == rows[i].relid
  }

  ghost predicate Ambiguous(rows: seq<Listed>) {
    exists j, i {:trigger Repeats(rows, j, i)} :: 0 <= j < i < |rows| && Repeats(rows, j, i)
  }

  predicate HasUnkeyed(rows: seq<Listed>) {
    exists i :: 0 <= i < |rows| && rows[i].indexName.None?
  }

  /**
   `get_table_list`: each listed table is opened once, in the order of the query. It fails if
   a table is listed twice, whatever the option, or if one has no key and that is not allowed.
   */
  method GetTableList(rows: seq<Listed>, allowUnkeyed: bool) returns (r: Result<seq<Oid>, ListError>)
    ensures r == Err(AmbiguousKey) <==> Ambiguous(rows)
    ensures r == Err(NoKey) <==> !Ambiguous(rows) && HasUnkeyed(rows) && !allowUnkeyed
    ensures r.Ok? ==> |r.value| == |rows| && forall i :: 0 <= i < |rows| ==> r.value[i] == rows[i].relid
    ensures r.Ok? ==> forall j, i :: 0 <= j < i < |r.value| ==> r.value[j] != r.value[i]
  {
    var relids, errors := [], false;
    for i := 0 to |rows|
      invariant |relids| == i && forall k :: 0 <= k < i ==> relids[k] == rows[k].relid
      invariant forall m, n {:trigger Repeats(rows, m, n)} :: 0 <= m < n < i ==> !Repeats(rows, m, n)
      invariant errors <==> exists k :: 0 <= k < i && rows[k].indexName.None?
    {
      relids := relids + [rows[i].relid];
      if rows[i].indexName.None? { errors := true; }
      for j := 0 to i
        invariant forall m :: 0 <= m < j ==> !Repeats(rows, m, i)
      {
        if rows[i].relid == relids[j] {
          assert Repeats(rows, j, i);
          return Err(AmbiguousKey);
        }
      }
    }
    if errors && !allowUnkeyed { return Err(NoKey); }
    forall j, i | 0 <= j < i < |relids|
      ensures relids[j] != relids[i]
    {
      assert !Repeats(rows, j, i);
    }
    r := Ok(relids);
  }

  // ---- Emitting rows

  datatype Table = Table(rel: Relation, tuples: seq<Tuple>)

  function RowsOf(t: Table): (rows: seq<Row>)
    ensures |rows| == |t.tuples|
  {
    seq(|t.tuples|, i requires 0 <= i < |t.tuples| => Row(t.rel, t.tuples[i]))
  }

  /** The rows of all tables, table by table. */
  function AllRows(tables: seq<Table>): seq<Row> {
    if |tables| == 0 then [] else RowsOf(tables[0]) + AllRows(tables[1..])
  }

  datatype Cursor = Cursor(table: nat, fetched: nat)

  class ExportState {
    const tables: seq<Table>
    var currentTable: nat
    var cursor: Option<Cursor>
    var closed: seq<Oid>      // relations closed so far, in order

    /** The cursor is open on the current table; the tables before it have been closed, once each. */
    ghost predicate Valid()
      reads this
    {
      && currentTable <= |tables|
      && (currentTable < |tables| ==>
            cursor.Some? && cursor.value.table == currentTable && cursor.value.fetched <= |tables[currentTable].tuples|)
      && (currentTable == |tables| ==> cursor.None?)
      && |closed| == currentTable && forall i :: 0 <= i < currentTable ==> closed[i] == tables[i].rel.relid
    }

    /** The rows still to be emitted. */
    ghost function Remaining(): seq<Row>
      requires Valid()
      reads this
    {
      if currentTable == |tables| then []
      else RowsOf(tables[currentTable])[cursor.value.fetched..] + AllRows(tables[currentTable+1..])
    }

    /** The first call. */
    constructor (tables: seq<Table>)
      ensures this.tables == tables && Valid() && Remaining() == AllRows(tables)
    {
      this.tables := tables;
      currentTable, cursor, closed := 0, None, [];
      new;
      if |tables| > 0 {
        OpenNextTable();
        assert RowsOf(tables[0])[0..] == RowsOf(tables[0]);
      }
    }

    method OpenNextTable()
      requires currentTable < |tables| && cursor.None?
      modifies this`cursor
      ensures cursor == Some(Cursor(currentTable, 0))
    {
      cursor := Some(Cursor(currentTable, 0));
    }

    method CloseCurrentTable()
      requires currentTable < |tables| && cursor.Some?
      modifies this`cursor, this`closed
      ensures cursor.None? && closed == old(closed) + [tables[currentTable].rel.relid]
    {
      closed := closed + [tables[currentTable].rel.relid];
      cursor := None;
    }

    /** One row from the open cursor, or none if it is at the end. */
    method CursorFetch() returns (tuple: Option<Tuple>)
      requires cursor.Some? && cursor.value.table < |tables|
      requires cursor.value.fetched <= |tables[cursor.value.table].tuples|
      modifies this`cursor
      ensures var c, ts := old(cursor).value, tables[old(cursor).value.table].tuples;
              if c.fetched == |ts| then tuple.None? && cursor == old(cursor)
              else tuple == Some(ts[c.fetched]) && cursor == Some(Cursor(c.table, c.fetched + 1))
    {
      var c := cursor.value;
      if c.fetched == |tables[c.table].tuples| {
        tuple := None;
      } else {
        tuple := Some(tables[c.table].tuples[c.fetched]);
        cursor := Some(Cursor(c.table, c.fetched + 1));
      }
    }

    /** A finished table is closed, and the next one opened, without losing a row. */
    method NextTable()
      requires Valid() && currentTable < |tables| && cursor.value.fetched == |tables[currentTable].tuples|
      modifies this
      ensures Valid() && Remaining() == old(Remaining()) && currentTable == old(currentTable) + 1
    {
      CloseCurrentTable();
      currentTable := currentTable + 1;
      if currentTable < |tables| {
        OpenNextTable();
        assert RowsOf(tables[currentTable])[0..] == RowsOf(tables[currentTable]);
      }
    }

    /** Fetching takes the first of the remaining rows, unless the table is finished. */
    method FetchRow() returns (row: Option<Row>)
      requires Valid() && currentTable < |tables|
      modifies this`cursor
      ensures Valid()
      ensures row.None? ==> Remaining() == old(Remaining()) && cursor.value.fetched == |tables[currentTable].tuples|
      ensures row.Some? ==> old(Remaining()) == [row.value] + Remaining()
    {
      ghost var rows, rest := RowsOf(tables[currentTable]), AllRows(tables[currentTable+1..]);
      ghost var n := cursor.value.fetched;
      var tuple := CursorFetch();
      if tuple.None? {
        row := None;
      } else {
        row := Some(Row(tables[currentTable].rel, tuple.value));
        assert rows[n..] == [rows[n]] + rows[n+1..];
        assert ([rows[n]] + rows[n+1..]) + rest == [rows[n]] + (rows[n+1..] + rest);
      }
    }

    /** One call: the next row, or the end once all tables are closed. */
    method Next() returns (row: Option<Row>)
      requires Valid()
      modifies this
      ensures Valid()
      ensures row.Some? ==> old(Remaining()) == [row.value] + Remaining()
      ensures row.None? ==> old(Remaining()) == [] && currentTable == |tables|
    {
      while currentTable < |tables|
        invariant Valid() && Remaining() == old(Remaining())
        decreases |tables| - currentTable
      {
        row := FetchRow();
        if row.Some? { return; }
        NextTable();
      }
      row := None;
    }
  }

  /**
   All the calls together: every row of every table, once, in table order; every relation
   closed once, in the order they were opened.
   */
  method Export(tables: seq<Table>) returns (rows: seq<Row>, closed: seq<Oid>)
    ensures rows == AllRows(tables)
    ensures |closed| == |tables| && forall i :: 0 <= i < |tables| ==> closed[i] == tables[i].rel.relid
  {
    var e := new ExportState(tables);
    rows := [];
    var finished := false;
    while !finished
      invariant e.Valid() && e.tables == tables && fresh(e)
      invariant AllRows(tables) == rows + e.Remaining()
      invariant finished ==> e.currentTable == |tables|
      decreases |e.Remaining()|, !finished
    {
      var row := e.Next();
      if row.Some? {
        ConcatAssoc(rows, [row.value], e.Remaining());
        rows := rows + [row.value];
      } else {
        finished := true;
      }
    }
    closed := e.closed;
  }

  // ---- What the snapshot leaves in Kafka

  /** A snapshot row is sent as an insert. */
  function AsInsert(r: Row): Mod {
    Mod(None, if KeyIndex(r.rel).None? then None else Some(r), r.rel, Inserted(r.tuple))
  }

  function Inserts(rows: seq<Row>): (mods: seq<Mod>)
    ensures |mods| == |rows|
  {
    seq(|rows|, i requires 0 <= i < |rows| => AsInsert(rows[i]))
  }

  function SnapshotEvents(rows: seq<Row>): (events: seq<Event>)
    ensures |events| == |rows|
  {
    seq(|rows|, i requires 0 <= i < |rows| => RowChange(rows[i].rel, Inserted(rows[i].tuple)))
  }

  function KeyedRows(rows: seq<Row>): Db {
    set r | r in rows && KeyIndex(r.rel).Some?
  }

  /** A consistent snapshot: keys are unique. */
  ghost predicate SnapshotOk(rows: seq<Row>) {
    && (forall r :: r in rows ==> RelationOk(r.rel) && Fits(r.rel.desc, r.tuple))
    && DbOk(KeyedRows(rows))
  }

  lemma KeyedRowsGrow(rows: seq<Row>, r: Row)
    ensures KeyedRows(rows + [r]) == KeyedRows(rows) + (if KeyIndex(r.rel).None? then {} else {r})
  {
  }

  lemma SnapshotPrefix(rows: seq<Row>, n: nat)
    requires SnapshotOk(rows) && n <= |rows|
    ensures SnapshotOk(rows[..n])
  {
    var p := rows[..n];
    forall r | r in p
      ensures r in rows
    {
    }
    assert KeyedRows(p) <= KeyedRows(rows);
  }

  lemma NextInsertOk(rows: seq<Row>)
    requires |rows| > 0 && SnapshotOk(rows)
    ensures var before := KeyedRows(rows[..|rows|-1]);
            && ModOk(before, AsInsert(rows[|rows|-1]))
            && Apply(before, AsInsert(rows[|rows|-1])) == KeyedRows(rows)
  {
    var n := |rows| - 1;
    var before, r := KeyedRows(rows[..n]), rows[n];
    assert rows[..n] + [r] == rows;
    KeyedRowsGrow(rows[..n], r);
    assert Reported(AsInsert(r));
  }

  /** Inserting the rows of a consistent snapshot one by one is a possible history, and gives its tables. */
  lemma {:induction false} SnapshotHistory(rows: seq<Row>)
    requires SnapshotOk(rows)
    ensures HistoryOk(Inserts(rows)) && AllKeepKeys(Inserts(rows)) && ApplyAll(Inserts(rows)) == KeyedRows(rows)
  {
    assert forall i :: 0 <= i < |rows| ==> rows[i] in rows && Reported(AsInsert(rows[i]));
    if |rows| > 0 {
      var n := |rows| - 1;
      SnapshotPrefix(rows, n);
      SnapshotHistory(rows[..n]);
      assert Inserts(rows)[..n] == Inserts(rows[..n]);
      NextInsertOk(rows);
    }
  }

  lemma {:induction false} SnapshotFollows(rows: seq<Row>)
    ensures Follows(Inserts(rows), SnapshotEvents(rows))
  {
    if |rows| > 0 {
      var n := |rows| - 1;
      SnapshotFollows(rows[..n]);
      assert Inserts(rows)[..n] == Inserts(rows[..n]);
      assert SnapshotEvents(rows)[..n] == SnapshotEvents(rows[..n]);
    }
  }

  /**
   The whole snapshot, from the tables to Kafka: what a consumer reads afterwards is exactly
   the keyed tables of the snapshot.
   */
  lemma SnapshotReachesKafka(env: Mapper.Env, tables: seq<Table>)
    requires EnvOk(env) && env.registry.Registry? && SnapshotOk(AllRows(tables))
    ensures var events := SnapshotEvents(AllRows(tables));
            && EventsOk(events)
            && var r := Run(env, events);
            if r.Ok? then Holds(env, Fold(r.value.log), KeyedRows(AllRows(tables))) else Explained(env, events, r.error)
  {
    var rows := AllRows(tables);
    SnapshotHistory(rows);
    SnapshotFollows(rows);
    StreamIsDatabase(env, Inserts(rows), SnapshotEvents(rows));
  }

  /** A first run that has just created its slot, with these rows to export. */
  function FreshRun(env: Mapper.Env, rows: seq<Row>, lsn: Lsn): Pipeline.Sys
    requires AllReported(Inserts(rows))
  {
    Pipeline.Sys([Pipeline.Tx(0, lsn, Messages(env, Inserts(rows)))], lsn, [], InitRing(true), 0, 0, 0, false, 0, 0, true,
                 None, [], [], [SNAPSHOT], [])
  }

  lemma FreshRunStarts(env: Mapper.Env, rows: seq<Row>, lsn: Lsn)
    requires AllReported(Inserts(rows)) && lsn > 0
    ensures Pipeline.Behaviour([FreshRun(env, rows, lsn)], [])
  {
  }

  lemma SnapshotIsFirst(env: Mapper.Env, rows: seq<Row>, lsn: Lsn)
    requires EnvOk(env) && AllPass(env, Inserts(rows))
    ensures Concat([Inserts(rows)]) == Inserts(rows) && Carries(env, FreshRun(env, rows, lsn).wal, [Inserts(rows)])
  {
    var txs := [Inserts(rows)];
    assert txs[..0] == [];
    EmptyConcat(Inserts(rows));
    EmitsIff(env, Inserts(rows), Messages(env, Inserts(rows)));
  }

  /** If every row gets through, such a run is a behaviour of the pipeline, and one that can leave exactly the snapshot in Kafka. */
  lemma SnapshotRunCompletes(env: Mapper.Env, rows: seq<Row>, lsn: Lsn)
    returns (trace: seq<Pipeline.Sys>, steps: seq<Pipeline.Step>)
    requires EnvOk(env) && env.registry.Registry? && SnapshotOk(rows) && AllPass(env, Inserts(rows)) && lsn > 0
    ensures AllReported(Inserts(rows)) && Pipeline.Behaviour(trace, steps) && trace[0] == FreshRun(env, rows, lsn)
    ensures Holds(env, Fold(trace[|trace|-1].log), KeyedRows(rows))
  {
    SnapshotHistory(rows);
    var s := FreshRun(env, rows, lsn);
    FreshRunStarts(env, rows, lsn);
    SnapshotIsFirst(env, rows, lsn);
    trace, steps := DatabaseReachesKafka(env, [Inserts(rows)], [s], []);
    assert trace[0] == [s][0];
  }

  predicate KeyedTwice(rows: seq<Row>, i: nat, j: nat)
    requires i < j < |rows|
  {
    rows[i] == rows[j] && KeyIndex(rows[i].rel).Some?
  }

  /** The record an exported row becomes. */
  function RecordOfRow(env: Mapper.Env, r: Row): Record
    requires RelationOk(r.rel) && Fits(r.rel.desc, r.tuple)
  {
    RecordFor(env, r.rel, KeyValue(r.rel, r.tuple), Some(RowValue(r.rel, r.tuple)))
  }

  lemma InsertSnoc(env: Mapper.Env, rows: seq<Row>, r: Row)
    requires AllReported(Inserts(rows)) && Reported(AsInsert(r))
    ensures AllReported(Inserts(rows + [r]))
    ensures Messages(env, Inserts(rows + [r])) == Messages(env, Inserts(rows)) + [RecordOfRow(env, r)]
  {
    assert Inserts(rows + [r]) == Inserts(rows) + [AsInsert(r)];
    MessagesSnoc(env, Inserts(rows), AsInsert(r));
  }

  predicate RecordAt(env: Mapper.Env, rows: seq<Row>, rs: Log, i: nat) {
    && i < |rows| && i < |rs| && RelationOk(rows[i].rel) && Fits(rows[i].rel.desc, rows[i].tuple)
    && rs[i] == RecordOfRow(env, rows[i])
  }

  lemma {:induction false} InsertRecords(env: Mapper.Env, rows: seq<Row>)
    requires AllReported(Inserts(rows))
    ensures |Messages(env, Inserts(rows))| == |rows|
    ensures forall i {:trigger RecordAt(env, rows, Messages(env, Inserts(rows)), i)} ::
              0 <= i < |rows| ==> RecordAt(env, rows, Messages(env, Inserts(rows)), i)
  {
    if |rows| > 0 {
      var n := |rows| - 1;
      var before, r := rows[..n], rows[n];
      assert rows == before + [r];
      assert forall i :: 0 <= i < n ==> Inserts(before)[i] == Inserts(rows)[i];
      assert AllReported(Inserts(before)) && Reported(Inserts(rows)[n]);
      InsertRecords(env, before);
      InsertSnoc(env, before, r);
      forall i | 0 <= i < |rows|
        ensures RecordAt(env, rows, Messages(env, Inserts(rows)), i)
      {
        if i < n { assert RecordAt(env, before, Messages(env, Inserts(before)), i); }
      }
    }
  }

  /** The records of a consistent snapshot that exports each row once are inserts under different keys. */
  lemma SnapshotGivesRecords(env: Mapper.Env, rows: seq<Row>)
    requires EnvOk(env) && SnapshotOk(rows) && AllReported(Inserts(rows)) && AllKnown(env, Inserts(rows))
    requires forall i, j {:trigger KeyedTwice(rows, i, j)} :: 0 <= i < j < |rows| ==> !KeyedTwice(rows, i, j)
    ensures SnapshotPhase.SnapshotRecords(Messages(env, Inserts(rows)))
  {
    var rs := Messages(env, Inserts(rows));
    InsertRecords(env, rows);
    forall i | 0 <= i < |rs|
      ensures rs[i].val.Some?
    {
      assert RecordAt(env, rows, rs, i);
    }
    forall i, j | 0 <= i < j < |rs|
      ensures SnapshotPhase.DifferentKeys(rs, i, j)
    {
      assert !KeyedTwice(rows, i, j) && RecordAt(env, rows, rs, i) && RecordAt(env, rows, rs, j);
      assert Known(env, Inserts(rows)[i].rel) && Known(env, Inserts(rows)[j].rel);
      if KeyIndex(rows[i].rel).Some? && KeyIndex(rows[j].rel).Some? {
        DifferentRowsDifferentKeys(env, rows, i, j);
      }
    }
  }

  lemma DifferentRowsDifferentKeys(env: Mapper.Env, rows: seq<Row>, i: nat, j: nat)
    requires EnvOk(env) && SnapshotOk(rows) && i < j < |rows| && rows[i] != rows[j]
    requires KeyIndex(rows[i].rel).Some? && KeyIndex(rows[j].rel).Some? && Known(env, rows[i].rel) && Known(env, rows[j].rel)
    ensures RowOk(rows[i]) && RowOk(rows[j]) && RowKey(env, rows[i]) != RowKey(env, rows[j])
  {
    assert rows[i] in KeyedRows(rows) && rows[j] in KeyedRows(rows);
    assert Apart(rows[i], rows[j]);
    RowKeyExact(env, rows[i], rows[j]);
  }
}
