/** The three caches agree after every event, and every row is read as what it was written as. */
module SchemaAgreement {
  import opened Basics
  import opened AvroModel
  import opened Conversion
  import opened Rows
  import opened SchemaCaching
  import opened RetryingWriter
  import opened Frames
  import opened Server
  import opened Client
  import opened KafkaLog
  import opened Mapper
  import opened SchemaFlow
  import opened SchemaNames

  // ---- Lists of messages and callbacks

  lemma {:induction false} HandleConcat(c: Codec, list: SchemaList, a: seq<Msg>, b: seq<Msg>)
    requires HandleAll(c, list, a).Ok?
    ensures var ra := HandleAll(c, list, a).value;
            var rb := HandleAll(c, ra.0, b);
            HandleAll(c, list, a + b) == if rb.Err? then rb else Ok((rb.value.0, ra.1 + rb.value.1))
    decreases |b|
  {
    if |b| == 0 {
      assert a + b == a;
      assert HandleAll(c, list, a).value.1 + [] == HandleAll(c, list, a).value.1;
    } else {
      assert (a + b)[..|a + b| - 1] == a + b[..|b|-1];
      HandleConcat(c, list, a, b[..|b|-1]);
      var ra := HandleAll(c, list, a).value;
      var rp := HandleAll(c, ra.0, b[..|b|-1]);
      if rp.Ok? && Handle(c, rp.value.0, b[|b|-1]).Ok? {
        var last := [Handle(c, rp.value.0, b[|b|-1]).value.1];
        assert (ra.1 + rp.value.1) + last == ra.1 + (rp.value.1 + last);
      }
    }
  }

  lemma HandleSingle(c: Codec, list: SchemaList, m: Msg)
    ensures var r := Handle(c, list, m);
            HandleAll(c, list, [m]) == if r.Err? then Err(r.error) else Ok((r.value.0, [r.value.1]))
  {
    assert [m][..0] == [];
    assert HandleAll(c, list, []) == Ok((list, []));
    if Handle(c, list, m).Ok? {
      assert [] + [Handle(c, list, m).value.1] == [Handle(c, list, m).value.1];
    }
  }

  lemma {:induction false} ProduceConcat(env: Env, tables: Tables, a: seq<Callback>, b: seq<Callback>)
    requires ProduceAll(env, tables, a).Ok?
    ensures var ra := ProduceAll(env, tables, a).value;
            var rb := ProduceAll(env, ra.0, b);
            ProduceAll(env, tables, a + b) == if rb.Err? then rb else Ok((rb.value.0, ra.1 + rb.value.1))
    decreases |b|
  {
    if |b| == 0 {
      assert a + b == a;
      assert ProduceAll(env, tables, a).value.1 + [] == ProduceAll(env, tables, a).value.1;
    } else {
      assert (a + b)[..|a + b| - 1] == a + b[..|b|-1];
      ProduceConcat(env, tables, a, b[..|b|-1]);
      var ra := ProduceAll(env, tables, a).value;
      var rp := ProduceAll(env, ra.0, b[..|b|-1]);
      if rp.Ok? && Produce(env, rp.value.0, b[|b|-1]).Ok? {
        var last := Produce(env, rp.value.0, b[|b|-1]).value.1;
        assert (ra.1 + rp.value.1) + last == ra.1 + (rp.value.1 + last);
      }
    }
  }

  lemma ProduceSingle(env: Env, tables: Tables, cb: Callback)
    ensures ProduceAll(env, tables, [cb]) == Produce(env, tables, cb)
  {
    assert [cb][..0] == [];
    assert ProduceAll(env, tables, []) == Ok((tables, []));
    if Produce(env, tables, cb).Ok? {
      assert [] + Produce(env, tables, cb).value.1 == Produce(env, tables, cb).value.1;
    }
  }

  // ---- Rows of an announced table

  /** The client and the mapper know the table as the catalog describes it. */
  ghost predicate Knows(env: Env, client: SchemaList, tables: Tables, rel: Relation) {
    var e := EntryFor(rel);
    && EntryOf(client, rel.relid) == Some(SchemaEntry(rel.relid, e.keySchema, e.rowSchema))
    && MetaOf(tables, rel.relid)
       == Some(Announced(env, rel.relid, rel.name, KeyJson(env.codec, e), env.codec.toJson(e.rowSchema)))
  }

  /** Keys and rows decode to the values they were encoded from. */
  lemma TupleReadsBack(env: Env, rel: Relation, t: Tuple)
    requires EnvOk(env) && RelationOk(rel) && Fits(rel.desc, t)
    ensures RowBytes(env.codec, rel, t).Some? ==>
              env.codec.decode(FreshRowSchema(rel), RowBytes(env.codec, rel, t).value) == Some(RowValue(rel, t))
    ensures KeyBytes(env.codec, rel, t).Some? ==>
              ReadNullable(env.codec, FreshKeySchema(rel), KeyBytes(env.codec, rel, t).value) == Ok(KeyValue(rel, t))
  {
    RowConforms(rel.nsName, rel.name, rel.desc, t);
    if KeyIndex(rel).Some? {
      var i := KeyIndex(rel).value;
      KeyConforms(i.nsName, i.name, i.desc, rel.desc, t, i.keys);
    }
  }

  /** Two keys have the same bytes exactly when they are the same key. */
  lemma KeyBytesExact(c: Codec, rel: Relation, a: Tuple, b: Tuple)
    requires Lossless(c) && RelationOk(rel) && Fits(rel.desc, a) && Fits(rel.desc, b)
    requires KeyBytes(c, rel, a).Some? && KeyBytes(c, rel, b).Some?
    ensures KeyBytes(c, rel, a) == KeyBytes(c, rel, b) <==> KeyValue(rel, a) == KeyValue(rel, b)
  {
    if KeyIndex(rel).Some? {
      var i := KeyIndex(rel).value;
      KeyConforms(i.nsName, i.name, i.desc, rel.desc, a, i.keys);
      KeyConforms(i.nsName, i.name, i.desc, rel.desc, b, i.keys);
      EncodeInjective(c, FreshKeySchema(rel).value, KeyValue(rel, a).value, KeyValue(rel, b).value);
    }
  }

  /** The record sent for a key and a row (or a tombstone) of the table. */
  lemma SendsRecord(env: Env, client: SchemaList, tables: Tables, rel: Relation, t: Tuple, live: bool)
    requires EnvOk(env) && RelationOk(rel) && Fits(rel.desc, t) && Knows(env, client, tables, rel)
    requires KeyBytes(env.codec, rel, t).Some? && RowBytes(env.codec, rel, t).Some?
    ensures SendOne(tables, rel.relid, KeyBytes(env.codec, rel, t).value, if live then RowBytes(env.codec, rel, t) else None)
            == Ok((tables, [RecordFor(env, rel, KeyValue(rel, t), if live then Some(RowValue(rel, t)) else None)]))
  {
  }

  lemma InsertStep(env: Env, client: SchemaList, tables: Tables, rel: Relation, n: Tuple)
    requires EnvOk(env) && RelationOk(rel) && Fits(rel.desc, n) && Knows(env, client, tables, rel)
    requires KeyBytes(env.codec, rel, n).Some? && RowBytes(env.codec, rel, n).Some?
    ensures var k, b := KeyBytes(env.codec, rel, n).value, RowBytes(env.codec, rel, n).value;
            var cb := OnInsertRow(rel.relid, k, KeyValue(rel, n), b, RowValue(rel, n));
            && Handle(env.codec, client, Insert(rel.relid, k, b)) == Ok((client, cb))
            && Produce(env, tables, cb)
               == Ok((tables, [RecordFor(env, rel, KeyValue(rel, n), Some(RowValue(rel, n)))]))
  {
    TupleReadsBack(env, rel, n);
    SendsRecord(env, client, tables, rel, n, true);
  }

  lemma DeleteStep(env: Env, client: SchemaList, tables: Tables, rel: Relation, o: Tuple)
    requires EnvOk(env) && RelationOk(rel) && Fits(rel.desc, o) && Knows(env, client, tables, rel)
    requires KeyBytes(env.codec, rel, o).Some? && RowBytes(env.codec, rel, o).Some?
    ensures var k, b := KeyBytes(env.codec, rel, o).value, RowBytes(env.codec, rel, o);
            var cb := OnDeleteRow(rel.relid, k, KeyValue(rel, o), b, Some(RowValue(rel, o)));
            && Handle(env.codec, client, Delete(rel.relid, k, b)) == Ok((client, cb))
            && Produce(env, tables, cb)
               == Ok((tables, if KeyIndex(rel).None? then [] else [RecordFor(env, rel, KeyValue(rel, o), None)]))
  {
    TupleReadsBack(env, rel, o);
    SendsRecord(env, client, tables, rel, o, false);
  }

  lemma UpdateHandled(env: Env, client: SchemaList, tables: Tables, rel: Relation, o: Option<Tuple>, n: Tuple)
    requires EnvOk(env) && RelationOk(rel) && ChangeOk(rel, Updated(o, n)) && Knows(env, client, tables, rel)
    requires KeyBytes(env.codec, rel, n).Some? && RowBytes(env.codec, rel, n).Some?
    requires o.Some? ==> RowBytes(env.codec, rel, o.value).Some?
    ensures var k, b := KeyBytes(env.codec, rel, n).value, RowBytes(env.codec, rel, n).value;
            var ob := if o.None? then None else RowBytes(env.codec, rel, o.value);
            Handle(env.codec, client, Update(rel.relid, k, ob, b))
            == Ok((client, OnUpdateRow(rel.relid, k, KeyValue(rel, n), ob,
                                       if o.None? then None else Some(RowValue(rel, o.value)), b, RowValue(rel, n))))
  {
    TupleReadsBack(env, rel, n);
    if o.Some? { TupleReadsBack(env, rel, o.value); }
  }

  lemma UpdateStep(env: Env, client: SchemaList, tables: Tables, rel: Relation, o: Option<Tuple>, n: Tuple)
    requires EnvOk(env) && RelationOk(rel) && ChangeOk(rel, Updated(o, n)) && Knows(env, client, tables, rel)
    requires KeyBytes(env.codec, rel, n).Some? && RowBytes(env.codec, rel, n).Some?
    requires o.Some? ==> RowBytes(env.codec, rel, o.value).Some?
    ensures var k, b := KeyBytes(env.codec, rel, n).value, RowBytes(env.codec, rel, n).value;
            var ob := if o.None? then None else RowBytes(env.codec, rel, o.value);
            var h := Handle(env.codec, client, Update(rel.relid, k, ob, b));
            && h.Ok? && h.value.0 == client
            && Produce(env, tables, h.value.1)
               == Ok((tables, [RecordFor(env, rel, KeyValue(rel, n), Some(RowValue(rel, n)))]))
  {
    UpdateHandled(env, client, tables, rel, o, n);
    SendsRecord(env, client, tables, rel, n, true);
  }

  /** What the client hands to the producer for a change. */
  ghost predicate RowsHandled(env: Env, client: SchemaList, tables: Tables, rel: Relation, ch: Change, rows: seq<Msg>)
    requires RelationOk(rel) && ChangeOk(rel, ch)
  {
    && HandleAll(env.codec, client, rows).Ok?
    && HandleAll(env.codec, client, rows).value.0 == client
    && ProduceAll(env, tables, HandleAll(env.codec, client, rows).value.1) == Ok((tables, Meaning(env, rel, ch)))
  }

  lemma OneRowHandled(env: Env, client: SchemaList, tables: Tables, rel: Relation, ch: Change, m: Msg)
    requires RelationOk(rel) && ChangeOk(rel, ch)
    requires Handle(env.codec, client, m).Ok? && Handle(env.codec, client, m).value.0 == client
    requires Produce(env, tables, Handle(env.codec, client, m).value.1) == Ok((tables, Meaning(env, rel, ch)))
    ensures RowsHandled(env, client, tables, rel, ch, [m])
  {
    HandleSingle(env.codec, client, m);
    ProduceSingle(env, tables, Handle(env.codec, client, m).value.1);
  }

  lemma TwoRowsHandled(env: Env, client: SchemaList, tables: Tables, rel: Relation, ch: Change, d: Msg, i: Msg)
    requires RelationOk(rel) && ChangeOk(rel, ch)
    requires Handle(env.codec, client, d).Ok? && Handle(env.codec, client, d).value.0 == client
    requires Handle(env.codec, client, i).Ok? && Handle(env.codec, client, i).value.0 == client
    requires var pd, pi := Produce(env, tables, Handle(env.codec, client, d).value.1),
                           Produce(env, tables, Handle(env.codec, client, i).value.1);
             pd.Ok? && pi.Ok? && pd.value.0 == tables && pi.value.0 == tables
             && pd.value.1 + pi.value.1 == Meaning(env, rel, ch)
    ensures RowsHandled(env, client, tables, rel, ch, [d, i])
  {
    var cd, ci := Handle(env.codec, client, d).value.1, Handle(env.codec, client, i).value.1;
    HandleSingle(env.codec, client, d);
    HandleSingle(env.codec, client, i);
    HandleConcat(env.codec, client, [d], [i]);
    assert [d] + [i] == [d, i];
    ProduceSingle(env, tables, cd);
    ProduceSingle(env, tables, ci);
    ProduceConcat(env, tables, [cd], [ci]);
  }

  lemma UpdatedRowsHandled(env: Env, client: SchemaList, tables: Tables, rel: Relation, o: Option<Tuple>, n: Tuple)
    requires EnvOk(env) && RelationOk(rel) && ChangeOk(rel, Updated(o, n)) && Knows(env, client, tables, rel)
    requires RowMsgs(env.codec, rel, Updated(o, n)).Some?
    ensures RowsHandled(env, client, tables, rel, Updated(o, n), RowMsgs(env.codec, rel, Updated(o, n)).value)
  {
    var ch := Updated(o, n);
    var rows := RowMsgs(env.codec, rel, ch).value;
    if o.Some? { KeyBytesExact(env.codec, rel, o.value, n); }
    if |rows| == 2 {
      DeleteStep(env, client, tables, rel, o.value);
      InsertStep(env, client, tables, rel, n);
      TwoRowsHandled(env, client, tables, rel, ch, rows[0], rows[1]);
      assert rows == [rows[0], rows[1]];
    } else {
      UpdateStep(env, client, tables, rel, o, n);
      assert Meaning(env, rel, ch) == [RecordFor(env, rel, KeyValue(rel, n), Some(RowValue(rel, n)))];
      OneRowHandled(env, client, tables, rel, ch, rows[0]);
      assert rows == [rows[0]];
    }
  }

  /** Once a table is known, every change to it reaches Kafka as what it means. */
  lemma RowsReachKafka(env: Env, client: SchemaList, tables: Tables, rel: Relation, ch: Change)
    requires EnvOk(env) && RelationOk(rel) && ChangeOk(rel, ch) && Knows(env, client, tables, rel)
    requires RowMsgs(env.codec, rel, ch).Some?
    ensures RowsHandled(env, client, tables, rel, ch, RowMsgs(env.codec, rel, ch).value)
  {
    var rows := RowMsgs(env.codec, rel, ch).value;
    match ch
    case Inserted(n) =>
      InsertStep(env, client, tables, rel, n);
      OneRowHandled(env, client, tables, rel, ch, rows[0]);
    case Updated(o, n) => UpdatedRowsHandled(env, client, tables, rel, o, n);
    case Deleted(o) =>
      if o.Some? { DeleteStep(env, client, tables, rel, o.value); }
      OneRowHandled(env, client, tables, rel, ch, rows[0]);
  }

  // ---- Announcing a table

  lemma CacheUpdated(entries: Entries, rel: Relation)
    requires CacheOk(entries)
    ensures CacheOk(entries[rel.relid := EntryFor(rel)])
  {
  }

  /** Knowing one more table, and the others as before, all three still agree. */
  lemma StillAgrees(env: Env, f: Flow, rel: Relation, client: SchemaList, tables: Tables)
    requires Agreed(env, f) && Knows(env, client, tables, rel) && TablesOk(env, tables)
    requires EntryGood(env, EntryFor(rel)) && Welcome(env, rel)
    requires forall r: Oid :: r != rel.relid ==> EntryOf(client, r) == EntryOf(f.client, r)
    requires forall r: Oid :: r != rel.relid ==> MetaOf(tables, r) == MetaOf(f.tables, r)
    ensures Agreed(env, Flow(f.server[rel.relid := EntryFor(rel)], client, tables, f.log))
  {
    CacheUpdated(f.server, rel);
    var f' := Flow(f.server[rel.relid := EntryFor(rel)], client, tables, f.log);
    forall r | r in f'.server
      ensures AgreeOn(env, f', r)
    {
      if r != rel.relid { assert AgreeOn(env, f, r); }
    }
  }

  /** The mapper's answer to the announcement. */
  function Registered(env: Env, f: Flow, rel: Relation): Result<Tables, int> {
    var e := EntryFor(rel);
    UpdateTables(env, f.tables, rel.relid, rel.name, KeyJson(env.codec, e), env.codec.toJson(e.rowSchema))
  }

  /** What the library makes of the schemas of a table. */
  lemma FreshRead(env: Env, rel: Relation)
    requires EnvOk(env)
    ensures var s := FreshRowSchema(rel); env.codec.fromJson(env.codec.toJson(s)) == if NamesOk(s) then Some(s) else None
    ensures FreshKeySchema(rel).Some? ==>
              var s := FreshKeySchema(rel).value;
              env.codec.fromJson(env.codec.toJson(s)) == if NamesOk(s) then Some(s) else None
  {
  }

  /** The mapper refuses a well-named table exactly if Kafka or the registry does. */
  lemma RegisteredIff(env: Env, f: Flow, rel: Relation)
    requires EnvOk(env) && Agreed(env, f) && WellNamed(rel)
    ensures Registered(env, f, rel).Ok? <==> Welcome(env, rel)
  {
    FreshRead(env, rel);
    UpdateMetaOkIff(env, Previous(f.tables, rel.relid), rel.name, KeyJson(env.codec, EntryFor(rel)), env.codec.toJson(FreshRowSchema(rel)));
  }

  function ClientAfter(f: Flow, rel: Relation): SchemaList {
    Put(f.client, SchemaEntry(rel.relid, FreshKeySchema(rel), FreshRowSchema(rel)))
  }

  /** The client's list and the mapper's tables, once they know the table. */
  lemma AnnouncedAgrees(env: Env, f: Flow, rel: Relation)
    requires EnvOk(env) && Agreed(env, f) && WellNamed(rel) && Registered(env, f, rel).Ok?
    ensures Knows(env, ClientAfter(f, rel), Registered(env, f, rel).value, rel)
    ensures EntryGood(env, EntryFor(rel)) && Welcome(env, rel)
    ensures Agreed(env, Flow(f.server[rel.relid := EntryFor(rel)], ClientAfter(f, rel), Registered(env, f, rel).value, f.log))
  {
    var e := EntryFor(rel);
    var entry := SchemaEntry(rel.relid, e.keySchema, e.rowSchema);
    forall r: Oid
      ensures EntryOf(ClientAfter(f, rel), r) == if r == rel.relid then Some(entry) else EntryOf(f.client, r)
    {
      PutThenFind(f.client, entry, r);
    }
    UpdateTablesExact(env, f.tables, rel.relid, rel.name, KeyJson(env.codec, e), env.codec.toJson(e.rowSchema));
    RegisteredIff(env, f, rel);
    StillAgrees(env, f, rel, ClientAfter(f, rel), Registered(env, f, rel).value);
  }

  function SchemaCall(c: Codec, rel: Relation): Callback {
    OnTableSchema(rel.relid, KeyJson(c, EntryFor(rel)), c.toJson(FreshRowSchema(rel)), FreshRowSchema(rel))
  }

  /** The client takes an announcement if and only if the names in its schemas are in order. */
  lemma AnnouncementRead(env: Env, f: Flow, rel: Relation)
    requires EnvOk(env) && SchemaMsg(env.codec, EntryFor(rel)).Some?
    ensures Handle(env.codec, f.client, SchemaMsg(env.codec, EntryFor(rel)).value)
            == if WellNamed(rel) then Ok((ClientAfter(f, rel), SchemaCall(env.codec, rel))) else Err(EINVAL)
  {
    FreshRead(env, rel);
  }

  lemma AnnouncementProduced(env: Env, f: Flow, rel: Relation)
    ensures Produce(env, f.tables, SchemaCall(env.codec, rel))
            == if Registered(env, f, rel).Err? then Err(MapperError(Registered(env, f, rel).error))
               else Ok((Registered(env, f, rel).value, []))
  {
  }

  // ---- One change

  lemma RowsFit64(env: Env, rel: Relation, ch: Change)
    requires RelationOk(rel) && ChangeOk(rel, ch) && RowMsgs(env.codec, rel, ch).Some?
    ensures forall i :: 0 <= i < |RowMsgs(env.codec, rel, ch).value| ==> Fits64(RowMsgs(env.codec, rel, ch).value[i])
  {
  }

  /** The client reads a frame as the messages it was built from. */
  lemma FrameRead(env: Env, f: Flow, rel: Relation, ch: Change)
    requires EnvOk(env) && RelationOk(rel) && ChangeOk(rel, ch) && FrameBytes(env.codec, f.server, rel, ch).Some?
    ensures FrameMsgs(env.codec, f.server, rel, ch).Some?
    ensures ReadFrame(env.codec, f.client, FrameBytes(env.codec, f.server, rel, ch).value)
            == HandleAll(env.codec, f.client, FrameMsgs(env.codec, f.server, rel, ch).value)
  {
    RowsFit64(env, rel, ch);
    WireRoundTrip(env.codec, f.client, FrameMsgs(env.codec, f.server, rel, ch).value);
  }

  /** One change, put together from what each side does with its frame. */
  lemma AdvanceIs(env: Env, f: Flow, rel: Relation, ch: Change)
    requires EnvOk(env) && RelationOk(rel) && ChangeOk(rel, ch) && FrameBytes(env.codec, f.server, rel, ch).Some?
    ensures FrameMsgs(env.codec, f.server, rel, ch).Some?
    ensures var h := HandleAll(env.codec, f.client, FrameMsgs(env.codec, f.server, rel, ch).value);
            Advance(env, f, RowChange(rel, ch)) ==
            if h.Err? then Err(ClientError(h.error))
            else
              var p := ProduceAll(env, f.tables, h.value.1);
              if p.Err? then Err(p.error)
              else Ok(Flow(f.server[rel.relid := EntryFor(rel)], h.value.0, p.value.0, f.log + p.value.1))
  {
    FrameRead(env, f, rel, ch);
  }

  /** A change to a table the client already has. */
  lemma KnownTableStep(env: Env, f: Flow, rel: Relation, ch: Change)
    requires EnvOk(env) && Agreed(env, f) && RelationOk(rel) && ChangeOk(rel, ch)
    requires UpToDate(f.server, rel) && FrameBytes(env.codec, f.server, rel, ch).Some?
    ensures Advance(env, f, RowChange(rel, ch)) == Ok(f.(log := f.log + Meaning(env, rel, ch)))
  {
    assert Knows(env, f.client, f.tables, rel) by { assert AgreeOn(env, f, rel.relid); }
    RowsReachKafka(env, f.client, f.tables, rel, ch);
    AdvanceIs(env, f, rel, ch);
    UpdateSame(f.server, rel.relid, EntryFor(rel));
  }

  /** Whether the client can read a table's rows does not depend on the mapper. */
  lemma ClientReadsRows(env: Env, client: SchemaList, rel: Relation, ch: Change)
    requires EnvOk(env) && RelationOk(rel) && ChangeOk(rel, ch) && RowMsgs(env.codec, rel, ch).Some?
    requires EntryOf(client, rel.relid) == Some(SchemaEntry(rel.relid, FreshKeySchema(rel), FreshRowSchema(rel)))
    ensures var h := HandleAll(env.codec, client, RowMsgs(env.codec, rel, ch).value); h.Ok? && h.value.0 == client
  {
    var e := EntryFor(rel);
    var m := Announced(env, rel.relid, rel.name, KeyJson(env.codec, e), env.codec.toJson(e.rowSchema));
    FindAt([m], 0);
    RowsReachKafka(env, client, [m], rel, ch);
  }

  /** The messages of a frame that announces its table: the announcement, then the rows. */
  lemma NewTableHandled(c: Codec, list: SchemaList, m: Msg, rows: seq<Msg>)
    ensures var h := Handle(c, list, m);
            && (h.Err? ==> HandleAll(c, list, [m] + rows) == Err(h.error))
            && (h.Ok? && HandleAll(c, h.value.0, rows).Ok? ==>
                  HandleAll(c, list, [m] + rows)
                  == Ok((HandleAll(c, h.value.0, rows).value.0, [h.value.1] + HandleAll(c, h.value.0, rows).value.1)))
  {
    HandleSingle(c, list, m);
    if Handle(c, list, m).Ok? {
      HandleConcat(c, list, [m], rows);
    } else {
      HandleFails(c, list, [m], rows);
    }
  }

  /** What is produced for it: nothing if the mapper fails, otherwise what the rows mean. */
  lemma NewTableProduced(env: Env, f: Flow, cb: Callback, cbs: seq<Callback>)
    ensures var p := Produce(env, f.tables, cb);
            && (p.Err? ==> ProduceAll(env, f.tables, [cb] + cbs) == Err(p.error))
            && (p.Ok? && ProduceAll(env, p.value.0, cbs).Ok? ==>
                  ProduceAll(env, f.tables, [cb] + cbs)
                  == Ok((ProduceAll(env, p.value.0, cbs).value.0, p.value.1 + ProduceAll(env, p.value.0, cbs).value.1)))
  {
    ProduceSingle(env, f.tables, cb);
    if Produce(env, f.tables, cb).Ok? {
      ProduceConcat(env, f.tables, [cb], cbs);
    } else {
      ProduceFails(env, f.tables, [cb], cbs);
    }
  }

  /** A table whose names clash is not taken by the client. */
  lemma IllNamedStep(env: Env, f: Flow, rel: Relation, ch: Change)
    requires EnvOk(env) && RelationOk(rel) && ChangeOk(rel, ch)
    requires !UpToDate(f.server, rel) && FrameBytes(env.codec, f.server, rel, ch).Some? && !WellNamed(rel)
    ensures Advance(env, f, RowChange(rel, ch)) == Err(ClientError(EINVAL))
  {
    AdvanceIs(env, f, rel, ch);
    AnnouncementRead(env, f, rel);
    NewTableHandled(env.codec, f.client, SchemaMsg(env.codec, EntryFor(rel)).value, RowMsgs(env.codec, rel, ch).value);
  }

  /** A change to a table that has to be announced first: it fails exactly if the mapper does. */
  lemma NewTableStep(env: Env, f: Flow, rel: Relation, ch: Change)
    requires EnvOk(env) && Agreed(env, f) && RelationOk(rel) && ChangeOk(rel, ch)
    requires !UpToDate(f.server, rel) && FrameBytes(env.codec, f.server, rel, ch).Some? && WellNamed(rel)
    ensures var t := Registered(env, f, rel);
            Advance(env, f, RowChange(rel, ch)) ==
            if t.Err? then Err(MapperError(t.error))
            else Ok(Flow(f.server[rel.relid := EntryFor(rel)], ClientAfter(f, rel), t.value, f.log + Meaning(env, rel, ch)))
  {
    var c, rows := env.codec, RowMsgs(env.codec, rel, ch).value;
    var client, cb := ClientAfter(f, rel), SchemaCall(c, rel);
    AdvanceIs(env, f, rel, ch);
    AnnouncementRead(env, f, rel);
    AnnouncementProduced(env, f, rel);
    PutThenFind(f.client, SchemaEntry(rel.relid, FreshKeySchema(rel), FreshRowSchema(rel)), rel.relid);
    ClientReadsRows(env, client, rel, ch);
    NewTableHandled(c, f.client, SchemaMsg(c, EntryFor(rel)).value, rows);
    NewTableProduced(env, f, cb, HandleAll(c, client, rows).value.1);
    if Registered(env, f, rel).Ok? {
      AnnouncedAgrees(env, f, rel);
      RowsReachKafka(env, client, Registered(env, f, rel).value, rel, ch);
      EmptyConcat(Meaning(env, rel, ch));
    }
  }

  lemma {:induction false} HandleFails(c: Codec, list: SchemaList, a: seq<Msg>, b: seq<Msg>)
    requires HandleAll(c, list, a).Err?
    ensures HandleAll(c, list, a + b) == HandleAll(c, list, a)
    decreases |b|
  {
    if |b| == 0 {
      assert a + b == a;
    } else {
      assert (a + b)[..|a + b| - 1] == a + b[..|b|-1];
      HandleFails(c, list, a, b[..|b|-1]);
    }
  }

  lemma {:induction false} ProduceFails(env: Env, tables: Tables, a: seq<Callback>, b: seq<Callback>)
    requires ProduceAll(env, tables, a).Err?
    ensures ProduceAll(env, tables, a + b) == ProduceAll(env, tables, a)
    decreases |b|
  {
    if |b| == 0 {
      assert a + b == a;
    } else {
      assert (a + b)[..|a + b| - 1] == a + b[..|b|-1];
      ProduceFails(env, tables, a, b[..|b|-1]);
    }
  }

  /** Which tables those are: named like the enumeration of infinities, in the table or in its key. */
  lemma WellNamedIff(rel: Relation)
    ensures WellNamed(rel) <==>
              && !(rel.name == "SpecialTime" && UsesSpecialTime(rel.desc))
              && (KeyIndex(rel).Some? ==>
                    !(KeyIndex(rel).value.name == "SpecialTime" && UsesSpecialTime(KeyIndex(rel).value.desc)))
  {
    NamesOkIff(rel.nsName, rel.name, rel.desc);
    if KeyIndex(rel).Some? {
      NamesOkIff(KeyIndex(rel).value.nsName, KeyIndex(rel).value.name, KeyIndex(rel).value.desc);
    }
  }

  // ---- Whole runs

  lemma SameTablesAgree(env: Env, f: Flow, log: Log)
    requires Agreed(env, f)
    ensures Agreed(env, f.(log := log))
  {
    forall r | r in f.server
      ensures AgreeOn(env, f.(log := log), r)
    {
      assert AgreeOn(env, f, r);
    }
  }

  /** Only whether the cache is up to date matters for a frame. */
  lemma SendableFits(c: Codec, entries: Entries, rel: Relation, ch: Change)
    requires RelationOk(rel) && ChangeOk(rel, ch) && Sendable(c, rel, ch)
    ensures FrameBytes(c, entries, rel, ch).Some?
  {
  }

  /** An event leaves everything in agreement and the log with what it means, or explains the failure. */
  ghost predicate EventAgrees(env: Env, f: Flow, e: Event, r: Result<Flow, Failure>)
    requires EventOk(e)
  {
    if r.Ok? then
      && Agreed(env, r.value) && r.value.log == f.log + MeaningOf(env, e)
      && (e.RowChange? ==> EntryGood(env, EntryFor(e.rel)))
    else e.RowChange? && Cause(env, e.rel, e.ch, r.error)
  }

  lemma ChangeAgrees(env: Env, f: Flow, rel: Relation, ch: Change)
    requires EnvOk(env) && Agreed(env, f) && RelationOk(rel) && ChangeOk(rel, ch)
    ensures EventAgrees(env, f, RowChange(rel, ch), Advance(env, f, RowChange(rel, ch)))
  {
    if FrameBytes(env.codec, f.server, rel, ch).None? {
      if Sendable(env.codec, rel, ch) { SendableFits(env.codec, f.server, rel, ch); }
    } else if UpToDate(f.server, rel) {
      KnownTableStep(env, f, rel, ch);
      SameTablesAgree(env, f, f.log + Meaning(env, rel, ch));
      assert AgreeOn(env, f, rel.relid);
    } else if WellNamed(rel) {
      NewTableStep(env, f, rel, ch);
      if Registered(env, f, rel).Ok? {
        AnnouncedAgrees(env, f, rel);
        SameTablesAgree(env, Flow(f.server[rel.relid := EntryFor(rel)], ClientAfter(f, rel), Registered(env, f, rel).value, f.log),
                        f.log + Meaning(env, rel, ch));
      }
      RegisteredIff(env, f, rel);
    } else {
      IllNamedStep(env, f, rel, ch);
    }
  }

  lemma NewCacheAgrees(env: Env, f: Flow)
    requires Agreed(env, f)
    ensures EventAgrees(env, f, NewServerCache, Advance(env, f, NewServerCache))
  {
    EmptyConcat(f.log);
  }

  lemma ReconnectAgrees(env: Env, f: Flow)
    requires Agreed(env, f)
    ensures EventAgrees(env, f, Reconnect, Advance(env, f, Reconnect))
  {
    EmptyConcat(f.log);
  }

  lemma AdvanceAgrees(env: Env, f: Flow, e: Event)
    requires EnvOk(env) && Agreed(env, f) && EventOk(e)
    ensures EventAgrees(env, f, e, Advance(env, f, e))
  {
    match e
    case RowChange(rel, ch) => ChangeAgrees(env, f, rel, ch);
    case NewServerCache => NewCacheAgrees(env, f);
    case Reconnect => ReconnectAgrees(env, f);
  }

  /**
   Exactly when a change gets through: its frame is not too long, given what the cache has,
   the names in its table's schemas do not clash, and neither Kafka nor the registry refuses
   the table.
   */
  lemma ChangePassesIff(env: Env, f: Flow, rel: Relation, ch: Change)
    requires EnvOk(env) && Agreed(env, f) && RelationOk(rel) && ChangeOk(rel, ch)
    ensures Advance(env, f, RowChange(rel, ch)).Ok? <==>
              FrameBytes(env.codec, f.server, rel, ch).Some? && WellNamed(rel) && Welcome(env, rel)
  {
    if FrameBytes(env.codec, f.server, rel, ch).Some? {
      if UpToDate(f.server, rel) {
        KnownTableStep(env, f, rel, ch);
        assert AgreeOn(env, f, rel.relid);
      } else if WellNamed(rel) {
        NewTableStep(env, f, rel, ch);
        RegisteredIff(env, f, rel);
      } else {
        IllNamedStep(env, f, rel, ch);
      }
    }
  }

  function MeaningOf(env: Env, e: Event): Log
    requires EventOk(e)
  {
    if e.RowChange? then Meaning(env, e.rel, e.ch) else []
  }

  function MeaningAll(env: Env, events: seq<Event>): Log
    requires EventsOk(events)
  {
    if |events| == 0 then [] else MeaningAll(env, events[..|events|-1]) + MeaningOf(env, events[|events|-1])
  }

  /**
   Over every run, with any changes to the catalog, any switch to a fresh server cache and
   any reconnection between events: the three caches agree after every event, no row meets
   an unknown table or a wrong schema at the client or the mapper, the registry has taken
   every schema in use, and what reaches Kafka is exactly what the changes mean, each record
   under the ids of the schemas its bytes were encoded with. A run ends early only at a
   change that explains it: something in it is too long, the names in its table's schemas
   clash, or the registry or Kafka refuses the table.
   */
  lemma {:induction false} RunAgrees(env: Env, events: seq<Event>)
    requires EnvOk(env) && EventsOk(events)
    ensures var r := Run(env, events);
            if r.Ok? then
              Agreed(env, r.value) && r.value.log == MeaningAll(env, events) && AllRegistered(env, events)
            else Explained(env, events, r.error)
  {
    if |events| > 0 {
      var n := |events| - 1;
      var before := events[..n];
      assert EventsOk(before);
      RunAgrees(env, before);
      if Run(env, before).Ok? {
        AdvanceAgrees(env, Run(env, before).value, events[n]);
      } else {
        var i :| 0 <= i < n && before[i].RowChange? && Cause(env, before[i].rel, before[i].ch, Run(env, before).error);
        assert before[i] == events[i];
      }
    }
  }

  /** So a run whose changes have no such flaw does not end early. */
  lemma PassableRunSucceeds(env: Env, events: seq<Event>)
    requires EnvOk(env) && EventsOk(events) && AllPassable(env, events)
    ensures Run(env, events).Ok?
  {
    RunAgrees(env, events);
  }

  /** No cache and no earlier run can get the change through. */
  predicate Blocked(env: Env, rel: Relation, ch: Change)
    requires RelationOk(rel) && ChangeOk(rel, ch)
  {
    || !WellNamed(rel) || !Welcome(env, rel)
    || (FrameBytes(env.codec, map[], rel, ch).None? && FrameBytes(env.codec, map[rel.relid := EntryFor(rel)], rel, ch).None?)
  }

  /** Such a change ends every run that comes to it, however often it is tried again. */
  lemma BlockedForever(env: Env, earlier: seq<Event>, rel: Relation, ch: Change)
    requires EnvOk(env) && EventsOk(earlier) && RelationOk(rel) && ChangeOk(rel, ch) && Blocked(env, rel, ch)
    ensures EventsOk(earlier + [RowChange(rel, ch)]) && Run(env, earlier + [RowChange(rel, ch)]).Err?
  {
    ConcatTake(earlier, [RowChange(rel, ch)]);
    EventsSnoc(earlier, RowChange(rel, ch));
    if Run(env, earlier).Ok? {
      assert Agreed(env, Run(env, earlier).value) by { RunAgrees(env, earlier); }
      BlockedStep(env, Run(env, earlier).value, rel, ch);
    }
  }

  lemma EventsSnoc(earlier: seq<Event>, e: Event)
    requires EventsOk(earlier) && EventOk(e)
    ensures EventsOk(earlier + [e])
  {
  }

  lemma BlockedStep(env: Env, f: Flow, rel: Relation, ch: Change)
    requires EnvOk(env) && Agreed(env, f) && RelationOk(rel) && ChangeOk(rel, ch) && Blocked(env, rel, ch)
    ensures Advance(env, f, RowChange(rel, ch)).Err?
  {
    ChangePassesIff(env, f, rel, ch);
    if FrameBytes(env.codec, f.server, rel, ch).Some? { FitsSomewhere(env.codec, f.server, rel, ch); }
  }

  /** A frame that fits with some cache fits with an empty or with an up-to-date one. */
  lemma FitsSomewhere(c: Codec, entries: Entries, rel: Relation, ch: Change)
    requires RelationOk(rel) && ChangeOk(rel, ch) && FrameBytes(c, entries, rel, ch).Some?
    ensures FrameBytes(c, map[], rel, ch).Some? || FrameBytes(c, map[rel.relid := EntryFor(rel)], rel, ch).Some?
  {
  }

  /**
   What a consumer does with a message: whatever text it finds under the id reads as the
   schema, and with that schema the rest decodes to the value.
   */
  ghost predicate ReadsAs(env: Env, msg: Bytes, s: Schema, v: Value) {
    && env.registry.Registry? && SplitPrefix(msg).Some?
    && var id := SplitPrefix(msg).value.0;
    && (exists j :: j in env.registry.texts && env.registry.assign(j) == id)
    && (forall j :: j in env.registry.texts && env.registry.assign(j) == id ==> env.codec.fromJson(j) == Some(s))
    && env.codec.decode(s, SplitPrefix(msg).value.1) == Some(v)
  }

  lemma MessageReadsBack(env: Env, s: Schema, v: Value)
    requires EnvOk(env) && env.registry.Registry? && Inhabits(s, v)
    requires env.codec.toJson(s) in env.registry.texts && env.codec.fromJson(env.codec.toJson(s)) == Some(s)
    ensures ReadsAs(env, AddSchemaPrefix(IdOf(env, Some(env.codec.toJson(s))), Some(env.codec.encode(s, v))).value, s, v)
  {
    var j := env.codec.toJson(s);
    PrefixRoundTrip(IdOf(env, Some(j)), env.codec.encode(s, v));
    assert j in env.registry.texts && env.registry.assign(j) == IdOf(env, Some(j));
  }

  /**
   A consumer that looks up the id of a record finds the schema the data was encoded with,
   and decodes the table's own values.
   */
  lemma RecordReadsBack(env: Env, rel: Relation, t: Tuple)
    requires EnvOk(env) && env.registry.Registry? && RelationOk(rel) && Fits(rel.desc, t) && EntryGood(env, EntryFor(rel))
    ensures var r := RecordFor(env, rel, KeyValue(rel, t), Some(RowValue(rel, t)));
            && r.val.Some? && ReadsAs(env, r.val.value, FreshRowSchema(rel), RowValue(rel, t))
            && (KeyIndex(rel).Some? ==>
                  r.key.Some? && ReadsAs(env, r.key.value, FreshKeySchema(rel).value, KeyValue(rel, t).value))
            && (KeyIndex(rel).None? ==> r.key.None?)
  {
    RowConforms(rel.nsName, rel.name, rel.desc, t);
    FreshRead(env, rel);
    MessageReadsBack(env, FreshRowSchema(rel), RowValue(rel, t));
    if KeyIndex(rel).Some? {
      var i := KeyIndex(rel).value;
      KeyConforms(i.nsName, i.name, i.desc, rel.desc, t, i.keys);
      MessageReadsBack(env, FreshKeySchema(rel).value, KeyValue(rel, t).value);
    }
  }
}
