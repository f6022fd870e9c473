/**
 Row changes become frames on the server (ext/protocol_server.c, ext/logdecoder.c).
 Each change is one frame: the table's schema if the client may not have it, then the row
 messages. An update that changes the key becomes a delete and an insert.
 */
module Server {
  import opened Basics
  import opened AvroModel
  import opened Conversion
  import opened Rows
  import opened SchemaCaching
  import opened RetryingWriter
  import opened Frames

  /** A row-level change, as logical decoding reports it. */
  datatype Change = Inserted(newTuple: Tuple) | Updated(oldTuple: Option<Tuple>, newTuple: Tuple) | Deleted(oldTuple: Option<Tuple>)

  /** The key index is made of the table's live columns. */
  predicate RelationOk(rel: Relation) {
    KeyIndex(rel).Some? ==> IndexFits(rel.desc, KeyIndex(rel).value.keys, KeyIndex(rel).value.desc)
  }

  predicate ChangeOk(rel: Relation, ch: Change) {
    match ch
    case Inserted(n) => Fits(rel.desc, n)
    case Updated(o, n) => (o.Some? ==> Fits(rel.desc, o.value)) && Fits(rel.desc, n)
    case Deleted(o) => o.Some? ==> Fits(rel.desc, o.value)
  }

  // ---- What a change is encoded as

  function RowValue(rel: Relation, tuple: Tuple): Value
    requires Fits(rel.desc, tuple)
  {
    VRecord(LiveValues(rel.desc, tuple))
  }

  function KeyValue(rel: Relation, tuple: Tuple): Option<Value>
    requires RelationOk(rel) && Fits(rel.desc, tuple)
  {
    if KeyIndex(rel).None? then None
    else Some(VRecord(KeyValues(rel.desc, tuple, KeyIndex(rel).value.keys)))
  }

  function RowBytes(c: Codec, rel: Relation, tuple: Tuple): Option<Bytes>
    requires Fits(rel.desc, tuple)
  {
    Written(c.encode(FreshRowSchema(rel), RowValue(rel, tuple)))
  }

  /** None when the key is too long; Some(None) when the table has no key. */
  function KeyBytes(c: Codec, rel: Relation, tuple: Tuple): Option<Option<Bytes>>
    requires RelationOk(rel) && Fits(rel.desc, tuple)
  {
    if KeyIndex(rel).None? then Some(None)
    else
      var w := Written(c.encode(FreshKeySchema(rel).value, KeyValue(rel, tuple).value));
      if w.None? then None else Some(w)
  }

  function RowMsgs(c: Codec, rel: Relation, ch: Change): Option<seq<Msg>>
    requires RelationOk(rel) && ChangeOk(rel, ch)
  {
    match ch
    case Inserted(n) =>
      var k, b := KeyBytes(c, rel, n), RowBytes(c, rel, n);
      if k.None? || b.None? then None else Some([Insert(rel.relid, k.value, b.value)])
    case Updated(o, n) =>
      var ok := if o.None? then Some(None) else KeyBytes(c, rel, o.value);
      var ob := if o.None? then Some([]) else RowBytes(c, rel, o.value);
      var k, b := KeyBytes(c, rel, n), RowBytes(c, rel, n);
      if ok.None? || ob.None? || k.None? || b.None? then None
      else
        var oldRow := if o.None? then None else ob;
        if ok.value.Some? && ok.value != k.value then
          Some([Delete(rel.relid, ok.value, oldRow), Insert(rel.relid, k.value, b.value)])
        else Some([Update(rel.relid, k.value, oldRow, b.value)])
    case Deleted(o) =>
      if o.None? then Some([Delete(rel.relid, None, None)])
      else
        var k, b := KeyBytes(c, rel, o.value), RowBytes(c, rel, o.value);
        if k.None? || b.None? then None else Some([Delete(rel.relid, k.value, b)])
  }

  predicate TextFits(json: string) {
    |json| + 1 <= 1048576 - VARHDRSZ
  }

  function SchemaMsg(c: Codec, e: Entry): Option<Msg> {
    var row := c.toJson(e.rowSchema);
    var key := if e.keySchema.None? then None else Some(c.toJson(e.keySchema.value));
    if TextFits(row) && (key.Some? ==> TextFits(key.value)) then Some(TableSchema(e.relid, key, row)) else None
  }

  /** The messages of a frame; None when something in it is too long to be written. */
  function FrameMsgs(c: Codec, entries: Entries, rel: Relation, ch: Change): Option<seq<Msg>>
    requires RelationOk(rel) && ChangeOk(rel, ch)
  {
    WithSchema(c, entries, rel, RowMsgs(c, rel, ch))
  }

  /** The frame's bytes; None when it is too long as a whole. */
  function FrameBytes(c: Codec, entries: Entries, rel: Relation, ch: Change): Option<Bytes>
    requires RelationOk(rel) && ChangeOk(rel, ch)
  {
    var ms := FrameMsgs(c, entries, rel, ch);
    if ms.None? then None else Written(c.encode(FRAME_SCHEMA, FrameValue(ms.value)))
  }

  /** The row messages, after the table's schema if that has to be announced. */
  function WithSchema(c: Codec, entries: Entries, rel: Relation, rows: Option<seq<Msg>>): Option<seq<Msg>> {
    if UpToDate(entries, rel) then rows
    else
      var schema := SchemaMsg(c, EntryFor(rel));
      if schema.None? || rows.None? then None else Some([schema.value] + rows.value)
  }

  /** What a frame holds once the schema, if it is needed, and then the rows have been appended. */
  lemma BuildWithSchema(c: Codec, entries: Entries, rel: Relation, rows: seq<Msg>, before: seq<Value>, begun: seq<Value>)
    requires WithSchema(c, entries, rel, Some(rows)).Some?
    requires begun == if UpToDate(entries, rel) then before else before + [Build(SchemaMsg(c, EntryFor(rel)).value)]
    ensures begun + BuildAll(rows) == before + BuildAll(WithSchema(c, entries, rel, Some(rows)).value)
  {
    if !UpToDate(entries, rel) {
      var schema := SchemaMsg(c, EntryFor(rel)).value;
      assert BuildAll([schema] + rows) == [Build(schema)] + BuildAll(rows);
      ConcatAssoc(before, [Build(schema)], BuildAll(rows));
    }
  }

  // ---- The server's procedures

  method WriteBinary(bytes: Bytes) returns (r: Option<Bytes>)
    ensures r == Written(bytes)
  {
    var err, output, length := TryWriting(Produces(bytes));
    if err != 0 { return None; }
    r := Some(output[..length]);
  }

  method ExtractTupleKey(c: Codec, e: Entry, rel: Relation, tupDesc: TupleDesc, tuple: Tuple,
                         ghost row: Tuple, ghost keep: seq<bool>) returns (r: Option<Option<Bytes>>)
    requires e == EntryFor(rel) && RelationOk(rel) && Fits(rel.desc, row) && Layout(rel.desc, keep)
    requires tupDesc == Keep(rel.desc, keep) && tuple == Keep(row, keep)
    ensures r == KeyBytes(c, rel, row)
  {
    if e.keySchema.None? { return Some(None); }
    var index := TableKeyIndex(rel);
    var values := TupleToAvroKey(rel.desc, tupDesc, tuple, index.value.keys, row, keep);
    if values.Err? { return None; }
    var w := WriteBinary(c.encode(e.keySchema.value, VRecord(values.value)));
    if w.None? { return None; }
    r := Some(w);
  }

  method EncodeRow(c: Codec, e: Entry, rel: Relation, tupDesc: TupleDesc, tuple: Tuple,
                   ghost row: Tuple, ghost keep: seq<bool>) returns (r: Option<Bytes>)
    requires e == EntryFor(rel) && Fits(rel.desc, row) && Layout(rel.desc, keep)
    requires tupDesc == Keep(rel.desc, keep) && tuple == Keep(row, keep)
    ensures r == RowBytes(c, rel, row)
  {
    LayoutIrrelevant(rel.desc, row, keep);
    var values := TupleToAvroRow(|e.rowSchema.fields|, tupDesc, tuple);
    if values.Err? { return None; }
    r := WriteBinary(c.encode(e.rowSchema, VRecord(values.value)));
  }

  method UpdateFrameWithTableSchema(frame: Frame, c: Codec, e: Entry) returns (ok: bool)
    modifies frame
    ensures ok <==> SchemaMsg(c, e).Some?
    ensures ok ==> frame.items == old(frame.items) + [Build(SchemaMsg(c, e).value)]
  {
    var key := None;
    if e.keySchema.Some? {
      key := Some(c.toJson(e.keySchema.value));
      if !TextFits(key.value) { return false; }
    }
    var row := c.toJson(e.rowSchema);
    if !TextFits(row) { return false; }
    frame.Append(TableSchema(e.relid, key, row));
    ok := true;
  }

  /** Looks the table up, and announces its schema unless the client has it. */
  method BeginFrame(frame: Frame, cache: SchemaCache, c: Codec, rel: Relation) returns (ok: bool, e: Entry)
    requires cache.Valid()
    modifies frame, cache
    ensures cache.Valid() && e == EntryFor(rel) && cache.entries == old(cache.entries)[rel.relid := e]
    ensures ok <==> UpToDate(old(cache.entries), rel) || SchemaMsg(c, e).Some?
    ensures ok && UpToDate(old(cache.entries), rel) ==> frame.items == old(frame.items)
    ensures ok && !UpToDate(old(cache.entries), rel) ==> frame.items == old(frame.items) + [Build(SchemaMsg(c, e).value)]
  {
    var code;
    code, e := cache.Lookup(rel);
    ok := true;
    if code != 0 {
      ok := UpdateFrameWithTableSchema(frame, c, e);
    }
  }

  /** The frame grew by exactly these messages, and the cache now matches the catalog. */
  twostate predicate FrameGrew(frame: Frame, cache: SchemaCache, c: Codec, rel: Relation, ch: Change, ok: bool)
    requires RelationOk(rel) && ChangeOk(rel, ch)
    reads frame, cache
  {
    var ms := FrameMsgs(c, old(cache.entries), rel, ch);
    && cache.entries == old(cache.entries)[rel.relid := EntryFor(rel)]
    && (ok <==> ms.Some?)
    && (ok ==> frame.items == old(frame.items) + BuildAll(ms.value))
  }

  method InsertRowMsgs(c: Codec, e: Entry, rel: Relation, tupDesc: TupleDesc, tuple: Tuple,
                       ghost row: Tuple, ghost keep: seq<bool>) returns (ms: Option<seq<Msg>>)
    requires e == EntryFor(rel) && RelationOk(rel) && Fits(rel.desc, row) && Layout(rel.desc, keep)
    requires tupDesc == Keep(rel.desc, keep) && tuple == Keep(row, keep)
    ensures ms == RowMsgs(c, rel, Inserted(row))
  {
    var key := ExtractTupleKey(c, e, rel, tupDesc, tuple, row, keep);
    if key.None? { return None; }
    var newRow := EncodeRow(c, e, rel, tupDesc, tuple, row, keep);
    if newRow.None? { return None; }
    ms := Some([Insert(rel.relid, key.value, newRow.value)]);
  }

  method UpdateFrameWithInsert(frame: Frame, cache: SchemaCache, c: Codec, rel: Relation, tupDesc: TupleDesc, tuple: Tuple,
                               ghost row: Tuple, ghost keep: seq<bool>) returns (ok: bool)
    requires cache.Valid() && RelationOk(rel) && Fits(rel.desc, row) && Layout(rel.desc, keep)
    requires tupDesc == Keep(rel.desc, keep) && tuple == Keep(row, keep)
    modifies frame, cache
    ensures cache.Valid() && FrameGrew(frame, cache, c, rel, Inserted(row), ok)
  {
    var e;
    ok, e := BeginFrame(frame, cache, c, rel);
    if !ok { return; }
    var ms := InsertRowMsgs(c, e, rel, tupDesc, tuple, row, keep);
    if ms.None? { return false; }
    BuildWithSchema(c, old(cache.entries), rel, ms.value, old(frame.items), frame.items);
    frame.AppendAll(ms.value);
  }

  /** Replicated tuples have every attribute. */
  lemma {:induction false} KeepAll<T>(s: seq<T>, keep: seq<bool>)
    requires |keep| == |s| && forall i :: 0 <= i < |s| ==> keep[i]
    ensures Keep(s, keep) == s
  {
    if |s| > 0 { KeepAll(s[..|s|-1], keep[..|s|-1]); }
  }

  method EncodeTuple(c: Codec, e: Entry, rel: Relation, tuple: Tuple) returns (key: Option<Option<Bytes>>, row: Option<Bytes>)
    requires e == EntryFor(rel) && RelationOk(rel) && Fits(rel.desc, tuple)
    ensures key == KeyBytes(c, rel, tuple)
    ensures key.Some? ==> row == RowBytes(c, rel, tuple)
  {
    ghost var keep := seq(|rel.desc|, _ => true);
    KeepAll(rel.desc, keep);
    KeepAll(tuple, keep);
    key := ExtractTupleKey(c, e, rel, rel.desc, tuple, tuple, keep);
    row := None;
    if key.Some? {
      row := EncodeRow(c, e, rel, rel.desc, tuple, tuple, keep);
    }
  }

  /** The row messages of an update: one, or a delete and an insert when the key's bytes differ. */
  method UpdateRowMsgs(c: Codec, e: Entry, rel: Relation, oldTuple: Option<Tuple>, newTuple: Tuple)
    returns (ms: Option<seq<Msg>>)
    requires e == EntryFor(rel) && RelationOk(rel) && ChangeOk(rel, Updated(oldTuple, newTuple))
    ensures ms == RowMsgs(c, rel, Updated(oldTuple, newTuple))
  {
    var oldKey, oldRow := None, None;
    if oldTuple.Some? {
      var k, b := EncodeTuple(c, e, rel, oldTuple.value);
      if k.None? || b.None? { return None; }
      oldKey, oldRow := k.value, b;
    }
    var key, newRow := EncodeTuple(c, e, rel, newTuple);
    if key.None? || newRow.None? { return None; }
    if oldKey.Some? && oldKey.value != key.value.value {
      ms := Some([Delete(rel.relid, oldKey, oldRow), Insert(rel.relid, key.value, newRow.value)]);
    } else {
      ms := Some([Update(rel.relid, key.value, oldRow, newRow.value)]);
    }
  }

  method UpdateFrameWithUpdate(frame: Frame, cache: SchemaCache, c: Codec, rel: Relation,
                               oldTuple: Option<Tuple>, newTuple: Tuple) returns (ok: bool)
    requires cache.Valid() && RelationOk(rel) && ChangeOk(rel, Updated(oldTuple, newTuple))
    modifies frame, cache
    ensures cache.Valid() && FrameGrew(frame, cache, c, rel, Updated(oldTuple, newTuple), ok)
  {
    var e;
    ok, e := BeginFrame(frame, cache, c, rel);
    if !ok { return; }
    var ms := UpdateRowMsgs(c, e, rel, oldTuple, newTuple);
    if ms.None? { return false; }
    BuildWithSchema(c, old(cache.entries), rel, ms.value, old(frame.items), frame.items);
    frame.AppendAll(ms.value);
  }

  /** A delete without an old tuple has neither a key nor a row. */
  method DeleteRowMsgs(c: Codec, e: Entry, rel: Relation, oldTuple: Option<Tuple>) returns (ms: Option<seq<Msg>>)
    requires e == EntryFor(rel) && RelationOk(rel) && ChangeOk(rel, Deleted(oldTuple))
    ensures ms == RowMsgs(c, rel, Deleted(oldTuple))
  {
    var key, oldRow := None, None;
    if oldTuple.Some? {
      var k, b := EncodeTuple(c, e, rel, oldTuple.value);
      if k.None? || b.None? { return None; }
      key, oldRow := k.value, b;
    }
    ms := Some([Delete(rel.relid, key, oldRow)]);
  }

  method UpdateFrameWithDelete(frame: Frame, cache: SchemaCache, c: Codec, rel: Relation, oldTuple: Option<Tuple>)
    returns (ok: bool)
    requires cache.Valid() && RelationOk(rel) && ChangeOk(rel, Deleted(oldTuple))
    modifies frame, cache
    ensures cache.Valid() && FrameGrew(frame, cache, c, rel, Deleted(oldTuple), ok)
  {
    var e;
    ok, e := BeginFrame(frame, cache, c, rel);
    if !ok { return; }
    var ms := DeleteRowMsgs(c, e, rel, oldTuple);
    if ms.None? { return false; }
    BuildWithSchema(c, old(cache.entries), rel, ms.value, old(frame.items), frame.items);
    frame.AppendAll(ms.value);
  }

  /** `output_avro_change`: every change starts a frame of its own. */
  method OutputChange(cache: SchemaCache, c: Codec, rel: Relation, ch: Change) returns (frame: Option<Bytes>)
    requires cache.Valid() && RelationOk(rel) && ChangeOk(rel, ch)
    modifies cache
    ensures cache.Valid() && cache.entries == old(cache.entries)[rel.relid := EntryFor(rel)]
    ensures frame == FrameBytes(c, old(cache.entries), rel, ch)
  {
    var f := new Frame();
    var ok;
    match ch {
      case Inserted(n) =>
        ghost var keep := seq(|rel.desc|, _ => true);
        KeepAll(rel.desc, keep);
        KeepAll(n, keep);
        ok := UpdateFrameWithInsert(f, cache, c, rel, rel.desc, n, n, keep);
      case Updated(o, n) => ok := UpdateFrameWithUpdate(f, cache, c, rel, o, n);
      case Deleted(o) => ok := UpdateFrameWithDelete(f, cache, c, rel, o);
    }
    if !ok { return None; }
    EmptyConcat(BuildAll(FrameMsgs(c, old(cache.entries), rel, ch).value));
    frame := WriteBinary(c.encode(FRAME_SCHEMA, VRecord([VArray(f.items)])));
  }
}
