/** The client's frame reader (client/protocol_client.c). */
module Client {
  import opened Basics
  import opened AvroModel
  import opened Frames

  /** Reading a key although the table was announced without one: the source's behaviour is undefined. */
  const UNDEFINED := -1

  datatype SchemaEntry = SchemaEntry(relid: Oid, keySchema: Option<Schema>, rowSchema: Schema)

  type SchemaList = seq<SchemaEntry>

  /** A callback's arguments: each binary value comes with its decoded form. */
  datatype Callback =
    | OnBeginTxn(xid: Oid)
    | OnCommitTxn(xid: Oid)
    | OnTableSchema(relid: Oid, keyJson: Option<string>, rowJson: string, rowSchema: Schema)
    | OnInsertRow(relid: Oid, key: Option<Bytes>, keyVal: Option<Value>, newRow: Bytes, newVal: Value)
    | OnUpdateRow(relid: Oid, key: Option<Bytes>, keyVal: Option<Value>,
                  oldRow: Option<Bytes>, oldVal: Option<Value>, newRow: Bytes, newVal: Value)
    | OnDeleteRow(relid: Oid, key: Option<Bytes>, keyVal: Option<Value>, oldRow: Option<Bytes>, oldVal: Option<Value>)

  /** The first entry for the table. */
  function Find(list: SchemaList, relid: Oid): (r: Option<nat>)
    ensures r.Some? ==> r.value < |list| && list[r.value].relid == relid
    ensures r.None? ==> forall i :: 0 <= i < |list| ==> list[i].relid != relid
  {
    if |list| == 0 then None
    else
      var n := |list| - 1;
      var before := Find(list[..n], relid);
      if before.Some? then before else if list[n].relid == relid then Some(n) else None
  }

  /** Overwrites the table's entry, or adds one. */
  function Put(list: SchemaList, e: SchemaEntry): SchemaList {
    var i := Find(list, e.relid);
    if i.Some? then list[i.value := e] else list + [e]
  }

  /** The entry the client would decode the table's rows with. */
  function EntryOf(list: SchemaList, relid: Oid): Option<SchemaEntry> {
    var i := Find(list, relid);
    if i.Some? then Some(list[i.value]) else None
  }

  /** Decodes a nullable binary with a schema that may be missing. */
  function ReadNullable(c: Codec, s: Option<Schema>, b: Option<Bytes>): Result<Option<Value>, int> {
    if b.None? then Ok(None)
    else if s.None? then Err(UNDEFINED)
    else
      var v := c.decode(s.value, b.value);
      if v.None? then Err(EINVAL) else Ok(v)
  }

  /** One message: the new schema list and the callback it makes. */
  function Handle(c: Codec, list: SchemaList, m: Msg): Result<(SchemaList, Callback), int> {
    match m
    case BeginTxn(xid) => Ok((list, OnBeginTxn(xid)))
    case CommitTxn(xid, _) => Ok((list, OnCommitTxn(xid)))
    case TableSchema(relid, keyJson, rowJson) =>
      var row := c.fromJson(rowJson);
      var key := if keyJson.None? then None else c.fromJson(keyJson.value);
      if row.None? || (keyJson.Some? && key.None?) then Err(EINVAL)
      else Ok((Put(list, SchemaEntry(relid, key, row.value)), OnTableSchema(relid, keyJson, rowJson, row.value)))
    case Insert(relid, key, newRow) =>
      var e := EntryOf(list, relid);
      if e.None? then Err(EINVAL)
      else
        var k, n := ReadNullable(c, e.value.keySchema, key), c.decode(e.value.rowSchema, newRow);
        if k.Err? then Err(k.error) else if n.None? then Err(EINVAL)
        else Ok((list, OnInsertRow(relid, key, k.value, newRow, n.value)))
    case Update(relid, key, oldRow, newRow) =>
      var e := EntryOf(list, relid);
      if e.None? then Err(EINVAL)
      else
        var k, o := ReadNullable(c, e.value.keySchema, key), ReadNullable(c, Some(e.value.rowSchema), oldRow);
        var n := c.decode(e.value.rowSchema, newRow);
        if k.Err? then Err(k.error) else if o.Err? then Err(o.error) else if n.None? then Err(EINVAL)
        else Ok((list, OnUpdateRow(relid, key, k.value, oldRow, o.value, newRow, n.value)))
    case Delete(relid, key, oldRow) =>
      var e := EntryOf(list, relid);
      if e.None? then Err(EINVAL)
      else
        var k, o := ReadNullable(c, e.value.keySchema, key), ReadNullable(c, Some(e.value.rowSchema), oldRow);
        if k.Err? then Err(k.error) else if o.Err? then Err(o.error)
        else Ok((list, OnDeleteRow(relid, key, k.value, oldRow, o.value)))
  }

  /** A list of messages, up to the first error. */
  function HandleAll(c: Codec, list: SchemaList, ms: seq<Msg>): Result<(SchemaList, seq<Callback>), int> {
    if |ms| == 0 then Ok((list, []))
    else
      var before := HandleAll(c, list, ms[..|ms|-1]);
      if before.Err? then before
      else
        var r := Handle(c, before.value.0, ms[|ms|-1]);
        if r.Err? then Err(r.error) else Ok((r.value.0, before.value.1 + [r.value.1]))
  }

  /** The messages of a frame value, up to the first one that cannot be read or handled. */
  function HandleItems(c: Codec, list: SchemaList, items: seq<Value>): Result<(SchemaList, seq<Callback>), int> {
    if |items| == 0 then Ok((list, []))
    else
      var before := HandleItems(c, list, items[..|items|-1]);
      if before.Err? then before
      else
        var m := Parse(items[|items|-1]);
        if m.Err? then Err(EINVAL)
        else
          var r := Handle(c, before.value.0, m.value);
          if r.Err? then Err(r.error) else Ok((r.value.0, before.value.1 + [r.value.1]))
  }

  function HandleFrame(c: Codec, list: SchemaList, frame: Value): Result<(SchemaList, seq<Callback>), int> {
    var a := FieldOf(frame, 0);
    if a.Err? || !a.value.VArray? then Err(EINVAL) else HandleItems(c, list, a.value.items)
  }

  /** The calls made on the way: all of them, or those before the first error. */
  function CallsMade(c: Codec, list: SchemaList, items: seq<Value>): seq<Callback> {
    if HandleItems(c, list, items).Ok? then HandleItems(c, list, items).value.1
    else if |items| == 0 then []
    else CallsMade(c, list, items[..|items|-1])
  }

  function FrameCalls(c: Codec, list: SchemaList, frame: Value): seq<Callback> {
    var a := FieldOf(frame, 0);
    if a.Err? || !a.value.VArray? then [] else CallsMade(c, list, a.value.items)
  }

  /** `parse_frame`: the frame is read with the frame's own schema first. */
  function ReadFrame(c: Codec, list: SchemaList, buf: Bytes): Result<(SchemaList, seq<Callback>), int> {
    var frame := c.decode(FRAME_SCHEMA, buf);
    if frame.None? then Err(EINVAL) else HandleFrame(c, list, frame.value)
  }

  /** Frames the server built are taken apart into the same messages, handled in the same order. */
  lemma {:induction false} FrameRoundTrip(c: Codec, list: SchemaList, ms: seq<Msg>)
    requires forall i :: 0 <= i < |ms| ==> Fits64(ms[i])
    ensures HandleFrame(c, list, FrameValue(ms)) == HandleAll(c, list, ms)
  {
    var n := |ms|;
    if n > 0 {
      FrameRoundTrip(c, list, ms[..n-1]);
      assert BuildAll(ms)[..n-1] == BuildAll(ms[..n-1]);
      ParseBuild(ms[n-1]);
    }
  }

  /** The same for the bytes of a frame. */
  lemma WireRoundTrip(c: Codec, list: SchemaList, ms: seq<Msg>)
    requires Lossless(c) && forall i :: 0 <= i < |ms| ==> Fits64(ms[i])
    ensures ReadFrame(c, list, c.encode(FRAME_SCHEMA, FrameValue(ms))) == HandleAll(c, list, ms)
  {
    FrameInhabits(ms);
    FrameRoundTrip(c, list, ms);
  }

  class FrameReader {
    const codec: Codec
    var schemas: array<SchemaEntry>
    var numSchemas: nat
    var calls: seq<Callback>

    ghost predicate Valid()
      reads this
    {
      numSchemas <= schemas.Length && schemas.Length > 0
    }

    ghost function List(): SchemaList
      requires Valid()
      reads this, schemas
    {
      schemas[..numSchemas]
    }

    constructor (c: Codec)
      ensures Valid() && List() == [] && calls == [] && codec == c && fresh(schemas)
    {
      codec := c;
      schemas := new SchemaEntry[16];
      numSchemas, calls := 0, [];
    }

    method SchemaListLookup(relid: Oid) returns (r: Option<nat>)
      requires Valid()
      ensures r == Find(List(), relid)
    {
      var i := 0;
      while i < numSchemas
        invariant 0 <= i <= numSchemas && Find(schemas[..i], relid).None?
      {
        assert schemas[..i+1][..i] == schemas[..i];
        if schemas[i].relid == relid {
          FindPrefix(List(), i + 1, relid);
          assert List()[..i+1] == schemas[..i+1];
          return Some(i);
        }
        i := i + 1;
      }
      r := None;
    }

    /** Adds an entry, growing the array fourfold when it is full. */
    method SchemaListEntryNew(e: SchemaEntry)
      requires Valid()
      modifies this, schemas
      ensures Valid() && List() == old(List()) + [e] && calls == old(calls)
      ensures schemas == old(schemas) || fresh(schemas)
    {
      if numSchemas == schemas.Length {
        var bigger := new SchemaEntry[4 * schemas.Length];
        for i := 0 to numSchemas
          invariant unchanged(this) && unchanged(schemas)
          invariant bigger[..i] == schemas[..i]
        {
          bigger[i] := schemas[i];
        }
        schemas := bigger;
      }
      schemas[numSchemas] := e;
      numSchemas := numSchemas + 1;
    }

    method SchemaListReplace(e: SchemaEntry)
      requires Valid()
      modifies this, schemas
      ensures Valid() && List() == Put(old(List()), e) && calls == old(calls)
      ensures schemas == old(schemas) || fresh(schemas)
    {
      var i := SchemaListLookup(e.relid);
      if i.Some? {
        schemas[i.value] := e;
      } else {
        SchemaListEntryNew(e);
      }
    }

    method ProcessMessage(m: Msg) returns (err: int)
      requires Valid()
      modifies this, schemas
      ensures Valid() && (schemas == old(schemas) || fresh(schemas))
      ensures var r := Handle(codec, old(List()), m);
              if r.Err? then err == r.error && err != 0 && calls == old(calls)
              else err == 0 && List() == r.value.0 && calls == old(calls) + [r.value.1]
    {
      if m.TableSchema? {
        var row := codec.fromJson(m.rowJson);
        if row.None? { return EINVAL; }
        var key := None;
        if m.keyJson.Some? {
          key := codec.fromJson(m.keyJson.value);
          if key.None? { return EINVAL; }
        }
        SchemaListReplace(SchemaEntry(m.relid, key, row.value));
        calls := calls + [OnTableSchema(m.relid, m.keyJson, m.rowJson, row.value)];
        return 0;
      }
      if m.BeginTxn? || m.CommitTxn? {
        calls := calls + [if m.BeginTxn? then OnBeginTxn(m.xid) else OnCommitTxn(m.xid)];
        return 0;
      }
      var i := SchemaListLookup(m.relid);
      if i.None? { return EINVAL; }
      var e := schemas[i.value];
      var key := ReadNullable(codec, e.keySchema, m.key);
      if key.Err? { return key.error; }
      var oldVal := Ok(None);
      if !m.Insert? {
        oldVal := ReadNullable(codec, Some(e.rowSchema), m.oldRow);
        if oldVal.Err? { return oldVal.error; }
      }
      if m.Delete? {
        calls := calls + [OnDeleteRow(m.relid, m.key, key.value, m.oldRow, oldVal.value)];
        return 0;
      }
      var newVal := codec.decode(e.rowSchema, m.newRow);
      if newVal.None? { return EINVAL; }
      if m.Insert? {
        calls := calls + [OnInsertRow(m.relid, m.key, key.value, m.newRow, newVal.value)];
      } else {
        calls := calls + [OnUpdateRow(m.relid, m.key, key.value, m.oldRow, oldVal.value, m.newRow, newVal.value)];
      }
      err := 0;
    }

    method ProcessFrame(frame: Value) returns (err: int)
      requires Valid()
      modifies this, schemas
      ensures Valid() && calls == old(calls) + FrameCalls(codec, old(List()), frame)
      ensures var r := HandleFrame(codec, old(List()), frame);
              if r.Err? then err == r.error && err != 0 else err == 0 && List() == r.value.0
    {
      var a := FieldOf(frame, 0);
      if a.Err? || !a.value.VArray? {
        assert calls + [] == calls;
        return EINVAL;
      }
      var items := a.value.items;
      var i := 0;
      while i < |items|
        invariant 0 <= i <= |items| && Valid() && (schemas == old(schemas) || fresh(schemas))
        invariant HandleItems(codec, old(List()), items[..i]).Ok?
        invariant HandleItems(codec, old(List()), items[..i]).value.0 == List()
        invariant calls == old(calls) + HandleItems(codec, old(List()), items[..i]).value.1
      {
        assert items[..i+1][..i] == items[..i];
        var m := Parse(items[i]);
        if m.Err? {
          FirstErrorStands(codec, old(List()), items, i + 1);
          return EINVAL;
        }
        err := ProcessMessage(m.value);
        if err != 0 {
          FirstErrorStands(codec, old(List()), items, i + 1);
          return;
        }
        i := i + 1;
      }
      assert items[..|items|] == items;
      err := 0;
    }

    method ParseFrame(buf: Bytes) returns (err: int)
      requires Valid()
      modifies this, schemas
      ensures Valid()
      ensures var r := ReadFrame(codec, old(List()), buf);
              if r.Err? then err == r.error && err != 0 else err == 0 && List() == r.value.0
      ensures var frame := codec.decode(FRAME_SCHEMA, buf);
              calls == old(calls) + if frame.None? then [] else FrameCalls(codec, old(List()), frame.value)
    {
      var frame := codec.decode(FRAME_SCHEMA, buf);
      if frame.None? {
        EmptyConcat(calls);
        return EINVAL;
      }
      err := ProcessFrame(frame.value);
    }
  }

  lemma {:induction false} FindPrefix(list: SchemaList, n: nat, relid: Oid)
    requires n <= |list| && Find(list[..n], relid).Some?
    ensures Find(list, relid) == Find(list[..n], relid)
    decreases |list| - n
  {
    if n == |list| {
      assert list[..n] == list;
    } else {
      assert list[..n+1][..n] == list[..n];
      FindPrefix(list, n + 1, relid);
    }
  }

  lemma {:induction false} FirstErrorStands(c: Codec, list: SchemaList, items: seq<Value>, n: nat)
    requires n <= |items| && HandleItems(c, list, items[..n]).Err?
    ensures HandleItems(c, list, items) == HandleItems(c, list, items[..n])
    ensures CallsMade(c, list, items) == CallsMade(c, list, items[..n])
    decreases |items| - n
  {
    if n == |items| {
      assert items[..n] == items;
    } else {
      assert items[..n+1][..n] == items[..n];
      FirstErrorStands(c, list, items, n + 1);
    }
  }

  /** Announcing a table changes what the client knows about it, and about nothing else. */
  lemma PutThenFind(list: SchemaList, e: SchemaEntry, relid: Oid)
    ensures EntryOf(Put(list, e), relid) == if relid == e.relid then Some(e) else EntryOf(list, relid)
  {
    var i := Find(list, e.relid);
    if i.Some? {
      FindUpdated(list, i.value, e, relid);
    } else {
      assert (list + [e])[..|list|] == list;
    }
  }

  lemma {:induction false} FindUpdated(list: SchemaList, i: nat, e: SchemaEntry, relid: Oid)
    requires i < |list| && list[i].relid == e.relid
    ensures Find(list[i := e], relid) == Find(list, relid)
    decreases |list|
  {
    var n := |list| - 1;
    if i == n {
      assert list[i := e][..n] == list[..n];
    } else {
      assert list[i := e][..n] == list[..n][i := e];
      FindUpdated(list[..n], i, e, relid);
    }
  }
}
