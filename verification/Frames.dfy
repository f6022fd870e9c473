/**
 The wire protocol: how the server builds a frame's messages as Avro values
 (ext/protocol_server.c) and how the client takes them apart (client/protocol_client.c).
 */
module Frames {
  import opened Basics
  import opened AvroModel

  datatype Msg =
    | BeginTxn(xid: Oid)
    | CommitTxn(xid: Oid, lsn: Lsn)
    | TableSchema(relid: Oid, keyJson: Option<string>, rowJson: string)
    | Insert(relid: Oid, key: Option<Bytes>, newRow: Bytes)
    | Update(relid: Oid, key: Option<Bytes>, oldRow: Option<Bytes>, newRow: Bytes)
    | Delete(relid: Oid, key: Option<Bytes>, oldRow: Option<Bytes>)

  // ---- Building

  function NullableBytes(b: Option<Bytes>): Value {
    if b.None? then VUnion(0, VNull) else VUnion(1, VBytes(b.value))
  }

  /** `avro_value_set_string_len`: the length counts the terminating zero. */
  function SetStringLen(text: string, len: nat): Value
    requires 1 <= len <= |text|
  {
    VString(text[..len-1])
  }

  /** A schema as the retrying writer leaves it: its JSON text, then a zero byte. */
  function Terminated(json: string): (text: string)
    ensures |text| == |json| + 1
  {
    json + ['\0']
  }

  /** A 64-bit position stored in a signed field. */
  function AsInt64(l: Lsn): Int64 {
    var m := l % 0x1_0000_0000_0000_0000;
    if m < 0x8000_0000_0000_0000 then m else m - 0x1_0000_0000_0000_0000
  }

  /** The union value a builder appends for each message. */
  function Build(m: Msg): Value {
    match m
    case BeginTxn(xid) => VUnion(0, VRecord([VLong(xid)]))
    case CommitTxn(xid, lsn) => VUnion(1, VRecord([VLong(xid), VLong(AsInt64(lsn))]))
    case TableSchema(relid, keyJson, rowJson) =>
      VUnion(2, VRecord([VLong(relid),
                         if keyJson.None? then VUnion(0, VNull)
                         else VUnion(1, SetStringLen(Terminated(keyJson.value), |keyJson.value| + 1)),
                         SetStringLen(Terminated(rowJson), |rowJson| + 1)]))
    case Insert(relid, key, newRow) => VUnion(3, VRecord([VLong(relid), NullableBytes(key), VBytes(newRow)]))
    case Update(relid, key, oldRow, newRow) =>
      VUnion(4, VRecord([VLong(relid), NullableBytes(key), NullableBytes(oldRow), VBytes(newRow)]))
    case Delete(relid, key, oldRow) => VUnion(5, VRecord([VLong(relid), NullableBytes(key), NullableBytes(oldRow)]))
  }

  function BuildAll(ms: seq<Msg>): (vs: seq<Value>)
    ensures |vs| == |ms|
  {
    seq(|ms|, i requires 0 <= i < |ms| => Build(ms[i]))
  }

  /** A frame is a record whose only field is the array of messages. */
  function FrameValue(ms: seq<Msg>): Value {
    VRecord([VArray(BuildAll(ms))])
  }

  // ---- The frame's own schema (ext/protocol.c)

  const PROTOCOL_SCHEMA_NAMESPACE := "com.martinkl.bottledwater.protocol"

  function Nullable(s: Schema): Schema {
    SUnion([SNull, s])
  }

  function MsgSchema(name: string, fields: seq<Field>): Schema {
    SRecord(name, PROTOCOL_SCHEMA_NAMESPACE, fields)
  }

  const RELID := Field("relid", SLong)
  const KEY := Field("key", Nullable(SBytes))
  const OLD_ROW := Field("oldRow", Nullable(SBytes))
  const NEW_ROW := Field("newRow", SBytes)

  /** One branch for each kind of message, in the order of the message types. */
  const MSG_SCHEMAS := [
    MsgSchema("BeginTxn", [Field("xid", SLong)]),
    MsgSchema("CommitTxn", [Field("xid", SLong), Field("lsn", SLong)]),
    MsgSchema("TableSchema", [RELID, Field("keySchema", Nullable(SString)), Field("rowSchema", SString)]),
    MsgSchema("Insert", [RELID, KEY, NEW_ROW]),
    MsgSchema("Update", [RELID, KEY, OLD_ROW, NEW_ROW]),
    MsgSchema("Delete", [RELID, KEY, OLD_ROW])]

  const FRAME_SCHEMA := MsgSchema("Frame", [Field("msg", SArray(SUnion(MSG_SCHEMAS)))])

  lemma NullableInhabits(b: Option<Bytes>)
    ensures Inhabits(Nullable(SBytes), NullableBytes(b))
  {
  }

  lemma RecordInhabits(name: string, fields: seq<Field>, vs: seq<Value>)
    requires |vs| == |fields| && forall i :: 0 <= i < |fields| ==> Inhabits(fields[i].schema, vs[i])
    ensures Inhabits(MsgSchema(name, fields), VRecord(vs))
  {
  }

  lemma TableSchemaInhabits(m: Msg)
    requires m.TableSchema?
    ensures Inhabits(MSG_SCHEMAS[2], Build(m).value)
  {
    var vs := Build(m).value.values;
    assert Inhabits(Nullable(SString), vs[1]) && Inhabits(SString, vs[2]) && Inhabits(SLong, vs[0]);
    RecordInhabits("TableSchema", [RELID, Field("keySchema", Nullable(SString)), Field("rowSchema", SString)], vs);
  }

  lemma InsertInhabits(m: Msg)
    requires m.Insert?
    ensures Inhabits(MSG_SCHEMAS[3], Build(m).value)
  {
    NullableInhabits(m.key);
    RecordInhabits("Insert", [RELID, KEY, NEW_ROW], Build(m).value.values);
  }

  lemma UpdateInhabits(m: Msg)
    requires m.Update?
    ensures Inhabits(MSG_SCHEMAS[4], Build(m).value)
  {
    NullableInhabits(m.key);
    NullableInhabits(m.oldRow);
    RecordInhabits("Update", [RELID, KEY, OLD_ROW, NEW_ROW], Build(m).value.values);
  }

  lemma DeleteInhabits(m: Msg)
    requires m.Delete?
    ensures Inhabits(MSG_SCHEMAS[5], Build(m).value)
  {
    NullableInhabits(m.key);
    NullableInhabits(m.oldRow);
    RecordInhabits("Delete", [RELID, KEY, OLD_ROW], Build(m).value.values);
  }

  lemma TxnInhabits(m: Msg)
    requires m.BeginTxn? || m.CommitTxn?
    ensures Inhabits(MSG_SCHEMAS[Build(m).branch], Build(m).value)
  {
  }

  /** Every message a builder makes inhabits the branch of its kind. */
  lemma MsgInhabits(m: Msg)
    ensures Build(m).branch < |MSG_SCHEMAS| && Inhabits(MSG_SCHEMAS[Build(m).branch], Build(m).value)
  {
    match m
    case TableSchema(_, _, _) => TableSchemaInhabits(m);
    case Insert(_, _, _) => InsertInhabits(m);
    case Update(_, _, _, _) => UpdateInhabits(m);
    case Delete(_, _, _) => DeleteInhabits(m);
    case _ => TxnInhabits(m);
  }

  /** So a frame can be written and read with the frame's schema. */
  lemma FrameInhabits(ms: seq<Msg>)
    ensures Inhabits(FRAME_SCHEMA, FrameValue(ms))
  {
    forall i | 0 <= i < |ms|
      ensures Inhabits(SUnion(MSG_SCHEMAS), BuildAll(ms)[i])
    {
      MsgInhabits(ms[i]);
    }
    assert Inhabits(SArray(SUnion(MSG_SCHEMAS)), VArray(BuildAll(ms)));
  }

  // ---- Taking apart

  function FieldOf(v: Value, i: nat): Result<Value, int> {
    if v.VRecord? && i < |v.values| then Ok(v.values[i]) else Err(EINVAL)
  }

  function GetLong(v: Result<Value, int>): Result<Int64, int> {
    if v.Ok? && v.value.VLong? then Ok(v.value.l) else Err(EINVAL)
  }

  function GetBytes(v: Result<Value, int>): Result<Bytes, int> {
    if v.Ok? && v.value.VBytes? then Ok(v.value.bytes) else Err(EINVAL)
  }

  /** `avro_value_get_string`: the text with its terminating zero, and the length of both. */
  function GetString(v: Result<Value, int>): (r: Result<(string, nat), int>)
    ensures r.Ok? ==> r.value.1 == |r.value.0| && |r.value.0| > 0
  {
    if v.Ok? && v.value.VString? then Ok((v.value.s + ['\0'], |v.value.s| + 1)) else Err(EINVAL)
  }

  /** The JSON passed on: the client drops the terminator again. */
  function GetJson(v: Result<Value, int>): Result<string, int> {
    var s := GetString(v);
    if s.Ok? then Ok(s.value.0[..s.value.1 - 1]) else Err(EINVAL)
  }

  function GetNullableBytes(v: Result<Value, int>): Result<Option<Bytes>, int> {
    if v.Err? || !v.value.VUnion? then Err(EINVAL)
    else if v.value.branch == 0 then Ok(None)
    else if v.value.value.VBytes? then Ok(Some(v.value.value.bytes))
    else Err(EINVAL)
  }

  function GetNullableJson(v: Result<Value, int>): Result<Option<string>, int> {
    if v.Err? || !v.value.VUnion? then Err(EINVAL)
    else if v.value.branch == 0 then Ok(None)
    else
      var s := GetJson(Ok(v.value.value));
      if s.Ok? then Ok(Some(s.value)) else Err(EINVAL)
  }

  /** The cast of a signed 64-bit field to an unsigned 32-bit id. */
  function AsOid(l: Int64): Oid {
    l % 0x1_0000_0000
  }

  function Parse(v: Value): Result<Msg, int> {
    if !v.VUnion? then Err(EINVAL)
    else
      var rec := v.value;
      var f0, f1, f2, f3 := FieldOf(rec, 0), FieldOf(rec, 1), FieldOf(rec, 2), FieldOf(rec, 3);
      var id := GetLong(f0);
      if id.Err? then Err(EINVAL)
      else
        match v.branch
        case 0 => Ok(BeginTxn(AsOid(id.value)))
        case 1 =>
          var lsn := GetLong(f1);
          if lsn.Err? then Err(EINVAL) else Ok(CommitTxn(AsOid(id.value), lsn.value % 0x1_0000_0000_0000_0000))
        case 2 =>
          var k, r := GetNullableJson(f1), GetJson(f2);
          if k.Err? || r.Err? then Err(EINVAL) else Ok(TableSchema(AsOid(id.value), k.value, r.value))
        case 3 =>
          var k, n := GetNullableBytes(f1), GetBytes(f2);
          if k.Err? || n.Err? then Err(EINVAL) else Ok(Insert(AsOid(id.value), k.value, n.value))
        case 4 =>
          var k, o, n := GetNullableBytes(f1), GetNullableBytes(f2), GetBytes(f3);
          if k.Err? || o.Err? || n.Err? then Err(EINVAL) else Ok(Update(AsOid(id.value), k.value, o.value, n.value))
        case 5 =>
          var k, o := GetNullableBytes(f1), GetNullableBytes(f2);
          if k.Err? || o.Err? then Err(EINVAL) else Ok(Delete(AsOid(id.value), k.value, o.value))
        case _ => Err(EINVAL)
  }

  predicate Fits64(m: Msg) {
    m.CommitTxn? ==> m.lsn < 0x1_0000_0000_0000_0000
  }

  /** The client reads back exactly the message the server built, strings and nulls included. */
  lemma ParseBuild(m: Msg)
    requires Fits64(m)
    ensures Parse(Build(m)) == Ok(m)
  {
    match m
    case TableSchema(relid, keyJson, rowJson) =>
      assert Terminated(rowJson)[..|rowJson|] == rowJson;
      assert GetJson(Ok(VString(rowJson))) == Ok(rowJson) by { assert (rowJson + ['\0'])[..|rowJson|] == rowJson; }
      if keyJson.Some? {
        var k := keyJson.value;
        assert Terminated(k)[..|k|] == k;
        assert GetJson(Ok(VString(k))) == Ok(k) by { assert (k + ['\0'])[..|k|] == k; }
      }
    case _ =>
  }

  /** A frame under construction. */
  class Frame {
    var items: seq<Value>

    constructor ()
      ensures items == []
    {
      items := [];
    }

    method Append(m: Msg)
      modifies this
      ensures items == old(items) + [Build(m)]
    {
      items := items + [Build(m)];
    }

    method AppendAll(ms: seq<Msg>)
      modifies this
      ensures items == old(items) + BuildAll(ms)
    {
      for i := 0 to |ms|
        invariant items == old(items) + BuildAll(ms[..i])
      {
        Append(ms[i]);
        assert BuildAll(ms[..i+1]) == BuildAll(ms[..i]) + [Build(ms[i])];
      }
      assert ms[..|ms|] == ms;
    }
  }
}
