/** Topics and schema ids of the tables seen so far (kafka/table_mapper.c, kafka/registry.c). */
module Mapper {
  import opened Basics
  import opened BigEndian
  import opened AvroModel
  import opened KafkaLog

  const MISSING: Int32 := -1

  // ---- The message prefix

  /** The two's complement word of a schema id. */
  function IdWord(id: Int32): Word {
    if id >= 0 then id else id + 0x1_0000_0000
  }

  /** `add_schema_prefix`: a zero byte, the id, the data; nothing for no data. */
  function AddSchemaPrefix(id: Int32, data: Option<Bytes>): Option<Bytes> {
    if data.None? then None else Some([0] + Be32(IdWord(id)) + data.value)
  }

  /** How a consumer reads a message: the schema id it names, and the data after it. */
  function SplitPrefix(msg: Bytes): Option<(Int32, Bytes)> {
    if |msg| < 5 || msg[0] != 0 then None
    else
      var w := FromBe32(msg[1..5]);
      Some((if w < 0x8000_0000 then w else w - 0x1_0000_0000, msg[5..]))
  }

  lemma PrefixRoundTrip(id: Int32, data: Bytes)
    ensures SplitPrefix(AddSchemaPrefix(id, Some(data)).value) == Some((id, data))
  {
    var msg := [0] + Be32(IdWord(id)) + data;
    assert msg[1..5] == Be32(IdWord(id)) && msg[5..] == data;
    Be32RoundTrip(IdWord(id));
  }

  // ---- The registry and the mapper's surroundings

  /**
   A registry may refuse a request: `accepts` is given the topic, whether it is the key schema,
   and the text. `texts` are the texts it ever accepts; each has one id, and different ones
   have different ids.
   */
  datatype Registry =
    | NoRegistry
    | Registry(accepts: (string, bool, string) -> bool, assign: string -> Int32, texts: set<string>)

  datatype Env = Env(codec: Codec, registry: Registry, prefix: Option<string>, opensTopic: string -> bool)

  ghost predicate OneIdEach(r: Registry) {
    r.Registry? ==>
      && (forall topic, isKey, j :: r.accepts(topic, isKey, j) ==> j in r.texts)
      && (forall j :: j in r.texts ==> r.assign(j) >= 0)
      && (forall i, j :: i in r.texts && j in r.texts && r.assign(i) == r.assign(j) ==> i == j)
  }

  /** The registry has taken the text, if there is a registry and a text. */
  predicate TextKnown(env: Env, json: Option<string>) {
    env.registry.Registry? && json.Some? ==> json.value in env.registry.texts
  }

  /** There are registries like that, for any texts that fit into the ids. */
  lemma RegistryExists(texts: seq<string>) returns (r: Registry)
    requires |texts| <= 0x8000_0000
    ensures r.Registry? && OneIdEach(r) && r.texts == (set i | 0 <= i < |texts| :: texts[i])
    ensures forall topic, isKey, j :: j in r.texts ==> r.accepts(topic, isKey, j)
  {
    var known := set i | 0 <= i < |texts| :: texts[i];
    var at := (j: string) requires j in known => var i :| 0 <= i < |texts| && texts[i] == j; i;
    var assign: string -> Int32 := j => if j in known then at(j) else 0;
    r := Registry((topic, isKey, j) => j in known, assign, known);
  }

  datatype Meta = Meta(relid: Oid, tableName: string, topic: Option<string>,
                       keyId: Int32, keySchema: Option<Schema>, rowId: Int32, rowSchema: Option<Schema>)

  function NewMeta(relid: Oid): Meta {
    Meta(relid, "", None, MISSING, None, MISSING, None)
  }

  function TopicName(prefix: Option<string>, name: string): string {
    if prefix.None? then name else prefix.value + ['-'] + name
  }

  // ---- Updating one table

  /** `table_metadata_update_topic`. */
  function UpdateTopic(env: Env, m: Meta, name: string): Result<Meta, int> {
    if m.topic.Some? && m.tableName == name then Ok(m)
    else
      var topic := TopicName(env.prefix, name);
      if (env.prefix.Some? && |topic| >= 257) || !env.opensTopic(topic) then Err(-1)
      else Ok(m.(tableName := name, topic := Some(topic)))
  }

  /** `schema_registry_request`: without a schema there is nothing to do, and the id stays missing. */
  function Request(r: Registry, topic: string, isKey: bool, json: Option<string>): Result<Int32, int>
    requires r.Registry?
  {
    if json.None? || json.value == "" then Ok(MISSING)
    else if r.accepts(topic, isKey, json.value) then Ok(r.assign(json.value))
    else Err(EIO)
  }

  function SetId(m: Meta, isKey: bool, id: Int32): Meta {
    if isKey then m.(keyId := id) else m.(rowId := id)
  }

  function SetSchema(m: Meta, isKey: bool, s: Option<Schema>): Meta {
    if isKey then m.(keySchema := s) else m.(rowSchema := s)
  }

  /** `table_metadata_update_schema`: an unchanged id saves parsing the schema again. */
  function UpdateSchema(env: Env, m: Meta, isKey: bool, json: Option<string>): Result<Meta, int>
    requires m.topic.Some?
  {
    var prev := if isKey then m.keyId else m.rowId;
    var id := if env.registry.NoRegistry? then Ok(MISSING) else Request(env.registry, m.topic.value, isKey, json);
    if id.Err? then Err(id.error)
    else
      var m' := if env.registry.NoRegistry? then m else SetId(m, isKey, id.value);
      if prev == MISSING || prev != id.value then
        var parsed := if json.None? then None else env.codec.fromJson(json.value);
        if json.Some? && parsed.None? then Err(EINVAL) else Ok(SetSchema(m', isKey, parsed))
      else Ok(m')
  }

  function UpdateMeta(env: Env, m: Meta, name: string, keyJson: Option<string>, rowJson: string): Result<Meta, int> {
    var m1 := UpdateTopic(env, m, name);
    if m1.Err? then Err(m1.error)
    else
      var m2 := UpdateSchema(env, m1.value, true, keyJson);
      if m2.Err? then Err(m2.error) else UpdateSchema(env, m2.value, false, Some(rowJson))
  }

  // ---- What an update means

  function IdOf(env: Env, json: Option<string>): Int32 {
    if env.registry.NoRegistry? || json.None? then MISSING else env.registry.assign(json.value)
  }

  function SchemaOf(env: Env, json: Option<string>): Option<Schema> {
    if json.None? then None else env.codec.fromJson(json.value)
  }

  /** The metadata of a table as if this announcement were the only one ever made. */
  function Announced(env: Env, relid: Oid, name: string, keyJson: Option<string>, rowJson: string): Meta {
    Meta(relid, name, Some(TopicName(env.prefix, name)),
         IdOf(env, keyJson), SchemaOf(env, keyJson), IdOf(env, Some(rowJson)), SchemaOf(env, Some(rowJson)))
  }

  /** An id and a schema that some announcement left. */
  ghost predicate Paired(env: Env, id: Int32, s: Option<Schema>) {
    && (env.registry.NoRegistry? ==> id == MISSING)
    && (id != MISSING ==> exists json :: TextKnown(env, Some(json)) && IdOf(env, Some(json)) == id && SchemaOf(env, Some(json)) == s)
  }

  ghost predicate MetaOk(env: Env, m: Meta) {
    && (m.topic.Some? ==> m.topic == Some(TopicName(env.prefix, m.tableName)) && TopicOpens(env, m.tableName))
    && Paired(env, m.keyId, m.keySchema) && Paired(env, m.rowId, m.rowSchema)
  }

  /** Keeping the previous schema when the id is unchanged is the same as parsing the new one. */
  lemma UpdateSchemaExact(env: Env, m: Meta, isKey: bool, json: Option<string>)
    requires MetaOk(env, m) && m.topic.Some? && OneIdEach(env.registry) && UpdateSchema(env, m, isKey, json).Ok?
    requires json.Some? ==> env.codec.fromJson("").None?
    ensures var m' := UpdateSchema(env, m, isKey, json).value;
            && m' == SetSchema(SetId(m, isKey, IdOf(env, json)), isKey, SchemaOf(env, json))
            && TextKnown(env, json)
  {
    var prev := if isKey then m.keyId else m.rowId;
    var schema := if isKey then m.keySchema else m.rowSchema;
    if prev != MISSING {
      var j :| TextKnown(env, Some(j)) && IdOf(env, Some(j)) == prev && SchemaOf(env, Some(j)) == schema;
    }
  }

  lemma PairedAfter(env: Env, json: Option<string>)
    requires OneIdEach(env.registry) && TextKnown(env, json)
    ensures Paired(env, IdOf(env, json), SchemaOf(env, json))
  {
    if IdOf(env, json) != MISSING {
      assert TextKnown(env, Some(json.value)) && IdOf(env, Some(json.value)) == IdOf(env, json) && SchemaOf(env, Some(json.value)) == SchemaOf(env, json);
    }
  }

  /**
   Whatever the table's history (renamed, re-keyed, un-keyed and keyed again), a successful
   update leaves exactly what this announcement says.
   */
  lemma UpdateMetaExact(env: Env, m: Meta, name: string, keyJson: Option<string>, rowJson: string)
    requires MetaOk(env, m) && OneIdEach(env.registry) && env.codec.fromJson("").None?
    requires UpdateMeta(env, m, name, keyJson, rowJson).Ok?
    ensures UpdateMeta(env, m, name, keyJson, rowJson).value == Announced(env, m.relid, name, keyJson, rowJson)
    ensures MetaOk(env, UpdateMeta(env, m, name, keyJson, rowJson).value)
    ensures TextKnown(env, keyJson) && TextKnown(env, Some(rowJson))
  {
    var m1 := UpdateTopic(env, m, name).value;
    var m2 := UpdateSchema(env, m1, true, keyJson).value;
    UpdateSchemaExact(env, m1, true, keyJson);
    PairedAfter(env, keyJson);
    assert MetaOk(env, m2);
    UpdateSchemaExact(env, m2, false, Some(rowJson));
    PairedAfter(env, Some(rowJson));
  }

  /** The table's topic can be opened. */
  predicate TopicOpens(env: Env, name: string) {
    (env.prefix.Some? ==> |TopicName(env.prefix, name)| < 257) && env.opensTopic(TopicName(env.prefix, name))
  }

  /** There is no registry, nothing to register, or the registry takes it. */
  predicate Accepted(env: Env, name: string, isKey: bool, json: Option<string>) {
    || env.registry.NoRegistry? || json.None? || json.value == ""
    || env.registry.accepts(TopicName(env.prefix, name), isKey, json.value)
  }

  /** An update fails for no other reason than the topic or the registry. */
  lemma UpdateMetaOkIff(env: Env, m: Meta, name: string, keyJson: Option<string>, rowJson: string)
    requires MetaOk(env, m)
    requires env.codec.fromJson(rowJson).Some? && (keyJson.Some? ==> env.codec.fromJson(keyJson.value).Some?)
    ensures UpdateMeta(env, m, name, keyJson, rowJson).Ok? <==>
              TopicOpens(env, name) && Accepted(env, name, true, keyJson) && Accepted(env, name, false, Some(rowJson))
  {
  }

  // ---- The list of tables

  type Tables = seq<Meta>

  function FindTable(tables: Tables, relid: Oid): (r: Option<nat>)
    ensures r.Some? ==> r.value < |tables| && tables[r.value].relid == relid
    ensures r.None? ==> forall i :: 0 <= i < |tables| ==> tables[i].relid != relid
  {
    if |tables| == 0 then None
    else
      var n := |tables| - 1;
      var before := FindTable(tables[..n], relid);
      if before.Some? then before else if tables[n].relid == relid then Some(n) else None
  }

  ghost predicate TablesOk(env: Env, tables: Tables) {
    && (forall i :: 0 <= i < |tables| ==> MetaOk(env, tables[i]))
    && (forall i, j :: 0 <= i < j < |tables| ==> tables[i].relid != tables[j].relid)
  }

  function MetaOf(tables: Tables, relid: Oid): Option<Meta> {
    var i := FindTable(tables, relid);
    if i.Some? then Some(tables[i.value]) else None
  }

  /** The table's entry, or the blank one an update starts from. */
  function Previous(tables: Tables, relid: Oid): Meta {
    if MetaOf(tables, relid).Some? then MetaOf(tables, relid).value else NewMeta(relid)
  }

  function PutTable(tables: Tables, m: Meta): Tables {
    var i := FindTable(tables, m.relid);
    if i.Some? then tables[i.value := m] else tables + [m]
  }

  /** `table_mapper_update`. */
  function UpdateTables(env: Env, tables: Tables, relid: Oid, name: string, keyJson: Option<string>, rowJson: string)
    : Result<Tables, int>
  {
    var m := UpdateMeta(env, Previous(tables, relid), name, keyJson, rowJson);
    if m.Err? then Err(m.error) else Ok(PutTable(tables, m.value))
  }

  lemma {:induction false} FindTablePrefix(tables: Tables, n: nat, relid: Oid)
    requires n <= |tables| && FindTable(tables[..n], relid).Some?
    ensures FindTable(tables, relid) == FindTable(tables[..n], relid)
    decreases |tables| - n
  {
    if n == |tables| {
      assert tables[..n] == tables;
    } else {
      assert tables[..n+1][..n] == tables[..n];
      FindTablePrefix(tables, n + 1, relid);
    }
  }

  /** With one entry per table, the entry at an index is the one lookup finds. */
  lemma FindAt(tables: Tables, i: nat)
    requires i < |tables| && forall a, b :: 0 <= a < b < |tables| ==> tables[a].relid != tables[b].relid
    ensures FindTable(tables, tables[i].relid) == Some(i)
  {
    var f := FindTable(tables, tables[i].relid);
    assert f.Some? && tables[f.value].relid == tables[i].relid;
  }

  /** A successful update leaves one entry per table: the announced one for this table, the others as they were. */
  lemma UpdateTablesExact(env: Env, tables: Tables, relid: Oid, name: string, keyJson: Option<string>, rowJson: string)
    requires TablesOk(env, tables) && OneIdEach(env.registry) && env.codec.fromJson("").None?
    requires UpdateTables(env, tables, relid, name, keyJson, rowJson).Ok?
    ensures var tables' := UpdateTables(env, tables, relid, name, keyJson, rowJson).value;
            && TablesOk(env, tables')
            && MetaOf(tables', relid) == Some(Announced(env, relid, name, keyJson, rowJson))
            && (forall r :: r != relid ==> MetaOf(tables', r) == MetaOf(tables, r))
            && TextKnown(env, keyJson) && TextKnown(env, Some(rowJson))
  {
    var before := Previous(tables, relid);
    UpdateMetaExact(env, before, name, keyJson, rowJson);
    var m := UpdateMeta(env, before, name, keyJson, rowJson).value;
    PutTableOk(env, tables, m);
    forall r | r != relid
      ensures MetaOf(PutTable(tables, m), r) == MetaOf(tables, r)
    {
      PutTableOther(tables, m, r);
    }
  }

  lemma PutTableOk(env: Env, tables: Tables, m: Meta)
    requires TablesOk(env, tables) && MetaOk(env, m)
    ensures TablesOk(env, PutTable(tables, m)) && MetaOf(PutTable(tables, m), m.relid) == Some(m)
  {
    var i := FindTable(tables, m.relid);
    FindAt(PutTable(tables, m), if i.Some? then i.value else |tables|);
  }

  lemma PutTableOther(tables: Tables, m: Meta, r: Oid)
    requires r != m.relid && forall a, b :: 0 <= a < b < |tables| ==> tables[a].relid != tables[b].relid
    ensures MetaOf(PutTable(tables, m), r) == MetaOf(tables, r)
  {
    var i, j, tables' := FindTable(tables, m.relid), FindTable(tables, r), PutTable(tables, m);
    assert forall a, b :: 0 <= a < b < |tables'| ==> tables'[a].relid != tables'[b].relid;
    if j.Some? {
      FindAt(tables', j.value);
    } else {
      assert FindTable(tables', r).None?;
    }
  }

  // ---- The mapper, updated in place

  class TableMapper {
    const env: Env
    var tables: array<Meta>
    var numTables: nat

    ghost predicate Valid()
      reads this
    {
      numTables <= tables.Length && tables.Length > 0
    }

    ghost function List(): Tables
      requires Valid()
      reads this, tables
    {
      tables[..numTables]
    }

    constructor (e: Env)
      ensures Valid() && List() == [] && env == e && fresh(tables)
    {
      env := e;
      tables := new Meta[16];
      numTables := 0;
    }

    method Lookup(relid: Oid) returns (r: Option<nat>)
      requires Valid()
      ensures r == FindTable(List(), relid)
    {
      var i := 0;
      while i < numTables
        invariant 0 <= i <= numTables && FindTable(tables[..i], relid).None?
      {
        assert tables[..i+1][..i] == tables[..i];
        if tables[i].relid == relid {
          FindTablePrefix(List(), i + 1, relid);
          assert List()[..i+1] == tables[..i+1];
          return Some(i);
        }
        i := i + 1;
      }
      r := None;
    }

    /** Adds a blank entry, growing the array fourfold when it is full. */
    method MetadataNew(relid: Oid) returns (at: nat)
      requires Valid()
      modifies this, tables
      ensures Valid() && List() == old(List()) + [NewMeta(relid)] && at == old(numTables)
      ensures tables == old(tables) || fresh(tables)
    {
      if numTables == tables.Length {
        var bigger := new Meta[4 * tables.Length];
        for i := 0 to numTables
          invariant unchanged(this) && unchanged(tables)
          invariant bigger[..i] == tables[..i]
        {
          bigger[i] := tables[i];
        }
        tables := bigger;
      }
      at := numTables;
      tables[at] := NewMeta(relid);
      numTables := numTables + 1;
    }

    /** Updates one entry, field by field. A failed update ends the process. */
    method MetadataUpdate(at: nat, name: string, keyJson: Option<string>, rowJson: string) returns (err: int)
      requires Valid() && at < numTables
      modifies tables
      ensures err == 0 <==> UpdateMeta(env, old(tables[at]), name, keyJson, rowJson).Ok?
      ensures err == 0 ==> List() == old(List())[at := UpdateMeta(env, old(tables[at]), name, keyJson, rowJson).value]
    {
      var m := UpdateTopic(env, tables[at], name);
      if m.Err? { return -1; }
      tables[at] := m.value;
      m := UpdateSchema(env, tables[at], true, keyJson);
      if m.Err? { return -1; }
      tables[at] := m.value;
      m := UpdateSchema(env, tables[at], false, Some(rowJson));
      if m.Err? { return -1; }
      tables[at] := m.value;
      err := 0;
    }

    method Update(relid: Oid, name: string, keyJson: Option<string>, rowJson: string) returns (err: int)
      requires Valid()
      modifies this, tables
      ensures Valid() && (tables == old(tables) || fresh(tables))
      ensures err == 0 <==> UpdateTables(env, old(List()), relid, name, keyJson, rowJson).Ok?
      ensures err == 0 ==> List() == UpdateTables(env, old(List()), relid, name, keyJson, rowJson).value
    {
      if UpdateMeta(env, Previous(List(), relid), name, keyJson, rowJson).Ok? {
        KeepsRelid(env, Previous(List(), relid), name, keyJson, rowJson);
      }
      var found := Lookup(relid);
      if found.Some? {
        err := MetadataUpdate(found.value, name, keyJson, rowJson);
      } else {
        var at := MetadataNew(relid);
        assert tables[at] == List()[at] == NewMeta(relid);
        err := MetadataUpdate(at, name, keyJson, rowJson);
      }
    }
  }

  lemma KeepsRelid(env: Env, m: Meta, name: string, keyJson: Option<string>, rowJson: string)
    requires UpdateMeta(env, m, name, keyJson, rowJson).Ok?
    ensures UpdateMeta(env, m, name, keyJson, rowJson).value.relid == m.relid
  {
  }
}
