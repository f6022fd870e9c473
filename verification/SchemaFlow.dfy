/**
 Schemas from the catalog to Kafka: the server's cache, the client's schema list and the
 table mapper, over whole runs with arbitrary changes to the catalog.

 Every change names the table as the catalog describes it at that moment, so altering,
 renaming, re-keying, dropping and recreating tables are all just different descriptions
 arriving later. The server's cache is replaced by an empty one when the snapshot is over
 and logical decoding starts; a reconnecting client starts with everything empty.
 */
module SchemaFlow {
  import opened Basics
  import opened AvroModel
  import opened Conversion
  import opened Rows
  import opened SchemaCaching
  import opened RetryingWriter
  import opened Frames
  import opened Server
  import opened Client
  import opened KafkaLog
  import opened Mapper

  // ---- From callbacks to Kafka records

  datatype Failure = TooLong | ClientError(code: int) | UnknownTable | MapperError(code: int)

  /** `send_kafka_msg` in Avro format. */
  function Send(tables: Tables, relid: Oid, key: Option<Bytes>, val: Option<Bytes>): Result<Record, Failure> {
    var m := MetaOf(tables, relid);
    if m.None? || m.value.topic.None? then Err(UnknownTable)
    else Ok(Record(m.value.topic.value, AddSchemaPrefix(m.value.keyId, key), AddSchemaPrefix(m.value.rowId, val)))
  }

  /** The producer's callbacks: tables are registered, rows are sent, deletes become tombstones. */
  function Produce(env: Env, tables: Tables, cb: Callback): Result<(Tables, Log), Failure> {
    match cb
    case OnTableSchema(relid, keyJson, rowJson, rowSchema) =>
      var name := if rowSchema.SRecord? then rowSchema.name else "";
      var t := UpdateTables(env, tables, relid, name, keyJson, rowJson);
      if t.Err? then Err(MapperError(t.error)) else Ok((t.value, []))
    case OnInsertRow(relid, key, _, newRow, _) => SendOne(tables, relid, key, Some(newRow))
    case OnUpdateRow(relid, key, _, _, _, newRow, _) => SendOne(tables, relid, key, Some(newRow))
    case OnDeleteRow(relid, key, _, _, _) => if key.None? then Ok((tables, [])) else SendOne(tables, relid, key, None)
    case _ => Ok((tables, []))
  }

  function SendOne(tables: Tables, relid: Oid, key: Option<Bytes>, val: Option<Bytes>): Result<(Tables, Log), Failure> {
    var r := Send(tables, relid, key, val);
    if r.Err? then Err(r.error) else Ok((tables, [r.value]))
  }

  function ProduceAll(env: Env, tables: Tables, cbs: seq<Callback>): Result<(Tables, Log), Failure> {
    if |cbs| == 0 then Ok((tables, []))
    else
      var before := ProduceAll(env, tables, cbs[..|cbs|-1]);
      if before.Err? then before
      else
        var r := Produce(env, before.value.0, cbs[|cbs|-1]);
        if r.Err? then Err(r.error) else Ok((r.value.0, before.value.1 + r.value.1))
  }

  // ---- Runs

  datatype Flow = Flow(server: Entries, client: SchemaList, tables: Tables, log: Log)

  datatype Event = RowChange(rel: Relation, ch: Change) | NewServerCache | Reconnect

  predicate EventOk(e: Event) {
    e.RowChange? ==> RelationOk(e.rel) && ChangeOk(e.rel, e.ch)
  }

  predicate EventsOk(events: seq<Event>) {
    forall i :: 0 <= i < |events| ==> EventOk(events[i])
  }

  /** One event through server, client and producer. */
  function Advance(env: Env, f: Flow, e: Event): Result<Flow, Failure>
    requires EventOk(e)
  {
    match e
    case NewServerCache => Ok(f.(server := map[]))
    case Reconnect => Ok(f.(server := map[], client := [], tables := []))
    case RowChange(rel, ch) =>
      var frame := FrameBytes(env.codec, f.server, rel, ch);
      if frame.None? then Err(TooLong)
      else
        var h := ReadFrame(env.codec, f.client, frame.value);
        if h.Err? then Err(ClientError(h.error))
        else
          var p := ProduceAll(env, f.tables, h.value.1);
          if p.Err? then Err(p.error)
          else Ok(Flow(f.server[rel.relid := EntryFor(rel)], h.value.0, p.value.0, f.log + p.value.1))
  }

  const EMPTY := Flow(map[], [], [], [])

  /** A run up to its last event, or the failure that ended it. */
  function Run(env: Env, events: seq<Event>): Result<Flow, Failure>
    requires EventsOk(events)
  {
    if |events| == 0 then Ok(EMPTY)
    else
      var before := Run(env, events[..|events|-1]);
      if before.Err? then before else Advance(env, before.value, events[|events|-1])
  }

  // ---- What should reach Kafka

  /** A record of the table: the key and row values, encoded with the table's schemas and prefixed with their ids. */
  function RecordFor(env: Env, rel: Relation, key: Option<Value>, row: Option<Value>): Record
    requires key.Some? ==> FreshKeySchema(rel).Some?
  {
    var ks, rs := FreshKeySchema(rel), FreshRowSchema(rel);
    Record(TopicName(env.prefix, rel.name),
           if key.None? then None
           else AddSchemaPrefix(IdOf(env, Some(env.codec.toJson(ks.value))), Some(env.codec.encode(ks.value, key.value))),
           if row.None? then None
           else AddSchemaPrefix(IdOf(env, Some(env.codec.toJson(rs))), Some(env.codec.encode(rs, row.value))))
  }

  /** The records a change stands for, in terms of the table's own values. */
  function Meaning(env: Env, rel: Relation, ch: Change): Log
    requires RelationOk(rel) && ChangeOk(rel, ch)
  {
    match ch
    case Inserted(n) => [RecordFor(env, rel, KeyValue(rel, n), Some(RowValue(rel, n)))]
    case Updated(o, n) =>
      (if o.Some? && KeyIndex(rel).Some? && KeyValue(rel, o.value) != KeyValue(rel, n)
       then [RecordFor(env, rel, KeyValue(rel, o.value), None)] else [])
      + [RecordFor(env, rel, KeyValue(rel, n), Some(RowValue(rel, n)))]
    case Deleted(o) =>
      if o.None? || KeyIndex(rel).None? then [] else [RecordFor(env, rel, KeyValue(rel, o.value), None)]
  }

  // ---- Agreement

  function KeyJson(c: Codec, e: Entry): Option<string> {
    if e.keySchema.None? then None else Some(c.toJson(e.keySchema.value))
  }

  /** The names in the entry's schemas are in order, and the registry has taken their texts. */
  predicate EntryGood(env: Env, e: Entry) {
    && NamesOk(e.rowSchema) && (e.keySchema.Some? ==> NamesOk(e.keySchema.value))
    && TextKnown(env, KeyJson(env.codec, e)) && TextKnown(env, Some(env.codec.toJson(e.rowSchema)))
  }

  /** Neither Kafka nor the registry refuses the table. */
  predicate EntryWelcome(env: Env, e: Entry) {
    && TopicOpens(env, e.name)
    && Accepted(env, e.name, true, KeyJson(env.codec, e))
    && Accepted(env, e.name, false, Some(env.codec.toJson(e.rowSchema)))
  }

  /** The client and the mapper know the table as the server's cache does. */
  ghost predicate AgreeOn(env: Env, f: Flow, relid: Oid)
    requires relid in f.server
  {
    var e := f.server[relid];
    && EntryGood(env, e) && EntryWelcome(env, e)
    && EntryOf(f.client, relid) == Some(SchemaEntry(relid, e.keySchema, e.rowSchema))
    && MetaOf(f.tables, relid)
       == Some(Announced(env, relid, e.name, KeyJson(env.codec, e), env.codec.toJson(e.rowSchema)))
  }

  ghost predicate Agreed(env: Env, f: Flow) {
    && CacheOk(f.server) && TablesOk(env, f.tables)
    && forall r :: r in f.server ==> AgreeOn(env, f, r)
  }

  /** A generated schema is read back from its own text exactly if its names are in order. */
  ghost predicate ReadsGenerated(c: Codec) {
    forall nsName, name, desc ::
      c.fromJson(c.toJson(RecordSchema(nsName, name, desc)))
      == if NamesOk(RecordSchema(nsName, name, desc)) then Some(RecordSchema(nsName, name, desc)) else None
  }

  /** The library, the registry and the JSON reader are what they are assumed to be. */
  ghost predicate EnvOk(env: Env) {
    && Lossless(env.codec) && ReadsGenerated(env.codec) && env.codec.fromJson("").None?
    && OneIdEach(env.registry)
  }

  // ---- Why a change may not get through

  /** Nothing about the change is too long, whether its frame announces the table or not. */
  predicate Sendable(c: Codec, rel: Relation, ch: Change)
    requires RelationOk(rel) && ChangeOk(rel, ch)
  {
    FrameBytes(c, map[], rel, ch).Some? && FrameBytes(c, map[rel.relid := EntryFor(rel)], rel, ch).Some?
  }

  /** The names in the table's schemas are in order. */
  predicate WellNamed(rel: Relation) {
    NamesOk(FreshRowSchema(rel)) && (FreshKeySchema(rel).Some? ==> NamesOk(FreshKeySchema(rel).value))
  }

  predicate Welcome(env: Env, rel: Relation) {
    EntryWelcome(env, EntryFor(rel))
  }

  predicate Passable(env: Env, rel: Relation, ch: Change)
    requires RelationOk(rel) && ChangeOk(rel, ch)
  {
    Sendable(env.codec, rel, ch) && WellNamed(rel) && Welcome(env, rel)
  }

  /** What each failure says about the change that met it. No row meets an unknown table. */
  predicate Cause(env: Env, rel: Relation, ch: Change, error: Failure)
    requires RelationOk(rel) && ChangeOk(rel, ch)
  {
    match error
    case TooLong => !Sendable(env.codec, rel, ch)
    case ClientError(code) => code == EINVAL && !WellNamed(rel)
    case MapperError(_) => !Welcome(env, rel)
    case UnknownTable => false
  }

  predicate AllPassable(env: Env, events: seq<Event>)
    requires EventsOk(events)
  {
    forall i :: 0 <= i < |events| ==> events[i].RowChange? ==> Passable(env, events[i].rel, events[i].ch)
  }

  /** One of the events is a change that explains the failure. */
  ghost predicate Explained(env: Env, events: seq<Event>, error: Failure)
    requires EventsOk(events)
  {
    exists i :: 0 <= i < |events| && events[i].RowChange? && Cause(env, events[i].rel, events[i].ch, error)
  }

  /** The registry has taken the schemas of every table that changed. */
  predicate AllRegistered(env: Env, events: seq<Event>) {
    forall i :: 0 <= i < |events| ==> events[i].RowChange? ==> EntryGood(env, EntryFor(events[i].rel))
  }
}
