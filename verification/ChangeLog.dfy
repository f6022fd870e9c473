/**
 The changes of the database and the table a consumer reads back.

 The database is the set of rows of its keyed tables. A row keeps the description of its
 table under which it was last written, so columns and keys may change between changes.
 Whether replaying the messages still gives the database is decided change by change: it
 does exactly as long as no row is updated or deleted under another table name or key schema
 than the one it was written with.

 Environment: rows written under one key schema have unique keys after every change; an
 update without an old tuple has not changed the key; old tuples carry the old key (their
 other columns may be missing), and deletes of keyed tables carry one.
 */
module ChangeLog {
  import opened Basics
  import opened AvroModel
  import opened Conversion
  import opened Rows
  import opened SchemaCaching
  import opened Server
  import opened KafkaLog
  import opened Mapper
  import opened SchemaFlow
  import opened SchemaAgreement

  datatype Row = Row(rel: Relation, tuple: Tuple)

  type Db = set<Row>

  /** A row of a keyed table. */
  predicate RowOk(r: Row) {
    RelationOk(r.rel) && Fits(r.rel.desc, r.tuple) && KeyIndex(r.rel).Some?
  }

  /** Two rows with the same key under the same key schema. */
  predicate SameRow(a: Row, b: Row)
    requires RowOk(a) && RowOk(b)
  {
    SameKeys(a.rel, b.rel) && KeyValue(a.rel, a.tuple) == KeyValue(b.rel, b.tuple)
  }

  predicate Apart(a: Row, b: Row)
    requires RowOk(a) && RowOk(b)
  {
    SameRow(a, b) ==> a == b
  }

  /** Keys are unique. */
  ghost predicate DbOk(db: Db) {
    && (forall r :: r in db ==> RowOk(r))
    && (forall a, b {:trigger Apart(a, b)} :: a in db && b in db ==> Apart(a, b))
  }

  /** Avro messages are only sent with a registry, and it has taken the table's schemas. */
  ghost predicate Known(env: Env, rel: Relation) {
    env.registry.Registry? && EntryGood(env, EntryFor(rel))
  }

  ghost predicate DbKnown(env: Env, db: Db) {
    forall r {:trigger Known(env, r.rel)} :: r in db ==> Known(env, r.rel)
  }

  // ---- What a row is in Kafka

  function RowKey(env: Env, r: Row): LogKey
    requires RowOk(r)
  {
    var rec := RecordFor(env, r.rel, KeyValue(r.rel, r.tuple), None);
    LogKey(rec.topic, rec.key.value)
  }

  function RowMessage(env: Env, r: Row): Bytes
    requires RowOk(r)
  {
    RecordFor(env, r.rel, KeyValue(r.rel, r.tuple), Some(RowValue(r.rel, r.tuple))).val.value
  }

  predicate Present(env: Env, table: map<LogKey, Bytes>, r: Row) {
    RowOk(r) && RowKey(env, r) in table && table[RowKey(env, r)] == RowMessage(env, r)
  }

  predicate HasKey(env: Env, r: Row, k: LogKey) {
    RowOk(r) && RowKey(env, r) == k
  }

  ghost predicate Owned(env: Env, db: Db, k: LogKey) {
    exists r :: r in db && HasKey(env, r, k)
  }

  /** The consumer's table has exactly the rows of the database, each under its own key. */
  ghost predicate Holds(env: Env, table: map<LogKey, Bytes>, db: Db) {
    && (forall r {:trigger Present(env, table, r)} :: r in db ==> Present(env, table, r))
    && (forall k {:trigger Owned(env, db, k)} :: k in table ==> Owned(env, db, k))
  }

  // ---- Keys in Kafka

  lemma KeyInhabits(r: Row)
    requires RowOk(r)
    ensures Inhabits(FreshKeySchema(r.rel).value, KeyValue(r.rel, r.tuple).value)
  {
    var i := KeyIndex(r.rel).value;
    KeyConforms(i.nsName, i.name, i.desc, r.rel.desc, r.tuple, i.keys);
  }

  lemma TopicInjective(prefix: Option<string>, a: string, b: string)
    ensures TopicName(prefix, a) == TopicName(prefix, b) <==> a == b
  {
    if prefix.Some? {
      var p := prefix.value + ['-'];
      assert (p + a)[|p|..] == a && (p + b)[|p|..] == b;
    }
  }

  lemma PrefixInjective(i: Int32, x: Bytes, j: Int32, y: Bytes)
    ensures AddSchemaPrefix(i, Some(x)) == AddSchemaPrefix(j, Some(y)) <==> i == j && x == y
  {
    PrefixRoundTrip(i, x);
    PrefixRoundTrip(j, y);
  }

  /** Schemas the registry has taken have the same id exactly if they are the same schema. */
  lemma IdsDistinguish(env: Env, s: Schema, t: Schema)
    requires EnvOk(env) && env.registry.Registry?
    requires env.codec.toJson(s) in env.registry.texts && env.codec.toJson(t) in env.registry.texts
    requires env.codec.fromJson(env.codec.toJson(s)) == Some(s) && env.codec.fromJson(env.codec.toJson(t)) == Some(t)
    ensures IdOf(env, Some(env.codec.toJson(s))) == IdOf(env, Some(env.codec.toJson(t))) <==> s == t
  {
  }

  /** Rows have the same Kafka key exactly when they have the same key under the same key schema. */
  lemma RowKeyExact(env: Env, a: Row, b: Row)
    requires EnvOk(env) && RowOk(a) && RowOk(b) && Known(env, a.rel) && Known(env, b.rel)
    ensures RowKey(env, a) == RowKey(env, b) <==> SameRow(a, b)
  {
    TopicInjective(env.prefix, a.rel.name, b.rel.name);
    var s, t := FreshKeySchema(a.rel).value, FreshKeySchema(b.rel).value;
    var v, w := KeyValue(a.rel, a.tuple).value, KeyValue(b.rel, b.tuple).value;
    FreshRead(env, a.rel);
    FreshRead(env, b.rel);
    IdsDistinguish(env, s, t);
    PrefixInjective(IdOf(env, Some(env.codec.toJson(s))), env.codec.encode(s, v),
                    IdOf(env, Some(env.codec.toJson(t))), env.codec.encode(t, w));
    if s == t {
      KeyInhabits(a);
      KeyInhabits(b);
      EncodeInjective(env.codec, s, v, w);
    }
  }

  /**
   One primary key under two descriptions of its table is one Kafka key if and only if the
   table's name and the key schemas are equal. The name of the index is part of the schema,
   so renaming the index changes the key, like renaming the table.
   */
  lemma KeyKeptIff(env: Env, a: Row, b: Row)
    requires EnvOk(env) && RowOk(a) && RowOk(b) && Known(env, a.rel) && Known(env, b.rel)
    requires KeyValue(a.rel, a.tuple) == KeyValue(b.rel, b.tuple)
    ensures RowKey(env, a) == RowKey(env, b) <==> SameKeys(a.rel, b.rel)
  {
    RowKeyExact(env, a, b);
  }

  // ---- Changes

  /**
   A row change: the row of the database it replaces or removes, the row it leaves, and what
   logical decoding reports of it. A row last written without a key is not in the database.
   */
  datatype Mod = Mod(before: Option<Row>, after: Option<Row>, rel: Relation, ch: Change)

  /** The two descriptions put rows under the same keys: the table's name and the key's schema are the same. */
  predicate SameKeys(a: Relation, b: Relation) {
    a.name == b.name && FreshKeySchema(a) == FreshKeySchema(b)
  }

  /** The row is changed under the table name and key schema it was written with. */
  predicate KeepsKey(m: Mod) {
    m.before.None? || SameKeys(m.before.value.rel, m.rel)
  }

  predicate HasKeyOf(rel: Relation, t: Tuple, r: Row)
    requires RelationOk(rel) && Fits(rel.desc, t) && RowOk(r)
  {
    KeyValue(rel, t) == KeyValue(r.rel, r.tuple)
  }

  /** What the report must carry of a row that is changed under its own key schema. */
  predicate OldKeyReported(m: Mod)
    requires RelationOk(m.rel) && ChangeOk(m.rel, m.ch) && m.before.Some? && RowOk(m.before.value)
  {
    match m.ch
    case Inserted(_) => false
    case Updated(o, n) => HasKeyOf(m.rel, if o.Some? then o.value else n, m.before.value)
    case Deleted(o) => o.Some? && HasKeyOf(m.rel, o.value, m.before.value)
  }

  predicate Reported(m: Mod) {
    && RelationOk(m.rel) && ChangeOk(m.rel, m.ch)
    && m.after == (if KeyIndex(m.rel).None? || m.ch.Deleted? then None else Some(Row(m.rel, m.ch.newTuple)))
    && (m.before.Some? ==> RowOk(m.before.value) && !m.ch.Inserted?)
    && (m.before.Some? && KeepsKey(m) ==> OldKeyReported(m))
  }

  /** The key the change erases, if it is reported. */
  function OldRow(m: Mod): Option<Row> {
    if KeyIndex(m.rel).None? || m.ch.Inserted? || m.ch.oldTuple.None? then None
    else Some(Row(m.rel, m.ch.oldTuple.value))
  }

  /** The reported old key of a row that was not in the database is nobody's in it. */
  ghost predicate OldKeyFree(db: Db, m: Mod)
    requires Reported(m)
  {
    m.before.None? && OldRow(m).Some? ==>
      forall r :: r in db && RowOk(r) ==> !SameRow(r, OldRow(m).value)
  }

  function AsSet(r: Option<Row>): Db {
    if r.None? then {} else {r.value}
  }

  function Apply(db: Db, m: Mod): Db {
    db - AsSet(m.before) + AsSet(m.after)
  }

  ghost predicate ModOk(db: Db, m: Mod) {
    Reported(m) && AsSet(m.before) <= db && OldKeyFree(db, m) && DbOk(Apply(db, m))
  }

  function ApplyAll(mods: seq<Mod>): Db {
    if |mods| == 0 then {} else Apply(ApplyAll(mods[..|mods|-1]), mods[|mods|-1])
  }

  predicate AllReported(mods: seq<Mod>) {
    forall i :: 0 <= i < |mods| ==> Reported(mods[i])
  }

  ghost predicate AllKnown(env: Env, mods: seq<Mod>) {
    forall i :: 0 <= i < |mods| ==> Known(env, mods[i].rel)
  }

  predicate AllKeepKeys(mods: seq<Mod>) {
    forall i :: 0 <= i < |mods| ==> KeepsKey(mods[i])
  }

  /** The changes can happen one after another, starting from empty tables. */
  ghost predicate HistoryOk(mods: seq<Mod>) {
    && AllReported(mods)
    && (|mods| > 0 ==> HistoryOk(mods[..|mods|-1]) && ModOk(ApplyAll(mods[..|mods|-1]), mods[|mods|-1]))
  }

  /** What the changes are in Kafka. */
  function Messages(env: Env, mods: seq<Mod>): Log
    requires AllReported(mods)
  {
    if |mods| == 0 then []
    else Messages(env, mods[..|mods|-1]) + Meaning(env, mods[|mods|-1].rel, mods[|mods|-1].ch)
  }

  // ---- Records and the consumer's table

  function Erase(env: Env, r: Row): Record
    requires RowOk(r)
  {
    RecordFor(env, r.rel, KeyValue(r.rel, r.tuple), None)
  }

  function Write(env: Env, r: Row): Record
    requires RowOk(r)
  {
    RecordFor(env, r.rel, KeyValue(r.rel, r.tuple), Some(RowValue(r.rel, r.tuple)))
  }

  lemma FoldErase(env: Env, log: Log, r: Row)
    requires RowOk(r)
    ensures Fold(log + [Erase(env, r)]) == Fold(log) - {RowKey(env, r)}
  {
    assert (log + [Erase(env, r)])[..|log|] == log;
  }

  lemma FoldWrite(env: Env, log: Log, r: Row)
    requires RowOk(r)
    ensures Fold(log + [Write(env, r)]) == Fold(log)[RowKey(env, r) := RowMessage(env, r)]
  {
    assert (log + [Write(env, r)])[..|log|] == log;
  }

  lemma FoldKeyless(log: Log, r: Record)
    requires r.key.None?
    ensures Fold(log + [r]) == Fold(log)
  {
    assert (log + [r])[..|log|] == log;
  }

  /** No other row of the database has this row's key in Kafka. */
  ghost predicate AloneWithKey(env: Env, db: Db, b: Row)
    requires RowOk(b)
  {
    forall r {:trigger HasKey(env, r, RowKey(env, b))} :: r in db && r != b ==> !HasKey(env, r, RowKey(env, b))
  }

  lemma KeysApart(env: Env, db: Db, b: Row)
    requires EnvOk(env) && DbOk(db) && DbKnown(env, db) && b in db
    ensures AloneWithKey(env, db, b)
  {
    forall r | r in db && r != b
      ensures RowKey(env, r) != RowKey(env, b)
    {
      assert Apart(r, b) && Known(env, r.rel) && Known(env, b.rel);
      RowKeyExact(env, r, b);
    }
  }

  /** Deleting a row's key leaves the other rows. */
  lemma HoldsRemoved(env: Env, table: map<LogKey, Bytes>, db: Db, b: Row)
    requires Holds(env, table, db) && b in db && RowOk(b) && AloneWithKey(env, db, b)
    ensures Holds(env, table - {RowKey(env, b)}, db - {b})
  {
    var db', t', kb := db - {b}, table - {RowKey(env, b)}, RowKey(env, b);
    forall r | r in db'
      ensures Present(env, t', r)
    {
      assert Present(env, table, r);
      assert !HasKey(env, r, kb);
    }
    forall k | k in t'
      ensures Owned(env, db', k)
    {
      assert Owned(env, db, k);
      var r :| r in db && HasKey(env, r, k);
      assert r in db';
    }
  }

  /** Writing a row under its key, which no other row has. */
  lemma HoldsAdded(env: Env, table: map<LogKey, Bytes>, db: Db, a: Row)
    requires Holds(env, table, db) && RowOk(a) && AloneWithKey(env, db + {a}, a)
    ensures Holds(env, table[RowKey(env, a) := RowMessage(env, a)], db + {a})
  {
    var db', ka := db + {a}, RowKey(env, a);
    var t' := table[ka := RowMessage(env, a)];
    assert a in db' && HasKey(env, a, ka);
    forall r | r in db'
      ensures Present(env, t', r)
    {
      if r != a {
        assert Present(env, table, r);
        assert !HasKey(env, r, ka);
      }
    }
    forall k | k in t'
      ensures Owned(env, db', k)
    {
      if k != ka {
        assert Owned(env, db, k);
        var r :| r in db && HasKey(env, r, k);
        assert r in db';
      }
    }
  }

  /** Erasing a key nobody has changes nothing. */
  lemma HoldsErasedFree(env: Env, table: map<LogKey, Bytes>, db: Db, k: LogKey)
    requires Holds(env, table, db) && !Owned(env, db, k)
    ensures table - {k} == table
  {
  }

  /** An update in place: the row's key stays, and its value is overwritten. */
  lemma HoldsOverwritten(env: Env, table: map<LogKey, Bytes>, db: Db, b: Row, a: Row)
    requires Holds(env, table, db) && b in db && RowOk(a) && RowOk(b) && RowKey(env, a) == RowKey(env, b)
    requires AloneWithKey(env, db, b) && AloneWithKey(env, db - {b} + {a}, a)
    ensures Holds(env, table[RowKey(env, a) := RowMessage(env, a)], db - {b} + {a})
  {
    var k, m := RowKey(env, a), RowMessage(env, a);
    HoldsRemoved(env, table, db, b);
    HoldsAdded(env, table - {k}, db - {b}, a);
    assert (table - {k})[k := m] == table[k := m];
  }

  // ---- One change

  /** What every step below starts from. */
  ghost predicate Ready(env: Env, log: Log, db: Db, m: Mod) {
    && EnvOk(env) && DbOk(db) && DbKnown(env, db) && Holds(env, Fold(log), db)
    && ModOk(db, m) && Known(env, m.rel)
  }

  lemma OldKeyNotOwned(env: Env, db: Db, m: Mod)
    requires EnvOk(env) && DbOk(db) && DbKnown(env, db) && ModOk(db, m) && Known(env, m.rel)
    requires m.before.None? && OldRow(m).Some?
    ensures RowOk(OldRow(m).value) && !Owned(env, db, RowKey(env, OldRow(m).value))
  {
    var o := OldRow(m).value;
    assert RowOk(o);
    forall r | r in db
      ensures !HasKey(env, r, RowKey(env, o))
    {
      assert Known(env, r.rel) && !SameRow(r, o);
      RowKeyExact(env, r, o);
    }
  }

  lemma OldKeyIsBefore(env: Env, db: Db, m: Mod, t: Tuple)
    requires EnvOk(env) && DbKnown(env, db) && Known(env, m.rel) && RelationOk(m.rel) && Fits(m.rel.desc, t)
    requires m.before.Some? && m.before.value in db && RowOk(m.before.value) && KeepsKey(m) && HasKeyOf(m.rel, t, m.before.value)
    ensures RowOk(Row(m.rel, t)) && RowKey(env, Row(m.rel, t)) == RowKey(env, m.before.value)
  {
    assert Known(env, m.before.value.rel);
    assert KeyIndex(m.rel).Some?;
    RowKeyExact(env, Row(m.rel, t), m.before.value);
  }

  lemma AfterAlone(env: Env, db: Db, m: Mod)
    requires EnvOk(env) && DbKnown(env, db) && ModOk(db, m) && Known(env, m.rel) && m.after.Some?
    ensures RowOk(m.after.value) && AloneWithKey(env, Apply(db, m), m.after.value)
  {
    var a := m.after.value;
    assert a in Apply(db, m);
    forall r | r in Apply(db, m)
      ensures Known(env, r.rel)
    {
      if r != a { assert r in db; }
    }
    KeysApart(env, Apply(db, m), a);
  }

  /** The old key is reported, differs from the new one, and is nobody's: erasing it changes nothing. */
  lemma ErasedAndWritten(env: Env, log: Log, db: Db, m: Mod)
    requires EnvOk(env) && DbOk(db) && DbKnown(env, db) && Holds(env, Fold(log), db) && ModOk(db, m) && Known(env, m.rel)
    requires m.before.None? && m.ch.Updated? && OldRow(m).Some? && m.after.Some?
    requires KeyValue(m.rel, m.ch.oldTuple.value) != KeyValue(m.rel, m.ch.newTuple)
    ensures RowOk(m.after.value)
    ensures Fold(log + Meaning(env, m.rel, m.ch)) == Fold(log)[RowKey(env, m.after.value) := RowMessage(env, m.after.value)]
  {
    OldKeyNotOwned(env, db, m);
    HoldsErasedFree(env, Fold(log), db, RowKey(env, OldRow(m).value));
    FoldErasedWritten(env, log, OldRow(m).value, m.after.value);
    MovedMeaning(env, m);
  }

  lemma MovedMeaning(env: Env, m: Mod)
    requires Reported(m) && m.ch.Updated? && OldRow(m).Some? && m.after.Some?
    requires KeyValue(m.rel, m.ch.oldTuple.value) != KeyValue(m.rel, m.ch.newTuple)
    ensures RowOk(OldRow(m).value) && RowOk(m.after.value)
    ensures Meaning(env, m.rel, m.ch) == [Erase(env, OldRow(m).value)] + [Write(env, m.after.value)]
  {
  }

  lemma FoldErasedWritten(env: Env, log: Log, o: Row, a: Row)
    requires RowOk(o) && RowOk(a)
    ensures Fold(log + ([Erase(env, o)] + [Write(env, a)]))
         == (Fold(log) - {RowKey(env, o)})[RowKey(env, a) := RowMessage(env, a)]
  {
    FoldErase(env, log, o);
    FoldWrite(env, log + [Erase(env, o)], a);
    ConcatAssoc(log, [Erase(env, o)], [Write(env, a)]);
  }

  lemma JustWritten(env: Env, log: Log, m: Mod)
    requires Reported(m) && m.after.Some?
    requires m.ch.Updated? && OldRow(m).Some? ==> KeyValue(m.rel, m.ch.oldTuple.value) == KeyValue(m.rel, m.ch.newTuple)
    ensures RowOk(m.after.value)
    ensures Fold(log + Meaning(env, m.rel, m.ch)) == Fold(log)[RowKey(env, m.after.value) := RowMessage(env, m.after.value)]
  {
    FoldWrite(env, log, m.after.value);
    assert Meaning(env, m.rel, m.ch) == [Write(env, m.after.value)];
  }

  /** A row that comes into the database: an insert, or an update of a row last written without a key. */
  lemma NewRowHolds(env: Env, log: Log, db: Db, m: Mod)
    requires Ready(env, log, db, m) && m.before.None? && m.after.Some?
    ensures Holds(env, Fold(log + Meaning(env, m.rel, m.ch)), Apply(db, m))
  {
    var a := m.after.value;
    AfterAlone(env, db, m);
    assert Apply(db, m) == db + {a};
    HoldsAdded(env, Fold(log), db, a);
    if m.ch.Updated? && OldRow(m).Some? && KeyValue(m.rel, m.ch.oldTuple.value) != KeyValue(m.rel, a.tuple) {
      ErasedAndWritten(env, log, db, m);
    } else {
      JustWritten(env, log, m);
    }
  }

  /** A row that stays in the database, under its own key schema. */
  lemma UpdatedRowHolds(env: Env, log: Log, db: Db, m: Mod)
    requires Ready(env, log, db, m) && m.before.Some? && KeepsKey(m) && m.after.Some?
    ensures Holds(env, Fold(log + Meaning(env, m.rel, m.ch)), Apply(db, m))
  {
    var a, b, o := m.after.value, m.before.value, m.ch.oldTuple;
    assert b in db && Apply(db, m) == db - {b} + {a};
    AfterAlone(env, db, m);
    KeysApart(env, db, b);
    OldKeyIsBefore(env, db, m, if o.Some? then o.value else a.tuple);
    if o.Some? && KeyValue(m.rel, o.value) != KeyValue(m.rel, a.tuple) {
      var prior := Row(m.rel, o.value);
      FoldErase(env, log, prior);
      FoldWrite(env, log + [Erase(env, prior)], a);
      ConcatAssoc(log, [Erase(env, prior)], [Write(env, a)]);
      assert Meaning(env, m.rel, m.ch) == [Erase(env, prior)] + [Write(env, a)];
      HoldsRemoved(env, Fold(log), db, b);
      HoldsAdded(env, Fold(log) - {RowKey(env, b)}, db - {b}, a);
    } else {
      SameKeyOverwrites(env, db, m);
      FoldWrite(env, log, a);
      assert Meaning(env, m.rel, m.ch) == [Write(env, a)];
      HoldsOverwritten(env, Fold(log), db, b, a);
    }
  }

  lemma SameKeyOverwrites(env: Env, db: Db, m: Mod)
    requires EnvOk(env) && DbKnown(env, db) && Known(env, m.rel) && ModOk(db, m)
    requires m.ch.Updated? && m.before.Some? && KeepsKey(m) && m.after.Some?
    requires m.ch.oldTuple.None? || KeyValue(m.rel, m.ch.oldTuple.value) == KeyValue(m.rel, m.ch.newTuple)
    ensures RowKey(env, m.after.value) == RowKey(env, m.before.value)
  {
    assert m.before.value in db;
    OldKeyIsBefore(env, db, m, m.ch.newTuple);
  }

  /** A row that leaves the database, or was never in it. */
  lemma DeletedRowHolds(env: Env, log: Log, db: Db, m: Mod)
    requires Ready(env, log, db, m) && KeepsKey(m) && m.ch.Deleted?
    ensures Holds(env, Fold(log + Meaning(env, m.rel, m.ch)), Apply(db, m))
  {
    if OldRow(m).None? {
      assert m.before.None? && Apply(db, m) == db;
      assert log + [] == log;
    } else {
      var o := OldRow(m).value;
      FoldErase(env, log, o);
      assert Meaning(env, m.rel, m.ch) == [Erase(env, o)];
      if m.before.None? {
        assert Apply(db, m) == db;
        OldKeyNotOwned(env, db, m);
        HoldsErasedFree(env, Fold(log), db, RowKey(env, o));
      } else {
        var b := m.before.value;
        assert b in db && Apply(db, m) == db - {b};
        OldKeyIsBefore(env, db, m, o.tuple);
        KeysApart(env, db, b);
        HoldsRemoved(env, Fold(log), db, b);
      }
    }
  }

  /** Tables without a key send records without a key, or nothing: no consumer's table has them. */
  lemma UnkeyedHolds(env: Env, log: Log, db: Db, m: Mod)
    requires Reported(m) && KeyIndex(m.rel).None? && m.before.None?
    ensures Fold(log + Meaning(env, m.rel, m.ch)) == Fold(log) && Apply(db, m) == db
  {
    match m.ch
    case Inserted(n) => FoldKeyless(log, RecordFor(env, m.rel, None, Some(RowValue(m.rel, n))));
    case Updated(o, n) =>
      var r := RecordFor(env, m.rel, None, Some(RowValue(m.rel, n)));
      FoldKeyless(log, r);
      assert Meaning(env, m.rel, m.ch) == [r];
    case Deleted(o) => assert log + [] == log;
  }

  lemma OtherSchemaOtherKey(env: Env, r: Row, b: Row)
    requires EnvOk(env) && RowOk(r) && RowOk(b) && Known(env, r.rel) && Known(env, b.rel)
    requires !SameKeys(r.rel, b.rel)
    ensures !Writes(Erase(env, r), RowKey(env, b)) && !Writes(Write(env, r), RowKey(env, b))
  {
    RowKeyExact(env, r, b);
  }

  /** The records of a change to a keyed table: the old key erased, the new row written. */
  lemma MeaningRecords(env: Env, m: Mod, i: nat)
    requires RelationOk(m.rel) && ChangeOk(m.rel, m.ch) && i < |Meaning(env, m.rel, m.ch)|
    ensures var r := Meaning(env, m.rel, m.ch)[i];
            || r.key.None?
            || (OldRow(m).Some? && RowOk(OldRow(m).value) && r == Erase(env, OldRow(m).value))
            || (!m.ch.Deleted? && RowOk(Row(m.rel, m.ch.newTuple)) && r == Write(env, Row(m.rel, m.ch.newTuple)))
  {
  }

  /** Every record of a change is under a key of the change's own key schema. */
  lemma MeaningKeys(env: Env, m: Mod, b: Row, i: nat)
    requires EnvOk(env) && RowOk(b) && Known(env, b.rel) && Known(env, m.rel)
    requires RelationOk(m.rel) && ChangeOk(m.rel, m.ch) && i < |Meaning(env, m.rel, m.ch)|
    requires !SameKeys(b.rel, m.rel)
    ensures !Writes(Meaning(env, m.rel, m.ch)[i], RowKey(env, b))
  {
    var r := Meaning(env, m.rel, m.ch)[i];
    MeaningRecords(env, m, i);
    if r.key.Some? {
      if OldRow(m).Some? && RowOk(OldRow(m).value) && r == Erase(env, OldRow(m).value) {
        OtherSchemaOtherKey(env, OldRow(m).value, b);
      } else {
        OtherSchemaOtherKey(env, Row(m.rel, m.ch.newTuple), b);
      }
    }
  }

  lemma StaleKeyStays(env: Env, log: Log, m: Mod, b: Row)
    requires EnvOk(env) && Reported(m) && RowOk(b) && Known(env, b.rel) && Known(env, m.rel)
    requires !SameKeys(b.rel, m.rel) && RowKey(env, b) in Fold(log)
    ensures RowKey(env, b) in Fold(log + Meaning(env, m.rel, m.ch))
  {
    var msgs := Meaning(env, m.rel, m.ch);
    forall i | 0 <= i < |msgs|
      ensures !Writes(msgs[i], RowKey(env, b))
    {
      MeaningKeys(env, m, b, i);
    }
    UntouchedKey(log, msgs, RowKey(env, b));
  }

  lemma StaleKeyUnowned(env: Env, db: Db, m: Mod, b: Row)
    requires EnvOk(env) && RowOk(b) && Known(env, b.rel) && Known(env, m.rel) && Reported(m)
    requires AloneWithKey(env, db, b) && m.before == Some(b) && !SameKeys(b.rel, m.rel)
    ensures !Owned(env, Apply(db, m), RowKey(env, b))
  {
    if m.after.Some? && RowOk(m.after.value) { RowKeyExact(env, m.after.value, b); }
    RemovedKeyUnowned(env, db, b, m.after);
  }

  /** The row alone had its key, and the one that replaces it, if any, does not have it. */
  lemma RemovedKeyUnowned(env: Env, db: Db, b: Row, after: Option<Row>)
    requires RowOk(b) && AloneWithKey(env, db, b)
    requires after.Some? ==> !HasKey(env, after.value, RowKey(env, b))
    ensures !Owned(env, db - {b} + AsSet(after), RowKey(env, b))
  {
    forall r | r in db - {b} + AsSet(after)
      ensures !HasKey(env, r, RowKey(env, b))
    {
      assert after == Some(r) || (r in db && r != b);
    }
  }

  /** A row changed under another table name or key schema leaves its old record behind. */
  lemma RekeyedRowStays(env: Env, log: Log, db: Db, m: Mod)
    requires Ready(env, log, db, m) && !KeepsKey(m)
    ensures !Holds(env, Fold(log + Meaning(env, m.rel, m.ch)), Apply(db, m))
  {
    var b := m.before.value;
    assert b in db && Known(env, b.rel) && Present(env, Fold(log), b);
    KeysApart(env, db, b);
    StaleKeyStays(env, log, m, b);
    StaleKeyUnowned(env, db, m, b);
  }

  /**
   When a change keeps the consumer's table equal to the database: exactly if the row it
   replaces or removes, if there is one, was written under the name and the key schema the
   table has now.
   */
  lemma ChangeHoldsIff(env: Env, log: Log, db: Db, m: Mod)
    requires Ready(env, log, db, m)
    ensures Holds(env, Fold(log + Meaning(env, m.rel, m.ch)), Apply(db, m)) <==> KeepsKey(m)
  {
    if !KeepsKey(m) {
      RekeyedRowStays(env, log, db, m);
    } else if KeyIndex(m.rel).None? {
      UnkeyedHolds(env, log, db, m);
    } else if m.ch.Deleted? {
      DeletedRowHolds(env, log, db, m);
    } else if m.before.None? {
      NewRowHolds(env, log, db, m);
    } else {
      UpdatedRowHolds(env, log, db, m);
    }
  }

  // ---- Whole histories

  lemma {:induction false} HistoryIsOk(env: Env, mods: seq<Mod>)
    requires HistoryOk(mods) && AllKnown(env, mods)
    ensures DbOk(ApplyAll(mods)) && DbKnown(env, ApplyAll(mods))
  {
    if |mods| > 0 {
      var n := |mods| - 1;
      HistoryIsOk(env, mods[..n]);
      forall r | r in ApplyAll(mods)
        ensures Known(env, r.rel)
      {
        if r !in ApplyAll(mods[..n]) { assert mods[n].after == Some(r); }
      }
    }
  }

  ghost predicate HoldsAfter(env: Env, mods: seq<Mod>)
    requires AllReported(mods)
  {
    Holds(env, Fold(Messages(env, mods)), ApplyAll(mods))
  }

  lemma NextHoldsIff(env: Env, mods: seq<Mod>)
    requires EnvOk(env) && HistoryOk(mods) && AllKnown(env, mods) && |mods| > 0 && HoldsAfter(env, mods[..|mods|-1])
    ensures HoldsAfter(env, mods) <==> KeepsKey(mods[|mods|-1])
  {
    var n := |mods| - 1;
    assert AllKnown(env, mods[..n]);
    HistoryIsOk(env, mods[..n]);
    ChangeHoldsIff(env, Messages(env, mods[..n]), ApplyAll(mods[..n]), mods[n]);
  }

  /**
   Replaying the log gives the database: for every history of inserts, updates and deletes
   over any number of tables in which no row is changed under another name or key schema of
   its table than its own, the last write under each key is the row that has that key now, and there is a key
   for every row and for nothing else.
   */
  lemma {:induction false} ReplayIsDatabase(env: Env, mods: seq<Mod>)
    requires EnvOk(env) && HistoryOk(mods) && AllKnown(env, mods) && AllKeepKeys(mods)
    ensures HoldsAfter(env, mods)
  {
    if |mods| > 0 {
      ReplayIsDatabase(env, mods[..|mods|-1]);
      NextHoldsIff(env, mods);
    }
  }

  lemma KeepKeysSplit(env: Env, mods: seq<Mod>)
    requires |mods| > 0 && AllKnown(env, mods)
    ensures AllKnown(env, mods[..|mods|-1])
    ensures AllKeepKeys(mods) <==> AllKeepKeys(mods[..|mods|-1]) && KeepsKey(mods[|mods|-1])
  {
    var before := mods[..|mods|-1];
    assert forall i :: 0 <= i < |before| ==> before[i] == mods[i];
    if AllKeepKeys(before) && KeepsKey(mods[|mods|-1]) {
      forall i | 0 <= i < |mods|
        ensures KeepsKey(mods[i])
      {
        assert i < |before| ==> KeepsKey(before[i]);
      }
    }
  }

  ghost predicate AlwaysHolds(env: Env, mods: seq<Mod>)
    requires HistoryOk(mods)
  {
    HoldsAfter(env, mods) && (|mods| > 0 ==> AlwaysHolds(env, mods[..|mods|-1]))
  }

  /** The condition is exact: replay gives the database after every change if and only if no change breaks it. */
  lemma {:induction false} ReplayHoldsIff(env: Env, mods: seq<Mod>)
    requires EnvOk(env) && HistoryOk(mods) && AllKnown(env, mods)
    ensures AlwaysHolds(env, mods) <==> AllKeepKeys(mods)
  {
    if |mods| > 0 {
      var n := |mods| - 1;
      KeepKeysSplit(env, mods);
      ReplayHoldsIff(env, mods[..n]);
      if AlwaysHolds(env, mods[..n]) { NextHoldsIff(env, mods); }
    } else {
      ReplayIsDatabase(env, mods);
    }
  }

  /** A row's message and key read back as the row's own values. */
  lemma RowReadsBack(env: Env, r: Row)
    requires EnvOk(env) && RowOk(r) && Known(env, r.rel)
    ensures ReadsAs(env, RowMessage(env, r), FreshRowSchema(r.rel), RowValue(r.rel, r.tuple))
    ensures ReadsAs(env, RowKey(env, r).key, FreshKeySchema(r.rel).value, KeyValue(r.rel, r.tuple).value)
  {
    RecordReadsBack(env, r.rel, r.tuple);
  }

  /** So the consumer finds every row under its key, and reads the row's values back. */
  lemma ReplayReadsBack(env: Env, mods: seq<Mod>, r: Row)
    requires EnvOk(env) && HistoryOk(mods) && AllKnown(env, mods) && AllKeepKeys(mods) && r in ApplyAll(mods)
    ensures RowOk(r) && RowKey(env, r) in Fold(Messages(env, mods))
    ensures ReadsAs(env, Fold(Messages(env, mods))[RowKey(env, r)], FreshRowSchema(r.rel), RowValue(r.rel, r.tuple))
  {
    var table := Fold(Messages(env, mods));
    assert Present(env, table, r) by { ReplayIsDatabase(env, mods); }
    assert Known(env, r.rel) by { HistoryIsOk(env, mods); }
    RowReadsBack(env, r);
  }

  // ---- A table that gets another name or key schema

  function InsertOf(a: Row): Mod {
    Mod(None, Some(a), a.rel, Inserted(a.tuple))
  }

  /** An update that leaves the key alone. */
  function UpdateTo(a: Row, b: Row): Mod {
    Mod(Some(a), Some(b), b.rel, Updated(None, b.tuple))
  }

  lemma InsertPossible(a: Row)
    requires RowOk(a)
    ensures ModOk({}, InsertOf(a)) && Apply({}, InsertOf(a)) == {a}
  {
    assert Apply({}, InsertOf(a)) == {a};
  }

  lemma UpdatePossible(a: Row, b: Row)
    requires RowOk(a) && RowOk(b) && KeyValue(a.rel, a.tuple) == KeyValue(b.rel, b.tuple)
    ensures ModOk({a}, UpdateTo(a, b)) && Apply({a}, UpdateTo(a, b)) == {b}
  {
    assert Apply({a}, UpdateTo(a, b)) == {b};
  }

  lemma InsertUpdatePossible(a: Row, b: Row)
    requires RowOk(a) && RowOk(b) && KeyValue(a.rel, a.tuple) == KeyValue(b.rel, b.tuple)
    ensures HistoryOk([InsertOf(a)]) && HistoryOk([InsertOf(a), UpdateTo(a, b)])
    ensures [InsertOf(a), UpdateTo(a, b)][..1] == [InsertOf(a)]
  {
    InsertPossible(a);
    UpdatePossible(a, b);
    var one, two := [InsertOf(a)], [InsertOf(a), UpdateTo(a, b)];
    assert one[..0] == [] && two[..1] == one;
    assert ApplyAll(one) == {a};
  }

  /**
   A table that is renamed or whose key schema changes: after an insert and an update that
   leaves the key alone, Kafka's log has two rows where the database has one.
   */
  lemma RekeyedTableKeepsOldRecords(env: Env, a: Row, b: Row)
    requires EnvOk(env) && RowOk(a) && RowOk(b) && Known(env, a.rel) && Known(env, b.rel)
    requires KeyValue(a.rel, a.tuple) == KeyValue(b.rel, b.tuple)
    ensures HistoryOk([InsertOf(a), UpdateTo(a, b)])
    ensures HoldsAfter(env, [InsertOf(a), UpdateTo(a, b)]) <==> SameKeys(a.rel, b.rel)
  {
    InsertUpdatePossible(a, b);
    InsertUpdateKnown(env, a, b);
    ReplayIsDatabase(env, [InsertOf(a)]);
    NextHoldsIff(env, [InsertOf(a), UpdateTo(a, b)]);
  }

  lemma InsertUpdateKnown(env: Env, a: Row, b: Row)
    requires Known(env, a.rel) && Known(env, b.rel)
    ensures AllKnown(env, [InsertOf(a)]) && AllKnown(env, [InsertOf(a), UpdateTo(a, b)]) && AllKeepKeys([InsertOf(a)])
  {
  }

  // ---- Keys and key columns

  function KeyColumns(r: Row): seq<Option<Datum>>
    requires RowOk(r)
  {
    var keys := KeyIndex(r.rel).value.keys;
    seq(|keys|, f requires 0 <= f < |keys| => r.tuple[keys[f]-1])
  }

  function KeyTypes(rel: Relation): seq<PgType>
    requires RelationOk(rel) && KeyIndex(rel).Some?
  {
    var keys := KeyIndex(rel).value.keys;
    seq(|keys|, f requires 0 <= f < |keys| => rel.desc[keys[f]-1].typ)
  }

  /** Descriptions with the same key types, none numeric: the converted keys are equal exactly if the columns are. */
  lemma SameColumnsSameKey(a: Row, b: Row)
    requires RowOk(a) && RowOk(b) && KeyTypes(a.rel) == KeyTypes(b.rel)
    requires !NumericKey(a.rel.desc, KeyIndex(a.rel).value.keys)
    ensures KeyValue(a.rel, a.tuple) == KeyValue(b.rel, b.tuple) <==> KeyColumns(a) == KeyColumns(b)
  {
    var ka, kb := KeyIndex(a.rel).value.keys, KeyIndex(b.rel).value.keys;
    var va, vb := KeyValues(a.rel.desc, a.tuple, ka), KeyValues(b.rel.desc, b.tuple, kb);
    assert |ka| == |kb| by { assert |KeyTypes(a.rel)| == |KeyTypes(b.rel)|; }
    forall f | 0 <= f < |ka|
      ensures va[f] == vb[f] <==> KeyColumns(a)[f] == KeyColumns(b)[f]
    {
      assert KeyTypes(a.rel)[f] == KeyTypes(b.rel)[f];
      ColumnInjective(a.rel.desc[ka[f]-1].typ, a.tuple[ka[f]-1], b.tuple[kb[f]-1]);
    }
    assert va == vb <==> forall f :: 0 <= f < |ka| ==> va[f] == vb[f];
  }

  /** Rows under the same keys have the same key types, none numeric, and differ in their key columns. */
  predicate ColumnsApart(a: Row, b: Row)
    requires RowOk(a) && RowOk(b)
  {
    SameKeys(a.rel, b.rel) ==>
      && KeyTypes(a.rel) == KeyTypes(b.rel) && !NumericKey(a.rel.desc, KeyIndex(a.rel).value.keys)
      && (KeyColumns(a) == KeyColumns(b) ==> a == b)
  }

  /** Unique key columns give unique keys, also for rows written under different descriptions. */
  lemma UniqueColumnsUniqueKeys(db: Db)
    requires forall r :: r in db ==> RowOk(r)
    requires forall a, b {:trigger ColumnsApart(a, b)} :: a in db && b in db ==> ColumnsApart(a, b)
    ensures DbOk(db)
  {
    forall a, b | a in db && b in db
      ensures Apart(a, b)
    {
      assert ColumnsApart(a, b);
      if SameRow(a, b) { SameColumnsSameKey(a, b); }
    }
  }
}
