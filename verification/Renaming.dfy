/**
 Renaming, as histories in which replay fails: a table with one integer column, keyed by it,
 gets a row; its primary key's index or the table itself is renamed; then the row is updated.
 All assumptions are met, and Kafka's log has the row twice.
 */
module Renaming {
  import opened Basics
  import opened AvroModel
  import opened Conversion
  import opened Rows
  import opened SchemaNames
  import opened SchemaCaching
  import opened Server
  import opened Mapper
  import opened SchemaFlow
  import opened SchemaAgreement
  import opened ChangeLog
  import opened Assumptions

  const DESC: TupleDesc := [Attr("id", PgInt4, false, 0)]

  const ONE: Tuple := [Some(DInt32(1))]

  function PrimaryKey(name: string): Index {
    Index(2, 1, "public", name, DESC, [1], true, true, true)
  }

  function Numbers(name: string, indexName: string): Relation {
    Relation(3, 1, "public", name, DESC, Default, None, [PrimaryKey(indexName)])
  }

  lemma NumbersKeyed(name: string, indexName: string)
    ensures KeyIndex(Numbers(name, indexName)) == Some(PrimaryKey(indexName)) && RowOk(Row(Numbers(name, indexName), ONE))
    ensures KeyValue(Numbers(name, indexName), ONE) == Some(VRecord([ColumnValue(PgInt4, Some(DInt32(1)))]))
    ensures FreshKeySchema(Numbers(name, indexName)) == Some(RecordSchema("public", indexName, DESC))
  {
    var rel := Numbers(name, indexName);
    assert rel.indexes[0] == PrimaryKey(indexName);
    assert KeyValues(DESC, ONE, [1]) == [ColumnValue(PgInt4, Some(DInt32(1)))];
  }

  lemma NumbersNamed(name: string, indexName: string)
    requires name != "SpecialTime" && indexName != "SpecialTime"
    ensures WellNamed(Numbers(name, indexName))
  {
    NumbersKeyed(name, indexName);
    WellNamedIff(Numbers(name, indexName));
  }

  /** One row, under two names of the table and of its index. */
  lemma RenamedRows(name: string, indexName: string, name': string, indexName': string) returns (a: Row, b: Row)
    requires name != "SpecialTime" && indexName != "SpecialTime" && name' != "SpecialTime" && indexName' != "SpecialTime"
    ensures a == Row(Numbers(name, indexName), ONE) && b == Row(Numbers(name', indexName'), ONE)
    ensures RowOk(a) && RowOk(b) && WellNamed(a.rel) && WellNamed(b.rel)
    ensures KeyValue(a.rel, a.tuple) == KeyValue(b.rel, b.tuple)
    ensures SameKeys(a.rel, b.rel) <==> name == name' && indexName == indexName'
  {
    NumbersKeyed(name, indexName);
    NumbersKeyed(name', indexName');
    NumbersNamed(name, indexName);
    NumbersNamed(name', indexName');
    a, b := Row(Numbers(name, indexName), ONE), Row(Numbers(name', indexName'), ONE);
  }

  /** Any two well-named keyed tables are known in some environment that meets the assumptions. */
  lemma BothKnown(a: Relation, b: Relation) returns (env: Env)
    requires KeyIndex(a).Some? && KeyIndex(b).Some? && WellNamed(a) && WellNamed(b)
    ensures EnvOk(env) && Known(env, a) && Known(env, b)
  {
    var schemas := [FreshKeySchema(a).value, FreshRowSchema(a), FreshKeySchema(b).value, FreshRowSchema(b)];
    env := EnvExists(schemas);
    assert env.codec.toJson(schemas[0]) in env.registry.texts && env.codec.toJson(schemas[1]) in env.registry.texts;
    assert env.codec.toJson(schemas[2]) in env.registry.texts && env.codec.toJson(schemas[3]) in env.registry.texts;
  }

  /** Whichever of the two is renamed, replay is broken, in an environment that meets every assumption. */
  lemma RenamingBreaksReplay(name: string, indexName: string, name': string, indexName': string)
    returns (env: Env, a: Row, b: Row)
    requires name != "SpecialTime" && indexName != "SpecialTime" && name' != "SpecialTime" && indexName' != "SpecialTime"
    ensures a == Row(Numbers(name, indexName), ONE) && b == Row(Numbers(name', indexName'), ONE)
    ensures EnvOk(env) && Known(env, a.rel) && Known(env, b.rel) && HistoryOk([InsertOf(a), UpdateTo(a, b)])
    ensures HoldsAfter(env, [InsertOf(a), UpdateTo(a, b)]) <==> name == name' && indexName == indexName'
  {
    a, b := RenamedRows(name, indexName, name', indexName');
    env := BothKnown(a.rel, b.rel);
    RekeyedTableKeepsOldRecords(env, a, b);
  }

  /** A renamed index. */
  lemma RenamedIndexFails() returns (env: Env, a: Row, b: Row)
    ensures a == Row(Numbers("numbers", "numbers_pkey"), ONE) && b == Row(Numbers("numbers", "numbers_key"), ONE)
    ensures EnvOk(env) && Known(env, a.rel) && Known(env, b.rel)
    ensures HistoryOk([InsertOf(a), UpdateTo(a, b)]) && !HoldsAfter(env, [InsertOf(a), UpdateTo(a, b)])
  {
    assert |"numbers"| != |"SpecialTime"| && |"numbers_pkey"| != |"SpecialTime"| && "numbers_key"[0] != "SpecialTime"[0];
    assert |"numbers_pkey"| != |"numbers_key"|;
    env, a, b := RenamingBreaksReplay("numbers", "numbers_pkey", "numbers", "numbers_key");
  }

  /** A renamed table: the key's schema stays, but the topic does not. */
  lemma RenamedTableFails() returns (env: Env, a: Row, b: Row)
    ensures a == Row(Numbers("numbers", "numbers_pkey"), ONE) && b == Row(Numbers("figures", "numbers_pkey"), ONE)
    ensures EnvOk(env) && Known(env, a.rel) && Known(env, b.rel)
    ensures HistoryOk([InsertOf(a), UpdateTo(a, b)]) && !HoldsAfter(env, [InsertOf(a), UpdateTo(a, b)])
  {
    assert |"numbers"| != |"SpecialTime"| && |"numbers_pkey"| != |"SpecialTime"| && |"figures"| != |"SpecialTime"|;
    assert "numbers"[0] != "figures"[0];
    env, a, b := RenamingBreaksReplay("numbers", "numbers_pkey", "figures", "numbers_pkey");
  }
}
