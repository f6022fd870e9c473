/** The server's cache of table schemas (ext/schema_cache.c) and the choice of a table's key. */
module SchemaCaching {
  import opened Basics
  import opened AvroModel
  import opened Conversion
  import opened Rows

  datatype ReplIdent = Default | Nothing | Full | UsingIndex

  /** An index: `keys` are the table's attribute numbers, counted from 1. */
  datatype Index = Index(oid: Oid, nsId: Oid, nsName: string, name: string, desc: TupleDesc, keys: seq<int>,
                         isPrimary: bool, isValid: bool, isReady: bool)

  /** A table as the catalog describes it at some moment. */
  datatype Relation = Relation(relid: Oid, nsId: Oid, nsName: string, name: string, desc: TupleDesc,
                               replident: ReplIdent, replIndex: Option<Index>, indexes: seq<Index>)

  predicate UsablePrimary(i: Index) {
    i.isValid && i.isReady && i.isPrimary
  }

  function FirstPrimary(indexes: seq<Index>): (r: Option<Index>)
    ensures r.Some? ==> r.value in indexes && UsablePrimary(r.value)
    ensures r.None? ==> forall i :: i in indexes ==> !UsablePrimary(i)
  {
    if |indexes| == 0 then None
    else if UsablePrimary(indexes[0]) then Some(indexes[0])
    else FirstPrimary(indexes[1..])
  }

  /** The index a table is keyed by: the replica identity index, or else the primary key. */
  function KeyIndex(rel: Relation): Option<Index> {
    if rel.replident.Nothing? then None
    else if rel.replident.UsingIndex? && rel.replIndex.Some? then rel.replIndex
    else FirstPrimary(rel.indexes)
  }

  method TableKeyIndex(rel: Relation) returns (r: Option<Index>)
    ensures r == KeyIndex(rel)
  {
    if rel.replident.Nothing? { return None; }
    if rel.replident.UsingIndex? {
      if rel.replIndex.Some? { return rel.replIndex; }
    }
    var i := 0;
    while i < |rel.indexes|
      invariant 0 <= i <= |rel.indexes|
      invariant FirstPrimary(rel.indexes) == FirstPrimary(rel.indexes[i..])
    {
      assert rel.indexes[i..][0] == rel.indexes[i] && rel.indexes[i..][1..] == rel.indexes[i+1..];
      if rel.indexes[i].isValid && rel.indexes[i].isReady && rel.indexes[i].isPrimary {
        return Some(rel.indexes[i]);
      }
      i := i + 1;
    }
    r := None;
  }

  /** What the cache remembers of a key index, to notice changes. */
  datatype KeyInfo = KeyInfo(oid: Oid, nsId: Oid, nsName: string, name: string, desc: TupleDesc)

  datatype Entry = Entry(relid: Oid, nsId: Oid, nsName: string, name: string, key: Option<KeyInfo>, rowDesc: TupleDesc,
                         keySchema: Option<Schema>, rowSchema: Schema)

  function FreshRowSchema(rel: Relation): Schema {
    RecordSchema(rel.nsName, rel.name, rel.desc)
  }

  function FreshKeySchema(rel: Relation): Option<Schema> {
    var i := KeyIndex(rel);
    if i.None? then None else Some(RecordSchema(i.value.nsName, i.value.name, i.value.desc))
  }

  function KeyInfoFor(rel: Relation): Option<KeyInfo> {
    var i := KeyIndex(rel);
    if i.None? then None
    else Some(KeyInfo(i.value.oid, i.value.nsId, i.value.nsName, i.value.name, i.value.desc))
  }

  /** The entry generated from the catalog as it is now. */
  function EntryFor(rel: Relation): Entry {
    Entry(rel.relid, rel.nsId, rel.nsName, rel.name, KeyInfoFor(rel), rel.desc, FreshKeySchema(rel), FreshRowSchema(rel))
  }

  /** An entry's schemas are those of the descriptors it keeps beside them. */
  predicate Consistent(e: Entry) {
    && e.rowSchema == RecordSchema(e.nsName, e.name, e.rowDesc)
    && e.keySchema == (if e.key.None? then None
                       else Some(RecordSchema(e.key.value.nsName, e.key.value.name, e.key.value.desc)))
  }

  /** Compares what the entry keeps with the catalog; the schemas themselves are not compared. */
  method EntryChanged(e: Entry, rel: Relation) returns (changed: bool)
    ensures Consistent(e) ==> (changed <==> e != EntryFor(rel))
  {
    if e.relid != rel.relid { return true; }
    if e.nsId != rel.nsId { return true; }
    if e.name != rel.name { return true; }
    if e.nsName != rel.nsName { return true; }
    changed := false;
    var index := TableKeyIndex(rel);
    if index.Some? && e.key.Some? {
      if e.key.value.oid != index.value.oid { changed := true; }
      if e.key.value.nsId != index.value.nsId { changed := true; }
      if e.key.value.name != index.value.name { changed := true; }
      if e.key.value.nsName != index.value.nsName { changed := true; }
      if e.key.value.desc != index.value.desc { changed := true; }
    } else if index.Some? || e.key.Some? {
      changed := true;
    }
    if changed { return true; }
    changed := e.rowDesc != rel.desc;
  }

  method EntryUpdate(rel: Relation) returns (e: Entry)
    ensures e == EntryFor(rel)
  {
    var index := TableKeyIndex(rel);
    var key, keySchema := None, None;
    if index.Some? {
      key := Some(KeyInfo(index.value.oid, index.value.nsId, index.value.nsName, index.value.name, index.value.desc));
      var s := SchemaForTableRow(index.value.nsName, index.value.name, index.value.desc);
      keySchema := Some(s);
    }
    var rowSchema := SchemaForTableRow(rel.nsName, rel.name, rel.desc);
    e := Entry(rel.relid, rel.nsId, rel.nsName, rel.name, key, rel.desc, keySchema, rowSchema);
  }

  type Entries = map<Oid, Entry>

  ghost predicate CacheOk(entries: Entries) {
    forall r :: r in entries ==> entries[r].relid == r && Consistent(entries[r])
  }

  /** The table is cached with the schemas the catalog gives it now. */
  predicate UpToDate(entries: Entries, rel: Relation) {
    rel.relid in entries && entries[rel.relid] == EntryFor(rel)
  }

  class SchemaCache {
    var entries: Entries

    ghost predicate Valid()
      reads this
    {
      CacheOk(entries)
    }

    constructor ()
      ensures Valid() && entries == map[]
    {
      entries := map[];
    }

    /**
     Whatever happened to the catalog since the last lookup, the entry returned is the one
     the catalog gives now. Code 0 means it was cached already, 2 that the table had never
     been seen, 1 that something about it changed.
     */
    method Lookup(rel: Relation) returns (code: int, e: Entry)
      requires Valid()
      modifies this
      ensures Valid() && e == EntryFor(rel) && entries == old(entries)[rel.relid := e]
      ensures code == 0 <==> UpToDate(old(entries), rel)
      ensures code == 2 <==> rel.relid !in old(entries)
      ensures code == 0 || code == 1 || code == 2
    {
      if rel.relid in entries {
        e := entries[rel.relid];
        var changed := EntryChanged(e, rel);
        if !changed {
          code := 0;
          assert entries == entries[rel.relid := e];
        } else {
          e := EntryUpdate(rel);
          entries := entries[rel.relid := e];
          code := 1;
        }
      } else {
        e := EntryUpdate(rel);
        entries := entries[rel.relid := e];
        code := 2;
      }
    }
  }
}
