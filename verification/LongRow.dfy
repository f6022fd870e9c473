/**
 A row that is too long to be written, in an environment that meets every assumption: its
 table has one text column and is welcome everywhere, and no run gets past the row.
 */
module LongRow {
  import opened Basics
  import opened AvroModel
  import opened Conversion
  import opened Rows
  import opened SchemaNames
  import opened SchemaCaching
  import opened RetryingWriter
  import opened Server
  import opened Mapper
  import opened SchemaFlow
  import opened SchemaAgreement
  import opened Assumptions

  const DESC: TupleDesc := [Attr("text", PgText, false, 0)]

  const NOTES: Relation := Relation(5, 1, "public", "notes", DESC, Default, None, [])

  function Note(text: string): Change {
    Inserted([Some(DText(text))])
  }

  // ---- What a part takes, the whole takes

  lemma {:induction false} ListBits(ts: seq<Tree>)
    ensures |ts| <= |Bits(ListTree(ts))|
    ensures forall i :: 0 <= i < |ts| ==> |Bits(ts[i])| <= |Bits(ListTree(ts))|
  {
    if |ts| > 0 { ListBits(ts[..|ts|-1]); }
  }

  lemma TextBits(s: string)
    ensures |s| <= |Binary(VString(s))|
  {
    var chars := seq(|s|, i requires 0 <= i < |s| => Leaf(s[i] as int));
    ListBits(chars);
    assert |chars| == |s| && TextTree(s) == ListTree(chars);
    assert |Bits(TextTree(s))| <= |Bits(ValueTree(VString(s)))|;
  }

  lemma PartBits(v: Value, i: nat)
    requires i < |Parts(v)|
    ensures |Binary(Parts(v)[i])| <= |Binary(v)|
  {
    ListBits(PartTrees(v));
    assert PartTrees(v)[i] == ValueTree(Parts(v)[i]);
  }

  lemma NoteValue(text: string)
    ensures RowValue(NOTES, [Some(DText(text))]) == VRecord([VUnion(1, VString(text))])
  {
    var t: Tuple := [Some(DText(text))];
    assert DESC[..0] == [] && t[..0] == [];
    assert LiveValues(DESC, t) == [ColumnValue(PgText, t[0])];
  }

  lemma NoteBits(text: string)
    ensures |text| <= |Binary(RowValue(NOTES, [Some(DText(text))]))|
  {
    NoteValue(text);
    PartBits(VRecord([VUnion(1, VString(text))]), 0);
    PartBits(VUnion(1, VString(text)), 0);
    TextBits(text);
  }

  lemma NotesWelcome() returns (env: Env)
    ensures EnvOk(env) && env.registry.Registry? && WellNamed(NOTES) && Welcome(env, NOTES)
    ensures forall s, v :: env.codec.encode(s, v) == Binary(v)
  {
    var schemas := [FreshRowSchema(NOTES)];
    env := EnvExists(schemas);
    assert env.codec.toJson(schemas[0]) in env.registry.texts;
    WellNamedIff(NOTES);
  }

  lemma NoteTooLong(c: Codec, entries: Entries, text: string)
    requires |text| >= 1048576 && forall s, v :: c.encode(s, v) == Binary(v)
    ensures RelationOk(NOTES) && ChangeOk(NOTES, Note(text)) && FrameBytes(c, entries, NOTES, Note(text)).None?
  {
    NoteBits(text);
  }

  ghost predicate Stops(env: Env, events: seq<Event>) {
    EventsOk(events) && Run(env, events).Err?
  }

  /** Whatever happened before, no run gets past the row. */
  lemma LongRowBlocks(text: string) returns (env: Env)
    requires |text| >= 1048576
    ensures EnvOk(env) && env.registry.Registry? && WellNamed(NOTES) && Welcome(env, NOTES)
    ensures RelationOk(NOTES) && ChangeOk(NOTES, Note(text)) && Blocked(env, NOTES, Note(text))
    ensures forall earlier :: EventsOk(earlier) ==> Stops(env, earlier + [RowChange(NOTES, Note(text))])
  {
    env := NotesWelcome();
    NoteTooLong(env.codec, map[], text);
    NoteTooLong(env.codec, map[NOTES.relid := EntryFor(NOTES)], text);
    forall earlier | EventsOk(earlier)
      ensures Stops(env, earlier + [RowChange(NOTES, Note(text))])
    {
      BlockedForever(env, earlier, NOTES, Note(text));
    }
  }
}
