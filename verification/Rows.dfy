/** Whole rows, their keys and their record schemas (ext/oid2avro.c). */
module Rows {
  import opened Basics
  import opened AvroModel
  import opened Conversion

  /** `other` stands for the remaining attribute properties, which conversion does not use. */
  datatype Attr = Attr(name: string, typ: PgType, dropped: bool, other: int)

  type TupleDesc = seq<Attr>

  type Tuple = seq<Option<Datum>>

  /** The tuple has a value for every attribute, of its type unless the column was dropped. */
  predicate Fits(desc: TupleDesc, tuple: Tuple) {
    |tuple| == |desc| &&
    forall i :: 0 <= i < |desc| && !desc[i].dropped && tuple[i].Some? ==> Typed(desc[i].typ, tuple[i].value)
  }

  // ---- Rows

  function LiveCount(desc: TupleDesc): nat {
    if |desc| == 0 then 0
    else LiveCount(desc[..|desc|-1]) + (if desc[|desc|-1].dropped then 0 else 1)
  }

  /** The values of the columns that have not been dropped, in order. */
  function LiveValues(desc: TupleDesc, tuple: Tuple): (vs: seq<Value>)
    requires Fits(desc, tuple)
    ensures |vs| == LiveCount(desc)
  {
    var n := |desc|;
    if n == 0 then []
    else
      LiveValues(desc[..n-1], tuple[..n-1]) +
      (if desc[n-1].dropped then [] else [ColumnValue(desc[n-1].typ, tuple[n-1])])
  }

  /** What the first columns have defined when the next one's schema is built. */
  function Defined(desc: TupleDesc): Predef {
    var n := |desc|;
    if n == 0 then NOTHING_DEFINED
    else if desc[n-1].dropped then Defined(desc[..n-1])
    else Define(Defined(desc[..n-1]), desc[n-1].typ)
  }

  function Fields(desc: TupleDesc): (fs: seq<Field>)
    ensures |fs| == LiveCount(desc)
  {
    var n := |desc|;
    if n == 0 then []
    else
      Fields(desc[..n-1]) +
      (if desc[n-1].dropped then []
       else [Field(desc[n-1].name, ColumnSchema(Defined(desc[..n-1]), desc[n-1].typ))])
  }

  /** `schema_for_table_row`, for a table or for an index. */
  function RecordSchema(nsName: string, name: string, desc: TupleDesc): Schema {
    SRecord(name, GENERATED_NAMESPACE + "." + nsName, Fields(desc))
  }

  method SchemaForTableRow(nsName: string, name: string, desc: TupleDesc) returns (s: Schema)
    ensures s == RecordSchema(nsName, name, desc)
  {
    var predef := new PredefSchema();
    var fields := [];
    var i := 0;
    while i < |desc|
      invariant 0 <= i <= |desc| && fresh(predef)
      invariant fields == Fields(desc[..i]) && predef.State() == Defined(desc[..i])
    {
      assert desc[..i+1][..i] == desc[..i];
      if !desc[i].dropped {
        var column := predef.SchemaForOid(desc[i].typ);
        fields := fields + [Field(desc[i].name, column)];
      }
      i := i + 1;
    }
    assert desc[..|desc|] == desc;
    s := SRecord(name, GENERATED_NAMESPACE + "." + nsName, fields);
  }

  /** Sets the fields of a record value that has `fields` of them; fails only if there are too few. */
  method TupleToAvroRow(fields: nat, desc: TupleDesc, tuple: Tuple) returns (r: Result<seq<Value>, int>)
    requires Fits(desc, tuple)
    ensures LiveCount(desc) <= fields <==> r.Ok?
    ensures LiveCount(desc) == fields ==> r == Ok(LiveValues(desc, tuple))
  {
    var out := seq(fields, _ => VUnion(0, VNull));
    var field, i := 0, 0;
    while i < |desc|
      invariant 0 <= i <= |desc| && |out| == fields
      invariant field == LiveCount(desc[..i]) && field <= fields
      invariant out[..field] == LiveValues(desc[..i], tuple[..i])
    {
      assert desc[..i+1][..i] == desc[..i] && tuple[..i+1][..i] == tuple[..i];
      if !desc[i].dropped {
        if field >= fields {
          MoreLive(desc, i + 1);
          return Err(EINVAL);
        }
        out := out[field := ColumnValue(desc[i].typ, tuple[i])];
        field := field + 1;
      }
      i := i + 1;
    }
    assert desc[..|desc|] == desc && tuple[..|desc|] == tuple;
    assert field == fields ==> out[..field] == out;
    r := Ok(out);
  }

  lemma {:induction false} MoreLive(desc: TupleDesc, i: nat)
    requires i <= |desc|
    ensures LiveCount(desc[..i]) <= LiveCount(desc)
    decreases |desc| - i
  {
    if i == |desc| {
      assert desc[..i] == desc;
    } else {
      assert desc[..i+1][..i] == desc[..i];
      MoreLive(desc, i + 1);
    }
  }

  /** Field n of the row inhabits field n of the schema. */
  lemma {:induction false} RowFieldsConform(desc: TupleDesc, tuple: Tuple)
    requires Fits(desc, tuple)
    ensures forall k :: 0 <= k < LiveCount(desc) ==> Inhabits(Fields(desc)[k].schema, LiveValues(desc, tuple)[k])
  {
    var n := |desc|;
    if n > 0 {
      RowFieldsConform(desc[..n-1], tuple[..n-1]);
      if !desc[n-1].dropped {
        ColumnConforms(Defined(desc[..n-1]), desc[n-1].typ, tuple[n-1]);
      }
    }
  }

  lemma RowConforms(nsName: string, name: string, desc: TupleDesc, tuple: Tuple)
    requires Fits(desc, tuple)
    ensures Inhabits(RecordSchema(nsName, name, desc), VRecord(LiveValues(desc, tuple)))
  {
    RowFieldsConform(desc, tuple);
  }

  // ---- The two layouts

  /** The elements of s whose flag is set. */
  function Keep<T>(s: seq<T>, keep: seq<bool>): seq<T>
    requires |s| == |keep|
  {
    if |s| == 0 then []
    else Keep(s[..|s|-1], keep[..|s|-1]) + (if keep[|s|-1] then [s[|s|-1]] else [])
  }

  function KeptBefore(keep: seq<bool>, i: nat): nat
    requires i <= |keep|
  {
    if i == 0 then 0 else KeptBefore(keep, i - 1) + (if keep[i-1] then 1 else 0)
  }

  /** A layout may leave out dropped columns, and only those. */
  predicate Layout(desc: TupleDesc, keep: seq<bool>) {
    |keep| == |desc| && forall i :: 0 <= i < |desc| && !keep[i] ==> desc[i].dropped
  }

  lemma {:induction false} KeptPrefix(keep: seq<bool>, i: nat, n: nat)
    requires i <= n <= |keep|
    ensures KeptBefore(keep[..n], i) == KeptBefore(keep, i)
  {
    if i > 0 { KeptPrefix(keep, i - 1, n); }
  }

  /** A kept element's place is the number of kept elements before it. */
  lemma {:induction false} KeepAt<T>(s: seq<T>, keep: seq<bool>, i: nat)
    requires |s| == |keep| && i <= |s|
    ensures |Keep(s, keep)| == KeptBefore(keep, |s|)
    ensures KeptBefore(keep, i) <= |Keep(s, keep)|
    ensures i < |s| && keep[i] ==> KeptBefore(keep, i) < |Keep(s, keep)| && Keep(s, keep)[KeptBefore(keep, i)] == s[i]
    decreases |s|
  {
    if |s| > 0 {
      var n := |s| - 1;
      KeptPrefix(keep, n, n);
      if i <= n {
        KeepAt(s[..n], keep[..n], i);
        KeptPrefix(keep, i, n);
      } else {
        KeepAt(s[..n], keep[..n], n);
      }
    }
  }

  /** Both layouts of a row convert to the same fields: the live columns in the table's order. */
  lemma {:induction false} LayoutIrrelevant(desc: TupleDesc, tuple: Tuple, keep: seq<bool>)
    requires Fits(desc, tuple) && Layout(desc, keep)
    ensures Fits(Keep(desc, keep), Keep(tuple, keep))
    ensures LiveValues(Keep(desc, keep), Keep(tuple, keep)) == LiveValues(desc, tuple)
  {
    var n := |desc|;
    if n > 0 {
      LayoutIrrelevant(desc[..n-1], tuple[..n-1], keep[..n-1]);
      var d, t := Keep(desc[..n-1], keep[..n-1]), Keep(tuple[..n-1], keep[..n-1]);
      if keep[n-1] {
        assert (d + [desc[n-1]])[..|d|] == d && (t + [tuple[n-1]])[..|t|] == t;
        assert Fits(d + [desc[n-1]], t + [tuple[n-1]]);
      } else {
        assert d + [] == d && t + [] == t;
      }
    }
  }

  // ---- Keys

  /** Where the table's attribute is in the tuple, and whether an error was raised instead. */
  method FindKeyColumn(relDesc: TupleDesc, tupDesc: TupleDesc, attnum: int, ghost keep: seq<bool>)
    returns (r: Result<nat, int>)
    requires Layout(relDesc, keep) && tupDesc == Keep(relDesc, keep)
    requires attnum < 0 || (attnum < |relDesc| && !relDesc[attnum].dropped)
    ensures attnum >= 0 ==> r.Ok? && r.value < |tupDesc| && r.value == KeptBefore(keep, attnum)
                            && tupDesc[r.value] == relDesc[attnum]
    ensures attnum < 0 ==> r == if |tupDesc| == 0 || tupDesc[0].dropped then Err(attnum) else Ok(0)
  {
    var tupI, relI := 0, 0;
    if attnum >= 0 { KeepAt(relDesc, keep, attnum); }
    while relI < attnum
      invariant attnum >= 0 ==> 0 <= relI <= attnum
      invariant attnum < 0 ==> tupI == 0
      invariant attnum >= 0 ==> KeptBefore(keep, relI) <= tupI <= KeptBefore(keep, attnum)
      invariant attnum >= 0 ==> forall j :: KeptBefore(keep, relI) <= j < tupI ==> tupDesc[j].dropped
    {
      KeepAt(relDesc, keep, relI);
      KeptGrows(keep, relI + 1, attnum);
      if !relDesc[relI].dropped || tupDesc[tupI].dropped {
        tupI := tupI + 1;
      }
      relI := relI + 1;
    }
    if tupI >= |tupDesc| || tupDesc[tupI].dropped {
      return Err(attnum);
    }
    r := Ok(tupI);
  }

  lemma {:induction false} KeptGrows(keep: seq<bool>, i: nat, j: nat)
    requires i <= j <= |keep|
    ensures KeptBefore(keep, i) <= KeptBefore(keep, j)
    decreases j - i
  {
    if i < j { KeptGrows(keep, i + 1, j); }
  }

  /** The index's columns are live columns of the table. */
  predicate KeysOk(desc: TupleDesc, keys: seq<int>) {
    forall f :: 0 <= f < |keys| ==> 1 <= keys[f] <= |desc| && !desc[keys[f]-1].dropped
  }

  /** The key of a row: the values of the columns the index names, in the index's order. */
  function KeyValues(desc: TupleDesc, tuple: Tuple, keys: seq<int>): (vs: seq<Value>)
    requires Fits(desc, tuple) && KeysOk(desc, keys)
    ensures |vs| == |keys|
  {
    seq(|keys|, f requires 0 <= f < |keys| => ColumnValue(desc[keys[f]-1].typ, tuple[keys[f]-1]))
  }

  /** One field of the key; the error for a non-existent attribute is unreachable. */
  method KeyField(relDesc: TupleDesc, tupDesc: TupleDesc, tuple: Tuple, attnum: nat, ghost row: Tuple, ghost keep: seq<bool>)
    returns (v: Value)
    requires Fits(relDesc, row) && Layout(relDesc, keep) && attnum < |relDesc| && !relDesc[attnum].dropped
    requires tupDesc == Keep(relDesc, keep) && tuple == Keep(row, keep)
    ensures v == ColumnValue(relDesc[attnum].typ, row[attnum])
  {
    var at := FindKeyColumn(relDesc, tupDesc, attnum, keep);
    if at.Err? { assert false; }
    KeepAt(row, keep, attnum);
    KeepAt(relDesc, keep, attnum);
    v := ColumnValue(tupDesc[at.value].typ, tuple[at.value]);
  }

  /** `tuple_to_avro_key`: for live key columns it never fails, and the layout does not matter. */
  method TupleToAvroKey(relDesc: TupleDesc, tupDesc: TupleDesc, tuple: Tuple, keys: seq<int>,
                        ghost row: Tuple, ghost keep: seq<bool>)
    returns (r: Result<seq<Value>, int>)
    requires Fits(relDesc, row) && Layout(relDesc, keep) && KeysOk(relDesc, keys)
    requires tupDesc == Keep(relDesc, keep) && tuple == Keep(row, keep)
    ensures r == Ok(KeyValues(relDesc, row, keys))
  {
    var out := [];
    ghost var vs := KeyValues(relDesc, row, keys);
    for field := 0 to |keys|
      invariant |out| == field && forall f :: 0 <= f < field ==> out[f] == vs[f]
    {
      var v := KeyField(relDesc, tupDesc, tuple, keys[field] - 1, row, keep);
      out := out + [v];
    }
    assert out == vs;
    r := Ok(out);
  }

  /** An index descriptor has one live attribute per key column, of that column's type. */
  predicate IndexFits(desc: TupleDesc, keys: seq<int>, indexDesc: TupleDesc) {
    KeysOk(desc, keys) && |indexDesc| == |keys| &&
    forall f :: 0 <= f < |keys| ==> !indexDesc[f].dropped && indexDesc[f].typ == desc[keys[f]-1].typ
  }

  /** The key inhabits the schema generated from the index. */
  lemma KeyConforms(nsName: string, name: string, indexDesc: TupleDesc, desc: TupleDesc, tuple: Tuple, keys: seq<int>)
    requires Fits(desc, tuple) && IndexFits(desc, keys, indexDesc)
    ensures Inhabits(RecordSchema(nsName, name, indexDesc), VRecord(KeyValues(desc, tuple, keys)))
  {
    var asRow := seq(|keys|, f requires 0 <= f < |keys| => tuple[keys[f]-1]);
    AllLive(indexDesc, asRow);
    RowConforms(nsName, name, indexDesc, asRow);
    assert LiveValues(indexDesc, asRow) == KeyValues(desc, tuple, keys);
  }

  lemma {:induction false} AllLive(desc: TupleDesc, tuple: Tuple)
    requires Fits(desc, tuple) && forall f :: 0 <= f < |desc| ==> !desc[f].dropped
    ensures LiveCount(desc) == |desc|
    ensures forall f :: 0 <= f < |desc| ==> LiveValues(desc, tuple)[f] == ColumnValue(desc[f].typ, tuple[f])
  {
    var n := |desc|;
    if n > 0 {
      AllLive(desc[..n-1], tuple[..n-1]);
    }
  }

  /** The columns of two rows that the index names are the same. */
  predicate SameKey(a: Tuple, b: Tuple, keys: seq<int>)
    requires forall f :: 0 <= f < |keys| ==> 1 <= keys[f] <= |a| && keys[f] <= |b|
  {
    forall f :: 0 <= f < |keys| ==> a[keys[f]-1] == b[keys[f]-1]
  }

  ghost predicate KeysDistinguish(desc: TupleDesc, keys: seq<int>)
    requires KeysOk(desc, keys)
  {
    forall a, b :: Fits(desc, a) && Fits(desc, b) && KeyValues(desc, a, keys) == KeyValues(desc, b, keys) ==>
      SameKey(a, b, keys)
  }

  predicate NumericKey(desc: TupleDesc, keys: seq<int>)
    requires KeysOk(desc, keys)
  {
    exists f :: 0 <= f < |keys| && desc[keys[f]-1].typ.PgNumeric?
  }

  /**
   Different keys convert to different Avro keys if and only if the key has no numeric
   column. (With one, rows that differ only there get the same Kafka key.)
   */
  lemma KeysDistinguishIff(desc: TupleDesc, keys: seq<int>)
    requires KeysOk(desc, keys)
    ensures KeysDistinguish(desc, keys) <==> !NumericKey(desc, keys)
  {
    if f :| 0 <= f < |keys| && desc[keys[f]-1].typ.PgNumeric? {
      NumericKeysCollide(desc, keys, f);
    } else {
      forall a, b | Fits(desc, a) && Fits(desc, b) && KeyValues(desc, a, keys) == KeyValues(desc, b, keys)
        ensures SameKey(a, b, keys)
      {
        forall f | 0 <= f < |keys|
          ensures a[keys[f]-1] == b[keys[f]-1]
        {
          assert KeyValues(desc, a, keys)[f] == KeyValues(desc, b, keys)[f];
          ColumnInjective(desc[keys[f]-1].typ, a[keys[f]-1], b[keys[f]-1]);
        }
      }
    }
  }

  lemma NumericKeysCollide(desc: TupleDesc, keys: seq<int>, f: nat)
    requires KeysOk(desc, keys) && f < |keys| && desc[keys[f]-1].typ.PgNumeric?
    ensures !KeysDistinguish(desc, keys)
  {
    var nulls: Tuple := seq(|desc|, _ => None);
    var a, b := nulls[keys[f]-1 := Some(DNumeric("1"))], nulls[keys[f]-1 := Some(DNumeric("2"))];
    assert a[keys[f]-1] != b[keys[f]-1] by { assert "1"[0] != "2"[0]; }
    assert Fits(desc, a) && Fits(desc, b);
    assert KeyValues(desc, a, keys) == KeyValues(desc, b, keys);
    assert !SameKey(a, b, keys);
  }
}
