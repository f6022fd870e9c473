/**
 Named types inside generated schemas: each predefined type is defined at its first use
 and linked afterwards (the `predef_schema` functions of ext/oid2avro.c).
 */
module SchemaNames {
  import opened Basics
  import opened AvroModel
  import opened Conversion
  import opened Rows

  function When(b: bool, space: string, name: string): set<FullName> {
    if b then {FullName(space, name)} else {}
  }

  /** The full names a predef state stands for, inside a record of namespace `space`. */
  function DefinedNames(p: Predef, space: string): set<FullName> {
    When(p.date, PREDEFINED_NAMESPACE, "Date") + When(p.timeTz, PREDEFINED_NAMESPACE, "TimeTZ")
    + When(p.dateTime, PREDEFINED_NAMESPACE, "DateTime") + When(p.dateTimeTz, PREDEFINED_NAMESPACE, "DateTimeTZ")
    + When(p.interval, PREDEFINED_NAMESPACE, "Interval") + When(p.special, space, "SpecialTime")
  }

  predicate Primitive(s: Schema) {
    !s.SEnum? && !s.SRecord? && !s.SUnion? && !s.SLink? && !s.SArray?
  }

  lemma {:induction false} PrimitiveFields(s: Schema, n: nat, names: set<FullName>)
    requires s.SRecord? && n <= |s.fields| && forall i :: 0 <= i < n ==> Primitive(s.fields[i].schema)
    ensures ScanFields(s, n, names) == Some(names)
  {
    if n > 0 { PrimitiveFields(s, n - 1, names); }
  }

  /** A predefined record is defined if it is new, and linked if it is not. */
  lemma ScanPredefined(isDefined: bool, s: Schema, space: string, names: set<FullName>)
    requires s.SRecord? && forall i :: 0 <= i < |s.fields| ==> Primitive(s.fields[i].schema)
    requires isDefined <==> FullName(s.space, s.name) in names
    ensures Scan(DefineOrLink(isDefined, s), space, names) == Some(names + {FullName(s.space, s.name)})
  {
    if isDefined {
      assert names + {FullName(s.space, s.name)} == names;
    } else {
      PrimitiveFields(s, |s.fields|, names + {FullName(s.space, s.name)});
    }
  }

  lemma NextBranch(u: Schema, n: nat, space: string, names: set<FullName>)
    requires u.SUnion? && n < |u.branches| && ScanBranches(u, n, space, names).Some?
    ensures ScanBranches(u, n + 1, space, names) == Scan(u.branches[n], space, ScanBranches(u, n, space, names).value)
  {
  }

  lemma ScanUnion2(a: Schema, b: Schema, space: string, names: set<FullName>)
    requires Scan(a, space, names).Some?
    ensures Scan(SUnion([a, b]), space, names) == Scan(b, space, Scan(a, space, names).value)
  {
    var u := SUnion([a, b]);
    NextBranch(u, 0, space, names);
    NextBranch(u, 1, space, names);
  }

  lemma ScanUnion3(a: Schema, b: Schema, c: Schema, space: string, names: set<FullName>)
    requires Scan(a, space, names).Some? && Scan(b, space, Scan(a, space, names).value).Some?
    ensures Scan(SUnion([a, b, c]), space, names) == Scan(c, space, Scan(b, space, Scan(a, space, names).value).value)
  {
    var u := SUnion([a, b, c]);
    NextBranch(u, 0, space, names);
    NextBranch(u, 1, space, names);
    NextBranch(u, 2, space, names);
  }

  /** The names in force when a column is reached: the record's own and the predefined ones so far. */
  function NamesAt(row: FullName, p: Predef): set<FullName> {
    {row} + DefinedNames(p, row.space)
  }

  /** The column would define the enum under the record's own name. */
  predicate Clash(row: FullName, p: Predef, t: PgType) {
    row.name == "SpecialTime" && HasInfinity(t) && !p.special
  }

  lemma NamesDistinct()
    ensures "Date" != "TimeTZ" && "Date" != "DateTime" && "Date" != "DateTimeTZ" && "Date" != "Interval"
    ensures "TimeTZ" != "DateTime" && "TimeTZ" != "DateTimeTZ" && "TimeTZ" != "Interval"
    ensures "DateTime" != "DateTimeTZ" && "DateTime" != "Interval" && "DateTimeTZ" != "Interval"
  {
    assert "DateTime"[0] != "Interval"[0];
  }

  /** The predefined names in force. */
  predicate Names(p: Predef, name: string) {
    || (p.date && name == "Date") || (p.timeTz && name == "TimeTZ") || (p.dateTime && name == "DateTime")
    || (p.dateTimeTz && name == "DateTimeTZ") || (p.interval && name == "Interval")
  }

  lemma PredefinedName(row: FullName, p: Predef, name: string)
    requires row.space != PREDEFINED_NAMESPACE
    ensures FullName(PREDEFINED_NAMESPACE, name) in NamesAt(row, p) <==> Names(p, name)
  {
  }

  /** A predefined name is in force exactly when the predef state says so. */
  lemma InForce(row: FullName, p: Predef)
    requires row.space != PREDEFINED_NAMESPACE
    ensures FullName(PREDEFINED_NAMESPACE, "Date") in NamesAt(row, p) <==> p.date
    ensures FullName(PREDEFINED_NAMESPACE, "TimeTZ") in NamesAt(row, p) <==> p.timeTz
    ensures FullName(PREDEFINED_NAMESPACE, "DateTime") in NamesAt(row, p) <==> p.dateTime
    ensures FullName(PREDEFINED_NAMESPACE, "DateTimeTZ") in NamesAt(row, p) <==> p.dateTimeTz
    ensures FullName(PREDEFINED_NAMESPACE, "Interval") in NamesAt(row, p) <==> p.interval
  {
    NamesDistinct();
    PredefinedName(row, p, "Date");
    PredefinedName(row, p, "TimeTZ");
    PredefinedName(row, p, "DateTime");
    PredefinedName(row, p, "DateTimeTZ");
    PredefinedName(row, p, "Interval");
  }

  // Each predefined record, read at its first use or at a later one, leaves its name in force.

  lemma ScanDate(row: FullName, p: Predef)
    requires row.space != PREDEFINED_NAMESPACE
    ensures Scan(DefineOrLink(p.date, DATE_SCHEMA), row.space, NamesAt(row, p)) == Some(NamesAt(row, p.(date := true)))
  {
    assert FullName(PREDEFINED_NAMESPACE, "Date") in NamesAt(row, p) <==> p.date by { InForce(row, p); }
    ScanPredefined(p.date, DATE_SCHEMA, row.space, NamesAt(row, p));
    assert NamesAt(row, p.(date := true)) == NamesAt(row, p) + {FullName(PREDEFINED_NAMESPACE, "Date")};
  }

  lemma ScanTimeTZ(row: FullName, p: Predef)
    requires row.space != PREDEFINED_NAMESPACE
    ensures Scan(DefineOrLink(p.timeTz, TIME_TZ_SCHEMA), row.space, NamesAt(row, p)) == Some(NamesAt(row, p.(timeTz := true)))
  {
    assert FullName(PREDEFINED_NAMESPACE, "TimeTZ") in NamesAt(row, p) <==> p.timeTz by { InForce(row, p); }
    ScanPredefined(p.timeTz, TIME_TZ_SCHEMA, row.space, NamesAt(row, p));
    assert NamesAt(row, p.(timeTz := true)) == NamesAt(row, p) + {FullName(PREDEFINED_NAMESPACE, "TimeTZ")};
  }

  lemma ScanDateTime(row: FullName, p: Predef)
    requires row.space != PREDEFINED_NAMESPACE
    ensures Scan(DefineOrLink(p.dateTime, DATETIME_SCHEMA), row.space, NamesAt(row, p)) == Some(NamesAt(row, p.(dateTime := true)))
  {
    assert FullName(PREDEFINED_NAMESPACE, "DateTime") in NamesAt(row, p) <==> p.dateTime by { InForce(row, p); }
    ScanPredefined(p.dateTime, DATETIME_SCHEMA, row.space, NamesAt(row, p));
    assert NamesAt(row, p.(dateTime := true)) == NamesAt(row, p) + {FullName(PREDEFINED_NAMESPACE, "DateTime")};
  }

  lemma ScanDateTimeTZ(row: FullName, p: Predef)
    requires row.space != PREDEFINED_NAMESPACE
    ensures Scan(DefineOrLink(p.dateTimeTz, DATETIME_TZ_SCHEMA), row.space, NamesAt(row, p)) == Some(NamesAt(row, p.(dateTimeTz := true)))
  {
    assert FullName(PREDEFINED_NAMESPACE, "DateTimeTZ") in NamesAt(row, p) <==> p.dateTimeTz by { InForce(row, p); }
    ScanPredefined(p.dateTimeTz, DATETIME_TZ_SCHEMA, row.space, NamesAt(row, p));
    assert NamesAt(row, p.(dateTimeTz := true)) == NamesAt(row, p) + {FullName(PREDEFINED_NAMESPACE, "DateTimeTZ")};
  }

  lemma ScanInterval(row: FullName, p: Predef)
    requires row.space != PREDEFINED_NAMESPACE
    ensures Scan(DefineOrLink(p.interval, INTERVAL_SCHEMA), row.space, NamesAt(row, p)) == Some(NamesAt(row, p.(interval := true)))
  {
    assert FullName(PREDEFINED_NAMESPACE, "Interval") in NamesAt(row, p) <==> p.interval by { InForce(row, p); }
    ScanPredefined(p.interval, INTERVAL_SCHEMA, row.space, NamesAt(row, p));
    assert NamesAt(row, p.(interval := true)) == NamesAt(row, p) + {FullName(PREDEFINED_NAMESPACE, "Interval")};
  }

  lemma PlainIsPrimitive(p: Predef, t: PgType)
    requires !HasInfinity(t) && !t.PgTimeTz? && !t.PgInterval?
    ensures Primitive(PlainSchema(p, t)) && Define(p, t) == p
  {
  }

  lemma ScanPrimitive(s: Schema, space: string, names: set<FullName>)
    requires Primitive(s)
    ensures Scan(s, space, names) == Some(names)
  {
  }

  /** What a column defines, apart from the enumeration. */
  function Adds(p: Predef, t: PgType): Predef {
    Define(p, t).(special := p.special)
  }

  lemma ScanRecord(row: FullName, p: Predef, t: PgType)
    requires row.space != PREDEFINED_NAMESPACE && (t.PgTimeTz? || t.PgInterval?)
    ensures Scan(PlainSchema(p, t), row.space, NamesAt(row, p)) == Some(NamesAt(row, Adds(p, t)))
  {
    if t.PgTimeTz? {
      assert Adds(p, t) == p.(timeTz := true);
      ScanTimeTZ(row, p);
    } else {
      assert Adds(p, t) == p.(interval := true);
      ScanInterval(row, p);
    }
  }

  lemma ScanInfinite(row: FullName, p: Predef, t: PgType)
    requires row.space != PREDEFINED_NAMESPACE && HasInfinity(t)
    ensures Scan(PlainSchema(p, t), row.space, NamesAt(row, p)) == Some(NamesAt(row, Adds(p, t)))
  {
    if t.PgDate? {
      assert Adds(p, t) == p.(date := true);
      ScanDate(row, p);
    } else if t.PgTimestamp? {
      assert Adds(p, t) == p.(dateTime := true);
      ScanDateTime(row, p);
    } else {
      assert Adds(p, t) == p.(dateTimeTz := true);
      ScanDateTimeTZ(row, p);
    }
  }

  lemma ScanPlain(row: FullName, p: Predef, t: PgType)
    requires row.space != PREDEFINED_NAMESPACE
    ensures Scan(PlainSchema(p, t), row.space, NamesAt(row, p)) == Some(NamesAt(row, Adds(p, t)))
  {
    if HasInfinity(t) {
      ScanInfinite(row, p, t);
    } else if t.PgTimeTz? || t.PgInterval? {
      ScanRecord(row, p, t);
    } else {
      PlainIsPrimitive(p, t);
      ScanPrimitive(PlainSchema(p, t), row.space, NamesAt(row, p));
    }
  }

  lemma ScanSpecial(row: FullName, p: Predef)
    requires row.space != PREDEFINED_NAMESPACE && (row.name == "SpecialTime" ==> !p.special)
    ensures Scan(DefineOrLink(p.special, SPECIAL_TIME_SCHEMA), row.space, NamesAt(row, p))
            == if row.name == "SpecialTime" then None else Some(NamesAt(row, p.(special := true)))
  {
    var special := FullName(row.space, "SpecialTime");
    assert row.name != "SpecialTime" ==> row != special;
    assert special in NamesAt(row, p) <==> p.special || row == special;
    assert NamesAt(row, p) + {special} == NamesAt(row, p.(special := true));
  }

  lemma ScanColumn(row: FullName, p: Predef, t: PgType)
    requires row.space != PREDEFINED_NAMESPACE && (row.name == "SpecialTime" ==> !p.special)
    ensures Scan(ColumnSchema(p, t), row.space, NamesAt(row, p))
            == if Clash(row, p, t) then None else Some(NamesAt(row, Define(p, t)))
  {
    ScanPlain(row, p, t);
    AddsSpecial(p, t);
    if HasInfinity(t) {
      ScanSpecial(row, Adds(p, t));
      ScanThreeWay(row, p, t);
    } else {
      assert Scan(SNull, row.space, NamesAt(row, p)) == Some(NamesAt(row, p));
      ScanUnion2(SNull, PlainSchema(p, t), row.space, NamesAt(row, p));
    }
  }

  lemma AddsSpecial(p: Predef, t: PgType)
    ensures Define(p, t) == if HasInfinity(t) then Adds(p, t).(special := true) else Adds(p, t)
  {
  }

  /** A column with infinities: null, the type, and then the enumeration. */
  lemma ScanThreeWay(row: FullName, p: Predef, t: PgType)
    requires HasInfinity(t) && Scan(PlainSchema(p, t), row.space, NamesAt(row, p)) == Some(NamesAt(row, Adds(p, t)))
    ensures Scan(ColumnSchema(p, t), row.space, NamesAt(row, p))
            == Scan(DefineOrLink(p.special, SPECIAL_TIME_SCHEMA), row.space, NamesAt(row, Adds(p, t)))
  {
    var names := NamesAt(row, p);
    assert Scan(SNull, row.space, names) == Some(names);
    ScanUnion3(SNull, PlainSchema(p, t), DefineOrLink(p.special, SPECIAL_TIME_SCHEMA), row.space, names);
  }

  lemma {:induction false} FieldAt(desc: TupleDesc, i: nat)
    requires i < |desc| && !desc[i].dropped
    ensures LiveCount(desc[..i]) < LiveCount(desc)
    ensures Fields(desc)[LiveCount(desc[..i])].schema == ColumnSchema(Defined(desc[..i]), desc[i].typ)
    decreases |desc|
  {
    var n := |desc| - 1;
    if i < n {
      assert desc[..n][..i] == desc[..i];
      FieldAt(desc[..n], i);
    }
  }

  /** Some column that is not dropped has a type with infinities. */
  predicate UsesSpecialTime(desc: TupleDesc) {
    exists i :: 0 <= i < |desc| && !desc[i].dropped && HasInfinity(desc[i].typ)
  }

  lemma {:induction false} SpecialIff(desc: TupleDesc)
    ensures Defined(desc).special <==> UsesSpecialTime(desc)
  {
    var n := |desc|;
    if n > 0 {
      var p := desc[..n-1];
      SpecialIff(p);
      assert forall i :: 0 <= i < |p| ==> p[i] == desc[i];
      if UsesSpecialTime(p) {
        var i :| 0 <= i < |p| && !p[i].dropped && HasInfinity(p[i].typ);
        assert !desc[i].dropped && HasInfinity(desc[i].typ);
      }
    }
  }

  /** What reading the first i columns gives, starting inside the record `row`. */
  function ScanResult(row: FullName, p: Predef): Option<set<FullName>> {
    if row.name == "SpecialTime" && p.special then None else Some(NamesAt(row, p))
  }

  lemma ScanNext(row: FullName, s: Schema, n: nat, p: Predef, t: PgType)
    requires row.space != PREDEFINED_NAMESPACE && s.SRecord? && s.space == row.space
    requires n < |s.fields| && s.fields[n].schema == ColumnSchema(p, t)
    requires ScanFields(s, n, {row}) == ScanResult(row, p)
    ensures ScanFields(s, n + 1, {row}) == ScanResult(row, Define(p, t))
  {
    if !(row.name == "SpecialTime" && p.special) {
      ScanColumn(row, p, t);
    }
  }

  lemma {:induction false} ScanRow(row: FullName, desc: TupleDesc, i: nat)
    requires row.space != PREDEFINED_NAMESPACE && i <= |desc|
    ensures LiveCount(desc[..i]) <= LiveCount(desc)
    ensures ScanFields(SRecord(row.name, row.space, Fields(desc)), LiveCount(desc[..i]), {row})
            == ScanResult(row, Defined(desc[..i]))
    decreases i
  {
    var s := SRecord(row.name, row.space, Fields(desc));
    MoreLive(desc, i);
    if i == 0 {
      assert NamesAt(row, NOTHING_DEFINED) == {row};
    } else {
      assert desc[..i][..i-1] == desc[..i-1];
      ScanRow(row, desc, i - 1);
      if !desc[i-1].dropped {
        FieldAt(desc, i - 1);
        ScanNext(row, s, LiveCount(desc[..i-1]), Defined(desc[..i-1]), desc[i-1].typ);
      }
    }
  }

  lemma NamespacesDiffer(nsName: string)
    ensures GENERATED_NAMESPACE + "." + nsName != PREDEFINED_NAMESPACE
  {
    assert (GENERATED_NAMESPACE + "." + nsName)[27] == 'b';
    assert PREDEFINED_NAMESPACE[27] == 'a';
  }

  /**
   Every generated schema defines each name once and before any use of it, with exactly one
   exception: the infinity enum carries no namespace of its own, so it clashes with the
   record of a table called SpecialTime that has a date or timestamp column.
   */
  lemma NamesOkIff(nsName: string, name: string, desc: TupleDesc)
    ensures NamesOk(RecordSchema(nsName, name, desc)) <==> !(name == "SpecialTime" && UsesSpecialTime(desc))
  {
    var row := FullName(GENERATED_NAMESPACE + "." + nsName, name);
    NamespacesDiffer(nsName);
    ScanRow(row, desc, |desc|);
    assert desc[..|desc|] == desc;
    SpecialIff(desc);
    assert {} + {row} == {row};
  }
}
