/**
 Conversion of PostgreSQL columns and rows to Avro (ext/oid2avro.c).

 A row can arrive in two layouts: replicated tuples have a value for every attribute of
 the table, dropped ones included, while snapshot tuples come from a query whose result
 omits dropped columns.
 */
module Conversion {
  import opened Basics
  import opened AvroModel

  // ---- Types and values

  datatype PgType =
    | PgBool | PgFloat4 | PgFloat8 | PgInt2 | PgInt4 | PgInt8 | PgCash | PgOid | PgRegproc | PgXid | PgCid
    | PgNumeric | PgDate | PgTime | PgTimeTz | PgTimestamp | PgTimestampTz | PgInterval
    | PgBytea | PgChar | PgName | PgText | PgBpchar | PgVarchar
    | PgOther(oid: Oid)  // every type without a case of its own

  /** Time zone offsets stay below a day. */
  type Zone = z: int | -86400 < z < 86400

  datatype Day = Day(year: Int32, month: Int32, day: Int32)

  datatype Clock = Clock(hour: Int32, minute: Int32, second: Int32, micro: Int32)

  /**
   A non-null column value. Dates and times appear as PostgreSQL's own functions decode
   them; a type without a case of its own appears as the text its output function gives.
   */
  datatype Datum =
    | DBool(b: bool) | DFloat4(f: int) | DFloat8(d: int) | DInt16(i2: Int32) | DInt32(i4: Int32) | DInt64(i8: Int64)
    | DOid(o: Oid) | DNumeric(text: string)
    | DNoBegin | DNoEnd                     // -infinity and infinity
    | DDate(date: Day) | DTimeTz(time: Int64, zone: Zone)
    | DTimestamp(day: Day, clock: Clock) | DTimestampTz(tzDay: Day, tzClock: Clock, tz: Zone)
    | DInterval(span: Day, rest: Clock)
    | DBytea(bytes: Bytes) | DChar(c: char) | DText(s: string)

  /** The datum is one the type can have. */
  predicate Typed(t: PgType, d: Datum) {
    match t
    case PgBool => d.DBool?
    case PgFloat4 => d.DFloat4?
    case PgFloat8 => d.DFloat8?
    case PgInt2 => d.DInt16?
    case PgInt4 => d.DInt32?
    case PgInt8 => d.DInt64?
    case PgCash => d.DInt64?
    case PgOid => d.DOid?
    case PgRegproc => d.DOid?
    case PgXid => d.DOid?
    case PgCid => d.DOid?
    case PgNumeric => d.DNumeric?
    case PgDate => d.DDate? || d.DNoBegin? || d.DNoEnd?
    case PgTime => d.DInt64?
    case PgTimeTz => d.DTimeTz?
    case PgTimestamp => d.DTimestamp? || d.DNoBegin? || d.DNoEnd?
    case PgTimestampTz => d.DTimestampTz? || d.DNoBegin? || d.DNoEnd?
    case PgInterval => d.DInterval?
    case PgBytea => d.DBytea?
    case PgChar => d.DChar?
    case PgName => d.DText?
    case PgText => d.DText?
    case PgBpchar => d.DText?
    case PgVarchar => d.DText?
    case PgOther(_) => d.DText?
  }

  // ---- Schemas of columns

  const GENERATED_NAMESPACE := "com.martinkl.bottledwater.dbschema"
  const PREDEFINED_NAMESPACE := "com.martinkl.bottledwater.datatypes"

  const DATE_FIELDS := [Field("year", SInt), Field("month", SInt), Field("day", SInt)]
  const TIME_FIELDS := [Field("hour", SInt), Field("minute", SInt), Field("second", SInt), Field("micro", SInt)]

  const DATE_SCHEMA := SRecord("Date", PREDEFINED_NAMESPACE, DATE_FIELDS)
  const TIME_TZ_SCHEMA := SRecord("TimeTZ", PREDEFINED_NAMESPACE, [Field("micro", SLong), Field("zoneOffset", SInt)])
  const DATETIME_SCHEMA := SRecord("DateTime", PREDEFINED_NAMESPACE, DATE_FIELDS + TIME_FIELDS)
  const DATETIME_TZ_SCHEMA := SRecord("DateTimeTZ", PREDEFINED_NAMESPACE, DATE_FIELDS + TIME_FIELDS + [Field("zoneOffset", SInt)])
  const INTERVAL_SCHEMA := SRecord("Interval", PREDEFINED_NAMESPACE, DATE_FIELDS + TIME_FIELDS)
  const SPECIAL_TIME_SCHEMA := SEnum("SpecialTime", ["POS_INFINITY", "NEG_INFINITY"])

  /** `predef_schema`: which of the predefined types the schema being built has defined. */
  datatype Predef = Predef(date: bool, timeTz: bool, dateTime: bool, dateTimeTz: bool, interval: bool, special: bool)

  const NOTHING_DEFINED := Predef(false, false, false, false, false, false)

  function DefineOrLink(isDefined: bool, s: Schema): Schema {
    if isDefined then SLink(s) else s
  }

  predicate HasInfinity(t: PgType) {
    t.PgDate? || t.PgTimestamp? || t.PgTimestampTz?
  }

  /** The schema without its null branch, for types that are not unions already. */
  function PlainSchema(p: Predef, t: PgType): Schema {
    match t
    case PgBool => SBoolean
    case PgFloat4 => SFloat
    case PgFloat8 => SDouble
    case PgInt2 => SInt
    case PgInt4 => SInt
    case PgInt8 => SLong
    case PgCash => SLong
    case PgOid => SLong
    case PgRegproc => SLong
    case PgXid => SLong
    case PgCid => SLong
    case PgNumeric => SDouble
    case PgTime => SLong
    case PgTimeTz => DefineOrLink(p.timeTz, TIME_TZ_SCHEMA)
    case PgInterval => DefineOrLink(p.interval, INTERVAL_SCHEMA)
    case PgBytea => SBytes
    case PgDate => DefineOrLink(p.date, DATE_SCHEMA)
    case PgTimestamp => DefineOrLink(p.dateTime, DATETIME_SCHEMA)
    case PgTimestampTz => DefineOrLink(p.dateTimeTz, DATETIME_TZ_SCHEMA)
    case _ => SString
  }

  /** What the types built so far have defined, once a column of type t is added. */
  function Define(p: Predef, t: PgType): Predef {
    match t
    case PgTimeTz => p.(timeTz := true)
    case PgInterval => p.(interval := true)
    case PgDate => p.(date := true, special := true)
    case PgTimestamp => p.(dateTime := true, special := true)
    case PgTimestampTz => p.(dateTimeTz := true, special := true)
    case _ => p
  }

  /** `schema_for_oid`: null first, then the value, then the infinities where there are any. */
  function ColumnSchema(p: Predef, t: PgType): Schema {
    if HasInfinity(t) then
      SUnion([SNull, PlainSchema(p, t), DefineOrLink(p.special, SPECIAL_TIME_SCHEMA)])
    else SUnion([SNull, PlainSchema(p, t)])
  }

  /** Filled in while one record schema is built. */
  class PredefSchema {
    var date: bool
    var timeTz: bool
    var dateTime: bool
    var dateTimeTz: bool
    var interval: bool
    var special: bool

    ghost function State(): Predef
      reads this
    {
      Predef(date, timeTz, dateTime, dateTimeTz, interval, special)
    }

    constructor ()
      ensures State() == NOTHING_DEFINED
    {
      date, timeTz, dateTime, dateTimeTz, interval, special := false, false, false, false, false, false;
    }

    method SchemaForSpecialTimes(record: Schema) returns (s: Schema)
      modifies this`special
      ensures s == SUnion([SNull, record, DefineOrLink(old(special), SPECIAL_TIME_SCHEMA)]) && special
    {
      var branches := [SNull];
      branches := branches + [record];
      if special {
        branches := branches + [SLink(SPECIAL_TIME_SCHEMA)];
      } else {
        special := true;
        branches := branches + [SPECIAL_TIME_SCHEMA];
      }
      s := SUnion(branches);
    }

    method SchemaForDate() returns (s: Schema)
      modifies this`date, this`special
      ensures s == ColumnSchema(old(State()), PgDate) && State() == Define(old(State()), PgDate)
    {
      var record := DefineOrLink(date, DATE_SCHEMA);
      date := true;
      s := SchemaForSpecialTimes(record);
    }

    method SchemaForTimestamp(withTz: bool) returns (s: Schema)
      modifies this`dateTime, this`dateTimeTz, this`special
      ensures var t := if withTz then PgTimestampTz else PgTimestamp;
              s == ColumnSchema(old(State()), t) && State() == Define(old(State()), t)
    {
      var record;
      if withTz {
        record := DefineOrLink(dateTimeTz, DATETIME_TZ_SCHEMA);
        dateTimeTz := true;
      } else {
        record := DefineOrLink(dateTime, DATETIME_SCHEMA);
        dateTime := true;
      }
      s := SchemaForSpecialTimes(record);
    }

    method SchemaForOid(t: PgType) returns (s: Schema)
      modifies this
      ensures s == ColumnSchema(old(State()), t) && State() == Define(old(State()), t)
    {
      match t {
        case PgDate => s := SchemaForDate();
        case PgTimestamp => s := SchemaForTimestamp(false);
        case PgTimestampTz => s := SchemaForTimestamp(true);
        case PgTimeTz =>
          s := SUnion([SNull, DefineOrLink(timeTz, TIME_TZ_SCHEMA)]);
          timeTz := true;
        case PgInterval =>
          s := SUnion([SNull, DefineOrLink(interval, INTERVAL_SCHEMA)]);
          interval := true;
        case _ =>
          var value := SimpleSchema(t);
          s := SUnion([SNull, value]);
      }
    }
  }

  /** The types whose schema is a primitive one; every type not listed is written as text. */
  method SimpleSchema(t: PgType) returns (s: Schema)
    requires !HasInfinity(t) && !t.PgTimeTz? && !t.PgInterval?
    ensures forall p :: s == PlainSchema(p, t)
  {
    match t {
      case PgBool => s := SBoolean;
      case PgFloat4 => s := SFloat;
      case PgFloat8 => s := SDouble;
      case PgNumeric => s := SDouble;
      case PgInt2 => s := SInt;
      case PgInt4 => s := SInt;
      case PgBytea => s := SBytes;
      case _ =>
        if t.PgInt8? || t.PgCash? || t.PgOid? || t.PgRegproc? || t.PgXid? || t.PgCid? || t.PgTime? {
          s := SLong;
        } else {
          s := SString;
        }
    }
  }

  // ---- Values of columns

  function DayFields(d: Day): seq<Value> {
    [VInt(d.year), VInt(d.month), VInt(d.day)]
  }

  function ClockFields(c: Clock): seq<Value> {
    [VInt(c.hour), VInt(c.minute), VInt(c.second), VInt(c.micro)]
  }

  /** The value inside the union branch, for a finite datum. Numeric conversion is not implemented: it leaves 0. */
  function PlainValue(t: PgType, d: Datum): Value
    requires Typed(t, d) && !d.DNoBegin? && !d.DNoEnd?
  {
    match d
    case DBool(b) => VBoolean(b)
    case DFloat4(f) => VFloat(f)
    case DFloat8(f) => VDouble(f)
    case DInt16(i) => VInt(i)
    case DInt32(i) => VInt(i)
    case DInt64(i) => VLong(i)
    case DOid(o) => VLong(o)
    case DNumeric(_) => VDouble(0)
    case DDate(day) => VRecord(DayFields(day))
    case DTimeTz(time, zone) => VRecord([VLong(time), VInt(-zone)])
    case DTimestamp(day, clock) => VRecord(DayFields(day) + ClockFields(clock))
    case DTimestampTz(day, clock, tz) => VRecord(DayFields(day) + ClockFields(clock) + [VInt(-tz)])
    case DInterval(span, rest) => VRecord(DayFields(span) + ClockFields(rest))
    case DBytea(bytes) => VBytes(bytes)
    case DChar(c) => VString(if c == '\0' then "" else [c])
    case DText(s) => VString(s)
  }

  /** A nullable column value: null is branch 0, infinities are branch 2. */
  function ColumnValue(t: PgType, d: Option<Datum>): Value
    requires d.Some? ==> Typed(t, d.value)
  {
    if d.None? then VUnion(0, VNull)
    else if d.value.DNoBegin? then VUnion(2, VEnum(1))
    else if d.value.DNoEnd? then VUnion(2, VEnum(0))
    else VUnion(1, PlainValue(t, d.value))
  }

  /** Values inhabit the schema of their column, whatever else the schema has defined. */
  lemma ColumnConforms(p: Predef, t: PgType, d: Option<Datum>)
    requires d.Some? ==> Typed(t, d.value)
    ensures Inhabits(ColumnSchema(p, t), ColumnValue(t, d))
  {
    var s, v := ColumnSchema(p, t), ColumnValue(t, d);
    if v.branch == 0 {
      assert s.branches[0] == SNull;
    } else if v.branch == 2 {
      assert s.branches[2] == DefineOrLink(p.special, SPECIAL_TIME_SCHEMA);
      assert Inhabits(SPECIAL_TIME_SCHEMA, v.value);
    } else {
      assert s.branches[1] == PlainSchema(p, t);
      PlainConforms(p, t, d.value);
    }
  }

  /** A record of integers takes any integers. */
  lemma IntRecordConforms(name: string, fields: seq<Field>, values: seq<Value>)
    requires |fields| == |values|
    requires forall i :: 0 <= i < |fields| ==> fields[i].schema == SInt && values[i].VInt?
    ensures Inhabits(SRecord(name, PREDEFINED_NAMESPACE, fields), VRecord(values))
  {
  }

  lemma DateConforms(t: PgType, d: Datum)
    requires Typed(t, d) && !d.DNoBegin? && !d.DNoEnd? && (t.PgDate? || t.PgInterval?)
    ensures t.PgDate? ==> Inhabits(DATE_SCHEMA, PlainValue(t, d))
    ensures t.PgInterval? ==> Inhabits(INTERVAL_SCHEMA, PlainValue(t, d))
  {
    if t.PgDate? {
      IntRecordConforms("Date", DATE_FIELDS, PlainValue(t, d).values);
    } else {
      IntRecordConforms("Interval", DATE_FIELDS + TIME_FIELDS, PlainValue(t, d).values);
    }
  }

  lemma TimestampConforms(t: PgType, d: Datum)
    requires Typed(t, d) && !d.DNoBegin? && !d.DNoEnd? && (t.PgTimestamp? || t.PgTimestampTz?)
    ensures t.PgTimestamp? ==> Inhabits(DATETIME_SCHEMA, PlainValue(t, d))
    ensures t.PgTimestampTz? ==> Inhabits(DATETIME_TZ_SCHEMA, PlainValue(t, d))
  {
    if t.PgTimestamp? {
      IntRecordConforms("DateTime", DATE_FIELDS + TIME_FIELDS, PlainValue(t, d).values);
    } else {
      IntRecordConforms("DateTimeTZ", DATE_FIELDS + TIME_FIELDS + [Field("zoneOffset", SInt)], PlainValue(t, d).values);
    }
  }

  lemma TimeTzConforms(d: Datum)
    requires Typed(PgTimeTz, d) && !d.DNoBegin? && !d.DNoEnd?
    ensures Inhabits(TIME_TZ_SCHEMA, PlainValue(PgTimeTz, d))
  {
  }

  lemma RecordConforms(t: PgType, d: Datum)
    requires Typed(t, d) && !d.DNoBegin? && !d.DNoEnd?
    ensures t.PgTimeTz? ==> Inhabits(TIME_TZ_SCHEMA, PlainValue(t, d))
    ensures t.PgInterval? ==> Inhabits(INTERVAL_SCHEMA, PlainValue(t, d))
    ensures t.PgDate? ==> Inhabits(DATE_SCHEMA, PlainValue(t, d))
    ensures t.PgTimestamp? ==> Inhabits(DATETIME_SCHEMA, PlainValue(t, d))
    ensures t.PgTimestampTz? ==> Inhabits(DATETIME_TZ_SCHEMA, PlainValue(t, d))
  {
    match t
    case PgTimeTz => TimeTzConforms(d);
    case PgInterval => DateConforms(t, d);
    case PgDate => DateConforms(t, d);
    case PgTimestamp => TimestampConforms(t, d);
    case PgTimestampTz => TimestampConforms(t, d);
    case _ =>
  }

  lemma PlainConforms(p: Predef, t: PgType, d: Datum)
    requires Typed(t, d) && !d.DNoBegin? && !d.DNoEnd?
    ensures Inhabits(PlainSchema(p, t), PlainValue(t, d))
  {
    RecordConforms(t, d);
  }

  /**
   Two values of a column become the same Avro value only if they are equal, unless the
   column is numeric: then all its values do.
   */
  lemma ColumnInjective(t: PgType, d: Option<Datum>, e: Option<Datum>)
    requires (d.Some? ==> Typed(t, d.value)) && (e.Some? ==> Typed(t, e.value))
    ensures !t.PgNumeric? ==> (ColumnValue(t, d) == ColumnValue(t, e) <==> d == e)
    ensures t.PgNumeric? ==> (ColumnValue(t, d) == ColumnValue(t, e) <==> d.Some? == e.Some?)
  {
    if d.Some? && e.Some? && d.value.DTimestamp? && e.value.DTimestamp? {
      ClockInjective(d.value.day, d.value.clock, [], e.value.day, e.value.clock, []);
    } else if d.Some? && e.Some? && d.value.DTimestampTz? && e.value.DTimestampTz? {
      ClockInjective(d.value.tzDay, d.value.tzClock, [VInt(-d.value.tz)], e.value.tzDay, e.value.tzClock, [VInt(-e.value.tz)]);
    } else if d.Some? && e.Some? && d.value.DInterval? && e.value.DInterval? {
      ClockInjective(d.value.span, d.value.rest, [], e.value.span, e.value.rest, []);
    } else if d.Some? && e.Some? && d.value.DDate? && e.value.DDate? {
      assert DayFields(d.value.date)[0..] == DayFields(d.value.date);
    }
  }

  lemma ClockInjective(d: Day, c: Clock, x: seq<Value>, d': Day, c': Clock, x': seq<Value>)
    ensures DayFields(d) + ClockFields(c) + x == DayFields(d') + ClockFields(c') + x' <==> d == d' && c == c' && x == x'
  {
    var s, s' := DayFields(d) + ClockFields(c) + x, DayFields(d') + ClockFields(c') + x';
    if s == s' {
      assert s[0] == VInt(d.year) && s[1] == VInt(d.month) && s[2] == VInt(d.day);
      assert s[3] == VInt(c.hour) && s[4] == VInt(c.minute) && s[5] == VInt(c.second) && s[6] == VInt(c.micro);
      assert s'[0] == VInt(d'.year) && s'[1] == VInt(d'.month) && s'[2] == VInt(d'.day);
      assert s'[3] == VInt(c'.hour) && s'[4] == VInt(c'.minute) && s'[5] == VInt(c'.second) && s'[6] == VInt(c'.micro);
      assert s[7..] == x && s'[7..] == x';
    }
  }
}
