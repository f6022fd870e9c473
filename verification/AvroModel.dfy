/** Avro schemas and values, as far as the extension and the client use them. */
module AvroModel {
  import opened Basics

  /**
   A link stands for `avro_schema_link`: it refers to a named schema defined elsewhere.
   Enums carry no namespace, because the source gives them none.
   */
  datatype Schema =
    | SNull | SBoolean | SInt | SLong | SFloat | SDouble | SBytes | SString
    | SEnum(name: string, symbols: seq<string>)
    | SRecord(name: string, space: string, fields: seq<Field>)
    | SUnion(branches: seq<Schema>)
    | SArray(item: Schema)
    | SLink(target: Schema)

  datatype Field = Field(name: string, schema: Schema)

  /** Floating-point values are kept as their bit patterns. */
  datatype Value =
    | VNull | VBoolean(b: bool) | VInt(i: Int32) | VLong(l: Int64) | VFloat(bits: int) | VDouble(bits: int)
    | VBytes(bytes: Bytes) | VString(s: string) | VEnum(symbol: nat)
    | VRecord(values: seq<Value>) | VArray(items: seq<Value>) | VUnion(branch: nat, value: Value)

  /** The value is one of the values the schema describes. */
  predicate Inhabits(s: Schema, v: Value)
    decreases s
  {
    match s
    case SNull => v.VNull?
    case SBoolean => v.VBoolean?
    case SInt => v.VInt?
    case SLong => v.VLong?
    case SFloat => v.VFloat?
    case SDouble => v.VDouble?
    case SBytes => v.VBytes?
    case SString => v.VString?
    case SEnum(_, symbols) => v.VEnum? && v.symbol < |symbols|
    case SRecord(_, _, fields) =>
      v.VRecord? && |v.values| == |fields| &&
      forall i :: 0 <= i < |fields| ==> Inhabits(fields[i].schema, v.values[i])
    case SUnion(branches) =>
      v.VUnion? && v.branch < |branches| && Inhabits(branches[v.branch], v.value)
    case SArray(item) => v.VArray? && forall i :: 0 <= i < |v.items| ==> Inhabits(item, v.items[i])
    case SLink(target) => Inhabits(target, v)
  }

  // ---- Names, as section "Names" of the Avro 1.7.7 specification requires

  datatype FullName = FullName(space: string, name: string)

  /** The full name a named schema gets inside namespace `space`. */
  function NameIn(s: Schema, space: string): Option<FullName> {
    match s
    case SEnum(name, _) => Some(FullName(space, name))
    case SRecord(name, own, _) => Some(FullName(own, name))
    case _ => None
  }

  /**
   Reads a schema depth first and left to right, starting from the names already defined.
   None if a name is defined twice, or referred to before its definition.
   */
  function Scan(s: Schema, space: string, defined: set<FullName>): Option<set<FullName>>
    decreases s, 0
  {
    match s
    case SEnum(name, _) =>
      if FullName(space, name) in defined then None else Some(defined + {FullName(space, name)})
    case SRecord(name, own, fields) =>
      if FullName(own, name) in defined then None
      else ScanFields(s, |fields|, defined + {FullName(own, name)})
    case SUnion(branches) => ScanBranches(s, |branches|, space, defined)
    case SArray(item) => Scan(item, space, defined)
    case SLink(target) =>
      if NameIn(target, space).Some? && NameIn(target, space).value in defined then Some(defined) else None
    case _ => Some(defined)
  }

  /** The first n fields of a record. */
  function ScanFields(s: Schema, n: nat, defined: set<FullName>): Option<set<FullName>>
    requires s.SRecord? && n <= |s.fields|
    decreases s, 0, n
  {
    if n == 0 then Some(defined)
    else
      var before := ScanFields(s, n - 1, defined);
      if before.None? then None else Scan(s.fields[n-1].schema, s.space, before.value)
  }

  /** The first n branches of a union. */
  function ScanBranches(s: Schema, n: nat, space: string, defined: set<FullName>): Option<set<FullName>>
    requires s.SUnion? && n <= |s.branches|
    decreases s, 0, n
  {
    if n == 0 then Some(defined)
    else
      var before := ScanBranches(s, n - 1, space, defined);
      if before.None? then None else Scan(s.branches[n-1], space, before.value)
  }

  /** The schema is one an Avro implementation accepts. */
  predicate NamesOk(s: Schema) {
    Scan(s, "", {}).Some?
  }

  // ---- The library

  /**
   The Avro library: schemas to and from JSON, values to and from binary. What is assumed of
   values is `Lossless`: one is read back with the schema it was written with.
   */
  datatype Codec = Codec(
    toJson: Schema -> string,
    fromJson: string -> Option<Schema>,
    encode: (Schema, Value) -> Bytes,
    decode: (Schema, Bytes) -> Option<Value>)

  ghost predicate Lossless(c: Codec) {
    forall s, v :: Inhabits(s, v) ==> c.decode(s, c.encode(s, v)) == Some(v)
  }

  /** Lossless encodings are injective: different keys never have the same bytes. */
  lemma EncodeInjective(c: Codec, s: Schema, v: Value, w: Value)
    requires Lossless(c) && Inhabits(s, v) && Inhabits(s, w)
    ensures c.encode(s, v) == c.encode(s, w) <==> v == w
  {
    assert c.decode(s, c.encode(s, v)) == Some(v);
    assert c.decode(s, c.encode(s, w)) == Some(w);
  }
}
