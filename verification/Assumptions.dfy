/**
 The assumptions about the Avro library and the registry can be met: there is a lossless
 codec, and a registry for any finite number of schemas. The codec here is not Avro's; it
 writes every schema and value as a binary tree, in bits.
 */
module Assumptions {
  import opened Basics
  import opened AvroModel
  import opened Mapper
  import opened SchemaFlow

  // ---- Trees as bits

  datatype Tree = Leaf(n: nat) | Pair(left: Tree, right: Tree)

  function Unary(n: nat): seq<bool> {
    if n == 0 then [true] else [false] + Unary(n - 1)
  }

  function Bits(t: Tree): seq<bool> {
    match t
    case Leaf(n) => [false] + Unary(n)
    case Pair(a, b) => [true] + Bits(a) + Bits(b)
  }

  lemma {:induction false} UnaryReads(m: nat, x: seq<bool>, n: nat, y: seq<bool>)
    requires Unary(m) + x == Unary(n) + y
    ensures m == n && x == y
  {
    assert (Unary(m) + x)[0] == (m == 0) && (Unary(n) + y)[0] == (n == 0);
    if m == 0 {
      assert ([true] + x)[1..] == x && ([true] + y)[1..] == y;
    } else {
      assert (Unary(m) + x)[1..] == Unary(m - 1) + x && (Unary(n) + y)[1..] == Unary(n - 1) + y;
      UnaryReads(m - 1, x, n - 1, y);
    }
  }

  lemma AfterHead(h: bool, u: seq<bool>, v: seq<bool>, x: seq<bool>)
    ensures ([h] + u + v + x)[0] == h && ([h] + u + v + x)[1..] == u + (v + x)
  {
  }

  /** The bits of a tree say where they end, and which tree it is. */
  lemma {:induction false} BitsRead(a: Tree, x: seq<bool>, b: Tree, y: seq<bool>)
    requires Bits(a) + x == Bits(b) + y
    ensures a == b && x == y
    decreases a
  {
    TreeHead(a, x);
    TreeHead(b, y);
    if a.Leaf? {
      UnaryReads(a.n, x, b.n, y);
    } else {
      BitsRead(a.left, Bits(a.right) + x, b.left, Bits(b.right) + y);
      BitsRead(a.right, x, b.right, y);
    }
  }

  lemma TreeHead(a: Tree, x: seq<bool>)
    ensures (Bits(a) + x)[0] == a.Pair?
    ensures (Bits(a) + x)[1..] == if a.Leaf? then Unary(a.n) + x else Bits(a.left) + (Bits(a.right) + x)
  {
    match a
    case Leaf(n) =>
      AfterHead(false, Unary(n), [], x);
      assert [false] + Unary(n) + [] == [false] + Unary(n) && [] + x == x;
    case Pair(l, r) => AfterHead(true, Bits(l), Bits(r), x);
  }

  lemma BitsInjective(a: Tree, b: Tree)
    requires Bits(a) == Bits(b)
    ensures a == b
  {
    assert Bits(a) + [] == Bits(a) && Bits(b) + [] == Bits(b);
    BitsRead(a, [], b, []);
  }

  // ---- Lists and numbers as trees

  function ListTree(ts: seq<Tree>): Tree {
    if |ts| == 0 then Leaf(0) else Pair(ListTree(ts[..|ts|-1]), ts[|ts|-1])
  }

  lemma {:induction false} ListInjective(a: seq<Tree>, b: seq<Tree>)
    requires ListTree(a) == ListTree(b)
    ensures a == b
  {
    if |a| > 0 {
      ListInjective(a[..|a|-1], b[..|b|-1]);
      assert a == a[..|a|-1] + [a[|a|-1]] && b == b[..|b|-1] + [b[|b|-1]];
    }
  }

  function IntTree(i: int): Tree {
    if i >= 0 then Leaf(2 * i) else Leaf(-2 * i - 1)
  }

  function TextTree(s: string): Tree {
    ListTree(seq(|s|, i requires 0 <= i < |s| => Leaf(s[i] as int)))
  }

  lemma TextInjective(a: string, b: string)
    requires TextTree(a) == TextTree(b)
    ensures a == b
  {
    var x := seq(|a|, i requires 0 <= i < |a| => Leaf(a[i] as int));
    var y := seq(|b|, i requires 0 <= i < |b| => Leaf(b[i] as int));
    ListInjective(x, y);
    assert |x| == |a| && |y| == |b|;
    forall i | 0 <= i < |a|
      ensures a[i] == b[i]
    {
      assert x[i] == y[i];
    }
  }

  function BytesTree(s: Bytes): Tree {
    ListTree(seq(|s|, i requires 0 <= i < |s| => Leaf(s[i])))
  }

  lemma BytesInjective(a: Bytes, b: Bytes)
    requires BytesTree(a) == BytesTree(b)
    ensures a == b
  {
    var x := seq(|a|, i requires 0 <= i < |a| => Leaf(a[i]));
    var y := seq(|b|, i requires 0 <= i < |b| => Leaf(b[i]));
    ListInjective(x, y);
    assert |x| == |a| && |y| == |b|;
    forall i | 0 <= i < |a|
      ensures a[i] == b[i]
    {
      assert x[i] == y[i];
    }
  }

  // ---- Values as trees

  function Parts(v: Value): (parts: seq<Value>)
    ensures forall i :: 0 <= i < |parts| ==> parts[i] < v
  {
    match v
    case VRecord(values) => values
    case VArray(items) => items
    case VUnion(_, value) => [value]
    case _ => []
  }

  function ValueTree(v: Value): Tree {
    Pair(Pair(Leaf(ValueTag(v)), ValueHead(v)), ListTree(PartTrees(v)))
  }

  function PartTrees(v: Value): (trees: seq<Tree>)
    ensures |trees| == |Parts(v)|
    decreases v, 0
  {
    seq(|Parts(v)|, i requires 0 <= i < |Parts(v)| => ValueTree(Parts(v)[i]))
  }

  function ValueTag(v: Value): nat {
    match v
    case VNull => 0
    case VBoolean(_) => 1
    case VInt(_) => 2
    case VLong(_) => 3
    case VFloat(_) => 4
    case VDouble(_) => 5
    case VBytes(_) => 6
    case VString(_) => 7
    case VEnum(_) => 8
    case VRecord(_) => 9
    case VArray(_) => 10
    case VUnion(_, _) => 11
  }

  function ValueHead(v: Value): Tree {
    match v
    case VBoolean(b) => Leaf(if b then 1 else 0)
    case VInt(i) => IntTree(i)
    case VLong(l) => IntTree(l)
    case VFloat(bits) => IntTree(bits)
    case VDouble(bits) => IntTree(bits)
    case VBytes(bytes) => BytesTree(bytes)
    case VString(s) => TextTree(s)
    case VEnum(symbol) => Leaf(symbol)
    case VUnion(branch, _) => Leaf(branch)
    case _ => Leaf(0)
  }

  lemma HeadInjective(v: Value, w: Value)
    requires ValueTag(v) == ValueTag(w) && ValueHead(v) == ValueHead(w) && Parts(v) == Parts(w)
    ensures v == w
  {
    match v
    case VBytes(bytes) => BytesInjective(bytes, w.bytes);
    case VString(s) => TextInjective(s, w.s);
    case VUnion(_, value) => assert Parts(v)[0] == Parts(w)[0];
    case _ =>
  }

  lemma {:induction false} ValueInjective(v: Value, w: Value)
    requires ValueTree(v) == ValueTree(w)
    ensures v == w
  {
    ListInjective(PartTrees(v), PartTrees(w));
    forall i | 0 <= i < |Parts(v)|
      ensures Parts(v)[i] == Parts(w)[i]
    {
      assert PartTrees(v)[i] == PartTrees(w)[i];
      ValueInjective(Parts(v)[i], Parts(w)[i]);
    }
    assert Parts(v) == Parts(w);
    HeadInjective(v, w);
  }

  // ---- Schemas as trees

  function Below(s: Schema): (below: seq<Schema>)
    ensures forall i :: 0 <= i < |below| ==> below[i] < s
  {
    match s
    case SRecord(_, _, fields) => seq(|fields|, i requires 0 <= i < |fields| => fields[i].schema)
    case SUnion(branches) => branches
    case SArray(item) => [item]
    case SLink(target) => [target]
    case _ => []
  }

  function SchemaTag(s: Schema): nat {
    match s
    case SNull => 0
    case SBoolean => 1
    case SInt => 2
    case SLong => 3
    case SFloat => 4
    case SDouble => 5
    case SBytes => 6
    case SString => 7
    case SEnum(_, _) => 8
    case SRecord(_, _, _) => 9
    case SUnion(_) => 10
    case SArray(_) => 11
    case SLink(_) => 12
  }

  function TextsTree(ss: seq<string>): Tree {
    ListTree(seq(|ss|, i requires 0 <= i < |ss| => TextTree(ss[i])))
  }

  lemma TextsInjective(a: seq<string>, b: seq<string>)
    requires TextsTree(a) == TextsTree(b)
    ensures a == b
  {
    var x := seq(|a|, i requires 0 <= i < |a| => TextTree(a[i]));
    var y := seq(|b|, i requires 0 <= i < |b| => TextTree(b[i]));
    ListInjective(x, y);
    assert |x| == |a| && |y| == |b|;
    forall i | 0 <= i < |a|
      ensures a[i] == b[i]
    {
      assert x[i] == y[i];
      TextInjective(a[i], b[i]);
    }
  }

  function Names(s: Schema): seq<string> {
    match s
    case SEnum(name, symbols) => [name] + symbols
    case SRecord(name, space, fields) =>
      [name, space] + seq(|fields|, i requires 0 <= i < |fields| => fields[i].name)
    case _ => []
  }

  function SchemaTree(s: Schema): Tree {
    Pair(Pair(Leaf(SchemaTag(s)), TextsTree(Names(s))), ListTree(BelowTrees(s)))
  }

  function BelowTrees(s: Schema): (trees: seq<Tree>)
    ensures |trees| == |Below(s)|
    decreases s, 0
  {
    seq(|Below(s)|, i requires 0 <= i < |Below(s)| => SchemaTree(Below(s)[i]))
  }

  lemma RecordInjective(s: Schema, t: Schema)
    requires s.SRecord? && t.SRecord? && Names(s) == Names(t) && Below(s) == Below(t)
    ensures s == t
  {
    assert Names(s)[0] == Names(t)[0] && Names(s)[1] == Names(t)[1];
    assert |Below(s)| == |s.fields| && |Below(t)| == |t.fields|;
    forall i | 0 <= i < |s.fields|
      ensures s.fields[i] == t.fields[i]
    {
      assert Names(s)[i+2] == Names(t)[i+2] && Below(s)[i] == Below(t)[i];
    }
    assert s.fields == t.fields;
  }

  lemma NodeInjective(s: Schema, t: Schema)
    requires SchemaTag(s) == SchemaTag(t) && Names(s) == Names(t) && Below(s) == Below(t)
    ensures s == t
  {
    match s
    case SEnum(name, symbols) =>
      assert Names(s)[0] == Names(t)[0] && Names(s)[1..] == Names(t)[1..];
      assert Names(s)[1..] == symbols && Names(t)[1..] == t.symbols;
    case SRecord(_, _, _) => RecordInjective(s, t);
    case SArray(_) => assert Below(s)[0] == Below(t)[0];
    case SLink(_) => assert Below(s)[0] == Below(t)[0];
    case _ =>
  }

  lemma {:induction false} SchemaInjective(s: Schema, t: Schema)
    requires SchemaTree(s) == SchemaTree(t)
    ensures s == t
  {
    ListInjective(BelowTrees(s), BelowTrees(t));
    forall i | 0 <= i < |Below(s)|
      ensures Below(s)[i] == Below(t)[i]
    {
      assert BelowTrees(s)[i] == BelowTrees(t)[i];
      SchemaInjective(Below(s)[i], Below(t)[i]);
    }
    assert Below(s) == Below(t);
    TextsInjective(Names(s), Names(t));
    NodeInjective(s, t);
  }

  // ---- The codec

  function AsText(bits: seq<bool>): string {
    seq(|bits|, i requires 0 <= i < |bits| => if bits[i] then '1' else '0')
  }

  function AsBytes(bits: seq<bool>): Bytes {
    seq(|bits|, i requires 0 <= i < |bits| => if bits[i] then 1 else 0)
  }

  lemma AsTextInjective(a: seq<bool>, b: seq<bool>)
    requires AsText(a) == AsText(b)
    ensures a == b
  {
    assert |AsText(a)| == |a| && |AsText(b)| == |b|;
    forall i | 0 <= i < |a|
      ensures a[i] == b[i]
    {
      assert AsText(a)[i] == AsText(b)[i];
    }
  }

  lemma AsBytesInjective(a: seq<bool>, b: seq<bool>)
    requires AsBytes(a) == AsBytes(b)
    ensures a == b
  {
    assert |AsBytes(a)| == |a| && |AsBytes(b)| == |b|;
    forall i | 0 <= i < |a|
      ensures a[i] == b[i]
    {
      assert AsBytes(a)[i] == AsBytes(b)[i];
    }
  }

  function Json(s: Schema): string {
    AsText(Bits(SchemaTree(s)))
  }

  function Binary(v: Value): Bytes {
    AsBytes(Bits(ValueTree(v)))
  }

  lemma JsonInjective(s: Schema, t: Schema)
    requires Json(s) == Json(t)
    ensures s == t
  {
    AsTextInjective(Bits(SchemaTree(s)), Bits(SchemaTree(t)));
    BitsInjective(SchemaTree(s), SchemaTree(t));
    SchemaInjective(s, t);
  }

  lemma BinaryInjective(v: Value, w: Value)
    requires Binary(v) == Binary(w)
    ensures v == w
  {
    AsBytesInjective(Bits(ValueTree(v)), Bits(ValueTree(w)));
    BitsInjective(ValueTree(v), ValueTree(w));
    ValueInjective(v, w);
  }

  ghost function ReadJson(j: string): Option<Schema> {
    if exists s :: NamesOk(s) && Json(s) == j then
      var s :| NamesOk(s) && Json(s) == j;
      Some(s)
    else None
  }

  ghost function ReadBinary(s: Schema, b: Bytes): Option<Value> {
    if exists v :: Inhabits(s, v) && Binary(v) == b then
      var v :| Inhabits(s, v) && Binary(v) == b;
      Some(v)
    else None
  }

  lemma CodecExists() returns (c: Codec)
    ensures Lossless(c) && ReadsGenerated(c) && c.fromJson("").None?
    ensures forall s, v :: c.encode(s, v) == Binary(v)
  {
    c := Codec(s => Json(s), j => ReadJson(j), (s, v) => Binary(v), (s, b) => ReadBinary(s, b));
    forall s
      ensures c.fromJson(c.toJson(s)) == if NamesOk(s) then Some(s) else None
    {
      forall t | Json(t) == Json(s)
        ensures t == s
      {
        JsonInjective(t, s);
      }
      assert NamesOk(s) ==> exists t :: NamesOk(t) && Json(t) == Json(s);
    }
    forall s, v | Inhabits(s, v)
      ensures c.decode(s, c.encode(s, v)) == Some(v)
    {
      forall w | Binary(w) == Binary(v)
        ensures w == v
      {
        BinaryInjective(w, v);
      }
    }
    forall s
      ensures Json(s) != ""
    {
      assert |Json(s)| == |Bits(SchemaTree(s))| > 0;
    }
  }

  /**
   For any finite number of schemas there are a library and a registry as assumed, with a
   registry that takes all of them, and Kafka can open every topic.
   */
  lemma EnvExists(schemas: seq<Schema>) returns (env: Env)
    requires |schemas| <= 0x8000_0000
    ensures EnvOk(env) && env.registry.Registry?
    ensures forall i :: 0 <= i < |schemas| ==> env.codec.toJson(schemas[i]) in env.registry.texts
    ensures forall topic, isKey, j :: j in env.registry.texts ==> env.registry.accepts(topic, isKey, j)
    ensures env.prefix.None? && forall name :: env.opensTopic(name)
    ensures forall s, v :: env.codec.encode(s, v) == Binary(v)
  {
    var c := CodecExists();
    var texts := seq(|schemas|, i requires 0 <= i < |schemas| => c.toJson(schemas[i]));
    var r := RegistryExists(texts);
    env := Env(c, r, None, _ => true);
    forall i | 0 <= i < |schemas|
      ensures c.toJson(schemas[i]) in r.texts
    {
      assert texts[i] == c.toJson(schemas[i]);
    }
  }
}
