/** Schema-driven SCALE values: a type registry, the values of a type, their encoding, and a decoder
    proved to recognise exactly the encodings. A registry may be recursive, as a runtime's call type
    is. */
module Scale {
  import opened Wrappers
  import opened Codec

  type TypeId = nat

  /** An unnamed field has the empty name. */
  datatype Field = Field(name: string, ty: TypeId)

  datatype VariantDef = VariantDef(name: string, index: Byte, fields: seq<Field>)

  datatype TypeDef =
    | BoolType
    | UintType(width: nat)
    | CompactType(width: nat)
    | SequenceType(item: TypeId)
    | ArrayType(length: nat, item: TypeId)
    | TupleType(items: seq<TypeId>)
    | CompositeType(fields: seq<Field>)
    | VariantType(variants: seq<VariantDef>)

  type Registry = seq<TypeDef>

  type Names = Option<seq<string>>

  /** What a value says before its items. Arrays, tuples and structs are composites; only a struct or
      variant whose fields are all named has names. */
  datatype Head =
    | Bool(flag: bool)
    | Uint(width: nat, n: nat)
    | Compact(n: nat)
    | Sequence
    | Composite(names: Names)
    | Variant(index: Byte, name: string, names: Names)

  datatype Value = Value(head: Head, items: seq<Value>)

  /** Sequence lengths are compact 64-bit numbers. */
  const LENGTH_WIDTH := 8

  function Repeat(t: TypeId, count: nat): (ts: seq<TypeId>) {
    seq(count, _ => t)
  }

  function FieldTypes(fields: seq<Field>): (ts: seq<TypeId>) {
    seq(|fields|, i requires 0 <= i < |fields| => fields[i].ty)
  }

  function FieldNames(fields: seq<Field>): (names: Names) {
    if exists i :: 0 <= i < |fields| && fields[i].name == "" then None
    else Some(seq(|fields|, i requires 0 <= i < |fields| => fields[i].name))
  }

  /** The variant with this index, if any. */
  function VariantAt(variants: seq<VariantDef>, index: Byte): (r: Option<VariantDef>)
    ensures r.Some? ==> r.value in variants && r.value.index == index
  {
    if variants == [] then None
    else if variants[0].index == index then Some(variants[0])
    else VariantAt(variants[1..], index)
  }

  function Max(a: nat, b: nat): nat {
    if a < b then b else a
  }

  /** How many levels of values lie below `v`. */
  function Height(v: Value): nat
    decreases v, 1
  {
    HeightOfItems(v.items)
  }

  /** The height of a value with these items. */
  function HeightOfItems(vs: seq<Value>): nat
    decreases vs, 0
  {
    if vs == [] then 0 else Max(1 + Height(vs[0]), HeightOfItems(vs[1..]))
  }

  /** The types of the items of a value of type `t` that has this head and `count` items, if a value
      of type `t` can have such a head. */
  function ItemTypes(reg: Registry, t: TypeId, head: Head, count: nat): (ts: Option<seq<TypeId>>) {
    if t >= |reg| then None
    else
      match reg[t]
      case BoolType => if head.Bool? then Some([]) else None
      case UintType(width) =>
        if head.Uint? && head.width == width && head.n < Pow256(width) then Some([]) else None
      case CompactType(width) =>
        if head.Compact? && IsCompact(head.n) && head.n < Pow256(width) then Some([]) else None
      case SequenceType(item) =>
        if head.Sequence? && IsCompact(count) && count < Pow256(LENGTH_WIDTH) then Some(Repeat(item, count))
        else None
      case ArrayType(length, item) => if head == Composite(None) then Some(Repeat(item, length)) else None
      case TupleType(items) => if head == Composite(None) then Some(items) else None
      case CompositeType(fields) =>
        if head == Composite(FieldNames(fields)) then Some(FieldTypes(fields)) else None
      case VariantType(variants) =>
        if !head.Variant? then None
        else
          match VariantAt(variants, head.index)
          case None => None
          case Some(def) =>
            if head.name == def.name && head.names == FieldNames(def.fields) then Some(FieldTypes(def.fields))
            else None
  }

  ghost predicate WellTyped(reg: Registry, t: TypeId, v: Value)
    decreases v, 1
  {
    var ts := ItemTypes(reg, t, v.head, |v.items|);
    ts.Some? && AllTyped(reg, ts.value, v.items)
  }

  ghost predicate AllTyped(reg: Registry, ts: seq<TypeId>, vs: seq<Value>)
    decreases vs, 0
  {
    |ts| == |vs| &&
    (vs == [] || (WellTyped(reg, ts[0], vs[0]) && AllTyped(reg, ts[1..], vs[1..])))
  }

  /** The bytes before the first item. */
  function EncodeHead(head: Head, count: nat): (b: Bytes) {
    match head
    case Bool(flag) => [if flag then 1 else 0]
    case Uint(width, n) => ToLE(n, width)
    case Compact(n) => EncodeCompact(n)
    case Sequence => EncodeCompact(count)
    case Composite(_) => []
    case Variant(index, _, _) => [index]
  }

  function Encode(v: Value): (b: Bytes)
    decreases v, 1
  {
    EncodeHead(v.head, |v.items|) + EncodeAll(v.items)
  }

  function EncodeAll(vs: seq<Value>): (b: Bytes)
    decreases vs, 0
  {
    if vs == [] then [] else Encode(vs[0]) + EncodeAll(vs[1..])
  }

  /** A sequence is typed by its items alone, if there are fewer than 2 to the power of 64. */
  lemma SequenceTyped(reg: Registry, t: TypeId, v: Value)
    requires t < |reg| && reg[t].SequenceType?
    ensures WellTyped(reg, t, v) <==>
            v.head == Sequence && |v.items| < 0x1_0000_0000_0000_0000 &&
            AllTyped(reg, Repeat(reg[t].item, |v.items|), v.items)
  {
    Pow256Values();
    assert Pow256(8) == 256 * Pow256(7) && Pow256(7) == 256 * Pow256(6);
    assert Pow256(6) == 256 * Pow256(5) && Pow256(5) == 256 * Pow256(4);
    if |v.items| < Pow256(8) {
      ByteLengthExact(|v.items|, 8);
    }
  }

  /** A decoded head, the bytes it took and the types of the items to follow. */
  datatype Opening = Opening(head: Head, size: nat, items: seq<TypeId>)

  function DecodeHead(reg: Registry, t: TypeId, b: Bytes): (r: Option<Opening>)
    ensures r.Some? ==> r.value.size <= |b|
  {
    if t >= |reg| then None
    else
      match reg[t]
      case BoolType =>
        if b == [] || b[0] > 1 then None else Some(Opening(Bool(b[0] == 1), 1, []))
      case UintType(width) =>
        if |b| < width then None else Some(Opening(Uint(width, FromLE(b[..width])), width, []))
      case CompactType(width) =>
        (match DecodeCompact(b)
         case None => None
         case Some((n, size)) => if n < Pow256(width) then Some(Opening(Compact(n), size, [])) else None)
      case SequenceType(item) =>
        (match DecodeCompact(b)
         case None => None
         case Some((n, size)) =>
           if n < Pow256(LENGTH_WIDTH) then Some(Opening(Sequence, size, Repeat(item, n))) else None)
      case ArrayType(length, item) => Some(Opening(Composite(None), 0, Repeat(item, length)))
      case TupleType(items) => Some(Opening(Composite(None), 0, items))
      case CompositeType(fields) => Some(Opening(Composite(FieldNames(fields)), 0, FieldTypes(fields)))
      case VariantType(variants) =>
        if b == [] then None
        else
          match VariantAt(variants, b[0])
          case None => None
          case Some(def) =>
            Some(Opening(Variant(b[0], def.name, FieldNames(def.fields)), 1, FieldTypes(def.fields)))
  }

  lemma HeadSound(reg: Registry, t: TypeId, b: Bytes)
    requires DecodeHead(reg, t, b).Some?
    ensures var h := DecodeHead(reg, t, b).value;
            ItemTypes(reg, t, h.head, |h.items|) == Some(h.items) && EncodeHead(h.head, |h.items|) == b[..h.size]
  {
    match reg[t] {
      case UintType(width) => ToFromLE(b[..width]);
      case CompactType(_) => CompactSound(b);
      case SequenceType(_) => CompactSound(b);
      case _ =>
    }
  }

  lemma HeadComplete(reg: Registry, t: TypeId, b: Bytes, head: Head, count: nat)
    requires ItemTypes(reg, t, head, count).Some? && |ItemTypes(reg, t, head, count).value| == count
    requires EncodeHead(head, count) <= b
    ensures DecodeHead(reg, t, b)
            == Some(Opening(head, |EncodeHead(head, count)|, ItemTypes(reg, t, head, count).value))
  {
    match reg[t] {
      case UintType(width) =>
        assert b[..width] == EncodeHead(head, count);
        FromToLE(head.n, width);
      case CompactType(_) => CompactComplete(head.n, b);
      case SequenceType(_) => CompactComplete(count, b);
      case _ =>
    }
  }

  /** Decode the value of type `t` at the start of `b`, building it and reporting how many bytes it
      took. A value `levels` or more levels deep is refused. */
  function Decode(reg: Registry, t: TypeId, b: Bytes, levels: nat): (r: Option<(Value, nat)>)
    decreases levels, 0, |b|
  {
    if levels == 0 then None
    else
      match DecodeHead(reg, t, b)
      case None => None
      case Some(h) => WithItems(h, DecodeAll(reg, h.items, b[h.size..], levels - 1))
  }

  /** A head put before its decoded items. */
  function WithItems(h: Opening, items: Option<(seq<Value>, nat)>): Option<(Value, nat)> {
    match items
    case None => None
    case Some((vs, n)) => Some((Value(h.head, vs), h.size + n))
  }

  /** Decode one value of each type in turn. */
  function DecodeAll(reg: Registry, ts: seq<TypeId>, b: Bytes, levels: nat): (r: Option<(seq<Value>, nat)>)
    decreases levels, 1 + |ts|
  {
    if ts == [] then Some(([], 0))
    else
      match Decode(reg, ts[0], b, levels)
      case None => None
      case Some((v, n)) =>
        if n > |b| then None else BeforeRest(v, n, DecodeAll(reg, ts[1..], b[n..], levels))
  }

  /** A decoded value put before those decoded after it. */
  function BeforeRest(v: Value, n: nat, rest: Option<(seq<Value>, nat)>): Option<(seq<Value>, nat)> {
    match rest
    case None => None
    case Some((vs, m)) => Some(([v] + vs, n + m))
  }

  /** `v` is a value of type `t`, and `b` starts with its encoding. */
  ghost predicate Begins(reg: Registry, t: TypeId, b: Bytes, v: Value) {
    WellTyped(reg, t, v) && Encode(v) <= b
  }

  ghost predicate AllBegin(reg: Registry, ts: seq<TypeId>, b: Bytes, vs: seq<Value>) {
    AllTyped(reg, ts, vs) && EncodeAll(vs) <= b
  }

  lemma ConsTyped(reg: Registry, ts: seq<TypeId>, v: Value, vs: seq<Value>)
    requires ts != [] && WellTyped(reg, ts[0], v) && AllTyped(reg, ts[1..], vs)
    ensures AllTyped(reg, ts, [v] + vs)
    ensures EncodeAll([v] + vs) == Encode(v) + EncodeAll(vs)
    ensures HeightOfItems([v] + vs) == Max(1 + Height(v), HeightOfItems(vs))
  {
    assert ([v] + vs)[1..] == vs;
  }

  lemma OneAfterAnother(b: Bytes, first: Bytes, second: Bytes, rest: Bytes)
    requires first <= b && rest == b[|first|..] && second <= rest
    ensures first + second <= b
  {
    assert b[|first|..][..|second|] == second;
  }

  lemma ConsBegins(reg: Registry, ts: seq<TypeId>, b: Bytes, v: Value, k: nat, rest: Bytes, vs: seq<Value>)
    requires ts != [] && Begins(reg, ts[0], b, v) && k == |Encode(v)| && rest == b[k..]
    requires AllBegin(reg, ts[1..], rest, vs)
    ensures AllBegin(reg, ts, b, [v] + vs) && |EncodeAll([v] + vs)| == k + |EncodeAll(vs)|
    ensures HeightOfItems([v] + vs) == Max(1 + Height(v), HeightOfItems(vs))
  {
    ConsTyped(reg, ts, v, vs);
    OneAfterAnother(b, Encode(v), EncodeAll(vs), rest);
  }

  /** A decoded head followed by its items is the encoding of a value. */
  lemma HeadThenItems(reg: Registry, t: TypeId, b: Bytes, h: Opening, vs: seq<Value>)
    requires DecodeHead(reg, t, b) == Some(h) && AllBegin(reg, h.items, b[h.size..], vs)
    ensures Begins(reg, t, b, Value(h.head, vs))
    ensures |Encode(Value(h.head, vs))| == h.size + |EncodeAll(vs)|
  {
    HeadSound(reg, t, b);
    OneAfterAnother(b, EncodeHead(h.head, |vs|), EncodeAll(vs), b[h.size..]);
  }

  lemma DecodeFrom(reg: Registry, t: TypeId, b: Bytes, below: nat, h: Opening, rest: Bytes)
    requires DecodeHead(reg, t, b) == Some(h) && rest == b[h.size..]
    ensures Decode(reg, t, b, below + 1) == WithItems(h, DecodeAll(reg, h.items, rest, below))
  {
  }

  lemma Decoded(reg: Registry, t: TypeId, b: Bytes, levels: nat) returns (h: Opening, rest: Bytes)
    requires Decode(reg, t, b, levels).Some?
    ensures levels > 0 && DecodeHead(reg, t, b) == Some(h) && rest == b[h.size..]
    ensures DecodeAll(reg, h.items, rest, levels - 1).Some?
    ensures Decode(reg, t, b, levels) == WithItems(h, DecodeAll(reg, h.items, rest, levels - 1))
  {
    h := DecodeHead(reg, t, b).value;
    rest := b[h.size..];
  }

  lemma DecodeCons(reg: Registry, ts: seq<TypeId>, b: Bytes, levels: nat, v: Value, k: nat, rest: Bytes)
    requires ts != [] && k <= |b| && rest == b[k..] && Decode(reg, ts[0], b, levels) == Some((v, k))
    ensures DecodeAll(reg, ts, b, levels) == BeforeRest(v, k, DecodeAll(reg, ts[1..], rest, levels))
  {
  }

  /** Whatever decodes is a value of the type, less deep than the bound, and the bytes it took are
      its encoding. */
  lemma {:induction false} DecodeSound(reg: Registry, t: TypeId, b: Bytes, levels: nat)
    requires Decode(reg, t, b, levels).Some?
    ensures var (v, n) := Decode(reg, t, b, levels).value;
            Begins(reg, t, b, v) && n == |Encode(v)| && Height(v) < levels
    decreases levels, 0
  {
    var h, rest := Decoded(reg, t, b, levels);
    ItemsSound(reg, t, b, levels - 1, h, rest);
  }

  lemma {:induction false} ItemsSound(reg: Registry, t: TypeId, b: Bytes, below: nat, h: Opening, rest: Bytes)
    requires DecodeHead(reg, t, b) == Some(h) && rest == b[h.size..] && DecodeAll(reg, h.items, rest, below).Some?
    ensures var (v, n) := WithItems(h, DecodeAll(reg, h.items, rest, below)).value;
            Begins(reg, t, b, v) && n == |Encode(v)| && Height(v) <= below
    decreases below, 2 + |h.items|
  {
    DecodeAllSound(reg, h.items, rest, below);
    var (vs, _) := DecodeAll(reg, h.items, rest, below).value;
    HeadThenItems(reg, t, b, h, vs);
  }

  lemma {:induction false} DecodeAllSound(reg: Registry, ts: seq<TypeId>, b: Bytes, levels: nat)
    requires DecodeAll(reg, ts, b, levels).Some?
    ensures var (vs, n) := DecodeAll(reg, ts, b, levels).value;
            AllBegin(reg, ts, b, vs) && n == |EncodeAll(vs)| && HeightOfItems(vs) <= levels
    decreases levels, 1 + |ts|
  {
    if ts != [] {
      DecodeSound(reg, ts[0], b, levels);
      var (v, k) := Decode(reg, ts[0], b, levels).value;
      var rest := b[k..];
      DecodeCons(reg, ts, b, levels, v, k, rest);
      DecodeAllSound(reg, ts[1..], rest, levels);
      var (vs, _) := DecodeAll(reg, ts[1..], rest, levels).value;
      ConsBegins(reg, ts, b, v, k, rest, vs);
    }
  }

  /** What is left to decode after the head of an encoded value. */
  lemma AfterHead(reg: Registry, t: TypeId, b: Bytes, v: Value)
    requires Begins(reg, t, b, v)
    ensures DecodeHead(reg, t, b).Some?
    ensures var h := DecodeHead(reg, t, b).value;
            h.head == v.head && AllBegin(reg, h.items, b[h.size..], v.items) &&
            h.size + |EncodeAll(v.items)| == |Encode(v)|
  {
    var head := EncodeHead(v.head, |v.items|);
    var ts := ItemTypes(reg, t, v.head, |v.items|).value;
    assert AllTyped(reg, ts, v.items);
    assert head == b[..|head|];
    HeadComplete(reg, t, b, v.head, |v.items|);
    assert b[|head|..][..|EncodeAll(v.items)|] == EncodeAll(v.items);
  }

  lemma AllBeginTail(reg: Registry, ts: seq<TypeId>, b: Bytes, vs: seq<Value>)
    requires AllBegin(reg, ts, b, vs) && vs != []
    ensures var k := |Encode(vs[0])|;
            ts != [] && k <= |b| && Begins(reg, ts[0], b, vs[0]) && AllBegin(reg, ts[1..], b[k..], vs[1..]) &&
            |EncodeAll(vs)| == k + |EncodeAll(vs[1..])|
  {
    var k := |Encode(vs[0])|;
    var rest := EncodeAll(vs[1..]);
    assert EncodeAll(vs) == Encode(vs[0]) + rest;
    assert Encode(vs[0]) == b[..k] && rest == b[k..][..|rest|];
  }

  lemma OpenedValue(reg: Registry, t: TypeId, b: Bytes, v: Value) returns (h: Opening)
    requires Begins(reg, t, b, v)
    ensures DecodeHead(reg, t, b) == Some(h) && AllBegin(reg, h.items, b[h.size..], v.items)
    ensures v == Value(h.head, v.items) && h.size + |EncodeAll(v.items)| == |Encode(v)|
  {
    AfterHead(reg, t, b, v);
    h := DecodeHead(reg, t, b).value;
  }

  /** Every encoding of a value less deep than the bound decodes to that value, whatever bytes
      follow it. */
  lemma {:induction false} DecodeComplete(reg: Registry, t: TypeId, b: Bytes, levels: nat, v: Value)
    requires Begins(reg, t, b, v) && Height(v) < levels
    ensures Decode(reg, t, b, levels) == Some((v, |Encode(v)|))
    decreases v, 1
  {
    var h := OpenedValue(reg, t, b, v);
    assert WithItems(h, Some((v.items, |EncodeAll(v.items)|))) == Some((v, |Encode(v)|));
    DecodeOpened(reg, t, b, levels - 1, h, b[h.size..], v.items);
  }

  lemma {:induction false} DecodeOpened(reg: Registry, t: TypeId, b: Bytes, below: nat, h: Opening, rest: Bytes,
                                        vs: seq<Value>)
    requires DecodeHead(reg, t, b) == Some(h) && rest == b[h.size..] && AllBegin(reg, h.items, rest, vs)
    requires HeightOfItems(vs) <= below
    ensures Decode(reg, t, b, below + 1) == WithItems(h, Some((vs, |EncodeAll(vs)|)))
    decreases vs, 1
  {
    DecodeAllComplete(reg, h.items, rest, below, vs);
    DecodeFrom(reg, t, b, below, h, rest);
  }

  lemma {:induction false} DecodeAllComplete(reg: Registry, ts: seq<TypeId>, b: Bytes, levels: nat, vs: seq<Value>)
    requires AllBegin(reg, ts, b, vs) && HeightOfItems(vs) <= levels
    ensures DecodeAll(reg, ts, b, levels) == Some((vs, |EncodeAll(vs)|))
    decreases vs, 0
  {
    if vs != [] {
      var v, k := vs[0], |Encode(vs[0])|;
      AllBeginTail(reg, ts, b, vs);
      var rest, decoded := b[k..], Some((vs[1..], |EncodeAll(vs[1..])|));
      assert vs == [v] + vs[1..];
      assert BeforeRest(v, k, decoded) == Some((vs, |EncodeAll(vs)|));
      DecodeComplete(reg, ts[0], b, levels, v);
      DecodeCons(reg, ts, b, levels, v, k, rest);
      assert DecodeAll(reg, ts[1..], rest, levels) == decoded by {
        DecodeAllComplete(reg, ts[1..], rest, levels, vs[1..]);
      }
    }
  }

  /** Bytes start with the encoding of at most one value of a type. */
  lemma BeginsUnique(reg: Registry, t: TypeId, b: Bytes, v: Value, w: Value)
    requires Begins(reg, t, b, v) && Begins(reg, t, b, w)
    ensures v == w
  {
    var levels := 1 + Max(Height(v), Height(w));
    DecodeComplete(reg, t, b, levels, v);
    DecodeComplete(reg, t, b, levels, w);
  }

  // The decoder recurses with no bound of its own, yet on a value that exists it cannot nest deeper
  // than the registry and the input allow: below a value, the same type never starts at the same byte.

  lemma {:induction false} RowBound(s: set<(nat, nat)>, row: nat, width: nat)
    requires forall p :: p in s ==> p.0 == row && p.1 < width
    ensures |s| <= width
  {
    if width == 0 {
      assert s == {};
    } else {
      var last := (row, width - 1);
      RowBound(s - {last}, row, width - 1);
    }
  }

  lemma {:induction false} GridBound(s: set<(nat, nat)>, rows: nat, width: nat)
    requires forall p :: p in s ==> p.0 < rows && p.1 < width
    ensures |s| <= rows * width
  {
    if rows == 0 {
      assert s == {};
    } else {
      var row := set p | p in s && p.0 == rows - 1;
      RowBound(row, rows - 1, width);
      GridBound(s - row, rows - 1, width);
      assert rows * width == (rows - 1) * width + width;
    }
  }

  /** The item that makes a value as high as it is, its type and where its bytes start. */
  lemma {:induction false} HighestItem(reg: Registry, ts: seq<TypeId>, b: Bytes, vs: seq<Value>)
    returns (t: TypeId, offset: nat, v: Value)
    requires AllBegin(reg, ts, b, vs) && vs != []
    ensures offset <= |b| && Begins(reg, t, b[offset..], v)
    ensures HeightOfItems(vs) == 1 + Height(v)
    decreases vs
  {
    var k := |Encode(vs[0])|;
    var rest := EncodeAll(vs[1..]);
    assert EncodeAll(vs) == Encode(vs[0]) + rest;
    assert Encode(vs[0]) == b[..k] && rest == b[k..][..|rest|];
    if vs[1..] == [] || HeightOfItems(vs[1..]) <= 1 + Height(vs[0]) {
      t, offset, v := ts[0], 0, vs[0];
      assert b[0..] == b;
    } else {
      t, offset, v := HighestItem(reg, ts[1..], b[k..], vs[1..]);
      assert b[k..][offset..] == b[k + offset..];
      offset := k + offset;
    }
  }

  /** The values enclosing the one at hand, by type and number of bytes from their start to the end. */
  ghost predicate Encloses(reg: Registry, b: Bytes, outer: map<(nat, nat), Value>, v: Value) {
    forall p :: p in outer ==>
      p.0 < |reg| && p.1 <= |b| && Begins(reg, p.0, b[|b| - p.1..], outer[p]) && Height(outer[p]) > Height(v)
  }

  lemma BelowHead(reg: Registry, t: TypeId, b: Bytes, start: nat, v: Value)
    returns (t': TypeId, start': nat, v': Value)
    requires start <= |b| && Begins(reg, t, b[start..], v) && v.items != []
    ensures start' <= |b| && Begins(reg, t', b[start'..], v') && Height(v) == 1 + Height(v')
  {
    AfterHead(reg, t, b[start..], v);
    var h := DecodeHead(reg, t, b[start..]).value;
    var offset;
    t', offset, v' := HighestItem(reg, h.items, b[start..][h.size..], v.items);
    start' := start + h.size + offset;
    assert b[start..][h.size..][offset..] == b[start'..];
  }

  /** Enough levels for every value that `b` can hold. */
  function Levels(reg: Registry, b: Bytes): nat {
    |reg| * (|b| + 1)
  }

  lemma EnclosingBound(reg: Registry, b: Bytes, outer: map<(nat, nat), Value>, v: Value)
    requires Encloses(reg, b, outer, v)
    ensures |outer| <= Levels(reg, b)
  {
    GridBound(outer.Keys, |reg|, |b| + 1);
    assert |outer.Keys| == |outer|;
  }

  lemma EncloseItem(reg: Registry, t: TypeId, b: Bytes, start: nat, v: Value, outer: map<(nat, nat), Value>, v': Value)
    requires start <= |b| && Begins(reg, t, b[start..], v) && Encloses(reg, b, outer, v)
    requires Height(v') < Height(v)
    ensures (t, |b| - start) !in outer
    ensures Encloses(reg, b, outer[(t, |b| - start) := v], v')
  {
    var here := (t, |b| - start);
    assert b[|b| - here.1..] == b[start..];
    if here in outer {
      BeginsUnique(reg, t, b[start..], v, outer[here]);
      assert false;
    }
  }

  lemma {:induction false} NestingBound(reg: Registry, t: TypeId, b: Bytes, start: nat, v: Value,
                                        outer: map<(nat, nat), Value>)
    requires start <= |b| && Begins(reg, t, b[start..], v) && Encloses(reg, b, outer, v)
    ensures |outer| + Height(v) <= Levels(reg, b)
    decreases Height(v)
  {
    if v.items == [] {
      EnclosingBound(reg, b, outer, v);
    } else {
      var t', start', v' := BelowHead(reg, t, b, start, v);
      EncloseItem(reg, t, b, start, v, outer, v');
      NestingBound(reg, t', b, start', v', outer[(t, |b| - start) := v]);
    }
  }

  /** Decode with no bound on nesting. */
  function DecodeAsType(reg: Registry, t: TypeId, b: Bytes): (r: Option<(Value, nat)>) {
    Decode(reg, t, b, Levels(reg, b) + 1)
  }

  /** The unbounded decoder accepts exactly the encodings of the type's values, and yields the value
      encoded, whatever bytes follow. */
  lemma DecodeAsTypeExact(reg: Registry, t: TypeId, b: Bytes, v: Value, n: nat)
    ensures DecodeAsType(reg, t, b) == Some((v, n)) <==> Begins(reg, t, b, v) && n == |Encode(v)|
  {
    if Begins(reg, t, b, v) {
      assert b[0..] == b;
      NestingBound(reg, t, b, 0, v, map[]);
      DecodeComplete(reg, t, b, Levels(reg, b) + 1, v);
    }
    if DecodeAsType(reg, t, b) == Some((v, n)) {
      DecodeSound(reg, t, b, Levels(reg, b) + 1);
    }
  }
}
