/** Which fuel tank calls are accepted, and why the others are refused, told without the steps that decide it. */
module Acceptance {
  import opened Wrappers
  import opened Codec
  import opened Scale
  import opened Measure
  import opened FuelTank
  import opened FuelTankProperties
  import opened SignatureTypes

  // The call and its arguments.

  /** Position `k` is the last argument of this name. */
  predicate IsLast(args: seq<Arg>, name: string, k: nat) {
    k < |args| && args[k].name == name && forall j :: k < j < |args| ==> args[j].name != name
  }

  lemma {:induction false} LastNamedExact(args: seq<Arg>, name: string, k: nat)
    ensures LastNamed(args, name) == Some(k) <==> IsLast(args, name, k)
    ensures LastNamed(args, name).None? <==> forall j :: 0 <= j < |args| ==> args[j].name != name
  {
    if args != [] && args[|args| - 1].name != name {
      LastNamedExact(args[..|args| - 1], name, k);
    }
  }

  /** The call's two index bytes, and the values of its arguments, none of them too deep. */
  ghost predicate IsCallOf(metadata: Metadata, tx: Bytes, info: CallInfo, vs: seq<Value>) {
    |tx| >= 2 && (tx[0], tx[1]) in metadata.calls && metadata.calls[(tx[0], tx[1])] == info &&
    AllTyped(metadata.types, ArgTypes(info.args), vs) && EncodeAll(vs) == tx[2..] && AllShallow(vs)
  }

  predicate IsDispatch(info: CallInfo) {
    info.pallet == "FuelTanks" && (info.call == "dispatch" || info.call == "dispatch_and_touch")
  }

  /** Why arguments do not split: after the values of some of them, all shallow, either bytes are left over or no
      shallow value of the next argument's type follows. */
  lemma {:induction false} SplitRefused(reg: Registry, args: seq<Arg>, b: Bytes) returns (vs: seq<Value>)
    requires Split(reg, args, b).Err?
    ensures |vs| <= |args| && AllTyped(reg, ArgTypes(args[..|vs|]), vs) && AllShallow(vs) && EncodeAll(vs) <= b
    ensures |vs| == |args| ==> EncodeAll(vs) != b && Split(reg, args, b) == Err(TrailingBytes)
    ensures |vs| < |args| ==>
              var rest := b[|EncodeAll(vs)|..];
              var arg := args[|vs|];
              (forall v :: Begins(reg, arg.ty, rest, v) ==> Height(v) > MAX_NESTING) &&
              Split(reg, args, b).error.BadArgument? && Split(reg, args, b).error.name == arg.name &&
              ((exists v :: Begins(reg, arg.ty, rest, v)) ==> Split(reg, args, b).error.cause.TooDeep?)
  {
    if args == [] {
      vs := [];
    } else if MeasureAt(reg, args[0].ty, b, 0).Size? {
      var v := FirstValue(reg, args[0].ty, b);
      var n := |Encode(v)|;
      SplitByFirst(MeasureOf(reg), args, b, n, b[n..]);
      var rest := SplitRefused(reg, args[1..], b[n..]);
      vs := [v] + rest;
      RefusedLater(reg, args, b, v, rest);
    } else {
      vs := [];
      FirstRefused(reg, args[0].ty, b);
    }
  }

  lemma FirstValue(reg: Registry, t: TypeId, b: Bytes) returns (v: Value)
    requires MeasureAt(reg, t, b, 0).Size?
    ensures Begins(reg, t, b, v) && Height(v) <= MAX_NESTING && MeasureAt(reg, t, b, 0) == Size(|Encode(v)|)
  {
    var n := MeasureAt(reg, t, b, 0).bytes;
    MeasureExact(reg, t, b, n);
    v :| Begins(reg, t, b, v) && n == |Encode(v)| && Height(v) <= MAX_NESTING;
  }

  lemma FirstRefused(reg: Registry, t: TypeId, b: Bytes)
    requires !MeasureAt(reg, t, b, 0).Size?
    ensures forall v :: Begins(reg, t, b, v) ==> Height(v) > MAX_NESTING && MeasureAt(reg, t, b, 0).TooDeep?
  {
    forall v | Begins(reg, t, b, v) ensures Height(v) > MAX_NESTING && MeasureAt(reg, t, b, 0).TooDeep? {
      MeasureExact(reg, t, b, |Encode(v)|);
      if Height(v) > MAX_NESTING {
        TooDeepIsReported(reg, t, b, 0, v);
      }
    }
  }

  lemma RefusedLater(reg: Registry, args: seq<Arg>, b: Bytes, v: Value, rest: seq<Value>)
    requires args != [] && Begins(reg, args[0].ty, b, v) && Height(v) <= MAX_NESTING && |rest| < |args|
    requires AllTyped(reg, ArgTypes(args[1..][..|rest|]), rest) && AllShallow(rest)
    requires EncodeAll(rest) <= b[|Encode(v)|..]
    ensures var vs := [v] + rest;
            AllTyped(reg, ArgTypes(args[..|vs|]), vs) && AllShallow(vs) && EncodeAll(vs) <= b &&
            |EncodeAll(vs)| == |Encode(v)| + |EncodeAll(rest)| &&
            b[|EncodeAll(vs)|..] == b[|Encode(v)|..][|EncodeAll(rest)|..] &&
            (EncodeAll(vs) == b <==> EncodeAll(rest) == b[|Encode(v)|..])
  {
    assert ArgTypes(args[..|rest| + 1])[1..] == ArgTypes(args[1..][..|rest|]);
    ConsTyped(reg, ArgTypes(args[..|rest| + 1]), v, rest);
    AfterBoth(b, Encode(v), EncodeAll(rest));
  }

  lemma AfterBoth(b: Bytes, first: Bytes, second: Bytes)
    requires first <= b && second <= b[|first|..]
    ensures first + second <= b && b[|first + second|..] == b[|first|..][|second|..]
    ensures first + second == b <==> second == b[|first|..]
  {
    OneAfterAnother(b, first, second, b[|first|..]);
    assert b == first + b[|first|..];
  }

  // The settings' type.

  /** Variant `index` of the type is `Some` of one struct, unnamed, whose fields are these and are all named. */
  ghost predicate SettingsFields(reg: Registry, t: TypeId, index: Byte, fields: seq<Field>) {
    t < |reg| && reg[t].VariantType? && (forall j :: 0 <= j < |fields| ==> fields[j].name != "") &&
    exists def ::
      def in reg[t].variants && def.index == index && def.name == "Some" && |def.fields| == 1 &&
      def.fields[0].name == "" && def.fields[0].ty < |reg| && reg[def.fields[0].ty] == CompositeType(fields)
  }

  /** A field of the struct is called `signature` and can hold one. */
  ghost predicate SignatureFits(reg: Registry, fields: seq<Field>, expiry: nat) {
    exists i :: 0 <= i < |fields| && fields[i].name == "signature" && HoldsSignature(reg, fields[i].ty, expiry)
  }

  lemma NamesExact(fields: seq<Field>)
    ensures FieldNames(fields).Some? <==> forall j :: 0 <= j < |fields| ==> fields[j].name != ""
    ensures FieldNames(fields).Some? ==>
              |FieldNames(fields).value| == |fields| &&
              forall j :: 0 <= j < |fields| ==> FieldNames(fields).value[j] == fields[j].name
  {
  }

  /** What the type of typed settings is. */
  lemma FieldsOfSettings(reg: Registry, t: TypeId, v: Value) returns (fields: seq<Field>)
    requires WellTyped(reg, t, v) && IsSettings(v)
    ensures SettingsFields(reg, t, v.head.index, fields) && SettingsNames(v) == FieldNames(fields).value
    ensures FieldNames(fields).Some? && AllTyped(reg, FieldTypes(fields), v.items[0].items)
    ensures forall i: nat :: SettingsFieldType(reg, t, v, i) == if i < |fields| then Some(fields[i].ty) else None
  {
    var def, inner := SettingsStruct(reg, t, v);
    fields := reg[inner].fields;
    NamesExact(fields);
    NamesExact(def.fields);
    assert |def.fields| == 1 && def.fields[0].ty == inner by {
      assert FieldTypes(def.fields)[0] == inner;
    }
    assert FieldTypes(def.fields) == [inner];
  }

  lemma OnlyFields(reg: Registry, t: TypeId, index: Byte, a: seq<Field>, b: seq<Field>)
    requires WellFormed(reg) && SettingsFields(reg, t, index, a) && SettingsFields(reg, t, index, b)
    ensures a == b
  {
    var d :| d in reg[t].variants && d.index == index && d.name == "Some" && |d.fields| == 1 &&
      d.fields[0].name == "" && d.fields[0].ty < |reg| && reg[d.fields[0].ty] == CompositeType(a);
    var e :| e in reg[t].variants && e.index == index && e.name == "Some" && |e.fields| == 1 &&
      e.fields[0].name == "" && e.fields[0].ty < |reg| && reg[e.fields[0].ty] == CompositeType(b);
    VariantByIndex(reg[t].variants, d);
    VariantByIndex(reg[t].variants, e);
  }

  /** Which typed values are settings. */
  lemma SettingsExact(reg: Registry, t: TypeId, v: Value)
    requires WellFormed(reg) && WellTyped(reg, t, v)
    ensures IsSettings(v) <==>
            v.head.Variant? && v.head.name == "Some" && exists fields :: SettingsFields(reg, t, v.head.index, fields)
  {
    if IsSettings(v) {
      var fields := FieldsOfSettings(reg, t, v);
    }
    if v.head.Variant? {
      if fields :| SettingsFields(reg, t, v.head.index, fields) {
        var def :| def in reg[t].variants && def.index == v.head.index && def.name == "Some" && |def.fields| == 1 &&
          def.fields[0].name == "" && def.fields[0].ty < |reg| && reg[def.fields[0].ty] == CompositeType(fields);
        VariantByIndex(reg[t].variants, def);
        NamesExact(fields);
        StructInside(reg, t, v, def, fields);
      }
    }
  }

  lemma StructInside(reg: Registry, t: TypeId, v: Value, def: VariantDef, fields: seq<Field>)
    requires WellTyped(reg, t, v) && v.head.Variant? && reg[t].VariantType?
    requires VariantAt(reg[t].variants, v.head.index) == Some(def) && |def.fields| == 1 && def.fields[0].name == ""
    requires def.name == "Some" && def.fields[0].ty < |reg| && reg[def.fields[0].ty] == CompositeType(fields)
    requires FieldNames(fields).Some?
    ensures IsSettings(v)
  {
    NamesExact(def.fields);
    NamesExact(fields);
    TypedAt(reg, FieldTypes(def.fields), v.items, 0);
  }

  /** Settings can be given the signature exactly when their type has a field for it. */
  lemma SignsExact(reg: Registry, t: TypeId, v: Value, fields: seq<Field>, expiry: BlockNumber)
    requires WellFormed(reg) && WellTyped(reg, t, v) && IsSettings(v) && SettingsFields(reg, t, v.head.index, fields)
    ensures var i := IndexOf(SettingsNames(v), "signature");
            (i.None? <==> forall j :: 0 <= j < |fields| ==> fields[j].name != "signature") &&
            (i.Some? ==>
               (SignedSettings(reg, t, v, i.value, PLACEHOLDER, expiry).Some? <==> SignatureFits(reg, fields, expiry)))
  {
    var fields' := FieldsOfSettings(reg, t, v);
    OnlyFields(reg, t, v.head.index, fields, fields');
    NamesExact(fields);
    var i := IndexOf(SettingsNames(v), "signature");
    if i.Some? {
      SignatureValueExact(reg, fields[i.value].ty, PLACEHOLDER, expiry);
      DistinctNames(reg, t, v, i.value);
    }
  }

  // The default.

  predicate AllZero(b: Bytes) {
    forall i :: 0 <= i < |b| ==> b[i] == 0
  }

  /** A zero byte is `false` or `None` of this type. */
  ghost predicate ZeroType(reg: Registry, t: TypeId) {
    t < |reg| &&
    (reg[t].BoolType? ||
     (reg[t].VariantType? &&
      exists def :: def in reg[t].variants && def.index == 0 && def.name == "None" && def.fields == []))
  }

  /** Zero bytes, not more than 255, are a value of the struct: the signature's field takes some of them and every
      other field, being a bool or an option, takes one. */
  ghost predicate DefaultFits(reg: Registry, fields: seq<Field>) {
    (forall j :: 0 <= j < |fields| && fields[j].name != "signature" ==> ZeroType(reg, fields[j].ty)) &&
    exists i, w ::
      0 <= i < |fields| && fields[i].name == "signature" && WellTyped(reg, fields[i].ty, w) && AllZero(Encode(w)) &&
      |Encode(w)| + |fields| - 1 <= 255
  }

  lemma ZeroValueExact(reg: Registry, t: TypeId, v: Value)
    requires WellTyped(reg, t, v) && IsZero(v) && AllZero(Encode(v))
    ensures ZeroType(reg, t) && |Encode(v)| == 1
  {
    ZeroIsFlat(reg, t, v);
    assert EncodeAll([]) == [];
    if v.head.Variant? {
      var def := VariantAt(reg[t].variants, v.head.index).value;
      assert Encode(v) == [v.head.index];
      assert Encode(v)[0] == 0;
      assert |FieldTypes(def.fields)| == 0;
    }
  }

  function ZeroOf(reg: Registry, t: TypeId): Value {
    if t < |reg| && reg[t].BoolType? then Value(Bool(false), []) else Value(Variant(0, "None", Some([])), [])
  }

  lemma ZeroOfType(reg: Registry, t: TypeId)
    requires WellFormed(reg) && ZeroType(reg, t)
    ensures WellTyped(reg, t, ZeroOf(reg, t)) && Encode(ZeroOf(reg, t)) == [0] && IsZero(ZeroOf(reg, t))
  {
    if reg[t].VariantType? {
      var def :| def in reg[t].variants && def.index == 0 && def.name == "None" && def.fields == [];
      VariantByIndex(reg[t].variants, def);
      NamesExact(def.fields);
      assert FieldNames(def.fields).value == [] && FieldTypes(def.fields) == [];
    }
  }

  lemma {:induction false} TypedPointwise(reg: Registry, ts: seq<TypeId>, vs: seq<Value>)
    requires |ts| == |vs| && forall j :: 0 <= j < |vs| ==> WellTyped(reg, ts[j], vs[j])
    ensures AllTyped(reg, ts, vs)
  {
    if vs != [] {
      assert forall j :: 0 <= j < |vs| - 1 ==> vs[1..][j] == vs[j + 1] && ts[1..][j] == ts[j + 1];
      TypedPointwise(reg, ts[1..], vs[1..]);
    }
  }

  lemma {:induction false} ZeroesInAll(vs: seq<Value>)
    ensures AllZero(EncodeAll(vs)) <==> forall j :: 0 <= j < |vs| ==> AllZero(Encode(vs[j]))
  {
    if vs != [] {
      ZeroesInAll(vs[1..]);
      ZeroesInBoth(Encode(vs[0]), EncodeAll(vs[1..]));
      assert forall j :: 0 < j < |vs| ==> vs[j] == vs[1..][j - 1];
    }
  }

  lemma ZeroesInBoth(a: Bytes, b: Bytes)
    ensures AllZero(a + b) <==> AllZero(a) && AllZero(b)
  {
    if AllZero(a + b) {
      assert forall i :: 0 <= i < |a| ==> a[i] == (a + b)[i];
      assert forall i :: 0 <= i < |b| ==> b[i] == (a + b)[|a| + i];
    }
  }

  lemma {:induction false} OneByteEach(vs: seq<Value>)
    requires forall j :: 0 <= j < |vs| ==> |Encode(vs[j])| == 1
    ensures |EncodeAll(vs)| == |vs|
  {
    if vs != [] {
      OneByteEach(vs[1..]);
    }
  }

  lemma {:induction false} OneByteEachBut(vs: seq<Value>, i: nat)
    requires i < |vs| && forall j :: 0 <= j < |vs| && j != i ==> |Encode(vs[j])| == 1
    ensures |EncodeAll(vs)| == |Encode(vs[i])| + |vs| - 1
  {
    assert |EncodeAll(vs)| == |Encode(vs[0])| + |EncodeAll(vs[1..])|;
    if i == 0 {
      OneByteEach(vs[1..]);
    } else {
      OneByteEachBut(vs[1..], i - 1);
    }
  }

  /** The bytes `None` is read as. */
  function DefaultBytes(): Bytes {
    [1] + Zeroes(255)
  }

  lemma DefaultPrefix(index: Byte, rest: Bytes)
    ensures [index] + rest <= DefaultBytes() <==> index == 1 && AllZero(rest) && |rest| <= 255
  {
    var b := [index] + rest;
    if b <= DefaultBytes() {
      assert b[0] == DefaultBytes()[0];
      forall i | 0 <= i < |rest| ensures rest[i] == 0 {
        assert rest[i] == b[i + 1] == DefaultBytes()[i + 1];
      }
    }
    if index == 1 && AllZero(rest) && |rest| <= 255 {
      assert forall i :: 0 <= i < |b| ==> b[i] == DefaultBytes()[i];
      assert b == DefaultBytes()[..|b|];
    }
  }

  lemma SettingsBytes(v: Value)
    requires IsSettings(v)
    ensures Encode(v) == [v.head.index] + EncodeAll(v.items[0].items)
  {
    assert v.items[1..] == [];
    assert EncodeAll(v.items) == Encode(v.items[0]) + [];
    assert Encode(v.items[0]) == [] + EncodeAll(v.items[0].items);
  }

  /** Settings that the default bytes give, with every other field zero. */
  ghost predicate IsDefault(reg: Registry, t: TypeId, d: Value) {
    WellTyped(reg, t, d) && Encode(d) <= DefaultBytes() && IsSettings(d) && OthersZero(d)
  }

  lemma DefaultIsFit(reg: Registry, t: TypeId, d: Value, fields: seq<Field>)
    requires WellFormed(reg) && IsDefault(reg, t, d) && SettingsFields(reg, t, d.head.index, fields)
    requires exists i :: 0 <= i < |fields| && fields[i].name == "signature"
    ensures d.head.index == 1 && DefaultFits(reg, fields)
  {
    var items := d.items[0].items;
    var fields' := FieldsOfSettings(reg, t, d);
    OnlyFields(reg, t, d.head.index, fields, fields');
    NamesExact(fields);
    SettingsBytes(d);
    DefaultPrefix(d.head.index, EncodeAll(items));
    ZeroesInAll(items);
    var i :| 0 <= i < |fields| && fields[i].name == "signature";
    SignatureAlone(reg, t, d, fields, i);
    forall j | 0 <= j < |fields| && j != i ensures ZeroType(reg, fields[j].ty) && |Encode(items[j])| == 1 {
      TypedAt(reg, FieldTypes(fields), items, j);
      assert SettingsNames(d)[j] != "signature";
      ZeroValueExact(reg, fields[j].ty, items[j]);
    }
    OneByteEachBut(items, i);
    TypedAt(reg, FieldTypes(fields), items, i);
  }

  lemma SignatureAlone(reg: Registry, t: TypeId, v: Value, fields: seq<Field>, i: nat)
    requires WellFormed(reg) && WellTyped(reg, t, v) && IsSettings(v) && FieldNames(fields).Some?
    requires SettingsNames(v) == FieldNames(fields).value && i < |fields| && fields[i].name == "signature"
    ensures forall j :: 0 <= j < |fields| && j != i ==> fields[j].name != "signature"
  {
    NamesExact(fields);
    var k := IndexOf(SettingsNames(v), "signature").value;
    DistinctNames(reg, t, v, k);
  }

  /** The default that fitting fields have. */
  lemma FitHasDefault(reg: Registry, t: TypeId, fields: seq<Field>) returns (d: Value)
    requires WellFormed(reg) && SettingsFields(reg, t, 1, fields) && DefaultFits(reg, fields)
    ensures IsDefault(reg, t, d) && d.head.index == 1
  {
    NamesExact(fields);
    var i, w :| 0 <= i < |fields| && fields[i].name == "signature" && WellTyped(reg, fields[i].ty, w) &&
      AllZero(Encode(w)) && |Encode(w)| + |fields| - 1 <= 255;
    var def :| def in reg[t].variants && def.index == 1 && def.name == "Some" && |def.fields| == 1 &&
      def.fields[0].name == "" && def.fields[0].ty < |reg| && reg[def.fields[0].ty] == CompositeType(fields);
    var items := seq(|fields|, j requires 0 <= j < |fields| => DefaultItem(reg, fields, w, j));
    assert DistinctFields(fields);
    forall j | 0 <= j < |fields|
      ensures ItemFits(reg, fields[j], items[j]) && (fields[j].name == "signature" ==> j == i)
    {
      DefaultItemFits(reg, fields, i, w, j);
    }
    ItemsOfDefault(reg, def.fields[0].ty, fields, items, i);
    d := Value(Variant(1, "Some", None), [Value(Composite(FieldNames(fields)), items)]);
    DefaultOfItems(reg, t, def, fields, d);
  }

  lemma DefaultOfItems(reg: Registry, t: TypeId, def: VariantDef, fields: seq<Field>, d: Value)
    requires WellFormed(reg) && t < |reg| && reg[t].VariantType? && def in reg[t].variants
    requires def.index == 1 && def.name == "Some" && |def.fields| == 1 && def.fields[0].name == ""
    requires FieldNames(fields).Some? && |d.items| == 1 && d.head == Variant(1, "Some", None)
    requires d.items[0].head == Composite(FieldNames(fields)) && WellTyped(reg, def.fields[0].ty, d.items[0])
    requires |d.items[0].items| == |fields| && AllZero(EncodeAll(d.items[0].items)) &&
             |EncodeAll(d.items[0].items)| <= 255
    requires forall j :: 0 <= j < |fields| && fields[j].name != "signature" ==> IsZero(d.items[0].items[j])
    ensures IsDefault(reg, t, d)
  {
    NamesExact(fields);
    NamesExact(def.fields);
    VariantByIndex(reg[t].variants, def);
    assert def.fields == [def.fields[0]] && d.items == [d.items[0]];
    SingleFieldVariant(reg, t, 1, def, def.fields[0], d.items[0]);
    SettingsBytes(d);
    DefaultPrefix(1, EncodeAll(d.items[0].items));
  }

  /** Item `j` of the default, where `w` is the signature's. */
  function DefaultItem(reg: Registry, fields: seq<Field>, w: Value, j: nat): Value
    requires j < |fields|
  {
    if fields[j].name == "signature" then w else ZeroOf(reg, fields[j].ty)
  }

  /** An item of the default is of its field's type, and is a zero byte unless it is the signature's. */
  ghost predicate ItemFits(reg: Registry, field: Field, item: Value) {
    WellTyped(reg, field.ty, item) && AllZero(Encode(item)) &&
    (field.name != "signature" ==> IsZero(item) && |Encode(item)| == 1)
  }

  lemma DefaultItemFits(reg: Registry, fields: seq<Field>, i: nat, w: Value, j: nat)
    requires WellFormed(reg) && DistinctFields(fields) && i < |fields| && fields[i].name == "signature"
    requires WellTyped(reg, fields[i].ty, w) && AllZero(Encode(w)) && j < |fields|
    requires fields[j].name != "signature" ==> ZeroType(reg, fields[j].ty)
    ensures ItemFits(reg, fields[j], DefaultItem(reg, fields, w, j)) && (fields[j].name == "signature" ==> j == i)
  {
    if fields[j].name != "signature" {
      ZeroOfType(reg, fields[j].ty);
    }
  }

  lemma {:induction false} ItemsOfDefault(reg: Registry, inner: TypeId, fields: seq<Field>, items: seq<Value>, i: nat)
    requires inner < |reg| && reg[inner] == CompositeType(fields) && |items| == |fields|
    requires i < |fields| && forall j :: 0 <= j < |fields| ==> ItemFits(reg, fields[j], items[j])
    requires forall j :: 0 <= j < |fields| && j != i ==> fields[j].name != "signature"
    ensures WellTyped(reg, inner, Value(Composite(FieldNames(fields)), items))
    ensures AllZero(EncodeAll(items)) && |EncodeAll(items)| == |Encode(items[i])| + |fields| - 1
  {
    TypedPointwise(reg, FieldTypes(fields), items);
    ZeroesInAll(items);
    OneByteEachBut(items, i);
  }

  // Which settings are accepted.

  /** The settings sent, of this type, can be given the signature: either they are a struct with a field for it, or
      they are `None` and the struct that zero bytes stand for has one. */
  ghost predicate Accepts(reg: Registry, t: TypeId, v: Value, expiry: nat) {
    v.head.Variant? &&
    ((v.head.name == "Some" &&
      exists fields :: SettingsFields(reg, t, v.head.index, fields) && SignatureFits(reg, fields, expiry)) ||
     (v.head.name == "None" &&
      exists fields ::
        SettingsFields(reg, t, 1, fields) && SignatureFits(reg, fields, expiry) && DefaultFits(reg, fields)))
  }

  /** What settings are read as, before they are signed. */
  ghost predicate ReadAs(reg: Registry, t: TypeId, v: Value, s: Value) {
    IsSettings(s) && if IsNone(v) then IsDefault(reg, t, s) else s == v
  }

  lemma ReadExact(reg: Registry, t: TypeId, v: Value, s: Value)
    requires WellTyped(reg, t, v)
    ensures DispatchSettings(reg, t, Encode(v)) == Ok(s) <==> ReadAs(reg, t, v, s)
  {
    assert Begins(reg, t, Encode(v), v);
    DecodeAsTypeExact(reg, t, Encode(v), v, |Encode(v)|);
    if IsNone(v) {
      assert DEFAULT_SETTINGS == DefaultBytes();
      DecodeAsTypeExact(reg, t, DefaultBytes(), s, |Encode(s)|);
      var decoded := DecodeAsType(reg, t, DefaultBytes());
      if decoded.Some? {
        DecodeAsTypeExact(reg, t, DefaultBytes(), decoded.value.0, decoded.value.1);
      }
    }
  }

  /** Settings read as `s` can be given the signature. */
  ghost predicate CanCarry(reg: Registry, t: TypeId, s: Value, expiry: BlockNumber)
    requires IsSettings(s)
  {
    var i := IndexOf(SettingsNames(s), "signature");
    i.Some? && SignedSettings(reg, t, s, i.value, PLACEHOLDER, expiry).Some?
  }

  lemma CarriesExact(reg: Registry, t: TypeId, s: Value, expiry: BlockNumber) returns (fields: seq<Field>)
    requires WellFormed(reg) && WellTyped(reg, t, s) && IsSettings(s)
    ensures SettingsFields(reg, t, s.head.index, fields)
    ensures CanCarry(reg, t, s, expiry) <==> SignatureFits(reg, fields, expiry)
  {
    fields := FieldsOfSettings(reg, t, s);
    SignsExact(reg, t, s, fields, expiry);
  }

  lemma AcceptsExact(reg: Registry, t: TypeId, v: Value, expiry: BlockNumber)
    requires WellFormed(reg) && WellTyped(reg, t, v)
    ensures Accepts(reg, t, v, expiry) <==> exists s :: ReadAs(reg, t, v, s) && CanCarry(reg, t, s, expiry)
  {
    SettingsExact(reg, t, v);
    assert "None" != "Some" by {
      assert "None"[0] != "Some"[0];
    }
    if Accepts(reg, t, v, expiry) {
      AcceptedIsRead(reg, t, v, expiry);
    }
    if s :| ReadAs(reg, t, v, s) && CanCarry(reg, t, s, expiry) {
      var fields := CarriesExact(reg, t, s, expiry);
      if IsNone(v) {
        DefaultIsFit(reg, t, s, fields);
      }
    }
  }

  lemma AcceptedIsRead(reg: Registry, t: TypeId, v: Value, expiry: BlockNumber)
    requires WellFormed(reg) && WellTyped(reg, t, v) && Accepts(reg, t, v, expiry)
    ensures exists s :: ReadAs(reg, t, v, s) && CanCarry(reg, t, s, expiry)
  {
    SettingsExact(reg, t, v);
    assert "None" != "Some" by {
      assert "None"[0] != "Some"[0];
    }
    if IsNone(v) {
      var fields :|
        SettingsFields(reg, t, 1, fields) && SignatureFits(reg, fields, expiry) && DefaultFits(reg, fields);
      var d := FitHasDefault(reg, t, fields);
      var fields' := CarriesExact(reg, t, d, expiry);
      OnlyFields(reg, t, 1, fields, fields');
      assert ReadAs(reg, t, v, d);
    } else {
      var fields :| SettingsFields(reg, t, v.head.index, fields) && SignatureFits(reg, fields, expiry);
      var fields' := CarriesExact(reg, t, v, expiry);
      OnlyFields(reg, t, v.head.index, fields, fields');
      assert ReadAs(reg, t, v, v);
    }
  }

  // The whole call.

  /** The dispatch whose argument `k` is its settings, if it has all it needs. */
  ghost predicate IsAccepted(metadata: Metadata, info: CallInfo, vs: seq<Value>, expiry: BlockNumber)
    requires |vs| == |info.args|
  {
    IsDispatch(info) && (exists j: nat :: IsLast(info.args, "call", j)) &&
    exists k: nat :: IsLast(info.args, "settings", k) && Accepts(metadata.types, info.args[k].ty, vs[k], expiry)
  }

  lemma SignedIsPrepared(metadata: Metadata, tx: Bytes, caller: PublicKey, expiry: BlockNumber,
                         sign: Bytes -> Signature)
    ensures Signed(metadata, tx, caller, expiry, sign).Ok? <==> Prepare(metadata, tx, expiry).Ok?
    ensures Prepare(metadata, tx, expiry).Err? ==>
              Signed(metadata, tx, caller, expiry, sign) == Err(Prepare(metadata, tx, expiry).error)
  {
    var r := Prepare(metadata, tx, expiry);
    if r.Ok? {
      PrepareFindsPlan(metadata, tx, expiry, r.value);
      SignedFollowsPlan(metadata, tx, caller, expiry, sign, r.value);
    }
  }

  lemma PlannedIsAccepted(metadata: Metadata, tx: Bytes, expiry: BlockNumber, p: Plan) returns (vs: seq<Value>)
    requires WellFormed(metadata.types) && IsPlan(metadata, tx, expiry, p)
    ensures IsCallOf(metadata, tx, p.info, vs) && IsAccepted(metadata, p.info, vs, expiry)
  {
    vs := SplitSound(metadata.types, p.info.args, tx[2..]);
    LastNamedExact(p.info.args, "call", p.call);
    LastNamedExact(p.info.args, "settings", p.settings);
    var t := p.info.args[p.settings].ty;
    SliceAt(vs, p.settings);
    TypedAt(metadata.types, ArgTypes(p.info.args), vs, p.settings);
    ReadExact(metadata.types, t, vs[p.settings], p.value);
    assert CanCarry(metadata.types, t, p.value, expiry);
    AcceptsExact(metadata.types, t, vs[p.settings], expiry);
  }

  /** What preparing a call finds up to its settings. */
  lemma Prepared(metadata: Metadata, tx: Bytes, expiry: BlockNumber, info: CallInfo, vs: seq<Value>, j: nat, k: nat)
    requires IsCallOf(metadata, tx, info, vs) && IsDispatch(info)
    requires IsLast(info.args, "call", j) && IsLast(info.args, "settings", k)
    ensures CallOf(metadata, tx) == Ok(info) && Split(metadata.types, info.args, tx[2..]) == Ok(Slices(vs))
    ensures LastNamed(info.args, "call") == Some(j) && LastNamed(info.args, "settings") == Some(k)
    ensures k < |vs| == |info.args| && Slices(vs)[k] == Encode(vs[k])
    ensures WellTyped(metadata.types, info.args[k].ty, vs[k])
  {
    SplitComplete(metadata.types, info.args, vs);
    LastNamedExact(info.args, "call", j);
    LastNamedExact(info.args, "settings", k);
    SliceAt(vs, k);
    TypedAt(metadata.types, ArgTypes(info.args), vs, k);
  }

  lemma AcceptedIsPlanned(metadata: Metadata, tx: Bytes, expiry: BlockNumber, info: CallInfo, vs: seq<Value>)
    returns (p: Plan)
    requires WellFormed(metadata.types) && IsCallOf(metadata, tx, info, vs) && IsAccepted(metadata, info, vs, expiry)
    ensures IsPlan(metadata, tx, expiry, p)
  {
    var j: nat :| IsLast(info.args, "call", j);
    var k: nat :| IsLast(info.args, "settings", k) && Accepts(metadata.types, info.args[k].ty, vs[k], expiry);
    Prepared(metadata, tx, expiry, info, vs, j, k);
    var s := ReadAndCarried(metadata.types, info.args[k].ty, vs[k], expiry);
    p := Plan(info, Slices(vs), j, k, s, IndexOf(SettingsNames(s), "signature").value);
  }

  lemma ReadAndCarried(reg: Registry, t: TypeId, v: Value, expiry: BlockNumber) returns (s: Value)
    requires WellFormed(reg) && WellTyped(reg, t, v) && Accepts(reg, t, v, expiry)
    ensures DispatchSettings(reg, t, Encode(v)) == Ok(s) && IsSettings(s) && CanCarry(reg, t, s, expiry)
  {
    AcceptsExact(reg, t, v, expiry);
    s :| ReadAs(reg, t, v, s) && CanCarry(reg, t, s, expiry);
    ReadExact(reg, t, v, s);
  }

  /** A call is accepted exactly when it is a dispatch of the fuel tank pallet, with or without touching, all its bytes
      are shallow values of its arguments' types, it has an inner call and settings, and the last settings' type and
      value can be given the signature. */
  lemma AcceptedExact(metadata: Metadata, tx: Bytes, caller: PublicKey, expiry: BlockNumber, sign: Bytes -> Signature)
    requires WellFormed(metadata.types)
    ensures Signed(metadata, tx, caller, expiry, sign).Ok? <==>
            exists info, vs :: IsCallOf(metadata, tx, info, vs) && IsAccepted(metadata, info, vs, expiry)
  {
    SignedIsPrepared(metadata, tx, caller, expiry, sign);
    var r := Prepare(metadata, tx, expiry);
    if r.Ok? {
      PrepareFindsPlan(metadata, tx, expiry, r.value);
      var vs := PlannedIsAccepted(metadata, tx, expiry, r.value);
    }
    if info, vs :| IsCallOf(metadata, tx, info, vs) && IsAccepted(metadata, info, vs, expiry) {
      var p := AcceptedIsPlanned(metadata, tx, expiry, info, vs);
      PrepareFindsPlan(metadata, tx, expiry, p);
    }
  }

  // Why a call is refused.

  /** Bytes that are no dispatch are refused for what they are. */
  lemma RefusedCalls(metadata: Metadata, tx: Bytes, caller: PublicKey, expiry: BlockNumber, sign: Bytes -> Signature)
    ensures var signed := Signed(metadata, tx, caller, expiry, sign);
            (|tx| < 2 ==> signed == Err(MissingCallIndex)) &&
            (|tx| >= 2 && (tx[0], tx[1]) !in metadata.calls ==> signed == Err(UnknownCall)) &&
            (|tx| >= 2 && (tx[0], tx[1]) in metadata.calls && !IsDispatch(metadata.calls[(tx[0], tx[1])]) ==>
               signed == Err(NotADispatch))
  {
  }

  /** A dispatch whose bytes are not shallow values of its arguments' types is refused for the first argument that is
      not there, or for what is left over. */
  lemma RefusedArguments(metadata: Metadata, tx: Bytes, caller: PublicKey, expiry: BlockNumber,
                         sign: Bytes -> Signature, info: CallInfo)
    returns (vs: seq<Value>)
    requires |tx| >= 2 && (tx[0], tx[1]) in metadata.calls && info == metadata.calls[(tx[0], tx[1])] && IsDispatch(info)
    requires forall vs :: !IsCallOf(metadata, tx, info, vs)
    ensures |vs| <= |info.args| && AllTyped(metadata.types, ArgTypes(info.args[..|vs|]), vs) && AllShallow(vs) &&
            EncodeAll(vs) <= tx[2..]
    ensures var signed := Signed(metadata, tx, caller, expiry, sign);
            if |vs| == |info.args| then EncodeAll(vs) != tx[2..] && signed == Err(TrailingBytes)
            else
              var rest, arg := tx[2..][|EncodeAll(vs)|..], info.args[|vs|];
              (forall v :: Begins(metadata.types, arg.ty, rest, v) ==> Height(v) > MAX_NESTING) &&
              signed.Err? && signed.error.BadArgument? && signed.error.name == arg.name &&
              ((exists v :: Begins(metadata.types, arg.ty, rest, v)) ==> signed.error.cause.TooDeep?)
  {
    if Split(metadata.types, info.args, tx[2..]).Ok? {
      var all := SplitSound(metadata.types, info.args, tx[2..]);
      assert IsCallOf(metadata, tx, info, all);
    }
    vs := SplitRefused(metadata.types, info.args, tx[2..]);
  }

  /** Why settings of this type are refused, if they are. */
  ghost predicate IsRefusal(reg: Registry, t: TypeId, v: Value, expiry: BlockNumber, e: Error) {
    match e
    case InvalidSettings =>
      if IsNone(v) then exists d :: WellTyped(reg, t, d) && Encode(d) <= DefaultBytes() && !IsSettings(d)
      else !IsSettings(v)
    case NoKnownDefault =>
      IsNone(v) && forall d :: WellTyped(reg, t, d) && Encode(d) <= DefaultBytes() ==> IsSettings(d) && !OthersZero(d)
    case MissingSignatureField =>
      exists s :: ReadAs(reg, t, v, s) && "signature" !in SettingsNames(s)
    case UnencodableSettings =>
      exists s, fields ::
        ReadAs(reg, t, v, s) && "signature" in SettingsNames(s) && SettingsFields(reg, t, s.head.index, fields) &&
        !SignatureFits(reg, fields, expiry)
    case _ => false
  }

  /** A call with all its arguments is refused for lack of an inner call or of settings, and otherwise for its
      settings; each reason is given exactly when it applies. */
  lemma RefusedSettings(metadata: Metadata, tx: Bytes, caller: PublicKey, expiry: BlockNumber,
                        sign: Bytes -> Signature, info: CallInfo, vs: seq<Value>, e: Error)
    requires WellFormed(metadata.types) && IsCallOf(metadata, tx, info, vs) && IsDispatch(info)
    ensures var signed := Signed(metadata, tx, caller, expiry, sign);
            var call := exists j :: 0 <= j < |info.args| && info.args[j].name == "call";
            (!call ==> signed == Err(MissingInnerCall)) &&
            (call && (forall j :: 0 <= j < |info.args| ==> info.args[j].name != "settings") ==>
               signed == Err(MissingSettings)) &&
            (call ==>
               forall k: nat :: IsLast(info.args, "settings", k) ==>
                 (signed == Err(e) <==> IsRefusal(metadata.types, info.args[k].ty, vs[k], expiry, e)))
  {
    SignedIsPrepared(metadata, tx, caller, expiry, sign);
    SplitComplete(metadata.types, info.args, vs);
    LastNamedExact(info.args, "call", 0);
    LastNamedExact(info.args, "settings", 0);
    forall k: nat | IsLast(info.args, "settings", k) && LastNamed(info.args, "call").Some?
      ensures Prepare(metadata, tx, expiry) == Err(e) <==>
              IsRefusal(metadata.types, info.args[k].ty, vs[k], expiry, e)
    {
      var j := LastNamed(info.args, "call").value;
      LastNamedExact(info.args, "call", j);
      Prepared(metadata, tx, expiry, info, vs, j, k);
      RefusalExact(metadata.types, info.args[k].ty, vs[k], expiry, e);
      PreparedRefusal(metadata, tx, expiry, info, vs, j, k);
    }
  }

  /** The reason that reading and signing the settings ends with. */
  function Refusal(reg: Registry, t: TypeId, v: Value, expiry: BlockNumber): Option<Error> {
    match DispatchSettings(reg, t, Encode(v))
    case Err(e) => Some(e)
    case Ok(s) =>
      match IndexOf(SettingsNames(s), "signature")
      case None => Some(MissingSignatureField)
      case Some(i) =>
        if SignedSettings(reg, t, s, i, PLACEHOLDER, expiry).None? then Some(UnencodableSettings) else None
  }

  lemma {:induction false} PreparedRefusal(metadata: Metadata, tx: Bytes, expiry: BlockNumber, info: CallInfo,
                                           vs: seq<Value>, j: nat, k: nat)
    requires k < |vs| == |info.args|
    requires CallOf(metadata, tx) == Ok(info) && Split(metadata.types, info.args, tx[2..]) == Ok(Slices(vs))
    requires LastNamed(info.args, "call") == Some(j) && LastNamed(info.args, "settings") == Some(k)
    requires Slices(vs)[k] == Encode(vs[k])
    ensures var refusal := Refusal(metadata.types, info.args[k].ty, vs[k], expiry);
            if refusal.Some? then Prepare(metadata, tx, expiry) == Err(refusal.value)
            else Prepare(metadata, tx, expiry).Ok?
  {
  }

  lemma RefusalExact(reg: Registry, t: TypeId, v: Value, expiry: BlockNumber, e: Error)
    requires WellFormed(reg) && WellTyped(reg, t, v)
    ensures Refusal(reg, t, v, expiry) == Some(e) <==> IsRefusal(reg, t, v, expiry, e)
  {
    var r := DispatchSettings(reg, t, Encode(v));
    if r.Ok? {
      SigningRefused(reg, t, v, r.value, expiry, e);
    } else {
      ReadingRefused(reg, t, v, expiry, e);
    }
  }

  lemma SigningRefused(reg: Registry, t: TypeId, v: Value, s: Value, expiry: BlockNumber, e: Error)
    requires WellFormed(reg) && WellTyped(reg, t, v) && DispatchSettings(reg, t, Encode(v)) == Ok(s)
    ensures Refusal(reg, t, v, expiry) == Some(e) <==> IsRefusal(reg, t, v, expiry, e)
  {
    ReadExact(reg, t, v, s);
    forall s' | ReadAs(reg, t, v, s') ensures s' == s {
      ReadExact(reg, t, v, s');
    }
    SettingsResolved(reg, t, v);
    var fields := FieldsOfSettings(reg, t, s);
    SignsExact(reg, t, s, fields, expiry);
    forall fields' | SettingsFields(reg, t, s.head.index, fields') ensures fields' == fields {
      OnlyFields(reg, t, s.head.index, fields, fields');
    }
    if IsNone(v) {
      OneDefault(reg, t, s);
    }
  }

  /** Zero bytes are read as only one value. */
  lemma OneDefault(reg: Registry, t: TypeId, s: Value)
    requires WellTyped(reg, t, s) && Encode(s) <= DefaultBytes()
    ensures forall d :: WellTyped(reg, t, d) && Encode(d) <= DefaultBytes() ==> d == s
  {
    forall d | WellTyped(reg, t, d) && Encode(d) <= DefaultBytes() ensures d == s {
      BeginsUnique(reg, t, DefaultBytes(), d, s);
    }
  }

  lemma ReadingRefused(reg: Registry, t: TypeId, v: Value, expiry: BlockNumber, e: Error)
    requires WellTyped(reg, t, v) && DispatchSettings(reg, t, Encode(v)).Err?
    ensures Refusal(reg, t, v, expiry) == Some(e) <==> IsRefusal(reg, t, v, expiry, e)
  {
    forall s ensures !ReadAs(reg, t, v, s) {
      ReadExact(reg, t, v, s);
    }
    assert Begins(reg, t, Encode(v), v);
    DecodeAsTypeExact(reg, t, Encode(v), v, |Encode(v)|);
    if IsNone(v) {
      DefaultRefused(reg, t, v, e);
    }
  }

  lemma DefaultRefused(reg: Registry, t: TypeId, v: Value, e: Error)
    requires DecodeAsType(reg, t, Encode(v)).Some? && DecodeAsType(reg, t, Encode(v)).value.0 == v
    requires IsNone(v) && DispatchSettings(reg, t, Encode(v)).Err?
    ensures DispatchSettings(reg, t, Encode(v)) == Err(e) <==>
            (e.InvalidSettings? && exists d :: WellTyped(reg, t, d) && Encode(d) <= DefaultBytes() && !IsSettings(d)) ||
            (e.NoKnownDefault? &&
             forall d ::
               WellTyped(reg, t, d) && Encode(d) <= DefaultBytes() ==> IsSettings(d) && !OthersZero(d))
  {
    assert DEFAULT_SETTINGS == DefaultBytes();
    var decoded := DecodeAsType(reg, t, DefaultBytes());
    if decoded.Some? {
      DecodeAsTypeExact(reg, t, DefaultBytes(), decoded.value.0, decoded.value.1);
      OneDefault(reg, t, decoded.value.0);
    } else {
      forall d | WellTyped(reg, t, d) && Encode(d) <= DefaultBytes() ensures false {
        DecodeAsTypeExact(reg, t, DefaultBytes(), d, |Encode(d)|);
      }
    }
  }
}
