/** What signing a fuel tank dispatch does to the call, read back through the unbounded decoder. */
module FuelTankProperties {
  import opened Wrappers
  import opened Codec
  import opened Scale
  import opened Measure
  import opened FuelTank

  // Arguments and their bytes.

  function Slices(vs: seq<Value>): (slices: seq<Bytes>)
    ensures |slices| == |vs|
  {
    if vs == [] then [] else [Encode(vs[0])] + Slices(vs[1..])
  }

  lemma {:induction false} SliceAt(vs: seq<Value>, i: nat)
    requires i < |vs|
    ensures Slices(vs)[i] == Encode(vs[i])
  {
    if i > 0 {
      SliceAt(vs[1..], i - 1);
    }
  }

  lemma {:induction false} ConcatSlices(vs: seq<Value>)
    ensures Concat(Slices(vs)) == EncodeAll(vs)
  {
    if vs != [] {
      ConcatSlices(vs[1..]);
      assert Slices(vs)[1..] == Slices(vs[1..]);
    }
  }

  lemma {:induction false} SlicesUpdate(vs: seq<Value>, k: nat, v: Value)
    requires k < |vs|
    ensures Slices(vs[k := v]) == Slices(vs)[k := Encode(v)]
  {
    if k == 0 {
      assert vs[0 := v][1..] == vs[1..];
    } else {
      SlicesUpdate(vs[1..], k - 1, v);
      assert vs[k := v][1..] == vs[1..][k - 1 := v];
    }
  }

  lemma {:induction false} TypedUpdate(reg: Registry, ts: seq<TypeId>, vs: seq<Value>, k: nat, v: Value)
    requires AllTyped(reg, ts, vs) && k < |vs| && WellTyped(reg, ts[k], v)
    ensures AllTyped(reg, ts, vs[k := v])
  {
    if k == 0 {
      assert vs[0 := v][1..] == vs[1..];
    } else {
      TypedUpdate(reg, ts[1..], vs[1..], k - 1, v);
      assert vs[k := v][1..] == vs[1..][k - 1 := v];
    }
  }

  lemma {:induction false} TypedAt(reg: Registry, ts: seq<TypeId>, vs: seq<Value>, k: nat)
    requires AllTyped(reg, ts, vs) && k < |vs|
    ensures WellTyped(reg, ts[k], vs[k])
  {
    if k > 0 {
      TypedAt(reg, ts[1..], vs[1..], k - 1);
    }
  }

  /** All the arguments, decoded with no bound on nesting and with nothing left over. */
  function DecodeArguments(reg: Registry, ts: seq<TypeId>, b: Bytes): (r: Option<seq<Value>>) {
    match DecodeAll(reg, ts, b, Levels(reg, b) + 1)
    case None => None
    case Some((vs, n)) => if n == |b| then Some(vs) else None
  }

  lemma AllNestingBound(reg: Registry, ts: seq<TypeId>, b: Bytes, vs: seq<Value>)
    requires AllBegin(reg, ts, b, vs)
    ensures HeightOfItems(vs) <= Levels(reg, b) + 1
  {
    if vs != [] {
      var t, offset, v := HighestItem(reg, ts, b, vs);
      NestingBound(reg, t, b, offset, v, map[]);
    }
  }

  lemma DecodeArgumentsExact(reg: Registry, ts: seq<TypeId>, b: Bytes, vs: seq<Value>)
    ensures DecodeArguments(reg, ts, b) == Some(vs) <==> AllTyped(reg, ts, vs) && EncodeAll(vs) == b
  {
    if AllTyped(reg, ts, vs) && EncodeAll(vs) == b {
      AllNestingBound(reg, ts, b, vs);
      DecodeAllComplete(reg, ts, b, Levels(reg, b) + 1, vs);
    }
    if DecodeArguments(reg, ts, b) == Some(vs) {
      DecodeAllSound(reg, ts, b, Levels(reg, b) + 1);
    }
  }

  ghost predicate AllShallow(vs: seq<Value>) {
    forall i :: 0 <= i < |vs| ==> Height(vs[i]) <= MAX_NESTING
  }

  lemma ArgTypesTail(args: seq<Arg>)
    requires args != []
    ensures ArgTypes(args) == [args[0].ty] + ArgTypes(args[1..])
  {
  }

  lemma SplitFirst(reg: Registry, args: seq<Arg>, b: Bytes) returns (v: Value)
    requires args != [] && Split(reg, args, b).Ok?
    ensures Begins(reg, args[0].ty, b, v) && Height(v) <= MAX_NESTING
    ensures var rest := Split(reg, args[1..], b[|Encode(v)|..]);
            rest.Ok? && Split(reg, args, b).value == [Encode(v)] + rest.value
  {
    var n := MeasureAt(reg, args[0].ty, b, 0).bytes;
    MeasureExact(reg, args[0].ty, b, n);
    v :| Begins(reg, args[0].ty, b, v) && n == |Encode(v)| && Height(v) <= MAX_NESTING;
    assert b[..n] == Encode(v);
  }

  lemma ShallowCons(reg: Registry, ts: seq<TypeId>, b: Bytes, v: Value, vs: seq<Value>)
    requires ts != [] && Begins(reg, ts[0], b, v) && Height(v) <= MAX_NESTING
    requires AllTyped(reg, ts[1..], vs) && EncodeAll(vs) == b[|Encode(v)|..] && AllShallow(vs)
    ensures AllTyped(reg, ts, [v] + vs) && EncodeAll([v] + vs) == b && AllShallow([v] + vs)
    ensures Slices([v] + vs) == [Encode(v)] + Slices(vs)
  {
    ConsTyped(reg, ts, v, vs);
  }

  /** Splitting finds the arguments' values and their encodings, none of them too deep. */
  lemma {:induction false} SplitSound(reg: Registry, args: seq<Arg>, b: Bytes) returns (vs: seq<Value>)
    requires Split(reg, args, b).Ok?
    ensures AllTyped(reg, ArgTypes(args), vs) && EncodeAll(vs) == b && AllShallow(vs)
    ensures Split(reg, args, b).value == Slices(vs)
  {
    if args == [] {
      vs := [];
    } else {
      var v := SplitFirst(reg, args, b);
      var rest := SplitSound(reg, args[1..], b[|Encode(v)|..]);
      assert ArgTypes(args)[1..] == ArgTypes(args[1..]);
      vs := [v] + rest;
      ShallowCons(reg, ArgTypes(args), b, v, rest);
    }
  }

  lemma {:induction false} SplitComplete(reg: Registry, args: seq<Arg>, vs: seq<Value>)
    requires AllTyped(reg, ArgTypes(args), vs) && AllShallow(vs)
    ensures Split(reg, args, EncodeAll(vs)) == Ok(Slices(vs))
  {
    if args != [] {
      var b := EncodeAll(vs);
      ArgTypesTail(args);
      var n := |Encode(vs[0])|;
      assert Begins(reg, args[0].ty, b, vs[0]);
      MeasureExact(reg, args[0].ty, b, n);
      assert b[n..] == EncodeAll(vs[1..]) && b[..n] == Encode(vs[0]);
      SplitComplete(reg, args[1..], vs[1..]);
    }
  }

  lemma {:induction false} SplitTooDeep(reg: Registry, args: seq<Arg>, vs: seq<Value>, k: nat)
    requires AllTyped(reg, ArgTypes(args), vs) && k < |vs| && Height(vs[k]) > MAX_NESTING
    requires forall i :: 0 <= i < k ==> Height(vs[i]) <= MAX_NESTING
    ensures Split(reg, args, EncodeAll(vs)) == Err(BadArgument(args[k].name, TooDeep))
  {
    var b := EncodeAll(vs);
    ArgTypesTail(args);
    assert Begins(reg, args[0].ty, b, vs[0]);
    if k == 0 {
      TooDeepIsReported(reg, args[0].ty, b, 0, vs[0]);
    } else {
      var n := |Encode(vs[0])|;
      assert b[n..] == EncodeAll(vs[1..]) && b[..n] == Encode(vs[0]);
      MeasureExact(reg, args[0].ty, b, n);
      SplitByFirst(MeasureOf(reg), args, b, n, EncodeAll(vs[1..]));
      SplitTooDeep(reg, args[1..], vs[1..], k - 1);
    }
  }

  // Reading a signature back, however the type wraps it.

  predicate IsWrapper(v: Value) {
    v.head.Composite? && |v.items| == 1
  }

  /** The bytes `v` holds. */
  function AsBytes(v: Value): (r: Option<seq<nat>>)
    decreases v
  {
    if forall i :: 0 <= i < |v.items| ==> v.items[i].head.Uint? then
      Some(seq(|v.items|, i requires 0 <= i < |v.items| && v.items[i].head.Uint? => v.items[i].head.n))
    else if IsWrapper(v) then AsBytes(v.items[0])
    else None
  }

  /** The number `v` holds. */
  function AsNumber(v: Value): (r: Option<nat>)
    decreases v
  {
    if v.head.Uint? then Some(v.head.n)
    else if v.head.Compact? then Some(v.head.n)
    else if IsWrapper(v) then AsNumber(v.items[0])
    else None
  }

  /** A struct of exactly a signature and the block it expires at, perhaps inside wrappers. */
  ghost predicate Expires(v: Value, signature: Signature, expiry: BlockNumber)
    decreases v
  {
    if IsWrapper(v) then Expires(v.items[0], signature, expiry)
    else
      v.head.Composite? && |v.items| == 2 && v.head.names.Some? &&
      var names := v.head.names.value;
      ((names == ["signature", "expiry_block"] &&
        AsBytes(v.items[0]) == Some(signature) && AsNumber(v.items[1]) == Some(expiry)) ||
       (names == ["expiry_block", "signature"] &&
        AsNumber(v.items[0]) == Some(expiry) && AsBytes(v.items[1]) == Some(signature)))
  }

  /** `v` reads as `Some(signature, expiry)`. */
  ghost predicate IsSignature(v: Value, signature: Signature, expiry: BlockNumber) {
    v.head.Variant? && v.head.name == "Some" && |v.items| == 1 && Expires(v.items[0], signature, expiry)
  }

  lemma {:induction false} ByteItemsTyped(reg: Registry, item: TypeId, bytes: Bytes)
    requires item < |reg| && reg[item] == UintType(1)
    ensures AllTyped(reg, Repeat(item, |bytes|), ByteItems(bytes))
  {
    if bytes != [] {
      assert ByteItems(bytes)[1..] == ByteItems(bytes[1..]);
      assert Repeat(item, |bytes|)[1..] == Repeat(item, |bytes| - 1);
      ByteItemsTyped(reg, item, bytes[1..]);
      Pow256Values();
      assert WellTyped(reg, item, Value(Uint(1, bytes[0]), []));
    }
  }

  lemma WrapperTyped(reg: Registry, t: TypeId, v: Value)
    requires t < |reg| && Wrapped(reg, t).Some? && WellTyped(reg, Wrapped(reg, t).value, v)
    ensures WellTyped(reg, t, Value(Composite(WrapperNames(reg, t)), [v]))
  {
    SingleTyped(reg, Wrapped(reg, t).value, v);
    if reg[t].TupleType? {
      assert reg[t].items == [Wrapped(reg, t).value];
    } else {
      assert FieldTypes(reg[t].fields) == [Wrapped(reg, t).value];
    }
  }

  lemma {:induction false} BytesValueReads(reg: Registry, t: TypeId, signature: Signature, wrappers: nat)
    requires BytesValue(reg, t, signature, wrappers).Some?
    ensures var v := BytesValue(reg, t, signature, wrappers).value;
            WellTyped(reg, t, v) && AsBytes(v) == Some(signature) && !v.head.Uint?
    decreases wrappers
  {
    var v := BytesValue(reg, t, signature, wrappers).value;
    if reg[t].ArrayType? {
      ByteItemsTyped(reg, reg[t].item, signature);
      assert AsBytes(v).value == signature;
    } else if reg[t].SequenceType? {
      ByteItemsTyped(reg, reg[t].item, signature);
      Pow256Values();
      Pow256Monotone(1, LENGTH_WIDTH);
      assert ByteLength(64) == 1;
      assert AsBytes(v).value == signature;
    } else {
      BytesValueReads(reg, Wrapped(reg, t).value, signature, wrappers - 1);
      WrapperTyped(reg, t, v.items[0]);
    }
  }

  lemma {:induction false} NumberValueReads(reg: Registry, t: TypeId, n: BlockNumber, wrappers: nat)
    requires NumberValue(reg, t, n, wrappers).Some?
    ensures var v := NumberValue(reg, t, n, wrappers).value; WellTyped(reg, t, v) && AsNumber(v) == Some(n)
    decreases wrappers
  {
    if reg[t].CompactType? {
      Pow256Values();
      ByteLengthExact(n, 4);
    } else if !reg[t].UintType? {
      NumberValueReads(reg, Wrapped(reg, t).value, n, wrappers - 1);
      WrapperTyped(reg, t, NumberValue(reg, t, n, wrappers).value.items[0]);
    }
  }

  lemma PairTyped(reg: Registry, t: TypeId, u: TypeId, v: Value, w: Value)
    requires WellTyped(reg, t, v) && WellTyped(reg, u, w)
    ensures AllTyped(reg, [t, u], [v, w])
  {
    assert [v, w][1..] == [w] && [t, u][1..] == [u];
    SingleTyped(reg, u, w);
  }

  lemma SignatureFieldReads(reg: Registry, field: Field, signature: Signature, expiry: BlockNumber)
    requires SignatureField(reg, field, signature, expiry).Some?
    ensures var v := SignatureField(reg, field, signature, expiry).value;
            WellTyped(reg, field.ty, v) &&
            (field.name == "signature" ==> AsBytes(v) == Some(signature)) &&
            (field.name != "signature" ==> field.name == "expiry_block" && AsNumber(v) == Some(expiry))
  {
    if field.name == "signature" {
      BytesValueReads(reg, field.ty, signature, |reg|);
    } else {
      NumberValueReads(reg, field.ty, expiry, |reg|);
    }
  }

  lemma {:induction false} ExpirableValueReads(reg: Registry, t: TypeId, signature: Signature, expiry: BlockNumber,
                                               wrappers: nat)
    requires ExpirableValue(reg, t, signature, expiry, wrappers).Some?
    ensures var v := ExpirableValue(reg, t, signature, expiry, wrappers).value;
            WellTyped(reg, t, v) && Expires(v, signature, expiry)
    decreases wrappers
  {
    var v := ExpirableValue(reg, t, signature, expiry, wrappers).value;
    if reg[t].CompositeType? && |reg[t].fields| == 2 {
      var fields := reg[t].fields;
      SignatureFieldReads(reg, fields[0], signature, expiry);
      SignatureFieldReads(reg, fields[1], signature, expiry);
      PairTyped(reg, fields[0].ty, fields[1].ty, v.items[0], v.items[1]);
      assert FieldTypes(fields) == [fields[0].ty, fields[1].ty];
      assert FieldNames(fields).Some? && FieldNames(fields).value == [fields[0].name, fields[1].name];
    } else {
      ExpirableValueReads(reg, Wrapped(reg, t).value, signature, expiry, wrappers - 1);
      WrapperTyped(reg, t, v.items[0]);
    }
  }

  lemma {:induction false} VariantByIndex(variants: seq<VariantDef>, def: VariantDef)
    requires def in variants
    requires DistinctVariants(variants)
    ensures VariantAt(variants, def.index) == Some(def)
  {
    if variants[0] != def {
      assert def in variants[1..];
      VariantByIndex(variants[1..], def);
      var k :| 1 <= k < |variants| && variants[k] == def;
    }
  }

  /** The value made for the signature field is of its type and reads as `Some(signature, expiry)`. */
  lemma SignatureValueReads(reg: Registry, t: TypeId, signature: Signature, expiry: BlockNumber)
    requires WellFormed(reg) && SignatureValue(reg, t, signature, expiry).Some?
    ensures var v := SignatureValue(reg, t, signature, expiry).value;
            WellTyped(reg, t, v) && IsSignature(v, signature, expiry)
  {
    var v := SignatureValue(reg, t, signature, expiry).value;
    var def := VariantNamed(reg[t].variants, "Some").value;
    VariantByIndex(reg[t].variants, def);
    ExpirableValueReads(reg, def.fields[0].ty, signature, expiry, |reg|);
    SingleTyped(reg, def.fields[0].ty, v.items[0]);
    assert FieldTypes(def.fields) == [def.fields[0].ty];
  }

  // The settings before and after.

  /** `after` is `before` with its signature replaced; `None` has become the default, all false or
      `None`, with the signature added. */
  ghost predicate SettingsSigned(before: Value, after: Value, signature: Signature, expiry: BlockNumber) {
    IsSettings(after) &&
    var field := IndexOf(SettingsNames(after), "signature");
    field.Some? && IsSignature(after.items[0].items[field.value], signature, expiry) &&
    if IsNone(before) then OthersZero(after)
    else IsSettings(before) && field.value < |before.items[0].items| &&
         after == WithField(before, field.value, after.items[0].items[field.value])
  }

  lemma SettingsResolved(reg: Registry, t: TypeId, sent: Value)
    requires WellTyped(reg, t, sent) && DispatchSettings(reg, t, Encode(sent)).Ok?
    ensures var value := DispatchSettings(reg, t, Encode(sent)).value;
            WellTyped(reg, t, value) && if IsNone(sent) then OthersZero(value) else value == sent
  {
    assert Begins(reg, t, Encode(sent), sent);
    DecodeAsTypeExact(reg, t, Encode(sent), sent, |Encode(sent)|);
    if IsNone(sent) {
      var (default, n) := DecodeAsType(reg, t, DEFAULT_SETTINGS).value;
      DecodeAsTypeExact(reg, t, DEFAULT_SETTINGS, default, n);
    }
  }

  /** Settings of a type stay of that type when a field is replaced by another value of the field's type. */
  lemma WithFieldTyped(reg: Registry, t: TypeId, v: Value, i: nat, field: Value)
    requires WellTyped(reg, t, v) && IsSettings(v) && i < |v.items[0].items|
    requires SettingsFieldType(reg, t, v, i).Some? && WellTyped(reg, SettingsFieldType(reg, t, v, i).value, field)
    ensures WellTyped(reg, t, WithField(v, i, field)) && IsSettings(WithField(v, i, field))
  {
    var ts := ItemTypes(reg, t, v.head, 1).value;
    var inner := v.items[0];
    TypedAt(reg, ts, v.items, 0);
    var fields := ItemTypes(reg, ts[0], inner.head, |inner.items|).value;
    TypedUpdate(reg, fields, inner.items, i, field);
    var inner' := inner.(items := inner.items[i := field]);
    assert WellTyped(reg, ts[0], inner');
    SingleTyped(reg, ts[0], inner');
    assert ts == [ts[0]];
  }

  lemma SignedSettingsReads(reg: Registry, t: TypeId, v: Value, i: nat, signature: Signature, expiry: BlockNumber)
    requires WellFormed(reg) && WellTyped(reg, t, v) && IsSettings(v) && i < |v.items[0].items|
    requires SignedSettings(reg, t, v, i, signature, expiry).Some?
    ensures var after := SignedSettings(reg, t, v, i, signature, expiry).value;
            WellTyped(reg, t, after) && IsSettings(after) &&
            IsSignature(after.items[0].items[i], signature, expiry) &&
            after == WithField(v, i, after.items[0].items[i])
  {
    var ty := SettingsFieldType(reg, t, v, i).value;
    SignatureValueReads(reg, ty, signature, expiry);
    WithFieldTyped(reg, t, v, i, SignatureValue(reg, ty, signature, expiry).value);
  }

  /** What it means for a plan to be the plan of a call. */
  ghost predicate IsPlan(metadata: Metadata, tx: Bytes, expiry: BlockNumber, p: Plan) {
    CallOf(metadata, tx) == Ok(p.info) &&
    Split(metadata.types, p.info.args, tx[2..]) == Ok(p.slices) &&
    LastNamed(p.info.args, "call") == Some(p.call) &&
    LastNamed(p.info.args, "settings") == Some(p.settings) &&
    DispatchSettings(metadata.types, p.info.args[p.settings].ty, p.slices[p.settings]) == Ok(p.value) &&
    IndexOf(SettingsNames(p.value), "signature") == Some(p.field) &&
    SignedSettings(metadata.types, p.info.args[p.settings].ty, p.value, p.field, PLACEHOLDER, expiry).Some?
  }

  lemma PrepareFindsPlan(metadata: Metadata, tx: Bytes, expiry: BlockNumber, p: Plan)
    ensures Prepare(metadata, tx, expiry) == Ok(p) <==> IsPlan(metadata, tx, expiry, p)
  {
  }

  lemma SignedFollowsPlan(metadata: Metadata, tx: Bytes, caller: PublicKey, expiry: BlockNumber,
                          sign: Bytes -> Signature, p: Plan)
    requires IsPlan(metadata, tx, expiry, p)
    ensures var settings := NewSettings(metadata, p, caller, expiry, sign);
            settings.Some? &&
            Signed(metadata, tx, caller, expiry, sign)
            == Ok(tx[..2] + Concat(p.slices[p.settings := Encode(settings.value)]))
  {
    PrepareFindsPlan(metadata, tx, expiry, p);
    SignatureShape(metadata.types, p.info.args[p.settings].ty, p.value, p.field, PLACEHOLDER,
                   sign(Message(p.slices[p.call], caller, expiry)), expiry);
  }

  /** The arguments a plan found, and the settings' resolved value. */
  lemma PlanArguments(metadata: Metadata, tx: Bytes, expiry: BlockNumber, p: Plan) returns (vs: seq<Value>)
    requires WellFormed(metadata.types) && IsPlan(metadata, tx, expiry, p)
    ensures var ts := ArgTypes(p.info.args);
            |vs| == |ts| && AllTyped(metadata.types, ts, vs) && EncodeAll(vs) == tx[2..] && AllShallow(vs) &&
            p.slices == Slices(vs) && p.slices[p.call] == Encode(vs[p.call]) &&
            WellTyped(metadata.types, ts[p.settings], p.value) &&
            if IsNone(vs[p.settings]) then OthersZero(p.value) else p.value == vs[p.settings]
  {
    vs := SplitSound(metadata.types, p.info.args, tx[2..]);
    SliceAt(vs, p.settings);
    SliceAt(vs, p.call);
    TypedAt(metadata.types, ArgTypes(p.info.args), vs, p.settings);
    SettingsResolved(metadata.types, ArgTypes(p.info.args)[p.settings], vs[p.settings]);
  }

  /** The settings that a plan's call ends up with, and the call itself. */
  lemma PlanSettings(metadata: Metadata, tx: Bytes, caller: PublicKey, expiry: BlockNumber, sign: Bytes -> Signature,
                     p: Plan, vs: seq<Value>)
    returns (settings: Value)
    requires WellFormed(metadata.types) && IsPlan(metadata, tx, expiry, p)
    requires AllTyped(metadata.types, ArgTypes(p.info.args), vs) && p.slices == Slices(vs)
    requires WellTyped(metadata.types, ArgTypes(p.info.args)[p.settings], p.value)
    ensures NewSettings(metadata, p, caller, expiry, sign) == Some(settings) && IsSettings(settings)
    ensures p.field < |settings.items[0].items| &&
            settings == WithField(p.value, p.field, settings.items[0].items[p.field])
    ensures IsSignature(settings.items[0].items[p.field], sign(Message(p.slices[p.call], caller, expiry)), expiry)
    ensures AllTyped(metadata.types, ArgTypes(p.info.args), vs[p.settings := settings])
    ensures Signed(metadata, tx, caller, expiry, sign) == Ok(tx[..2] + EncodeAll(vs[p.settings := settings]))
  {
    var ty := ArgTypes(p.info.args)[p.settings];
    SignedFollowsPlan(metadata, tx, caller, expiry, sign, p);
    settings := NewSettings(metadata, p, caller, expiry, sign).value;
    SignedSettingsReads(metadata.types, ty, p.value, p.field, sign(Message(p.slices[p.call], caller, expiry)), expiry);
    TypedUpdate(metadata.types, ArgTypes(p.info.args), vs, p.settings, settings);
    SlicesUpdate(vs, p.settings, settings);
    ConcatSlices(vs[p.settings := settings]);
  }

  /** Read back with the unbounded decoder and the same layout, a signed call has the arguments it had,
      with nothing left over, except that the settings now carry the signature of the inner call, the
      caller and the expiry block. */
  lemma SignedCallReadsBack(metadata: Metadata, tx: Bytes, caller: PublicKey, expiry: BlockNumber,
                            sign: Bytes -> Signature)
    requires WellFormed(metadata.types) && Signed(metadata, tx, caller, expiry, sign).Ok?
    ensures var payload := Signed(metadata, tx, caller, expiry, sign).value;
            var info := metadata.calls[(tx[0], tx[1])];
            var ts := ArgTypes(info.args);
            var call, settings := LastNamed(info.args, "call"), LastNamed(info.args, "settings");
            call.Some? && settings.Some? && |payload| >= 2 && payload[..2] == tx[..2] &&
            var before := DecodeArguments(metadata.types, ts, tx[2..]);
            var after := DecodeArguments(metadata.types, ts, payload[2..]);
            before.Some? && after.Some? && |before.value| == |after.value| == |ts| &&
            (forall i :: 0 <= i < |ts| && i != settings.value ==> after.value[i] == before.value[i]) &&
            SettingsSigned(before.value[settings.value], after.value[settings.value],
                           sign(Encode(before.value[call.value]) + caller + ToLE(expiry, 4)), expiry)
  {
    var p := Prepare(metadata, tx, expiry).value;
    PrepareFindsPlan(metadata, tx, expiry, p);
    var vs := PlanArguments(metadata, tx, expiry, p);
    var settings := PlanSettings(metadata, tx, caller, expiry, sign, p, vs);
    var ts := ArgTypes(p.info.args);
    var payload := Signed(metadata, tx, caller, expiry, sign).value;
    assert payload[2..] == EncodeAll(vs[p.settings := settings]);
    DecodeArgumentsExact(metadata.types, ts, tx[2..], vs);
    DecodeArgumentsExact(metadata.types, ts, payload[2..], vs[p.settings := settings]);
  }

  // Signing a signed call again.

  lemma {:induction false} ItemsHeight(vs: seq<Value>, h: nat)
    ensures HeightOfItems(vs) <= h <==> forall i :: 0 <= i < |vs| ==> 1 + Height(vs[i]) <= h
  {
    if vs != [] {
      ItemsHeight(vs[1..], h);
      assert forall i :: 0 < i < |vs| ==> vs[i] == vs[1..][i - 1];
    }
  }

  /** How deep in the settings the new signature reaches; it depends on the field's type alone. */
  function SignatureDepth(metadata: Metadata, p: Plan, expiry: BlockNumber): nat
    requires IsSettings(p.value) && p.field < |p.value.items[0].items| && p.settings < |p.info.args|
    requires SignedSettings(metadata.types, p.info.args[p.settings].ty, p.value, p.field, PLACEHOLDER, expiry).Some?
  {
    var ty := SettingsFieldType(metadata.types, p.info.args[p.settings].ty, p.value, p.field).value;
    2 + Height(SignatureValue(metadata.types, ty, PLACEHOLDER, expiry).value)
  }

  lemma ZeroIsFlat(reg: Registry, t: TypeId, v: Value)
    requires WellTyped(reg, t, v) && IsZero(v)
    ensures v.items == [] && Height(v) == 0
  {
    assert AllTyped(reg, ItemTypes(reg, t, v.head, |v.items|).value, v.items);
  }

  /** The settings are shallow enough to be measured again exactly when the signature is. */
  lemma SettingsHeight(reg: Registry, t: TypeId, sent: Value, value: Value, i: nat, field: Value)
    requires WellTyped(reg, t, value) && IsSettings(value)
    requires IndexOf(SettingsNames(value), "signature") == Some(i)
    requires Height(sent) <= MAX_NESTING && if IsNone(sent) then OthersZero(value) else value == sent
    requires forall j :: 0 <= j < |value.items[0].items| && j != i ==> SettingsNames(value)[j] != "signature"
    ensures Height(WithField(value, i, field)) <= MAX_NESTING <==> 2 + Height(field) <= MAX_NESTING
  {
    var items := value.items[0].items;
    var after := WithField(value, i, field);
    SingleItem(value.items[0]);
    SingleItem(after.items[0]);
    ItemsHeight(items, MAX_NESTING - 1);
    ItemsHeight(items[i := field], MAX_NESTING - 1);
    forall j | 0 <= j < |items| && j != i
      ensures 1 + Height(items[j]) <= MAX_NESTING - 1
    {
      if IsNone(sent) {
        var ts := ItemTypes(reg, t, value.head, 1).value;
        TypedAt(reg, ts, value.items, 0);
        var fields := ItemTypes(reg, ts[0], value.items[0].head, |items|).value;
        TypedAt(reg, fields, items, j);
        ZeroIsFlat(reg, fields[j], items[j]);
      }
    }
    assert items[i := field][i] == field;
  }

  /** The struct type of well-typed settings. */
  lemma SettingsStruct(reg: Registry, t: TypeId, v: Value) returns (def: VariantDef, inner: TypeId)
    requires WellTyped(reg, t, v) && IsSettings(v)
    ensures t < |reg| && reg[t].VariantType? && def in reg[t].variants && def.name == "Some"
    ensures v.head == Variant(def.index, "Some", None) && VariantAt(reg[t].variants, def.index) == Some(def)
    ensures FieldTypes(def.fields) == [inner]
    ensures inner < |reg| && reg[inner].CompositeType?
    ensures v.items[0].head == Composite(FieldNames(reg[inner].fields))
    ensures AllTyped(reg, FieldTypes(reg[inner].fields), v.items[0].items)
  {
    def := VariantAt(reg[t].variants, v.head.index).value;
    var ts := FieldTypes(def.fields);
    TypedAt(reg, ts, v.items, 0);
    inner := ts[0];
    assert ts == [inner];
  }

  lemma DistinctNames(reg: Registry, t: TypeId, v: Value, i: nat)
    requires WellFormed(reg) && WellTyped(reg, t, v) && IsSettings(v)
    requires IndexOf(SettingsNames(v), "signature") == Some(i)
    ensures forall j :: 0 <= j < |v.items[0].items| && j != i ==> SettingsNames(v)[j] != "signature"
  {
    var def, inner := SettingsStruct(reg, t, v);
    assert DistinctFields(reg[inner].fields);
    assert forall j :: 0 <= j < |SettingsNames(v)| ==> SettingsNames(v)[j] == reg[inner].fields[j].name;
  }

  /** Explicit settings are read as they are. */
  lemma ExplicitSettings(reg: Registry, t: TypeId, settings: Value)
    requires WellTyped(reg, t, settings) && IsSettings(settings)
    ensures DispatchSettings(reg, t, Encode(settings)) == Ok(settings)
  {
    assert Begins(reg, t, Encode(settings), settings);
    DecodeAsTypeExact(reg, t, Encode(settings), settings, |Encode(settings)|);
  }

  /** Settings that differ only in their fields' values. */
  ghost predicate SameShape(v: Value, w: Value) {
    IsSettings(v) && IsSettings(w) && v.head == w.head && v.items[0].head == w.items[0].head &&
    |v.items[0].items| == |w.items[0].items|
  }

  lemma SameShapeSigns(reg: Registry, t: TypeId, v: Value, w: Value, i: nat, signature: Signature, expiry: BlockNumber)
    requires SameShape(v, w) && i < |v.items[0].items|
    requires v.items[0].items[i := v] == w.items[0].items[i := v]
    ensures SignedSettings(reg, t, v, i, signature, expiry) == SignedSettings(reg, t, w, i, signature, expiry)
  {
    if SignedSettings(reg, t, v, i, signature, expiry).Some? {
      var field := SignatureValue(reg, SettingsFieldType(reg, t, v, i).value, signature, expiry).value;
      var a, b := v.items[0].items, w.items[0].items;
      assert a[i := field] == a[i := v][i := field] == b[i := v][i := field] == b[i := field];
    }
  }

  /** The plan of the call with other settings. */
  function PlanOf(p: Plan, vs: seq<Value>, settings: Value): Plan
    requires p.settings < |vs|
  {
    p.(slices := Slices(vs[p.settings := settings]), value := settings)
  }

  lemma PlanWith(metadata: Metadata, tx: Bytes, expiry: BlockNumber, p: Plan, vs: seq<Value>, settings: Value)
    requires IsPlan(metadata, tx, expiry, p) && p.settings < |vs|
    requires AllTyped(metadata.types, ArgTypes(p.info.args), vs[p.settings := settings])
    requires AllShallow(vs[p.settings := settings])
    requires SameShape(p.value, settings)
    requires p.value.items[0].items[p.field := p.value] == settings.items[0].items[p.field := p.value]
    ensures IsPlan(metadata, tx[..2] + EncodeAll(vs[p.settings := settings]), expiry, PlanOf(p, vs, settings))
  {
    var vs' := vs[p.settings := settings];
    var tx' := tx[..2] + EncodeAll(vs');
    assert tx'[2..] == EncodeAll(vs') && tx'[0] == tx[0] && tx'[1] == tx[1];
    SplitComplete(metadata.types, p.info.args, vs');
    SliceAt(vs', p.settings);
    TypedAt(metadata.types, ArgTypes(p.info.args), vs', p.settings);
    ExplicitSettings(metadata.types, p.info.args[p.settings].ty, settings);
    SameShapeSigns(metadata.types, p.info.args[p.settings].ty, p.value, settings, p.field, PLACEHOLDER, expiry);
  }

  lemma SlicesOverwrite(vs: seq<Value>, k: nat, v: Value, slice: Bytes)
    requires k < |vs|
    ensures Slices(vs[k := v])[k := slice] == Slices(vs)[k := slice]
  {
    SlicesUpdate(vs, k, v);
  }

  lemma NewSettingsWith(metadata: Metadata, caller: PublicKey, expiry: BlockNumber, sign: Bytes -> Signature, p: Plan,
                        vs: seq<Value>, settings: Value)
    requires p.slices == Slices(vs) && p.call < |vs| && p.settings < |vs| == |p.info.args| && p.call != p.settings
    requires SameShape(p.value, settings) && p.field < |p.value.items[0].items|
    requires p.value.items[0].items[p.field := p.value] == settings.items[0].items[p.field := p.value]
    ensures NewSettings(metadata, PlanOf(p, vs, settings), caller, expiry, sign)
            == NewSettings(metadata, p, caller, expiry, sign)
  {
    SlicesUpdate(vs, p.settings, settings);
    var message := Message(p.slices[p.call], caller, expiry);
    assert Message(PlanOf(p, vs, settings).slices[p.call], caller, expiry) == message;
    SameShapeSigns(metadata.types, p.info.args[p.settings].ty, p.value, settings, p.field,
                   sign(message), expiry);
  }

  /** Two calls that differ only in settings, and those only in the signature, are signed alike. */
  lemma SignedWith(metadata: Metadata, tx: Bytes, caller: PublicKey, expiry: BlockNumber, sign: Bytes -> Signature,
                   p: Plan, vs: seq<Value>, settings: Value)
    requires IsPlan(metadata, tx, expiry, p) && p.settings < |vs|
    requires AllTyped(metadata.types, ArgTypes(p.info.args), vs[p.settings := settings])
    requires AllShallow(vs[p.settings := settings])
    requires SameShape(p.value, settings)
    requires p.value.items[0].items[p.field := p.value] == settings.items[0].items[p.field := p.value]
    requires p.slices == Slices(vs)
    ensures Signed(metadata, tx[..2] + EncodeAll(vs[p.settings := settings]), caller, expiry, sign)
            == Signed(metadata, tx, caller, expiry, sign)
  {
    var tx' := tx[..2] + EncodeAll(vs[p.settings := settings]);
    var p' := PlanOf(p, vs, settings);
    PlanWith(metadata, tx, expiry, p, vs, settings);
    NewSettingsWith(metadata, caller, expiry, sign, p, vs, settings);
    SignedFollowsPlan(metadata, tx, caller, expiry, sign, p);
    SignedFollowsPlan(metadata, tx', caller, expiry, sign, p');
    var e := Encode(NewSettings(metadata, p, caller, expiry, sign).value);
    SlicesOverwrite(vs, p.settings, settings, e);
    assert tx'[..2] == tx[..2];
  }

  /** Signing is idempotent: a signed call is signed to itself, as long as the new signature is not
      nested so deep in its type that the settings can no longer be measured. */
  lemma SigningTwice(metadata: Metadata, tx: Bytes, caller: PublicKey, expiry: BlockNumber, sign: Bytes -> Signature)
    requires WellFormed(metadata.types) && Signed(metadata, tx, caller, expiry, sign).Ok?
    ensures var payload := Signed(metadata, tx, caller, expiry, sign).value;
            Signed(metadata, payload, caller, expiry, sign)
            == if SignatureDepth(metadata, Prepare(metadata, tx, expiry).value, expiry) <= MAX_NESTING then Ok(payload)
               else Err(BadArgument("settings", TooDeep))
  {
    var p := Prepare(metadata, tx, expiry).value;
    PrepareFindsPlan(metadata, tx, expiry, p);
    var vs := PlanArguments(metadata, tx, expiry, p);
    var settings := PlanSettings(metadata, tx, caller, expiry, sign, p, vs);
    var field := settings.items[0].items[p.field];
    var ty := ArgTypes(p.info.args)[p.settings];
    SignatureValueShape(metadata.types, SettingsFieldType(metadata.types, ty, p.value, p.field).value, PLACEHOLDER,
                        sign(Message(p.slices[p.call], caller, expiry)), expiry);
    DistinctNames(metadata.types, ty, p.value, p.field);
    SettingsHeight(metadata.types, ty, vs[p.settings], p.value, p.field, field);
    if 2 + Height(field) <= MAX_NESTING {
      assert settings.items[0].items[p.field := p.value] == p.value.items[0].items[p.field := p.value];
      SignedWith(metadata, tx, caller, expiry, sign, p, vs, settings);
    } else {
      DeepSettingsRefused(metadata, tx, caller, expiry, sign, p, vs, settings);
    }
  }

  lemma DeepSettingsRefused(metadata: Metadata, tx: Bytes, caller: PublicKey, expiry: BlockNumber,
                            sign: Bytes -> Signature, p: Plan, vs: seq<Value>, settings: Value)
    requires IsPlan(metadata, tx, expiry, p) && p.settings < |vs|
    requires AllTyped(metadata.types, ArgTypes(p.info.args), vs[p.settings := settings])
    requires AllShallow(vs) && Height(settings) > MAX_NESTING
    ensures Signed(metadata, tx[..2] + EncodeAll(vs[p.settings := settings]), caller, expiry, sign)
            == Err(BadArgument("settings", TooDeep))
  {
    var vs' := vs[p.settings := settings];
    var payload := tx[..2] + EncodeAll(vs');
    assert payload[2..] == EncodeAll(vs') && payload[0] == tx[0] && payload[1] == tx[1];
    SplitTooDeep(metadata.types, p.info.args, vs', p.settings);
  }

  // Settings left out mean settings all false or `None`.

  lemma DistinctVariantNames(variants: seq<VariantDef>, a: VariantDef, b: VariantDef)
    requires DistinctVariants(variants) && a in variants && b in variants && a.name == b.name
    ensures a == b
  {
    var i :| 0 <= i < |variants| && variants[i] == a;
    var j :| 0 <= j < |variants| && variants[j] == b;
    assert i == j;
  }

  lemma ZeroUnique(reg: Registry, t: TypeId, v: Value, w: Value)
    requires WellFormed(reg) && WellTyped(reg, t, v) && WellTyped(reg, t, w) && IsZero(v) && IsZero(w)
    ensures v == w
  {
    ZeroIsFlat(reg, t, v);
    ZeroIsFlat(reg, t, w);
    if v.head.Variant? {
      DistinctVariantNames(reg[t].variants, VariantAt(reg[t].variants, v.head.index).value,
                           VariantAt(reg[t].variants, w.head.index).value);
    }
  }

  /** Settings of one type whose other fields are all zero differ only in the signature. */
  lemma ZeroSettingsAgree(reg: Registry, t: TypeId, v: Value, w: Value, i: nat, field: Value)
    requires WellFormed(reg) && WellTyped(reg, t, v) && WellTyped(reg, t, w)
    requires IsSettings(v) && IsSettings(w) && OthersZero(v) && OthersZero(w)
    requires IndexOf(SettingsNames(v), "signature") == Some(i)
    ensures SameShape(v, w) && v.items[0].items[i := field] == w.items[0].items[i := field]
  {
    var def, inner := SettingsStruct(reg, t, v);
    var def', inner' := SettingsStruct(reg, t, w);
    DistinctVariantNames(reg[t].variants, def, def');
    DistinctNames(reg, t, v, i);
    var a, b := v.items[0].items, w.items[0].items;
    var fields := FieldTypes(reg[inner].fields);
    assert inner == inner';
    forall j | 0 <= j < |a| && j != i ensures a[j] == b[j] {
      TypedAt(reg, fields, a, j);
      TypedAt(reg, fields, b, j);
      ZeroUnique(reg, fields[j], a[j], b[j]);
    }
  }

  /** A call without settings is signed to the same bytes as the call with explicit settings whose
      flags are all false and options all `None`, whatever signature those carry. */
  lemma NoSettingsMeansZeroes(metadata: Metadata, tx: Bytes, caller: PublicKey, expiry: BlockNumber,
                              sign: Bytes -> Signature, p: Plan, vs: seq<Value>, explicit: Value)
    requires WellFormed(metadata.types) && Prepare(metadata, tx, expiry) == Ok(p)
    requires DecodeArguments(metadata.types, ArgTypes(p.info.args), tx[2..]) == Some(vs)
    requires p.settings < |vs| && IsNone(vs[p.settings])
    requires WellTyped(metadata.types, p.info.args[p.settings].ty, explicit) && IsSettings(explicit) &&
        OthersZero(explicit)
    requires Height(explicit) <= MAX_NESTING
    ensures Signed(metadata, tx, caller, expiry, sign).Ok?
    ensures Signed(metadata, tx[..2] + EncodeAll(vs[p.settings := explicit]), caller, expiry, sign)
            == Signed(metadata, tx, caller, expiry, sign)
  {
    PrepareFindsPlan(metadata, tx, expiry, p);
    SignedFollowsPlan(metadata, tx, caller, expiry, sign, p);
    var vs' := PlanArguments(metadata, tx, expiry, p);
    DecodeArgumentsExact(metadata.types, ArgTypes(p.info.args), tx[2..], vs');
    TypedUpdate(metadata.types, ArgTypes(p.info.args), vs, p.settings, explicit);
    ZeroSettingsAgree(metadata.types, p.info.args[p.settings].ty, p.value, explicit, p.field, p.value);
    SignedWith(metadata, tx, caller, expiry, sign, p, vs, explicit);
  }
}
