/** The bounded walk that finds where a fuel tank argument ends without building it. */
module Measure {
  import opened Wrappers
  import opened Codec
  import opened Scale

  /** The deepest nesting accepted. */
  const MAX_NESTING := 128

  datatype Measured = Size(bytes: nat) | Malformed | TooDeep

  function DepthLeft(depth: nat): nat {
    if depth > MAX_NESTING then 0 else MAX_NESTING + 1 - depth
  }

  /** How many bytes the value of type `t` at the start of `b` takes, visited at this depth. */
  function MeasureAt(reg: Registry, t: TypeId, b: Bytes, depth: nat): (r: Measured)
    decreases DepthLeft(depth), 0, |b|
  {
    if depth > MAX_NESTING then TooDeep
    else
      match DecodeHead(reg, t, b)
      case None => Malformed
      case Some(h) => Shift(h.size, MeasureItems(reg, h.items, b[h.size..], depth + 1))
  }

  function MeasureItems(reg: Registry, ts: seq<TypeId>, b: Bytes, depth: nat): (r: Measured)
    decreases DepthLeft(depth), 1 + |ts|
  {
    if ts == [] then Size(0)
    else
      match MeasureAt(reg, ts[0], b, depth)
      case Size(n) => if n > |b| then Malformed else Shift(n, MeasureItems(reg, ts[1..], b[n..], depth))
      case error => error
  }

  function Shift(offset: nat, m: Measured): Measured {
    if m.Size? then Size(offset + m.bytes) else m
  }

  /** The visitor: refuse what is too deep, read the head, then visit each item one level deeper.
      `deepest` is the greatest depth any visit was made at. */
  method Visit(reg: Registry, t: TypeId, input: Bytes, depth: nat) returns (r: Measured, deepest: nat)
    ensures r == MeasureAt(reg, t, input, depth)
    ensures depth <= deepest <= Max(depth, 129) && (r.TooDeep? <==> deepest > 128)
    decreases DepthLeft(depth), 0
  {
    if depth > MAX_NESTING {
      return TooDeep, depth;
    }
    var head := DecodeHead(reg, t, input);
    if head.None? {
      return Malformed, depth;
    }
    r, deepest := VisitItems(reg, head.value.items, input[head.value.size..], depth + 1);
    deepest := Max(depth, deepest);
    r := Shift(head.value.size, r);
  }

  /** Visit the items of a container while there is input for them. */
  method VisitItems(reg: Registry, ts: seq<TypeId>, input: Bytes, depth: nat) returns (r: Measured, deepest: nat)
    ensures r == MeasureItems(reg, ts, input, depth)
    ensures deepest <= Max(depth, 129) && (r.TooDeep? <==> deepest > 128)
    decreases DepthLeft(depth), 1
  {
    var remaining := input;
    var i := 0;
    var consumed: nat := 0;
    deepest := 0;
    while i < |ts|
      invariant i <= |ts| && consumed + |remaining| == |input|
      invariant MeasureItems(reg, ts, input, depth) == Shift(consumed, MeasureItems(reg, ts[i..], remaining, depth))
      invariant deepest <= Max(depth, 129) && deepest <= 128
    {
      var item, below := Visit(reg, ts[i], remaining, depth);
      deepest := Max(deepest, below);
      assert ts[i..][1..] == ts[i + 1..];
      if !item.Size? {
        return item, deepest;
      }
      if item.bytes > |remaining| {
        return Malformed, deepest;
      }
      remaining := remaining[item.bytes..];
      consumed := consumed + item.bytes;
      i := i + 1;
    }
    r := Size(consumed);
  }

  /** The walk and the value-building decoder agree, level for level. */
  lemma {:induction false} MeasureFollowsDecode(reg: Registry, t: TypeId, b: Bytes, depth: nat)
    requires depth <= MAX_NESTING + 1
    ensures var d := Decode(reg, t, b, DepthLeft(depth));
            var m := MeasureAt(reg, t, b, depth);
            m.Size? == d.Some? && (m.Size? ==> m.bytes == d.value.1)
    decreases DepthLeft(depth), 0
  {
    if depth <= MAX_NESTING {
      match DecodeHead(reg, t, b) {
        case None =>
        case Some(h) => MeasureItemsFollowDecode(reg, h.items, b[h.size..], depth + 1);
      }
    }
  }

  lemma {:induction false} MeasureItemsFollowDecode(reg: Registry, ts: seq<TypeId>, b: Bytes, depth: nat)
    requires depth <= MAX_NESTING + 1
    ensures var d := DecodeAll(reg, ts, b, DepthLeft(depth));
            var m := MeasureItems(reg, ts, b, depth);
            m.Size? == d.Some? && (m.Size? ==> m.bytes == d.value.1)
    decreases DepthLeft(depth), 1 + |ts|
  {
    if ts != [] {
      MeasureFollowsDecode(reg, ts[0], b, depth);
      var d := Decode(reg, ts[0], b, DepthLeft(depth));
      if d.Some? && d.value.1 <= |b| {
        MeasureItemsFollowDecode(reg, ts[1..], b[d.value.1..], depth);
      }
    }
  }

  /** The walk measures `n` bytes exactly when they are the encoding of a value of the type in which
      nothing lies deeper than the bound. */
  lemma MeasureExact(reg: Registry, t: TypeId, b: Bytes, n: nat)
    ensures MeasureAt(reg, t, b, 0) == Size(n) <==>
            exists v :: Begins(reg, t, b, v) && n == |Encode(v)| && Height(v) <= MAX_NESTING
  {
    MeasureFollowsDecode(reg, t, b, 0);
    if MeasureAt(reg, t, b, 0) == Size(n) {
      DecodeSound(reg, t, b, MAX_NESTING + 1);
      var v := Decode(reg, t, b, MAX_NESTING + 1).value.0;
      assert Begins(reg, t, b, v);
    }
    if v :| Begins(reg, t, b, v) && n == |Encode(v)| && Height(v) <= MAX_NESTING {
      DecodeComplete(reg, t, b, MAX_NESTING + 1, v);
    }
  }

  /** In terms of the unbounded decoder: the same size, and the value it builds is shallow enough. */
  lemma MeasureAgreesWithDecoder(reg: Registry, t: TypeId, b: Bytes, n: nat)
    ensures MeasureAt(reg, t, b, 0) == Size(n) <==>
            var d := DecodeAsType(reg, t, b);
            d.Some? && d.value.1 == n && Height(d.value.0) <= MAX_NESTING
  {
    MeasureExact(reg, t, b, n);
    var d := DecodeAsType(reg, t, b);
    if d.Some? {
      DecodeAsTypeExact(reg, t, b, d.value.0, d.value.1);
    }
    if v :| Begins(reg, t, b, v) && n == |Encode(v)| && Height(v) <= MAX_NESTING {
      DecodeAsTypeExact(reg, t, b, v, n);
    }
  }

  /** Only the measured bytes matter: the same prefix before anything else measures the same. */
  lemma MeasureIsLocal(reg: Registry, t: TypeId, b: Bytes, rest: Bytes)
    requires MeasureAt(reg, t, b, 0).Size?
    ensures var n := MeasureAt(reg, t, b, 0).bytes; n <= |b| && MeasureAt(reg, t, b[..n] + rest, 0) == Size(n)
  {
    var n := MeasureAt(reg, t, b, 0).bytes;
    MeasureExact(reg, t, b, n);
    var v :| Begins(reg, t, b, v) && n == |Encode(v)| && Height(v) <= MAX_NESTING;
    assert Begins(reg, t, b[..n] + rest, v);
    MeasureExact(reg, t, b[..n] + rest, n);
  }

  /** A value that is there but too deep is refused for its depth, not as malformed. */
  lemma {:induction false} TooDeepIsReported(reg: Registry, t: TypeId, b: Bytes, depth: nat, v: Value)
    requires Begins(reg, t, b, v) && depth <= MAX_NESTING + 1 && depth + Height(v) > MAX_NESTING
    ensures MeasureAt(reg, t, b, depth) == TooDeep
    decreases v, 1
  {
    if depth <= MAX_NESTING {
      AfterHead(reg, t, b, v);
      var h := DecodeHead(reg, t, b).value;
      TooDeepItemIsReported(reg, h.items, b[h.size..], depth + 1, v.items);
    }
  }

  lemma {:induction false} TooDeepItemIsReported(reg: Registry, ts: seq<TypeId>, b: Bytes, depth: nat, vs: seq<Value>)
    requires AllBegin(reg, ts, b, vs) && 1 <= depth <= MAX_NESTING + 1 && depth - 1 + HeightOfItems(vs) > MAX_NESTING
    ensures MeasureItems(reg, ts, b, depth) == TooDeep
    decreases vs, 0
  {
    var k := |Encode(vs[0])|;
    var rest := EncodeAll(vs[1..]);
    assert EncodeAll(vs) == Encode(vs[0]) + rest;
    assert Encode(vs[0]) == b[..k] && rest == b[k..][..|rest|];
    if depth + Height(vs[0]) > MAX_NESTING {
      TooDeepIsReported(reg, ts[0], b, depth, vs[0]);
    } else {
      DecodeComplete(reg, ts[0], b, DepthLeft(depth), vs[0]);
      MeasureFollowsDecode(reg, ts[0], b, depth);
      TooDeepItemIsReported(reg, ts[1..], b[k..], depth, vs[1..]);
    }
  }

  // A runtime's call type, cut down to a remark and a batch of calls: each call is a variant holding
  // its pallet's call, and a batch holds a sequence of calls, so the registry is recursive.

  const REMARK_ARGUMENT: TypeId := 3

  function RuntimeCalls(system: Byte, remark: Byte, utility: Byte, batch: Byte): Registry {
    [ VariantType([VariantDef("System", system, [Field("", 1)]), VariantDef("Utility", utility, [Field("", 2)])]),
      VariantType([VariantDef("remark", remark, [Field("remark", REMARK_ARGUMENT)])]),
      VariantType([VariantDef("batch", batch, [Field("calls", 4)])]),
      SequenceType(5),
      SequenceType(0),
      UintType(1) ]
  }

  /** A remark with this argument inside `k` batches of one call each. */
  function NestedRemark(system: Byte, remark: Byte, utility: Byte, batch: Byte, k: nat, argument: Value): (v: Value)
    decreases k
  {
    if k == 0 then
      Value(Variant(system, "System", None),
            [Value(Variant(remark, "remark", Some(["remark"])), [argument])])
    else
      Value(Variant(utility, "Utility", None),
            [Value(Variant(batch, "batch", Some(["calls"])),
                   [Value(Sequence, [NestedRemark(system, remark, utility, batch, k - 1, argument)])])])
  }

  lemma SingleItem(v: Value)
    ensures HeightOfItems([v]) == 1 + Height(v)
  {
    assert [v][1..] == [];
  }

  lemma SingleTyped(reg: Registry, t: TypeId, v: Value)
    requires WellTyped(reg, t, v)
    ensures AllTyped(reg, [t], [v])
  {
    assert [v][1..] == [] && [t][1..] == [];
  }

  lemma SingleNamedField(f: Field)
    requires f.name != ""
    ensures FieldNames([f]) == Some([f.name])
  {
    assert [f][0] == f;
    assert FieldNames([f]).value == [f.name];
  }

  lemma SingleFieldVariant(reg: Registry, t: TypeId, index: Byte, def: VariantDef, field: Field, item: Value)
    requires t < |reg| && reg[t].VariantType? && VariantAt(reg[t].variants, index) == Some(def)
    requires def.fields == [field] && WellTyped(reg, field.ty, item)
    ensures var v := Value(Variant(index, def.name, FieldNames(def.fields)), [item]);
            WellTyped(reg, t, v) && Height(v) == 1 + Height(item)
  {
    assert FieldTypes([field]) == [field.ty];
    SingleTyped(reg, field.ty, item);
    SingleItem(item);
  }

  lemma SingleItemSequence(reg: Registry, t: TypeId, ty: TypeId, item: Value)
    requires t < |reg| && reg[t] == SequenceType(ty) && WellTyped(reg, ty, item)
    ensures WellTyped(reg, t, Value(Sequence, [item])) && Height(Value(Sequence, [item])) == 1 + Height(item)
  {
    assert ByteLength(1) == 1;
    assert Repeat(ty, 1) == [ty];
    SingleTyped(reg, ty, item);
    SingleItem(item);
  }

  lemma RemarkTyped(system: Byte, remark: Byte, utility: Byte, batch: Byte, argument: Value)
    requires WellTyped(RuntimeCalls(system, remark, utility, batch), REMARK_ARGUMENT, argument)
    ensures var v := NestedRemark(system, remark, utility, batch, 0, argument);
            WellTyped(RuntimeCalls(system, remark, utility, batch), 0, v) && Height(v) == 2 + Height(argument)
  {
    var reg := RuntimeCalls(system, remark, utility, batch);
    var field, outer := Field("remark", REMARK_ARGUMENT), Field("", 1);
    SingleNamedField(field);
    SingleFieldVariant(reg, 1, remark, VariantDef("remark", remark, [field]), field, argument);
    var call := Value(Variant(remark, "remark", Some(["remark"])), [argument]);
    assert [outer][0].name == "";
    SingleFieldVariant(reg, 0, system, VariantDef("System", system, [outer]), outer, call);
  }

  lemma BatchTyped(system: Byte, remark: Byte, utility: Byte, batch: Byte, inner: Value)
    requires system != utility && WellTyped(RuntimeCalls(system, remark, utility, batch), 0, inner)
    ensures var v := Value(Variant(utility, "Utility", None),
                           [Value(Variant(batch, "batch", Some(["calls"])), [Value(Sequence, [inner])])]);
            WellTyped(RuntimeCalls(system, remark, utility, batch), 0, v) && Height(v) == 3 + Height(inner)
  {
    var reg := RuntimeCalls(system, remark, utility, batch);
    var field, outer := Field("calls", 4), Field("", 2);
    SingleItemSequence(reg, 4, 0, inner);
    SingleNamedField(field);
    SingleFieldVariant(reg, 2, batch, VariantDef("batch", batch, [field]), field, Value(Sequence, [inner]));
    var call := Value(Variant(batch, "batch", Some(["calls"])), [Value(Sequence, [inner])]);
    assert [outer][0].name == "";
    assert reg[0].variants[1..] == [VariantDef("Utility", utility, [outer])];
    SingleFieldVariant(reg, 0, utility, VariantDef("Utility", utility, [outer]), outer, call);
  }

  lemma {:induction false} NestedRemarkTyped(system: Byte, remark: Byte, utility: Byte, batch: Byte, k: nat,
                                             argument: Value)
    requires system != utility && WellTyped(RuntimeCalls(system, remark, utility, batch), REMARK_ARGUMENT, argument)
    ensures var v := NestedRemark(system, remark, utility, batch, k, argument);
            WellTyped(RuntimeCalls(system, remark, utility, batch), 0, v) && Height(v) == 3 * k + 2 + Height(argument)
    decreases k
  {
    if k == 0 {
      RemarkTyped(system, remark, utility, batch, argument);
    } else {
      NestedRemarkTyped(system, remark, utility, batch, k - 1, argument);
      BatchTyped(system, remark, utility, batch, NestedRemark(system, remark, utility, batch, k - 1, argument));
    }
  }

  lemma {:induction false} BytesHeight(reg: Registry, vs: seq<Value>)
    requires AllTyped(reg, Repeat(5, |vs|), vs) && |reg| == 6 && reg[5] == UintType(1)
    ensures HeightOfItems(vs) == if vs == [] then 0 else 1
  {
    if vs != [] {
      assert Repeat(5, |vs|)[1..] == Repeat(5, |vs| - 1);
      assert WellTyped(reg, 5, vs[0]) && AllTyped(reg, [], vs[0].items);
      assert Height(vs[0]) == 0;
      BytesHeight(reg, vs[1..]);
    }
  }

  /** A remark with a non-empty argument inside `k` single-call batches is measured exactly when
      `3 * k + 3` levels are within the bound, and is otherwise refused as too deep. */
  lemma BatchLimit(system: Byte, remark: Byte, utility: Byte, batch: Byte, k: nat, argument: Value, rest: Bytes)
    requires system != utility && WellTyped(RuntimeCalls(system, remark, utility, batch), REMARK_ARGUMENT, argument)
    requires argument.items != []
    ensures var call := Encode(NestedRemark(system, remark, utility, batch, k, argument));
            MeasureAt(RuntimeCalls(system, remark, utility, batch), 0, call + rest, 0)
            == if 3 * k + 3 <= MAX_NESTING then Size(|call|) else TooDeep
  {
    var reg := RuntimeCalls(system, remark, utility, batch);
    var v := NestedRemark(system, remark, utility, batch, k, argument);
    NestedRemarkTyped(system, remark, utility, batch, k, argument);
    BytesHeight(reg, argument.items);
    assert Height(v) == 3 * k + 3;
    assert Begins(reg, 0, Encode(v) + rest, v);
    if 3 * k + 3 <= MAX_NESTING {
      MeasureExact(reg, 0, Encode(v) + rest, |Encode(v)|);
    } else {
      TooDeepIsReported(reg, 0, Encode(v) + rest, 0, v);
    }
  }
}
