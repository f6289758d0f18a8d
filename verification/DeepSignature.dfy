/** A call that is signed once and refused the second time: its signature's type nests too deep to be measured
    again. */
module DeepSignature {
  import opened Wrappers
  import opened Codec
  import opened Scale
  import opened Measure
  import opened FuelTank
  import opened FuelTankProperties

  const SENT: Bytes := [7, 0, 9, 1, 0]

  function OptionOf(t: TypeId): TypeDef {
    VariantType([VariantDef("None", 0, []), VariantDef("Some", 1, [Field("", t)])])
  }

  function Signature64(): TypeDef {
    ArrayType(64, 0)
  }

  /** A call of one byte, settings whose only field is the signature, and a signature inside `n` tuples of
      one. */
  function Types(n: nat): Registry {
    [ UintType(1),
      OptionOf(2),
      CompositeType([Field("signature", 3)]),
      OptionOf(4),
      CompositeType([Field("signature", 6), Field("expiry_block", 5)]),
      UintType(4) ] +
    seq(n, i requires 0 <= i < n => TupleType([7 + i])) + [Signature64()]
  }

  function Info(): CallInfo {
    CallInfo("FuelTanks", "dispatch", [Arg("call", 0), Arg("settings", 1)])
  }

  function Meta(n: nat): Metadata {
    Metadata(Types(n), map[(7, 0) := Info()])
  }

  function Call(): Value {
    Value(Uint(1, 9), [])
  }

  function Unsigned(): Value {
    Value(Variant(0, "None", Some([])), [])
  }

  function Settings(): Value {
    Value(Variant(1, "Some", None), [Value(Composite(Some(["signature"])), [Unsigned()])])
  }

  function PlanFor(): Plan {
    Plan(Info(), [[9], [1, 0]], 0, 1, Settings(), 0)
  }

  lemma TypesAt(n: nat)
    ensures |Types(n)| == 7 + n && Types(n)[6 + n] == Signature64()
    ensures Types(n)[0] == UintType(1) && Types(n)[1] == OptionOf(2)
    ensures Types(n)[2] == CompositeType([Field("signature", 3)]) && Types(n)[3] == OptionOf(4)
    ensures Types(n)[4] == CompositeType([Field("signature", 6), Field("expiry_block", 5)]) &&
        Types(n)[5] == UintType(4)
  {
  }

  lemma TupleAt(n: nat, i: nat)
    requires i < n
    ensures Types(n)[6 + i] == TupleType([7 + i])
  {
  }

  lemma NoFields()
    ensures FieldNames([]) == Some([]) && FieldTypes([]) == []
  {
    assert FieldNames([]).value == [];
  }

  lemma CallTyped(n: nat)
    ensures WellTyped(Types(n), 0, Call()) && Height(Call()) == 0
  {
    TypesAt(n);
    Pow256Values();
  }

  /** The struct inside the settings. */
  lemma InnerTyped(n: nat)
    ensures WellTyped(Types(n), 2, Settings().items[0]) && Height(Settings().items[0]) == 1
  {
    TypesAt(n);
    var reg, field := Types(n), Field("signature", 3);
    NoFields();
    assert WellTyped(reg, 3, Unsigned());
    SingleNamedField(field);
    assert FieldTypes([field]) == [3];
    SingleTyped(reg, 3, Unsigned());
    SingleItem(Unsigned());
  }

  lemma SettingsTyped(n: nat)
    ensures WellTyped(Types(n), 0, Call()) && Height(Call()) == 0 && Encode(Call()) == [9]
    ensures WellTyped(Types(n), 1, Settings()) && Height(Settings()) == 2 && Encode(Settings()) == [1, 0]
  {
    SettingsEncoded();
    CallTyped(n);
    InnerTyped(n);
    TypesAt(n);
    var outer := Field("", 2);
    var def := VariantDef("Some", 1, [outer]);
    assert Types(n)[1].variants[1..] == [def] && [outer][0].name == "";
    SingleFieldVariant(Types(n), 1, 1, def, outer, Settings().items[0]);
  }

  lemma SettingsEncoded()
    ensures Encode(Call()) == [9] && Encode(Settings()) == [1, 0]
  {
    var inner := Settings().items[0];
    assert Encode(Unsigned()) == [0] && [Unsigned()][1..] == [];
    assert Encode(inner) == [0] && [inner][1..] == [];
    assert Encode(Settings()) == [1] + EncodeAll([inner]);
    assert Encode(Call()) == ToLE(9, 1) + [];
    assert ToLE(9, 1) == [9 % 256] + ToLE(9 / 256, 0);
  }

  /** The signature's bytes sit at the bottom of the tuples left. */
  lemma {:induction false} TupledBytes(n: nat, i: nat, signature: Signature, wrappers: nat)
    requires i <= n && n - i <= wrappers
    ensures var v := BytesValue(Types(n), 6 + i, signature, wrappers);
            v.Some? && Height(v.value) == n - i + 1
    decreases wrappers
  {
    TypesAt(n);
    if i == n {
      ByteItemsHeight(signature);
    } else {
      TupleAt(n, i);
      TupledBytes(n, i + 1, signature, wrappers - 1);
      SingleItem(BytesValue(Types(n), 7 + i, signature, wrappers - 1).value);
    }
  }

  lemma SignatureFits(n: nat, signature: Signature, expiry: BlockNumber)
    ensures var v := SignatureValue(Types(n), 3, signature, expiry);
            v.Some? && Height(v.value) == n + 3
  {
    TypesAt(n);
    Pow256Values();
    var reg := Types(n);
    TupledBytes(n, 0, signature, |reg|);
    var bytes := BytesValue(reg, 6, signature, |reg|).value;
    var number := Value(Uint(4, expiry), []);
    assert NumberValue(reg, 5, expiry, |reg|) == Some(number);
    var fields := reg[4].fields;
    assert SignatureField(reg, fields[0], signature, expiry) == Some(bytes);
    assert "expiry_block" != "signature" by {
      assert "expiry_block"[0] != "signature"[0];
    }
    assert SignatureField(reg, fields[1], signature, expiry) == Some(number);
    var both := Value(Composite(FieldNames(fields)), [bytes, number]);
    assert ExpirableValue(reg, 4, signature, expiry, |reg|) == Some(both);
    PairHeight(bytes, number);
    var def := VariantDef("Some", 1, [Field("", 4)]);
    assert reg[3].variants[1..] == [def] && "None" != "Some" by {
      assert "None"[0] != "Some"[0];
    }
    assert VariantNamed(reg[3].variants, "Some") == Some(def);
    SingleItem(both);
  }

  lemma TypesWellFormed(n: nat)
    ensures WellFormed(Types(n))
  {
    TypesAt(n);
    assert "None" != "Some" by {
      assert "None"[0] != "Some"[0];
    }
    assert "expiry_block" != "signature" by {
      assert "expiry_block"[0] != "signature"[0];
    }
  }

  function Arguments(): seq<Value> {
    [Call(), Settings()]
  }

  lemma ArgumentsEncoded()
    ensures EncodeAll(Arguments()) == SENT[2..] && Slices(Arguments()) == [[9], [1, 0]]
  {
    SettingsEncoded();
    assert Arguments()[1..] == [Settings()] && [Settings()][1..] == [];
    assert EncodeAll([Settings()]) == [1, 0];
    assert EncodeAll(Arguments()) == [9, 1, 0] == SENT[2..];
    assert Slices([Settings()]) == [[1, 0]];
  }

  lemma ArgumentsTyped(n: nat)
    ensures AllTyped(Types(n), ArgTypes(Info().args), Arguments()) && AllShallow(Arguments())
  {
    SettingsTyped(n);
    assert ArgTypes(Info().args) == [0, 1];
    assert Arguments()[1..] == [Settings()] && [0, 1][1..] == [1];
    SingleTyped(Types(n), 1, Settings());
  }

  lemma CallSplits(n: nat)
    ensures Split(Types(n), Info().args, SENT[2..]) == Ok([[9], [1, 0]])
  {
    ArgumentsEncoded();
    ArgumentsTyped(n);
    SplitComplete(Types(n), Info().args, Arguments());
  }

  lemma ArgumentsNamed()
    ensures LastNamed(Info().args, "call") == Some(0) && LastNamed(Info().args, "settings") == Some(1)
  {
    assert "call" != "settings" by {
      assert "call"[0] != "settings"[0];
    }
    var args := Info().args;
    assert args[..1] == [Arg("call", 0)] && args[..1][..0] == [];
  }

  lemma CallIsPlanned(n: nat, expiry: BlockNumber)
    ensures IsPlan(Meta(n), SENT, expiry, PlanFor())
  {
    CallSplits(n);
    ArgumentsNamed();
    SettingsFound(n);
    SettingsSignable(n, expiry);
  }

  lemma SettingsFound(n: nat)
    ensures DispatchSettings(Types(n), 1, [1, 0]) == Ok(Settings())
  {
    SettingsTyped(n);
    ExplicitSettings(Types(n), 1, Settings());
  }

  lemma SettingsSignable(n: nat, expiry: BlockNumber)
    ensures SignedSettings(Types(n), 1, Settings(), 0, PLACEHOLDER, expiry).Some?
  {
    SettingsFieldIs(n);
    SignatureFits(n, PLACEHOLDER, expiry);
  }

  lemma SettingsFieldIs(n: nat)
    ensures SettingsFieldType(Types(n), 1, Settings(), 0) == Some(3)
  {
    TypesAt(n);
    var field, outer := Field("signature", 3), Field("", 2);
    SingleNamedField(field);
    var def := VariantDef("Some", 1, [outer]);
    assert Types(n)[1].variants[1..] == [def] && [outer][0].name == "";
    assert FieldTypes([outer]) == [2] && FieldTypes([field]) == [3];
  }

  /** For each number of tuples: the call is accepted, and signing it again gives the same bytes exactly up to
      123 tuples; from 124 on the signed call is refused as too deep. */
  lemma DeepSignatureIsNotSignedTwice(n: nat, caller: PublicKey, expiry: BlockNumber, sign: Bytes -> Signature)
    ensures Signed(Meta(n), SENT, caller, expiry, sign).Ok?
    ensures var payload := Signed(Meta(n), SENT, caller, expiry, sign).value;
            Signed(Meta(n), payload, caller, expiry, sign)
            == if n <= 123 then Ok(payload) else Err(BadArgument("settings", TooDeep))
  {
    TypesWellFormed(n);
    CallIsPlanned(n, expiry);
    PrepareFindsPlan(Meta(n), SENT, expiry, PlanFor());
    SignedFollowsPlan(Meta(n), SENT, caller, expiry, sign, PlanFor());
    SignatureFits(n, PLACEHOLDER, expiry);
    SettingsFieldIs(n);
    assert SignatureDepth(Meta(n), PlanFor(), expiry) == n + 5;
    SigningTwice(Meta(n), SENT, caller, expiry, sign);
  }
}
