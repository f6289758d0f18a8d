/** Signing a fuel tank dispatch: find the arguments of the call, sign the inner call, and replace the
    signature inside the dispatch settings. */
module FuelTank {
  import opened Wrappers
  import opened Codec
  import opened Scale
  import opened Measure

  function Zeroes(count: nat): (b: Bytes)
    ensures |b| == count && forall i :: 0 <= i < count ==> b[i] == 0
  {
    seq(count, i => 0)
  }

  type Signature = s: Bytes | |s| == 64 witness Zeroes(64)
  type PublicKey = k: Bytes | |k| == 32 witness Zeroes(32)
  type BlockNumber = n: nat | n < 0x1_0000_0000

  datatype Arg = Arg(name: string, ty: TypeId)
  datatype CallInfo = CallInfo(pallet: string, call: string, args: seq<Arg>)
  datatype Metadata = Metadata(types: Registry, calls: map<(Byte, Byte), CallInfo>)

  datatype Error =
    | MissingCallIndex
    | UnknownCall
    | NotADispatch
    | BadArgument(name: string, cause: Measured)
    | TrailingBytes
    | MissingInnerCall
    | MissingSettings
    | UndecodableSettings
    | NoKnownDefault
    | InvalidSettings
    | MissingSignatureField
    | UnencodableSettings

  const PLACEHOLDER: Signature := Zeroes(64)

  /** What `None` settings are read as: `Some` followed by zeroes. */
  const DEFAULT_SETTINGS: Bytes := [1] + Zeroes(255)

  ghost predicate DistinctVariants(variants: seq<VariantDef>) {
    forall i, j :: 0 <= i < j < |variants| ==>
      variants[i].index != variants[j].index && variants[i].name != variants[j].name
  }

  ghost predicate DistinctFields(fields: seq<Field>) {
    forall i, j :: 0 <= i < j < |fields| && fields[i].name != "" ==> fields[i].name != fields[j].name
  }

  /** An enum's variants have distinct names and indices, and a struct's fields distinct names. */
  ghost predicate WellFormed(reg: Registry) {
    forall t :: 0 <= t < |reg| ==>
      (reg[t].VariantType? ==> DistinctVariants(reg[t].variants)) &&
      (reg[t].CompositeType? ==> DistinctFields(reg[t].fields))
  }

  // The arguments of the call.

  function ArgTypes(args: seq<Arg>): (ts: seq<TypeId>)
    ensures |ts| == |args|
  {
    seq(|args|, i requires 0 <= i < |args| => args[i].ty)
  }

  function Prepend(slice: Bytes, r: Result<seq<Bytes>, Error>): Result<seq<Bytes>, Error> {
    if r.Ok? then Ok([slice] + r.value) else r
  }

  /** How many bytes the argument of type `t` at the start of `b` takes. */
  function MeasureOf(reg: Registry): (TypeId, Bytes) -> Measured {
    (t: TypeId, b: Bytes) => MeasureAt(reg, t, b, 0)
  }

  /** The bytes of each argument in turn; together they must be all of `b`. */
  function Split(reg: Registry, args: seq<Arg>, b: Bytes): (r: Result<seq<Bytes>, Error>)
    ensures r.Ok? ==> |r.value| == |args|
  {
    SplitBy(MeasureOf(reg), args, b)
  }

  function SplitBy(measure: (TypeId, Bytes) -> Measured, args: seq<Arg>, b: Bytes): (r: Result<seq<Bytes>, Error>)
    ensures r.Ok? ==> |r.value| == |args|
  {
    if args == [] then
      if b == [] then Ok([]) else Err(TrailingBytes)
    else
      var measured := measure(args[0].ty, b);
      if !measured.Size? then Err(BadArgument(args[0].name, measured))
      else if measured.bytes > |b| then Err(BadArgument(args[0].name, Malformed))
      else Prepend(b[..measured.bytes], SplitBy(measure, args[1..], b[measured.bytes..]))
  }

  lemma SplitByFirst(measure: (TypeId, Bytes) -> Measured, args: seq<Arg>, b: Bytes, n: nat, rest: Bytes)
    requires args != [] && measure(args[0].ty, b) == Size(n) && n <= |b| && rest == b[n..]
    ensures SplitBy(measure, args, b) == Prepend(b[..n], SplitBy(measure, args[1..], rest))
  {
  }

  function Concat(slices: seq<Bytes>): Bytes {
    if slices == [] then [] else slices[0] + Concat(slices[1..])
  }

  /** The last argument of this name. */
  function LastNamed(args: seq<Arg>, name: string): (r: Option<nat>)
    ensures r.Some? ==> r.value < |args| && args[r.value].name == name
  {
    if args == [] then None
    else if args[|args| - 1].name == name then Some(|args| - 1)
    else LastNamed(args[..|args| - 1], name)
  }

  // The settings.

  /** Whether `v` is what a zero byte decodes to as a bool or an option. */
  predicate IsZero(v: Value) {
    match v.head
    case Bool(flag) => !flag
    case Variant(_, name, _) => name == "None" && v.items == []
    case _ => false
  }

  /** `Some` holding a struct with named fields. */
  predicate IsSettings(v: Value) {
    v.head.Variant? && v.head.name == "Some" && v.head.names == None && |v.items| == 1 &&
    v.items[0].head.Composite? && v.items[0].head.names.Some? &&
    |v.items[0].head.names.value| == |v.items[0].items|
  }

  function SettingsNames(v: Value): seq<string>
    requires IsSettings(v)
  {
    v.items[0].head.names.value
  }

  /** Whether every field but the signature is false or `None`. */
  predicate OthersZero(v: Value)
    requires IsSettings(v)
  {
    forall i :: 0 <= i < |v.items[0].items| && SettingsNames(v)[i] != "signature" ==> IsZero(v.items[0].items[i])
  }

  predicate IsNone(v: Value) {
    v.head.Variant? && v.head.name == "None"
  }

  /** The dispatch settings, with `None` read as the runtime's default. A default that is not known to
      be false or `None` is refused rather than guessed. */
  function DispatchSettings(reg: Registry, t: TypeId, encoded: Bytes): (r: Result<Value, Error>)
    ensures r.Ok? ==> IsSettings(r.value)
  {
    match DecodeAsType(reg, t, encoded)
    case None => Err(UndecodableSettings)
    case Some((sent, _)) =>
      if IsNone(sent) then
        match DecodeAsType(reg, t, DEFAULT_SETTINGS)
        case None => Err(NoKnownDefault)
        case Some((default, _)) =>
          if !IsSettings(default) then Err(InvalidSettings)
          else if !OthersZero(default) then Err(NoKnownDefault)
          else Ok(default)
      else if IsSettings(sent) then Ok(sent)
      else Err(InvalidSettings)
  }

  function IndexOf(names: seq<string>, name: string): (r: Option<nat>)
    ensures r.Some? ==> r.value < |names| && names[r.value] == name
    ensures r.None? ==> name !in names
  {
    if names == [] then None
    else if names[0] == name then Some(0)
    else match IndexOf(names[1..], name) case None => None case Some(i) => Some(i + 1)
  }

  // The new signature, shaped by the type it has to have.

  /** The only field of a wrapper struct or tuple. */
  function Wrapped(reg: Registry, t: TypeId): (r: Option<TypeId>)
    ensures r.Some? ==> t < |reg|
  {
    if t >= |reg| then None
    else
      match reg[t]
      case TupleType(items) => if |items| == 1 then Some(items[0]) else None
      case CompositeType(fields) => if |fields| == 1 then Some(fields[0].ty) else None
      case _ => None
  }

  function WrapperNames(reg: Registry, t: TypeId): Names
    requires t < |reg|
  {
    if reg[t].CompositeType? then FieldNames(reg[t].fields) else None
  }

  function Enclose(names: Names, v: Option<Value>): (r: Option<Value>) {
    if v.Some? then Some(Value(Composite(names), [v.value])) else None
  }

  function ByteItems(bytes: Bytes): (vs: seq<Value>) {
    seq(|bytes|, i requires 0 <= i < |bytes| => Value(Uint(1, bytes[i]), []))
  }

  /** `bytes` as a value of type `t`: an array or sequence of bytes, perhaps inside unnamed wrappers. */
  function BytesValue(reg: Registry, t: TypeId, bytes: Bytes, wrappers: nat): (r: Option<Value>)
    decreases wrappers
  {
    if t >= |reg| then None
    else
      match reg[t]
      case ArrayType(length, item) =>
        if length == |bytes| && item < |reg| && reg[item] == UintType(1) then
          Some(Value(Composite(None), ByteItems(bytes)))
        else None
      case SequenceType(item) =>
        if item < |reg| && reg[item] == UintType(1) then Some(Value(Sequence, ByteItems(bytes))) else None
      case _ =>
        if wrappers > 0 && Wrapped(reg, t).Some? && WrapperNames(reg, t) == None then
          Enclose(None, BytesValue(reg, Wrapped(reg, t).value, bytes, wrappers - 1))
        else None
  }

  /** `n` as a value of type `t`: an integer it fits, perhaps inside wrappers. */
  function NumberValue(reg: Registry, t: TypeId, n: BlockNumber, wrappers: nat): (r: Option<Value>)
    decreases wrappers
  {
    if t >= |reg| then None
    else
      match reg[t]
      case UintType(width) => if n < Pow256(width) then Some(Value(Uint(width, n), [])) else None
      case CompactType(width) => if n < Pow256(width) then Some(Value(Compact(n), [])) else None
      case _ =>
        if wrappers > 0 && Wrapped(reg, t).Some? then
          Enclose(WrapperNames(reg, t), NumberValue(reg, Wrapped(reg, t).value, n, wrappers - 1))
        else None
  }

  /** The field `name` of a signature, as a value of the field's type. */
  function SignatureField(reg: Registry, field: Field, signature: Signature, expiry: BlockNumber): (r: Option<Value>) {
    if field.name == "signature" then BytesValue(reg, field.ty, signature, |reg|)
    else if field.name == "expiry_block" then NumberValue(reg, field.ty, expiry, |reg|)
    else None
  }

  /** The struct holding a signature and the block it expires at, in the order the type has them. */
  function ExpirableValue(reg: Registry, t: TypeId, signature: Signature, expiry: BlockNumber,
                          wrappers: nat): (r: Option<Value>)
    decreases wrappers
  {
    if t >= |reg| then None
    else if reg[t].CompositeType? && |reg[t].fields| == 2 then
      var fields := reg[t].fields;
      var first := SignatureField(reg, fields[0], signature, expiry);
      var second := SignatureField(reg, fields[1], signature, expiry);
      if first.Some? && second.Some? && fields[0].name != fields[1].name then
        Some(Value(Composite(FieldNames(fields)), [first.value, second.value]))
      else None
    else if wrappers > 0 && Wrapped(reg, t).Some? && WrapperNames(reg, t) == None then
      Enclose(None, ExpirableValue(reg, Wrapped(reg, t).value, signature, expiry, wrappers - 1))
    else None
  }

  function VariantNamed(variants: seq<VariantDef>, name: string): (r: Option<VariantDef>)
    ensures r.Some? ==> r.value in variants && r.value.name == name
  {
    if variants == [] then None
    else if variants[0].name == name then Some(variants[0])
    else VariantNamed(variants[1..], name)
  }

  /** `Some(signature, expiry)` as a value of type `t`, if the type can hold it. */
  function SignatureValue(reg: Registry, t: TypeId, signature: Signature, expiry: BlockNumber): (r: Option<Value>) {
    if t >= |reg| || !reg[t].VariantType? then None
    else
      match VariantNamed(reg[t].variants, "Some")
      case None => None
      case Some(def) =>
        if |def.fields| != 1 then None
        else
          match ExpirableValue(reg, def.fields[0].ty, signature, expiry, |reg|)
          case None => None
          case Some(v) => Some(Value(Variant(def.index, "Some", FieldNames(def.fields)), [v]))
  }

  /** The type of field `i` of settings `v`, which have type `t`. */
  function SettingsFieldType(reg: Registry, t: TypeId, v: Value, i: nat): (r: Option<TypeId>)
    requires IsSettings(v)
  {
    match ItemTypes(reg, t, v.head, 1)
    case None => None
    case Some(ts) =>
      if |ts| != 1 then None
      else
        match ItemTypes(reg, ts[0], v.items[0].head, |v.items[0].items|)
        case None => None
        case Some(fields) => if i < |fields| then Some(fields[i]) else None
  }

  function WithField(v: Value, i: nat, field: Value): Value
    requires IsSettings(v) && i < |v.items[0].items|
  {
    v.(items := [v.items[0].(items := v.items[0].items[i := field])])
  }

  /** The settings with field `i` replaced by the signature. */
  function SignedSettings(reg: Registry, t: TypeId, v: Value, i: nat, signature: Signature,
                          expiry: BlockNumber): (r: Option<Value>)
    requires IsSettings(v) && i < |v.items[0].items|
  {
    match SettingsFieldType(reg, t, v, i)
    case None => None
    case Some(ty) =>
      match SignatureValue(reg, ty, signature, expiry)
      case None => None
      case Some(field) => Some(WithField(v, i, field))
  }

  function Message(call: Bytes, caller: PublicKey, expiry: BlockNumber): Bytes {
    call + caller + ToLE(expiry, 4)
  }

  /** What a call that is a dispatch consists of. */
  function CallOf(metadata: Metadata, tx: Bytes): (r: Result<CallInfo, Error>)
    ensures r.Ok? ==> |tx| >= 2
  {
    if |tx| < 2 then Err(MissingCallIndex)
    else if (tx[0], tx[1]) !in metadata.calls then Err(UnknownCall)
    else
      var info := metadata.calls[(tx[0], tx[1])];
      if info.pallet != "FuelTanks" || (info.call != "dispatch" && info.call != "dispatch_and_touch") then
        Err(NotADispatch)
      else Ok(info)
  }

  /** Where everything is in an acceptable dispatch: its arguments' bytes, which of them are the call
      and the settings, the settings' value, and which of its fields is the signature. */
  datatype Plan = Plan(info: CallInfo, slices: seq<Bytes>, call: nat, settings: nat, value: Value, field: nat)

  function Prepare(metadata: Metadata, tx: Bytes, expiry: BlockNumber): (r: Result<Plan, Error>)
    ensures r.Ok? ==>
              var p := r.value;
              |tx| >= 2 && |p.slices| == |p.info.args| && p.call < |p.slices| && p.settings < |p.slices| &&
              IsSettings(p.value) && p.field < |p.value.items[0].items| &&
              SignedSettings(metadata.types, p.info.args[p.settings].ty, p.value, p.field, PLACEHOLDER, expiry).Some?
  {
    match CallOf(metadata, tx)
    case Err(e) => Err(e)
    case Ok(info) =>
      match Split(metadata.types, info.args, tx[2..])
      case Err(e) => Err(e)
      case Ok(slices) =>
        match LastNamed(info.args, "call")
        case None => Err(MissingInnerCall)
        case Some(call) =>
          match LastNamed(info.args, "settings")
          case None => Err(MissingSettings)
          case Some(settings) =>
            match DispatchSettings(metadata.types, info.args[settings].ty, slices[settings])
            case Err(e) => Err(e)
            case Ok(value) =>
              match IndexOf(SettingsNames(value), "signature")
              case None => Err(MissingSignatureField)
              case Some(field) =>
                if SignedSettings(metadata.types, info.args[settings].ty, value, field, PLACEHOLDER, expiry).None?
                then Err(UnencodableSettings)
                else Ok(Plan(info, slices, call, settings, value, field))
  }

  /** The settings a plan ends up with. */
  function NewSettings(metadata: Metadata, p: Plan, caller: PublicKey, expiry: BlockNumber,
                       sign: Bytes -> Signature): (r: Option<Value>)
    requires IsSettings(p.value) && p.field < |p.value.items[0].items|
    requires p.settings < |p.info.args| && p.call < |p.slices|
  {
    SignedSettings(metadata.types, p.info.args[p.settings].ty, p.value, p.field,
                   sign(Message(p.slices[p.call], caller, expiry)), expiry)
  }

  /** The signed call. */
  function Signed(metadata: Metadata, tx: Bytes, caller: PublicKey, expiry: BlockNumber,
                  sign: Bytes -> Signature): (r: Result<Bytes, Error>) {
    match Prepare(metadata, tx, expiry)
    case Err(e) => Err(e)
    case Ok(p) =>
      match NewSettings(metadata, p, caller, expiry, sign)
      case None => Err(UnencodableSettings)
      case Some(v) => Ok(tx[..2] + Concat(p.slices[p.settings := Encode(v)]))
  }

  /** The key that signs: a fixed function of the message, and a record of what it was asked to sign. */
  class Signer {
    const sign: Bytes -> Signature
    var asked: seq<Bytes>

    constructor (sign: Bytes -> Signature)
      ensures this.sign == sign && asked == []
    {
      this.sign := sign;
      asked := [];
    }

    method Sign(message: Bytes) returns (signature: Signature)
      modifies this
      ensures signature == sign(message) && asked == old(asked) + [message]
    {
      asked := asked + [message];
      signature := sign(message);
    }
  }

  lemma {:induction false} ConcatUpdate(slices: seq<Bytes>, k: nat, slice: Bytes)
    requires k < |slices|
    ensures Concat(slices[k := slice]) == Concat(slices[..k]) + slice + Concat(slices[k + 1..])
  {
    if k == 0 {
      assert slices[0 := slice][1..] == slices[1..];
    } else {
      ConcatUpdate(slices[1..], k - 1, slice);
      assert slices[k := slice][1..] == slices[1..][k - 1 := slice];
      assert slices[..k][1..] == slices[1..][..k - 1];
      assert slices[1..][k..] == slices[k + 1..];
    }
  }

  /** Where slice `k` lies in a call whose arguments start after the two index bytes. */
  function RangeOf(slices: seq<Bytes>, k: nat): (nat, nat)
    requires k < |slices|
  {
    var start := 2 + |Concat(slices[..k])|;
    (start, start + |slices[k]|)
  }

  lemma RangeIsSlice(tx: Bytes, slices: seq<Bytes>, k: nat)
    requires |tx| >= 2 && tx[2..] == Concat(slices) && k < |slices|
    ensures var (start, end) := RangeOf(slices, k);
            end <= |tx| && tx[start..end] == slices[k] &&
            forall slice :: tx[..start] + slice + tx[end..] == tx[..2] + Concat(slices[k := slice])
  {
    ConcatUpdate(slices, k, slices[k]);
    assert slices[k := slices[k]] == slices;
    var before, after := Concat(slices[..k]), Concat(slices[k + 1..]);
    var (start, end) := RangeOf(slices, k);
    assert tx == tx[..2] + before + slices[k] + after;
    forall slice ensures tx[..start] + slice + tx[end..] == tx[..2] + Concat(slices[k := slice]) {
      ConcatUpdate(slices, k, slice);
    }
  }

  /** Where the last arguments called `call` and `settings` lie, and the type of the settings. */
  type Ranges = (Option<(nat, nat)>, Option<((nat, nat), TypeId)>)

  function Keep(found: Ranges, arg: Arg, range: (nat, nat)): Ranges {
    if arg.name == "call" then (Some(range), found.1)
    else if arg.name == "settings" then (found.0, Some((range, arg.ty)))
    else found
  }

  /** Measure the arguments in turn from `offset` on; together they must be all of `b`. */
  function Scan(measure: (TypeId, Bytes) -> Measured, args: seq<Arg>, b: Bytes, offset: nat,
                found: Ranges): Result<Ranges, Error> {
    if args == [] then
      if b == [] then Ok(found) else Err(TrailingBytes)
    else
      var measured := measure(args[0].ty, b);
      if !measured.Size? then Err(BadArgument(args[0].name, measured))
      else if measured.bytes > |b| then Err(BadArgument(args[0].name, Malformed))
      else
        var n := measured.bytes;
        Scan(measure, args[1..], b[n..], offset + n, Keep(found, args[0], (offset, offset + n)))
  }

  /** What a scan finds in a call that splits into these slices. */
  function Located(args: seq<Arg>, slices: seq<Bytes>, offset: nat, found: Ranges): Ranges
    requires |args| == |slices|
  {
    if args == [] then found
    else
      var end := offset + |slices[0]|;
      Located(args[1..], slices[1..], end, Keep(found, args[0], (offset, end)))
  }

  lemma {:induction false} ScanFollowsSplit(measure: (TypeId, Bytes) -> Measured, args: seq<Arg>, b: Bytes,
                                            offset: nat, found: Ranges)
    ensures var split, scan := SplitBy(measure, args, b), Scan(measure, args, b, offset, found);
            scan == if split.Ok? then Ok(Located(args, split.value, offset, found)) else Err(split.error)
    ensures SplitBy(measure, args, b).Ok? ==> b == Concat(SplitBy(measure, args, b).value)
    decreases |args|
  {
    if args != [] {
      var measured := measure(args[0].ty, b);
      if measured.Size? && measured.bytes <= |b| {
        var n := measured.bytes;
        ScanFollowsSplit(measure, args[1..], b[n..], offset + n, Keep(found, args[0], (offset, offset + n)));
        var rest := SplitBy(measure, args[1..], b[n..]);
        if rest.Ok? {
          assert ([b[..n]] + rest.value)[1..] == rest.value;
        }
      }
    }
  }

  lemma {:induction false} LastNamedCons(args: seq<Arg>, name: string)
    requires args != []
    ensures LastNamed(args, name)
            == match LastNamed(args[1..], name)
               case Some(k) => Some(k + 1)
               case None => if args[0].name == name then Some(0) else None
    decreases |args|
  {
    var last := |args| - 1;
    if last > 0 && args[last].name != name {
      assert args[..last][1..] == args[1..][..last - 1];
      LastNamedCons(args[..last], name);
    }
  }

  /** The range of the last argument of a name, or what was found before when there is none. */
  function RangeAfter(args: seq<Arg>, slices: seq<Bytes>, offset: nat, name: string,
                      before: Option<(nat, nat)>): Option<(nat, nat)>
    requires |args| == |slices|
  {
    match LastNamed(args, name)
    case None => before
    case Some(k) =>
      var start := offset + |Concat(slices[..k])|;
      Some((start, start + |slices[k]|))
  }

  lemma RangeCons(args: seq<Arg>, slices: seq<Bytes>, offset: nat, name: string, before: Option<(nat, nat)>)
    requires |args| == |slices| && args != []
    ensures var end := offset + |slices[0]|;
            RangeAfter(args, slices, offset, name, before)
            == RangeAfter(args[1..], slices[1..], end, name,
                          if args[0].name == name then Some((offset, end)) else before)
  {
    LastNamedCons(args, name);
    var rest := LastNamed(args[1..], name);
    if rest.Some? {
      assert slices[..rest.value + 1][1..] == slices[1..][..rest.value];
    }
  }

  /** A scan finds exactly the last argument of each of the two names. */
  lemma {:induction false} LocatedExact(args: seq<Arg>, slices: seq<Bytes>, offset: nat, found: Ranges)
    requires |args| == |slices|
    ensures Located(args, slices, offset, found).0 == RangeAfter(args, slices, offset, "call", found.0)
    ensures var settings := LastNamed(args, "settings");
            Located(args, slices, offset, found).1
            == if settings.None? then found.1
               else Some((RangeAfter(args, slices, offset, "settings", None).value, args[settings.value].ty))
    decreases |args|
  {
    if args != [] {
      var end := offset + |slices[0]|;
      assert |"call"| != |"settings"|;
      LocatedExact(args[1..], slices[1..], end, Keep(found, args[0], (offset, end)));
      RangeCons(args, slices, offset, "call", found.0);
      RangeCons(args, slices, offset, "settings", None);
      LastNamedCons(args, "settings");
    }
  }

  /** What a scan of a call's arguments finds, in terms of the slices it splits into. */
  lemma ScanExact(measure: (TypeId, Bytes) -> Measured, args: seq<Arg>, tx: Bytes)
    requires |tx| >= 2
    ensures var scan := Scan(measure, args, tx[2..], 2, (None, None));
            match SplitBy(measure, args, tx[2..])
            case Err(e) => scan == Err(e)
            case Ok(slices) =>
              var call, settings := LastNamed(args, "call"), LastNamed(args, "settings");
              tx[2..] == Concat(slices) && scan.Ok? &&
              scan.value.0 == (if call.None? then None else Some(RangeOf(slices, call.value))) &&
              scan.value.1 == if settings.None? then None
                              else Some((RangeOf(slices, settings.value), args[settings.value].ty))
  {
    ScanFollowsSplit(measure, args, tx[2..], 2, (None, None));
    var split := SplitBy(measure, args, tx[2..]);
    if split.Ok? {
      LocatedExact(args, split.value, 2, (None, None));
    }
  }

  lemma ScanRefuses(measure: (TypeId, Bytes) -> Measured, args: seq<Arg>, i: nat, b: Bytes, offset: nat,
                    found: Ranges, measured: Measured)
    requires i < |args| && measure(args[i].ty, b) == measured
    ensures !measured.Size? ==> Scan(measure, args[i..], b, offset, found) == Err(BadArgument(args[i].name, measured))
    ensures measured.Size? && measured.bytes > |b| ==>
              Scan(measure, args[i..], b, offset, found) == Err(BadArgument(args[i].name, Malformed))
  {
  }

  lemma ScanStep(measure: (TypeId, Bytes) -> Measured, args: seq<Arg>, i: nat, b: Bytes, offset: nat, found: Ranges,
                 n: nat,
                 rest: Bytes, end: nat, found': Ranges)
    requires i < |args| && measure(args[i].ty, b) == Size(n) && n <= |b|
    requires rest == b[n..] && end == offset + n && found' == Keep(found, args[i], (offset, end))
    ensures Scan(measure, args[i..], b, offset, found) == Scan(measure, args[i + 1..], rest, end, found')
  {
    assert args[i..][1..] == args[i + 1..];
  }

  /** `measure` is the bounded walk over this registry. */
  ghost predicate Measures(measure: (TypeId, Bytes) -> Measured, reg: Registry) {
    forall t: TypeId, b: Bytes {:trigger MeasureAt(reg, t, b, 0)} :: measure(t, b) == MeasureAt(reg, t, b, 0)
  }

  /** Measure the arguments in turn, keeping only where the call and the settings lie. */
  method FindArguments(metadata: Metadata, info: CallInfo, tx: Bytes, ghost measure: (TypeId, Bytes) -> Measured)
    returns (r: Result<Ranges, Error>)
    requires |tx| >= 2 && Measures(measure, metadata.types)
    ensures r == Scan(measure, info.args, tx[2..], 2, (None, None))
  {
    var remaining := tx[2..];
    var found: Ranges := (None, None);
    ghost var scan := Scan(measure, info.args, tx[2..], 2, (None, None));
    var i := 0;
    assert info.args[0..] == info.args;
    while i < |info.args|
      invariant 0 <= i <= |info.args| && |remaining| <= |tx| - 2
      invariant scan == Scan(measure, info.args[i..], remaining, |tx| - |remaining|, found)
    {
      var field := info.args[i];
      var start := |tx| - |remaining|;
      var measured, _ := Visit(metadata.types, field.ty, remaining, 0);
      ScanRefuses(measure, info.args, i, remaining, start, found, measured);
      if !measured.Size? {
        return Err(BadArgument(field.name, measured));
      }
      if measured.bytes > |remaining| {
        return Err(BadArgument(field.name, Malformed));
      }
      var rest := remaining[measured.bytes..];
      var end := |tx| - |rest|;
      var kept := Keep(found, field, (start, end));
      ScanStep(measure, info.args, i, remaining, start, found, measured.bytes, rest, end, kept);
      remaining, found, i := rest, kept, i + 1;
    }
    assert info.args[i..] == [];
    r := if remaining == [] then Ok(found) else Err(TrailingBytes);
  }

  /** Sign the inner call and replace the signature in the settings. Anything that would be refused is
      refused before the key is used, and an accepted call uses it once. */
  method SignDispatch(tx: Bytes, metadata: Metadata, caller: PublicKey, expiry: BlockNumber, signer: Signer)
    returns (r: Result<Bytes, Error>)
    modifies signer
    ensures r == Signed(metadata, tx, caller, expiry, signer.sign)
    ensures r.Err? ==> signer.asked == old(signer.asked)
    ensures r.Ok? ==>
              var plan := Prepare(metadata, tx, expiry).value;
              signer.asked == old(signer.asked) + [Message(plan.slices[plan.call], caller, expiry)]
  {
    var found := CallOf(metadata, tx);
    if found.Err? {
      return Err(found.error);
    }
    var info := found.value;
    var arguments := FindArguments(metadata, info, tx, MeasureOf(metadata.types));
    ScanExact(MeasureOf(metadata.types), info.args, tx);
    if arguments.Err? {
      return Err(arguments.error);
    }
    var (callFound, settingsFound) := arguments.value;
    if callFound.None? {
      return Err(MissingInnerCall);
    }
    if settingsFound.None? {
      return Err(MissingSettings);
    }
    var (callStart, callEnd) := callFound.value;
    var ((settingsStart, settingsEnd), settingsType) := settingsFound.value;
    ghost var slices := Split(metadata.types, info.args, tx[2..]).value;
    RangeIsSlice(tx, slices, LastNamed(info.args, "call").value);
    RangeIsSlice(tx, slices, LastNamed(info.args, "settings").value);

    var decoded := DispatchSettings(metadata.types, settingsType, tx[settingsStart..settingsEnd]);
    if decoded.Err? {
      return Err(decoded.error);
    }
    var value := decoded.value;
    var index := IndexOf(SettingsNames(value), "signature");
    if index.None? {
      return Err(MissingSignatureField);
    }
    var placeholder := SignedSettings(metadata.types, settingsType, value, index.value, PLACEHOLDER, expiry);
    if placeholder.None? {
      return Err(UnencodableSettings);
    }

    var message := tx[callStart..callEnd] + caller + ToLE(expiry, 4);
    SignatureShape(metadata.types, settingsType, value, index.value, PLACEHOLDER, signer.sign(message), expiry);
    var signature := signer.Sign(message);
    var settings := SignedSettings(metadata.types, settingsType, value, index.value, signature, expiry);
    r := Ok(tx[..settingsStart] + Encode(settings.value) + tx[settingsEnd..]);
  }

  // Whether the settings can be encoded, and how deep they get, does not depend on the signature.

  lemma {:induction false} BytesShape(reg: Registry, t: TypeId, a: Bytes, b: Bytes, wrappers: nat)
    requires |a| == |b|
    ensures var v, w := BytesValue(reg, t, a, wrappers), BytesValue(reg, t, b, wrappers);
            v.Some? == w.Some? && (v.Some? ==> Height(v.value) == Height(w.value))
    decreases wrappers
  {
    ByteItemsHeight(a);
    ByteItemsHeight(b);
    if wrappers > 0 && Wrapped(reg, t).Some? && WrapperNames(reg, t) == None {
      BytesShape(reg, Wrapped(reg, t).value, a, b, wrappers - 1);
      EncloseHeight(None, BytesValue(reg, Wrapped(reg, t).value, a, wrappers - 1));
      EncloseHeight(None, BytesValue(reg, Wrapped(reg, t).value, b, wrappers - 1));
    }
  }

  lemma {:induction false} ByteItemsHeight(bytes: Bytes)
    ensures HeightOfItems(ByteItems(bytes)) == if bytes == [] then 0 else 1
  {
    if bytes != [] {
      assert ByteItems(bytes)[1..] == ByteItems(bytes[1..]);
      ByteItemsHeight(bytes[1..]);
      assert Height(ByteItems(bytes)[0]) == 0;
    }
  }

  lemma EncloseHeight(names: Names, v: Option<Value>)
    ensures v.Some? ==> Height(Enclose(names, v).value) == 1 + Height(v.value)
  {
    if v.Some? {
      SingleItem(v.value);
    }
  }

  lemma PairHeight(a: Value, b: Value)
    ensures HeightOfItems([a, b]) == 1 + Max(Height(a), Height(b))
  {
    assert [a, b][1..] == [b];
    SingleItem(b);
  }

  lemma {:induction false} ExpirableShape(reg: Registry, t: TypeId, a: Signature, b: Signature, expiry: BlockNumber,
                                          wrappers: nat)
    ensures var v, w := ExpirableValue(reg, t, a, expiry, wrappers), ExpirableValue(reg, t, b, expiry, wrappers);
            v.Some? == w.Some? && (v.Some? ==> Height(v.value) == Height(w.value))
    decreases wrappers
  {
    if t < |reg| && reg[t].CompositeType? && |reg[t].fields| == 2 {
      var fields := reg[t].fields;
      BytesShape(reg, fields[0].ty, a, b, |reg|);
      BytesShape(reg, fields[1].ty, a, b, |reg|);
      forall s | s in [a, b] && ExpirableValue(reg, t, s, expiry, wrappers).Some?
        ensures Height(ExpirableValue(reg, t, s, expiry, wrappers).value)
                == 1 + Max(Height(SignatureField(reg, fields[0], s, expiry).value),
                           Height(SignatureField(reg, fields[1], s, expiry).value))
      {
        PairHeight(SignatureField(reg, fields[0], s, expiry).value, SignatureField(reg, fields[1], s, expiry).value);
      }
      assert a in [a, b] && b in [a, b];
    } else if wrappers > 0 && Wrapped(reg, t).Some? && WrapperNames(reg, t) == None {
      ExpirableShape(reg, Wrapped(reg, t).value, a, b, expiry, wrappers - 1);
      EncloseHeight(None, ExpirableValue(reg, Wrapped(reg, t).value, a, expiry, wrappers - 1));
      EncloseHeight(None, ExpirableValue(reg, Wrapped(reg, t).value, b, expiry, wrappers - 1));
    }
  }

  lemma SignatureValueShape(reg: Registry, t: TypeId, a: Signature, b: Signature, expiry: BlockNumber)
    ensures var v, w := SignatureValue(reg, t, a, expiry), SignatureValue(reg, t, b, expiry);
            v.Some? == w.Some? && (v.Some? ==> Height(v.value) == Height(w.value))
  {
    if t < |reg| && reg[t].VariantType? {
      match VariantNamed(reg[t].variants, "Some") {
        case Some(def) =>
          if |def.fields| == 1 {
            ExpirableShape(reg, def.fields[0].ty, a, b, expiry, |reg|);
            var v, w := SignatureValue(reg, t, a, expiry), SignatureValue(reg, t, b, expiry);
            if v.Some? {
              SingleItem(v.value.items[0]);
              SingleItem(w.value.items[0]);
            }
          }
        case None =>
      }
    }
  }

  lemma SignatureShape(reg: Registry, t: TypeId, v: Value, i: nat, a: Signature, b: Signature, expiry: BlockNumber)
    requires IsSettings(v) && i < |v.items[0].items|
    ensures SignedSettings(reg, t, v, i, a, expiry).Some? == SignedSettings(reg, t, v, i, b, expiry).Some?
  {
    match SettingsFieldType(reg, t, v, i) {
      case Some(ty) => SignatureValueShape(reg, ty, a, b, expiry);
      case None =>
    }
  }
}
