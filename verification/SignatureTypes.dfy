/** Which types can hold a dispatch's signature, told from the registry alone. */
module SignatureTypes {
  import opened Wrappers
  import opened Codec
  import opened Scale
  import opened FuelTank

  // Types inside wrappers.

  /** `t` is a tuple or struct of just one `u`; with `named` the struct may name it. */
  predicate Wraps(reg: Registry, t: TypeId, u: TypeId, named: bool) {
    t < |reg| &&
    (reg[t] == TupleType([u]) ||
     (reg[t].CompositeType? && |reg[t].fields| == 1 && reg[t].fields[0].ty == u &&
      (named || reg[t].fields[0].name == "")))
  }

  /** Each type of the path is just a wrapper around the next. */
  ghost predicate IsWrapping(reg: Registry, path: seq<TypeId>, named: bool) {
    path != [] && forall i :: 0 <= i < |path| - 1 ==> Wraps(reg, path[i], path[i + 1], named)
  }

  /** `u` is what `t` is once any number of wrappers are taken off. */
  ghost predicate IsInside(reg: Registry, t: TypeId, u: TypeId, named: bool) {
    exists path :: IsWrapping(reg, path, named) && path[0] == t && path[|path| - 1] == u
  }

  lemma WrapsExact(reg: Registry, t: TypeId, u: TypeId, named: bool)
    ensures Wraps(reg, t, u, named) <==> Wrapped(reg, t) == Some(u) && (named || WrapperNames(reg, t) == None)
  {
    if t < |reg| && reg[t].TupleType? && |reg[t].items| == 1 {
      assert reg[t].items == [reg[t].items[0]];
    }
    if t < |reg| && reg[t].CompositeType? && |reg[t].fields| == 1 {
      assert FieldNames(reg[t].fields) == None <==> reg[t].fields[0].name == "";
    }
  }

  // A search through at most so many wrappers finds whatever lies inside.

  /** Whether a type with property `goal` is found inside `t` within so many wrappers. */
  predicate Finds(reg: Registry, t: TypeId, goal: TypeId -> bool, named: bool, wrappers: nat)
    decreases wrappers
  {
    goal(t) ||
    (wrappers > 0 && Wrapped(reg, t).Some? && (named || WrapperNames(reg, t) == None) &&
     Finds(reg, Wrapped(reg, t).value, goal, named, wrappers - 1))
  }

  /** A property of types that are there and wrap nothing. */
  ghost predicate IsGoal(reg: Registry, goal: TypeId -> bool) {
    forall t: TypeId :: goal(t) ==> t < |reg| && Wrapped(reg, t).None?
  }

  ghost predicate FoundBy(reg: Registry, t: TypeId, goal: TypeId -> bool, named: bool, path: seq<TypeId>) {
    IsWrapping(reg, path, named) && path[0] == t && goal(path[|path| - 1])
  }

  lemma {:induction false} FindsPath(reg: Registry, t: TypeId, goal: TypeId -> bool, named: bool, wrappers: nat)
    returns (path: seq<TypeId>)
    requires Finds(reg, t, goal, named, wrappers)
    ensures FoundBy(reg, t, goal, named, path)
    decreases wrappers
  {
    if goal(t) {
      path := [t];
    } else {
      var u := Wrapped(reg, t).value;
      WrapsExact(reg, t, u, named);
      var rest := FindsPath(reg, u, goal, named, wrappers - 1);
      path := [t] + rest;
      assert forall i :: 0 < i < |path| ==> path[i] == rest[i - 1];
    }
  }

  lemma {:induction false} PathFinds(reg: Registry, t: TypeId, goal: TypeId -> bool, named: bool, wrappers: nat,
                                     path: seq<TypeId>)
    requires FoundBy(reg, t, goal, named, path) && |path| <= wrappers + 1
    ensures Finds(reg, t, goal, named, wrappers)
    decreases wrappers
  {
    if |path| > 1 {
      var rest := path[1..];
      assert Wraps(reg, path[0], path[1], named);
      WrapsExact(reg, t, path[1], named);
      assert forall i :: 0 <= i < |rest| - 1 ==> Wraps(reg, rest[i], rest[i + 1], named) by {
        assert forall i :: 0 <= i < |rest| ==> rest[i] == path[i + 1];
      }
      PathFinds(reg, path[1], goal, named, wrappers - 1, rest);
    }
  }

  /** Two places with the same type are followed alike. */
  lemma {:induction false} SameFrom(reg: Registry, path: seq<TypeId>, named: bool, i: nat, j: nat, m: nat)
    requires IsWrapping(reg, path, named) && i < j && j + m < |path| && path[i] == path[j]
    ensures path[i + m] == path[j + m]
    decreases m
  {
    if m > 0 {
      SameFrom(reg, path, named, i, j, m - 1);
      var a, b := i + m - 1, j + m - 1;
      assert Wraps(reg, path[a], path[a + 1], named) && Wraps(reg, path[b], path[b + 1], named);
      WrapsExact(reg, path[a], path[a + 1], named);
      WrapsExact(reg, path[b], path[b + 1], named);
    }
  }

  /** No type comes twice on the way to one that wraps nothing. */
  lemma NoTypeTwice(reg: Registry, t: TypeId, goal: TypeId -> bool, named: bool, path: seq<TypeId>, i: nat, j: nat)
    requires IsGoal(reg, goal) && FoundBy(reg, t, goal, named, path) && i < j < |path|
    ensures path[i] != path[j]
  {
    if path[i] == path[j] {
      var last := |path| - 1;
      SameFrom(reg, path, named, i, j, last - j);
      var k := i + (last - j);
      assert Wraps(reg, path[k], path[k + 1], named);
      WrapsExact(reg, path[k], path[k + 1], named);
    }
  }

  lemma {:induction false} DistinctBelow(s: seq<nat>, n: nat)
    requires forall i :: 0 <= i < |s| ==> s[i] < n
    requires forall i, j :: 0 <= i < j < |s| ==> s[i] != s[j]
    ensures |s| <= n
  {
    if s != [] {
      assert s[0] < n;
      if n - 1 in s {
        var k :| 0 <= k < |s| && s[k] == n - 1;
        DistinctBelow(s[..k] + s[k + 1..], n - 1);
      } else {
        DistinctBelow(s, n - 1);
      }
    }
  }

  /** A search through as many wrappers as there are types misses nothing. */
  lemma FindsExact(reg: Registry, t: TypeId, goal: TypeId -> bool, named: bool)
    requires IsGoal(reg, goal)
    ensures Finds(reg, t, goal, named, |reg|) <==> exists u :: IsInside(reg, t, u, named) && goal(u)
  {
    if Finds(reg, t, goal, named, |reg|) {
      var path := FindsPath(reg, t, goal, named, |reg|);
      assert IsInside(reg, t, path[|path| - 1], named);
    }
    if u :| IsInside(reg, t, u, named) && goal(u) {
      var path :| IsWrapping(reg, path, named) && path[0] == t && path[|path| - 1] == u;
      forall i, j | 0 <= i < j < |path| ensures path[i] != path[j] {
        NoTypeTwice(reg, t, goal, named, path, i, j);
      }
      forall i | 0 <= i < |path| ensures path[i] < |reg| {
        if i < |path| - 1 {
          assert Wraps(reg, path[i], path[i + 1], named);
        }
      }
      DistinctBelow(path, |reg|);
      PathFinds(reg, t, goal, named, |reg|, path);
    }
  }

  // What holds a signature.

  /** An array of 64 bytes or a sequence of bytes. */
  predicate IsBytes(reg: Registry, t: TypeId) {
    t < |reg| &&
    ((reg[t].ArrayType? && reg[t].length == 64 && reg[t].item < |reg| && reg[reg[t].item] == UintType(1)) ||
     (reg[t].SequenceType? && reg[t].item < |reg| && reg[reg[t].item] == UintType(1)))
  }

  /** An integer or compact that `n` fits. */
  predicate IsNumber(reg: Registry, t: TypeId, n: nat) {
    t < |reg| &&
    ((reg[t].UintType? && n < Pow256(reg[t].width)) || (reg[t].CompactType? && n < Pow256(reg[t].width)))
  }

  ghost predicate HoldsBytes(reg: Registry, t: TypeId) {
    exists u :: IsInside(reg, t, u, false) && IsBytes(reg, u)
  }

  ghost predicate HoldsNumber(reg: Registry, t: TypeId, n: nat) {
    exists u :: IsInside(reg, t, u, true) && IsNumber(reg, u, n)
  }

  /** A struct of a signature and the block it expires at, in either order. */
  ghost predicate IsPair(reg: Registry, t: TypeId, expiry: nat) {
    t < |reg| && reg[t].CompositeType? && |reg[t].fields| == 2 &&
    var a, b := reg[t].fields[0], reg[t].fields[1];
    ((a.name == "signature" && HoldsBytes(reg, a.ty) && b.name == "expiry_block" && HoldsNumber(reg, b.ty, expiry)) ||
     (b.name == "signature" && HoldsBytes(reg, b.ty) && a.name == "expiry_block" && HoldsNumber(reg, a.ty, expiry)))
  }

  /** An enum with a variant `Some` of such a struct. */
  ghost predicate HoldsSignature(reg: Registry, t: TypeId, expiry: nat) {
    t < |reg| && reg[t].VariantType? &&
    exists def, u ::
      def in reg[t].variants && def.name == "Some" && |def.fields| == 1 &&
      IsInside(reg, def.fields[0].ty, u, false) && IsPair(reg, u, expiry)
  }

  function BytesGoal(reg: Registry): TypeId -> bool {
    (t: TypeId) => IsBytes(reg, t)
  }

  function NumberGoal(reg: Registry, n: nat): TypeId -> bool {
    (t: TypeId) => IsNumber(reg, t, n)
  }

  ghost function PairGoal(reg: Registry, expiry: nat): TypeId -> bool {
    (t: TypeId) => IsPair(reg, t, expiry)
  }

  lemma {:induction false} BytesValueFinds(reg: Registry, t: TypeId, signature: Signature, wrappers: nat)
    ensures BytesValue(reg, t, signature, wrappers).Some? <==> Finds(reg, t, BytesGoal(reg), false, wrappers)
    decreases wrappers
  {
    if t < |reg| && !reg[t].ArrayType? && !reg[t].SequenceType? && wrappers > 0 && Wrapped(reg, t).Some? {
      BytesValueFinds(reg, Wrapped(reg, t).value, signature, wrappers - 1);
    }
  }

  lemma {:induction false} NumberValueFinds(reg: Registry, t: TypeId, n: BlockNumber, wrappers: nat)
    ensures NumberValue(reg, t, n, wrappers).Some? <==> Finds(reg, t, NumberGoal(reg, n), true, wrappers)
    decreases wrappers
  {
    if t < |reg| && !reg[t].UintType? && !reg[t].CompactType? && wrappers > 0 && Wrapped(reg, t).Some? {
      NumberValueFinds(reg, Wrapped(reg, t).value, n, wrappers - 1);
    }
  }

  lemma BytesValueExact(reg: Registry, t: TypeId, signature: Signature)
    ensures BytesValue(reg, t, signature, |reg|).Some? <==> HoldsBytes(reg, t)
  {
    BytesValueFinds(reg, t, signature, |reg|);
    FindsExact(reg, t, BytesGoal(reg), false);
  }

  lemma NumberValueExact(reg: Registry, t: TypeId, n: BlockNumber)
    ensures NumberValue(reg, t, n, |reg|).Some? <==> HoldsNumber(reg, t, n)
  {
    NumberValueFinds(reg, t, n, |reg|);
    FindsExact(reg, t, NumberGoal(reg, n), true);
  }

  lemma PairFieldsExact(reg: Registry, t: TypeId, signature: Signature, expiry: BlockNumber)
    requires t < |reg| && reg[t].CompositeType? && |reg[t].fields| == 2
    ensures var fields := reg[t].fields;
            IsPair(reg, t, expiry) <==>
            SignatureField(reg, fields[0], signature, expiry).Some? &&
            SignatureField(reg, fields[1], signature, expiry).Some? && fields[0].name != fields[1].name
  {
    var a, b := reg[t].fields[0].ty, reg[t].fields[1].ty;
    assert |"signature"| != |"expiry_block"|;
    BytesValueExact(reg, a, signature);
    BytesValueExact(reg, b, signature);
    NumberValueExact(reg, a, expiry);
    NumberValueExact(reg, b, expiry);
  }

  lemma {:induction false} ExpirableValueFinds(reg: Registry, t: TypeId, signature: Signature, expiry: BlockNumber,
                                               wrappers: nat)
    ensures ExpirableValue(reg, t, signature, expiry, wrappers).Some? <==>
            Finds(reg, t, PairGoal(reg, expiry), false, wrappers)
    decreases wrappers
  {
    if t < |reg| && reg[t].CompositeType? && |reg[t].fields| == 2 {
      PairFieldsExact(reg, t, signature, expiry);
    } else if wrappers > 0 && Wrapped(reg, t).Some? {
      ExpirableValueFinds(reg, Wrapped(reg, t).value, signature, expiry, wrappers - 1);
    }
  }

  lemma {:induction false} VariantNamedOnce(variants: seq<VariantDef>, def: VariantDef)
    requires def in variants && DistinctVariants(variants)
    ensures VariantNamed(variants, def.name) == Some(def)
  {
    if variants[0] != def {
      assert def in variants[1..];
      VariantNamedOnce(variants[1..], def);
      var k :| 1 <= k < |variants| && variants[k] == def;
    }
  }

  /** A type can be given the signature exactly when it is an enum whose `Some` holds, inside any unnamed wrappers, a
      struct of just a signature and an expiry block, of byte and number types inside wrappers of their own. */
  lemma SignatureValueExact(reg: Registry, t: TypeId, signature: Signature, expiry: BlockNumber)
    requires WellFormed(reg)
    ensures SignatureValue(reg, t, signature, expiry).Some? <==> HoldsSignature(reg, t, expiry)
  {
    if t < |reg| && reg[t].VariantType? {
      forall def | def in reg[t].variants && def.name == "Some"
        ensures VariantNamed(reg[t].variants, "Some") == Some(def)
      {
        VariantNamedOnce(reg[t].variants, def);
      }
      var some := VariantNamed(reg[t].variants, "Some");
      if some.Some? && |some.value.fields| == 1 {
        ExpirableValueFinds(reg, some.value.fields[0].ty, signature, expiry, |reg|);
        FindsExact(reg, some.value.fields[0].ty, PairGoal(reg, expiry), false);
      }
    }
  }
}
