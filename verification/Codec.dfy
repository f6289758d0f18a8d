/** Little-endian and compact integers: the number forms of section A.2.2 (SCALE Codec) of the
    Polkadot Protocol Specification. */
module Codec {
  import opened Wrappers
  import opened Division

  type Byte = b: int | 0 <= b < 256
  type Bytes = seq<Byte>

  /** 256 to the power of `k`: how many numbers fit in `k` bytes. */
  function Pow256(k: nat): (p: nat)
    ensures p >= 1
  {
    if k == 0 then 1 else 256 * Pow256(k - 1)
  }

  lemma Pow256Values()
    ensures Pow256(1) == 0x100
    ensures Pow256(2) == 0x1_0000
    ensures Pow256(3) == 0x100_0000
    ensures Pow256(4) == 0x1_0000_0000
  {
    assert Pow256(1) == 256 * Pow256(0);
    assert Pow256(2) == 256 * Pow256(1);
    assert Pow256(3) == 256 * Pow256(2);
    assert Pow256(4) == 256 * Pow256(3);
  }

  lemma {:induction false} Pow256Monotone(j: nat, k: nat)
    requires j <= k
    ensures Pow256(j) <= Pow256(k)
    decreases k - j
  {
    if j < k {
      Pow256Monotone(j, k - 1);
    }
  }

  /** The `k` lowest bytes of `n`, lowest first. */
  function ToLE(n: nat, k: nat): (b: Bytes)
    ensures |b| == k
  {
    if k == 0 then [] else [n % 256] + ToLE(n / 256, k - 1)
  }

  function FromLE(b: Bytes): (n: nat)
    ensures n < Pow256(|b|)
  {
    if b == [] then 0 else b[0] + 256 * FromLE(b[1..])
  }

  lemma {:induction false} FromToLE(n: nat, k: nat)
    requires n < Pow256(k)
    ensures FromLE(ToLE(n, k)) == n
  {
    if k > 0 {
      FromToLE(n / 256, k - 1);
      assert ToLE(n, k)[1..] == ToLE(n / 256, k - 1);
    }
  }

  lemma {:induction false} ToFromLE(b: Bytes)
    ensures ToLE(FromLE(b), |b|) == b
  {
    if b != [] {
      ToFromLE(b[1..]);
      var rest := FromLE(b[1..]);
      assert (b[0] + 256 * rest) % 256 == b[0];
      assert (b[0] + 256 * rest) / 256 == rest;
      assert b == [b[0]] + b[1..];
    }
  }

  /** How many bytes `n` needs. */
  function ByteLength(n: nat): nat {
    if n == 0 then 0 else 1 + ByteLength(n / 256)
  }

  lemma {:induction false} ByteLengthExact(n: nat, k: nat)
    ensures n < Pow256(k) <==> ByteLength(n) <= k
  {
    if n > 0 && k > 0 {
      ByteLengthExact(n / 256, k - 1);
      assert n < Pow256(k) <==> n / 256 < Pow256(k - 1);
    }
  }

  /** The longest big-integer mode carries 67 bytes. */
  const MAX_COMPACT_BYTES := 67

  predicate IsCompact(n: nat) {
    ByteLength(n) <= MAX_COMPACT_BYTES
  }

  /** The bytes the big-integer mode carries for `n`: as few as hold it, but no fewer than four. */
  function BigLength(n: nat): (k: nat)
    ensures n < Pow256(k)
  {
    ByteLengthExact(n, ByteLength(n));
    ByteLengthExact(n, 4);
    if ByteLength(n) < 4 then 4 else ByteLength(n)
  }

  /** Compact integers: the two lowest bits of the first byte say how many bytes follow. A number
      too large for any mode has no encoding. */
  function EncodeCompact(n: nat): (b: Bytes)
    ensures IsCompact(n) ==> b != []
  {
    Pow256Values();
    if !IsCompact(n) then []
    else if n < 0x40 then [4 * n]
    else if n < 0x4000 then ToLE(4 * n + 1, 2)
    else if n < 0x4000_0000 then ToLE(4 * n + 2, 4)
    else
      var k := BigLength(n);
      [4 * (k - 4) + 3] + ToLE(n, k)
  }

  /** The number at the start of `b` and the bytes it takes, refusing forms that are longer than
      the number needs. */
  function DecodeCompact(b: Bytes): (r: Option<(nat, nat)>) {
    if b == [] then None
    else if b[0] % 4 == 0 then Some((b[0] / 4, 1))
    else if b[0] % 4 == 1 then
      if |b| < 2 then None
      else
        var n := FromLE(b[..2]) / 4;
        if n < 0x40 then None else Some((n, 2))
    else if b[0] % 4 == 2 then
      if |b| < 4 then None
      else
        var n := FromLE(b[..4]) / 4;
        if n < 0x4000 then None else Some((n, 4))
    else
      var k := b[0] / 4 + 4;
      if |b| < 1 + k then None
      else
        var n := FromLE(b[1..1 + k]);
        if n < (if k == 4 then 0x4000_0000 else Pow256(k - 1)) then None else Some((n, 1 + k))
  }

  lemma TagArithmetic(n: nat, mode: nat, x: nat)
    requires mode < 4 && x == 4 * n + mode
    ensures x % 256 % 4 == mode && x / 4 == n
  {
  }

  lemma LowestByte(n: nat, k: nat)
    requires k > 0
    ensures ToLE(n, k)[0] == n % 256
  {
  }

  /** A number written in the top bits of a little-endian word whose lowest two bits are `mode`. */
  lemma TaggedWord(n: nat, mode: nat, k: nat)
    requires k > 0 && mode < 4 && 4 * n + mode < Pow256(k)
    ensures ToLE(4 * n + mode, k)[0] % 4 == mode
    ensures FromLE(ToLE(4 * n + mode, k)) / 4 == n
  {
    var x := 4 * n + mode;
    FromToLE(x, k);
    LowestByte(x, k);
    TagArithmetic(n, mode, x);
  }

  lemma TagOfSum(low: nat, rest: nat, x: nat)
    requires x == low + 256 * rest
    ensures x == 4 * (x / 4) + low % 4
  {
    var q, r := 64 * rest + low / 4, low % 4;
    assert x == 4 * q + r;
  }

  lemma WordOfTag(b: Bytes)
    requires b != []
    ensures FromLE(b) == 4 * (FromLE(b) / 4) + b[0] % 4
    ensures ToLE(FromLE(b), |b|) == b
  {
    ToFromLE(b);
    TagOfSum(b[0], FromLE(b[1..]), FromLE(b));
  }

  lemma BigLengthIs(n: nat, k: nat)
    requires k >= 4 && n < Pow256(k) && n >= (if k == 4 then 0x4000_0000 else Pow256(k - 1))
    ensures BigLength(n) == k && n >= 0x4000_0000 && ByteLength(n) <= k
  {
    ByteLengthExact(n, k);
    Pow256Values();
    if k > 4 {
      ByteLengthExact(n, k - 1);
      Pow256Monotone(4, k - 1);
    }
  }

  lemma BigEncoding(n: nat, k: nat, first: Byte, word: Bytes)
    requires n >= 0x4000_0000 && IsCompact(n) && BigLength(n) == k
    requires first == 4 * (k - 4) + 3 && word == ToLE(n, k)
    ensures EncodeCompact(n) == [first] + word
  {
  }

  lemma BigForm(first: Byte, k: nat)
    requires first % 4 == 3 && k == first / 4 + 4
    ensures first == 4 * (k - 4) + 3 && 4 <= k <= 67
  {
  }

  lemma BigCompactSound(b: Bytes, k: nat)
    requires b != [] && b[0] % 4 == 3 && k == b[0] / 4 + 4 && 1 + k <= |b|
    requires FromLE(b[1..1 + k]) >= (if k == 4 then 0x4000_0000 else Pow256(k - 1))
    ensures IsCompact(FromLE(b[1..1 + k])) && EncodeCompact(FromLE(b[1..1 + k])) == b[..1 + k]
  {
    var word := b[1..1 + k];
    var n := FromLE(word);
    assert word == ToLE(n, k) by {
      ToFromLE(word);
    }
    BigForm(b[0], k);
    BigLengthIs(n, k);
    assert b[..1 + k] == [b[0]] + word;
    BigEncoding(n, k, b[0], word);
  }

  /** Whatever decodes is the canonical encoding of the number it decodes to. */
  lemma CompactSound(b: Bytes)
    requires DecodeCompact(b).Some?
    ensures var (n, k) := DecodeCompact(b).value; IsCompact(n) && k <= |b| && EncodeCompact(n) == b[..k]
  {
    var (n, k) := DecodeCompact(b).value;
    if b[0] % 4 == 3 {
      BigCompactSound(b, k - 1);
    } else {
      Pow256Values();
      ByteLengthExact(n, 4);
      if b[0] % 4 == 0 {
        assert b[..1] == [b[0]];
      } else {
        WordOfTag(b[..k]);
      }
    }
  }

  lemma BigCompactComplete(n: nat, b: Bytes)
    requires IsCompact(n) && n >= 0x4000_0000 && EncodeCompact(n) <= b
    ensures DecodeCompact(b) == Some((n, |EncodeCompact(n)|))
  {
    Pow256Values();
    var k := BigLength(n);
    FromToLE(n, k);
    if k > 4 {
      ByteLengthExact(n, k - 1);
    }
    var e := EncodeCompact(n);
    assert b[1..1 + k] == e[1..] == ToLE(n, k);
    assert b[0] == e[0];
  }

  /** Every encoding decodes to its own number, whatever bytes follow it. */
  lemma CompactComplete(n: nat, b: Bytes)
    requires IsCompact(n) && EncodeCompact(n) <= b
    ensures DecodeCompact(b) == Some((n, |EncodeCompact(n)|))
  {
    if n >= 0x4000_0000 {
      BigCompactComplete(n, b);
    } else {
      var e := EncodeCompact(n);
      Pow256Values();
      assert b[0] == e[0];
      if 0x40 <= n {
        if n < 0x4000 {
          TaggedWord(n, 1, 2);
        } else {
          TaggedWord(n, 2, 4);
        }
        assert b[..|e|] == e;
      }
    }
  }

  // The forms, byte by byte.

  /** Byte `i` of a little-endian number. */
  lemma {:induction false} ByteAt(n: nat, k: nat, i: nat)
    requires i < k
    ensures ToLE(n, k)[i] == n / Pow256(i) % 256
  {
    if i > 0 {
      ByteAt(n / 256, k - 1, i - 1);
      DivideTwice(n, 256, Pow256(i - 1));
    }
  }

  /** A compact integer takes one, two or four bytes, of which the two lowest bits say which, or a first byte that
      counts those of the number itself, which are no more than it needs but at least four. */
  lemma CompactForms(n: nat)
    requires IsCompact(n)
    ensures var b := EncodeCompact(n);
            if n < 64 then b == [4 * n]
            else if n < 16_384 then |b| == 2 && FromLE(b) == 4 * n + 1
            else if n < 1_073_741_824 then |b| == 4 && FromLE(b) == 4 * n + 2
            else b[0] == 4 * (|b| - 5) + 3 && FromLE(b[1..]) == n && |b| >= 5 &&
                 (|b| > 5 ==> n >= Pow256(|b| - 2))
  {
    Pow256Values();
    if n >= 64 {
      if n < 16_384 {
        FromToLE(4 * n + 1, 2);
      } else if n < 1_073_741_824 {
        FromToLE(4 * n + 2, 4);
      } else {
        var k := BigLength(n);
        FromToLE(n, k);
        assert EncodeCompact(n)[1..] == ToLE(n, k);
        ByteLengthExact(n, k - 1);
      }
    }
  }
}
