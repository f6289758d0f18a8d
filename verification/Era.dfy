/** Mortal eras: the period and phase a signer commits to, and the birth block the runtime derives from them
    later. */
module Era {
  import opened Wrappers
  import opened Retry
  import opened Division

  const MIN_PERIOD := 4
  const MAX_PERIOD := 65_536
  const TX_MORTALITY := 64
  const DUMMY_TX_MORTALITY := 14_400
  const U64_HIGH_BIT := 0x8000_0000_0000_0000

  /** The first of `p`, `2p`, `4p`, ... that is not below `raw`. */
  function FirstDoubling(p: nat, raw: nat): nat
    requires p > 0
    decreases raw - p
  {
    if p >= raw then p else FirstDoubling(2 * p, raw)
  }

  /** No power of two above the highest bit fits 64 bits. */
  function CheckedNextPowerOfTwo(raw: nat): Option<nat> {
    if raw > U64_HIGH_BIT then None else Some(FirstDoubling(1, raw))
  }

  function Clamp(n: nat, low: nat, high: nat): nat {
    if n < low then low else if n > high then high else n
  }

  function EraPeriodFromRaw(raw: nat): nat {
    Clamp(match CheckedNextPowerOfTwo(raw) case Some(p) => p case None => MAX_PERIOD, MIN_PERIOD, MAX_PERIOD)
  }

  function QuantizeFactor(period: nat): (q: nat)
    ensures q > 0
  {
    if period / 4096 < 1 then 1 else period / 4096
  }

  function EraPhase(period: nat, current: nat): nat
    requires period > 0
  {
    current % period / QuantizeFactor(period) * QuantizeFactor(period)
  }

  function EraBirth(period: nat, phase: nat, current: nat): nat
    requires period > 0
  {
    ((if current < phase then phase else current) - phase) / period * period + phase
  }

  // The period.

  lemma {:induction false} DoublingExact(p: nat, k: nat, raw: nat) returns (j: nat)
    requires p == Pow2(k)
    ensures j >= k && FirstDoubling(p, raw) == Pow2(j) && raw <= Pow2(j)
    ensures j > k ==> Pow2(j) < 2 * raw
    decreases raw - p
  {
    if p >= raw {
      j := k;
    } else {
      j := DoublingExact(2 * p, k + 1, raw);
    }
  }

  /** The period is a power of two between 4 and 65536, and the least one not below what is asked for where
      there is one. */
  lemma PeriodExact(raw: nat) returns (k: nat)
    ensures 2 <= k <= 16 && EraPeriodFromRaw(raw) == Pow2(k)
    ensures 4 <= EraPeriodFromRaw(raw) <= 65_536
    ensures raw <= 65_536 ==>
              raw <= EraPeriodFromRaw(raw) && (EraPeriodFromRaw(raw) > 4 ==> EraPeriodFromRaw(raw) < 2 * raw)
    ensures raw > 65_536 ==> EraPeriodFromRaw(raw) == 65_536
  {
    assert Pow2(2) == 4;
    SixteenDoublings();
    k := DoublingExact(1, 0, raw);
    if raw > U64_HIGH_BIT {
      k := 16;
    } else if k < 2 {
      Pow2Monotone(k, 2);
      k := 2;
    } else if k > 16 {
      Pow2Monotone(17, k);
      k := 16;
    } else {
      Pow2Monotone(2, k);
      Pow2Monotone(k, 16);
    }
  }

  lemma SixteenDoublings()
    ensures Pow2(12) == 4096 && Pow2(16) == 65_536 && Pow2(17) == 131_072
  {
    assert Pow2(4) == 16;
    assert Pow2(8) == 256;
    assert Pow2(12) == 4096;
    assert Pow2(16) == 65_536;
  }

  lemma {:induction false} Pow2Sum(a: nat, b: nat)
    ensures Pow2(a + b) == Pow2(a) * Pow2(b)
  {
    if b > 0 {
      Pow2Sum(a, b - 1);
      assert Pow2(a + b) == 2 * Pow2(a + b - 1);
      assert 2 * (Pow2(a) * Pow2(b - 1)) == Pow2(a) * (2 * Pow2(b - 1));
    }
  }

  /** The phase's grain divides the period. */
  lemma GrainDivides(raw: nat) returns (m: nat)
    ensures m > 0 && EraPeriodFromRaw(raw) == QuantizeFactor(EraPeriodFromRaw(raw)) * m
    ensures m == if EraPeriodFromRaw(raw) <= 4096 then EraPeriodFromRaw(raw) else 4096
  {
    var k := PeriodExact(raw);
    SixteenDoublings();
    if k <= 12 {
      Pow2Monotone(k, 12);
      m := EraPeriodFromRaw(raw);
    } else {
      Pow2Sum(k - 12, 12);
      m := 4096;
    }
  }

  // The birth block.

  /** The remainder by the grain is the same before and after reducing by the period. */
  lemma GrainOfRemainder(n: nat, q: nat, m: nat)
    requires q > 0 && m > 0
    ensures q * m > 0 && n % (q * m) % q == n % q
  {
    var p := q * m;
    assert p >= 1;
    var a, b := n / p, n % p;
    assert n == a * p + b;
    assert a * p == (a * m) * q;
    DivideSum(q, a * m, b);
  }

  lemma PhaseExact(p: nat, q: nat, m: nat, n: nat)
    requires p == q * m && q == QuantizeFactor(p) && m > 0
    ensures p > 0 && EraPhase(p, n) == n % p - n % q >= 0
  {
    GrainOfRemainder(n, q, m);
    var b := n % p;
    assert b == q * (b / q) + b % q;
  }

  lemma BirthFrom(p: nat, a: nat, phase: nat, late: nat, current: nat)
    requires p > 0 && current == a * p + phase + late
    ensures EraBirth(p, phase, current) == a * p + phase + late / p * p
  {
    assert a * p >= 0;
    DivideSum(p, a, late);
    Distribute(a, late / p, p);
  }

  lemma BirthFor(p: nat, phase: nat, grain: nat, n: nat, lag: nat)
    requires p > 0 && phase == n % p - grain
    ensures EraBirth(p, phase, n + lag) == n - grain + (grain + lag) / p * p
  {
    var a := n / p;
    assert n == a * p + n % p;
    BirthFrom(p, a, phase, grain + lag, n + lag);
  }

  /** What the runtime derives `lag` blocks after block `n` was committed to, for every block and lag: the
      block `n` rounded down to the grain, and one whole period later for each that has passed since. */
  lemma BirthExact(raw: nat, n: nat, lag: nat)
    ensures var p := EraPeriodFromRaw(raw);
            var q := QuantizeFactor(p);
            p > 0 && (if p <= 4096 then q == 1 else 4096 * q == p) &&
            EraBirth(p, EraPhase(p, n), n + lag) == n - n % q + (n % q + lag) / p * p
  {
    var m := GrainDivides(raw);
    var p := EraPeriodFromRaw(raw);
    var q := QuantizeFactor(p);
    PhaseExact(p, q, m, n);
    BirthFor(p, EraPhase(p, n), n % q, n, lag);
  }

  /** The runtime derives the rounded block exactly while less than a period has passed since it, and a
      strictly later block after that. */
  lemma BirthWithinPeriod(raw: nat, n: nat, lag: nat)
    ensures var p := EraPeriodFromRaw(raw);
            var q := QuantizeFactor(p);
            p > 0 &&
            var birth := EraBirth(p, EraPhase(p, n), n + lag);
            (birth == n - n % q <==> n % q + lag < p) && (n % q + lag >= p ==> birth > n - n % q)
  {
    BirthExact(raw, n, lag);
    var p := EraPeriodFromRaw(raw);
    var late := n % QuantizeFactor(p) + lag;
    if late >= p {
      TimesMonotone(1, late / p, p);
    } else {
      DivideExact(p, 0, late, late);
    }
  }

  /** With the mortality transactions are signed with, the runtime derives the signing block itself exactly
      while fewer than 64 blocks have passed. */
  lemma TransactionAnchor(n: nat, lag: nat)
    ensures EraPeriodFromRaw(TX_MORTALITY) == 64
    ensures EraBirth(64, EraPhase(64, n), n + lag) == n <==> lag < 64
  {
    var k := PeriodExact(TX_MORTALITY);
    PowersAround(k, 6);
    BirthWithinPeriod(TX_MORTALITY, n, lag);
  }

  /** With the mortality of the dummy transactions, it does so only for every fourth block, and then while
      fewer than 16384 have passed. */
  lemma DummyAnchor(n: nat, lag: nat)
    ensures EraPeriodFromRaw(DUMMY_TX_MORTALITY) == 16_384
    ensures EraBirth(16_384, EraPhase(16_384, n), n + lag) == n <==> n % 4 == 0 && lag < 16_384
  {
    var k := PeriodExact(DUMMY_TX_MORTALITY);
    SixteenDoublings();
    PowersAround(k, 14);
    BirthExact(DUMMY_TX_MORTALITY, n, lag);
    BirthWithinPeriod(DUMMY_TX_MORTALITY, n, lag);
  }

  lemma PowersAround(k: nat, j: nat)
    requires 0 < j
    ensures k < j ==> Pow2(k) <= Pow2(j - 1)
    ensures k > j ==> Pow2(k) >= 2 * Pow2(j)
  {
    if k < j {
      Pow2Monotone(k, j - 1);
    } else if k > j {
      Pow2Monotone(j + 1, k);
    }
  }
}
