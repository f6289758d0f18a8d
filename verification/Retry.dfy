/** Pacing: when a scan may go on without waiting, and how long a failure waits. */
module Retry {
  import opened Wrappers

  type Cursor = string

  const INITIAL_BACKOFF_SECS := 1
  const MAX_BACKOFF_SECS := 60
  const MAX_CONSECUTIVE_EMPTY_PAGES := 20
  const U32_MAX := 0xFFFF_FFFF
  const U64_MAX := 0xFFFF_FFFF_FFFF_FFFF

  type U32 = n: nat | n <= U32_MAX

  /** A random draw of the jitter. */
  type Percent = n: nat | 80 <= n <= 120 witness 100

  /** Whether to go on past a page that submitted nothing: the cursor must move to a real one, and only so
      many such pages may come in a row. */
  predicate ShouldContinueEmptyDrain(cursor: Option<Cursor>, next: Option<Cursor>, emptyPages: nat) {
    match next
    case Some(n) => next != cursor && emptyPages < MAX_CONSECUTIVE_EMPTY_PAGES && n != ""
    case None => false
  }

  function Pow2(k: nat): (p: nat)
    ensures p >= 1
  {
    if k == 0 then 1 else 2 * Pow2(k - 1)
  }

  function Min(a: nat, b: nat): nat {
    if a < b then a else b
  }

  function SaturatingMul(a: nat, b: nat): nat {
    Min(a * b, U64_MAX)
  }

  function SaturatingIncrement(n: U32): U32 {
    if n == U32_MAX then n else n + 1
  }

  /** Seconds to wait after this many failures. */
  function ExponentialDelay(failureCount: U32): nat {
    Min(SaturatingMul(INITIAL_BACKOFF_SECS, Min(Pow2(Min(failureCount, 63)), U64_MAX)), MAX_BACKOFF_SECS)
  }

  /** Milliseconds to wait, with the jitter drawn. */
  function JitteredExponentialDelay(failureCount: U32, jitter: Percent): nat {
    Min(SaturatingMul(ExponentialDelay(failureCount) * 1000, jitter) / 100, MAX_BACKOFF_SECS * 1000)
  }

  lemma {:induction false} Pow2Monotone(j: nat, k: nat)
    requires j <= k
    ensures Pow2(j) <= Pow2(k)
  {
    if j < k {
      Pow2Monotone(j, k - 1);
    }
  }

  /** The delay doubles from one second and stays at a minute, for every count. */
  lemma {:induction false} ExponentialDelayExact(failureCount: U32)
    ensures ExponentialDelay(failureCount) == Min(Pow2(failureCount), 60)
  {
    if failureCount >= 6 {
      assert Pow2(6) == 64;
      Pow2Monotone(6, failureCount);
      Pow2Monotone(6, Min(failureCount, 63));
    } else {
      assert Pow2(5) == 32;
      Pow2Monotone(failureCount, 5);
    }
  }

  /** The jittered delay is the percentage drawn of the capped delay, but no more than a minute; so it lies within a
      fifth of the capped delay. */
  lemma JitterBounds(failureCount: U32, jitter: Percent)
    ensures var base := 1000 * Min(Pow2(failureCount), 60);
            var delay := JitteredExponentialDelay(failureCount, jitter);
            (100 * delay == base * jitter || (delay == 60_000 && base * jitter > 100 * 60_000)) &&
            80 * base <= 100 * delay <= 120 * base && delay <= 60_000
  {
    ExponentialDelayExact(failureCount);
    var seconds := Min(Pow2(failureCount), 60);
    JitterArithmetic(seconds, jitter);
    assert JitteredExponentialDelay(failureCount, jitter) == Min(10 * (seconds * jitter), 60_000);
  }

  lemma JitterArithmetic(seconds: nat, jitter: Percent)
    requires seconds <= MAX_BACKOFF_SECS
    ensures SaturatingMul(seconds * 1000, jitter) / 100 == 10 * (seconds * jitter)
    ensures 80 * seconds <= seconds * jitter <= 120 * seconds
    ensures 1000 * seconds * jitter == 1000 * (seconds * jitter)
  {
    assert 80 * seconds <= seconds * jitter <= 120 * seconds;
    assert seconds * 1000 * jitter == 100 * (10 * (seconds * jitter));
  }
}
