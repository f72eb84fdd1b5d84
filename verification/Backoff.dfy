/** The loop that starts one sync cycle after another and spaces them out while they fail. */
module Backoff {

  const INT64_LIMIT := 0x8000_0000_0000_0000

  /** A duration counts nanoseconds. */
  const MILLISECOND := 1_000_000

  predicate InInt64(x: int) {
    -INT64_LIMIT <= x < INT64_LIMIT
  }

  /** What is left of x in a signed 64-bit integer. */
  function Wrap(x: int): int {
    (x + INT64_LIMIT) % (2 * INT64_LIMIT) - INT64_LIMIT
  }

  lemma WrapKeepsIff(x: int)
    ensures InInt64(Wrap(x))
    ensures Wrap(x) == x <==> InInt64(x)
  {
  }

  /** It is the number of that range that differs from x by a multiple of 2^64. */
  lemma WrapIff(x: int, y: int)
    ensures y == Wrap(x) <==>
      -0x8000_0000_0000_0000 <= y < 0x8000_0000_0000_0000 && (x - y) % 0x1_0000_0000_0000_0000 == 0
  {
    var size := 0x1_0000_0000_0000_0000;
    assert size == 2 * INT64_LIMIT;
    var q := (x + INT64_LIMIT) / size;
    assert x - Wrap(x) == q * size;
    if -INT64_LIMIT <= y < INT64_LIMIT && (x - y) % size == 0 {
      var k := (x - y) / size;
      assert x + INT64_LIMIT == k * size + (y + INT64_LIMIT);
    }
  }

  function Pow2(n: nat): nat {
    if n == 0 then 1 else 2 * Pow2(n - 1)
  }

  function Min(a: int, b: int): int {
    if a < b then a else b
  }

  /** A number of milliseconds as a duration: the product is taken in 64 bits. */
  function Duration(ms: int): int {
    Wrap(ms * MILLISECOND)
  }

  /** The wait: exponential in the number of failures, plus jitter, capped, and only then made a duration. */
  function SendInterval(retry: nat, jitter: nat, maxBackoffMS: int): int {
    Duration(Min(Wrap(1000 * Pow2(retry) + jitter), maxBackoffMS))
  }

  /** The cap is a duration without wrapping. */
  predicate CapFits(maxBackoffMS: int) {
    InInt64(maxBackoffMS * MILLISECOND)
  }

  predicate JitterFits(jitter: nat) {
    jitter < INT64_LIMIT / 4
  }

  /** A factor that never grows past the first one whose interval reaches the cap. */
  ghost predicate Bounded(factor: nat, maxBackoffMS: int) {
    factor == 1 || (factor > 1 && 1000 * Pow2(factor - 1) < maxBackoffMS)
  }

  /** The powers of two: each failure more doubles the interval. */
  lemma {:induction false} PowersMultiply(a: nat, b: nat)
    ensures Pow2(1) == 2 && Pow2(a + b) == Pow2(a) * Pow2(b)
  {
    assert Pow2(1) == 2 * Pow2(0);
    if a > 0 {
      PowersMultiply(a - 1, b);
      assert Pow2(a + b) == 2 * Pow2(a - 1 + b);
      assert Pow2(a) * Pow2(b) == 2 * (Pow2(a - 1) * Pow2(b));
    }
  }

  lemma {:induction false} Pow2Grows(a: nat, b: nat)
    requires a <= b
    ensures 1 <= Pow2(a) <= Pow2(b)
  {
    if a < b {
      Pow2Grows(a, b - 1);
    } else if a > 0 {
      Pow2Grows(a - 1, b - 1);
    }
  }

  /**
   * With a bounded factor the interval is what it is without any limit on numbers exactly when the capped
   * number of milliseconds fits as a duration; and it fits whenever the cap does.
   */
  lemma IntervalExactIff(factor: nat, jitter: nat, maxBackoffMS: int)
    requires Bounded(factor, maxBackoffMS) && maxBackoffMS <= INT64_LIMIT / 4 && JitterFits(jitter)
    ensures
      var ms := Min(1000 * Pow2(factor) + jitter, maxBackoffMS);
      && (SendInterval(factor, jitter, maxBackoffMS) == ms * MILLISECOND <==> InInt64(ms * MILLISECOND))
      && (CapFits(maxBackoffMS) ==> InInt64(ms * MILLISECOND))
  {
    var sum := 1000 * Pow2(factor) + jitter;
    FactorFits(factor, maxBackoffMS);
    WrapKeepsIff(sum);
    WrapKeepsIff(Min(sum, maxBackoffMS) * MILLISECOND);
  }

  lemma FactorFits(factor: nat, maxBackoffMS: int)
    requires Bounded(factor, maxBackoffMS) && maxBackoffMS <= INT64_LIMIT / 4
    ensures 0 <= 1000 * Pow2(factor) <= INT64_LIMIT / 2
  {
    if factor > 1 {
      assert Pow2(factor) == 2 * Pow2(factor - 1);
    } else {
      assert Pow2(1) == 2 * Pow2(0);
    }
  }

  const HUGE_CAP := 0x2000_0000_0000_0000

  /** A cap that does not fit, 2^61 ms: as a duration it is zero, so a failure never raises the factor. */
  lemma HugeCapStopsBackoff(jitter: nat)
    requires jitter <= 1_000_000_000
    ensures !CapFits(HUGE_CAP) && 1000 * Pow2(1) + jitter < HUGE_CAP
    ensures !(SendInterval(1, jitter, HUGE_CAP) < Duration(HUGE_CAP))
  {
    assert Pow2(1) == 2 * Pow2(0);
    WrapKeepsIff(2000 + jitter);
    WrapKeepsIff((2000 + jitter) * MILLISECOND);
    assert Duration(HUGE_CAP) == 0;
  }

  function Before(factors: seq<nat>, i: nat): nat
    requires i <= |factors|
  {
    if i == 0 then 1 else factors[i - 1]
  }

  /** A success resets the factor; a failure raises it by one unless the interval already reached the cap. */
  ghost predicate Follows(before: nat, factor: nat, ok: bool, jitter: nat, maxBackoffMS: int) {
    if ok then factor == 1
    else if 1000 * Pow2(before) + jitter < maxBackoffMS then factor == before + 1
    else factor == before
  }

  /** The wait is the capped interval in nanoseconds: at least two seconds, or the cap if that is less. */
  ghost predicate WaitFits(wait: int, factor: nat, jitter: nat, maxBackoffMS: int) {
    && wait == Min(1000 * Pow2(factor) + jitter, maxBackoffMS) * 1_000_000
    && Min(2000, maxBackoffMS) * 1_000_000 <= wait <= maxBackoffMS * 1_000_000
    && InInt64(wait)
  }

  lemma FollowsKeepsBounded(before: nat, factor: nat, ok: bool, jitter: nat, maxBackoffMS: int)
    requires Bounded(before, maxBackoffMS) && Follows(before, factor, ok, jitter, maxBackoffMS)
    ensures Bounded(factor, maxBackoffMS)
  {
  }

  lemma IntervalFits(factor: nat, jitter: nat, maxBackoffMS: int)
    requires Bounded(factor, maxBackoffMS) && CapFits(maxBackoffMS) && JitterFits(jitter)
    ensures WaitFits(SendInterval(factor, jitter, maxBackoffMS), factor, jitter, maxBackoffMS)
    ensures SendInterval(factor, jitter, maxBackoffMS) < Duration(maxBackoffMS) <==>
      1000 * Pow2(factor) + jitter < maxBackoffMS
  {
    IntervalExactIff(factor, jitter, maxBackoffMS);
    WrapKeepsIff(maxBackoffMS * MILLISECOND);
    Pow2Grows(1, factor);
    assert Pow2(1) == 2 * Pow2(0);
  }

  /**
   * The exact condition on the cap: every wait, for every factor that the loop can reach and every jitter, is
   * the one meant if and only if the cap itself fits as a duration.
   */
  lemma CapFitsIff(maxBackoffMS: int)
    ensures CapFits(maxBackoffMS) <==>
      forall factor, jitter :: Bounded(factor, maxBackoffMS) && JitterFits(jitter) ==>
        WaitFits(SendInterval(factor, jitter, maxBackoffMS), factor, jitter, maxBackoffMS)
  {
    if CapFits(maxBackoffMS) {
      forall factor, jitter | Bounded(factor, maxBackoffMS) && JitterFits(jitter)
        ensures WaitFits(SendInterval(factor, jitter, maxBackoffMS), factor, jitter, maxBackoffMS)
      {
        IntervalFits(factor, jitter, maxBackoffMS);
      }
    } else {
      var jitter := INT64_LIMIT / MILLISECOND + 1;
      assert Pow2(1) == 2 * Pow2(0);
      assert Bounded(1, maxBackoffMS) && JitterFits(jitter);
      assert !InInt64(Min(1000 * Pow2(1) + jitter, maxBackoffMS) * MILLISECOND);
      assert !WaitFits(SendInterval(1, jitter, maxBackoffMS), 1, jitter, maxBackoffMS);
    }
  }

  /** The factor after a cycle, with the comparison as it comes out in 64 bits. */
  ghost predicate Moves(before: nat, factor: nat, ok: bool, jitter: nat, maxBackoffMS: int) {
    if ok then factor == 1
    else if SendInterval(before, jitter, maxBackoffMS) < Duration(maxBackoffMS) then factor == before + 1
    else factor == before
  }

  ghost predicate AllJittersFit(jitters: seq<(nat, nat)>) {
    forall j :: j in jitters ==> JitterFits(j.0) && JitterFits(j.1)
  }

  /**
   * Runs one cycle per entry of synced, which says whether it succeeded. The jitter is drawn anew each time
   * an interval is computed: first to decide whether to back off further, then for the wait itself.
   */
  method RunSendLoop(synced: seq<bool>, jitters: seq<(nat, nat)>, maxBackoffMS: int)
    returns (factors: seq<nat>, waits: seq<int>)
    requires |jitters| == |synced|
    ensures |factors| == |waits| == |synced|
    ensures forall i {:trigger synced[i]} :: 0 <= i < |synced| ==>
      Moves(Before(factors, i), factors[i], synced[i], jitters[i].0, maxBackoffMS)
    ensures forall i :: 0 <= i < |synced| ==> waits[i] == SendInterval(factors[i], jitters[i].1, maxBackoffMS)
    ensures CapFits(maxBackoffMS) && AllJittersFit(jitters) ==> AsMeant(factors, waits, synced, jitters, maxBackoffMS)
  {
    hide WaitFits, SendInterval, Duration, Pow2, CapFits;
    ghost var fits := CapFits(maxBackoffMS) && AllJittersFit(jitters);
    factors, waits := [], [];
    var backoffFactor := 1;
    for i := 0 to |synced|
      invariant |factors| == |waits| == i
      invariant backoffFactor == Before(factors, i)
      invariant forall j {:trigger synced[j]} :: 0 <= j < i ==>
        Moves(Before(factors, j), factors[j], synced[j], jitters[j].0, maxBackoffMS)
      invariant forall j :: 0 <= j < i ==> waits[j] == SendInterval(factors[j], jitters[j].1, maxBackoffMS)
      invariant fits ==> Bounded(backoffFactor, maxBackoffMS)
      invariant fits ==> AsMeant(factors, waits, synced[..i], jitters[..i], maxBackoffMS)
    {
      ghost var before := backoffFactor;
      if !synced[i] {
        if SendInterval(backoffFactor, jitters[i].0, maxBackoffMS) < Duration(maxBackoffMS) {
          backoffFactor := backoffFactor + 1;
        }
      } else {
        backoffFactor := 1;
      }
      var nextSendWait := SendInterval(backoffFactor, jitters[i].1, maxBackoffMS);
      if fits {
        assert jitters[i] in jitters;
        MovesAsMeant(before, backoffFactor, synced[i], jitters[i], maxBackoffMS);
      }
      EarlierBefore(factors, backoffFactor);
      factors := factors + [backoffFactor];
      waits := waits + [nextSendWait];
    }
    assert synced[..|synced|] == synced && jitters[..|jitters|] == jitters;
  }

  lemma EarlierBefore(factors: seq<nat>, factor: nat)
    ensures forall i {:trigger Before(factors + [factor], i)} :: 0 <= i <= |factors| ==>
      Before(factors + [factor], i) == Before(factors, i)
  {
  }

  /** Each cycle moves the factor and waits as it would without any limit on numbers. */
  ghost predicate AsMeant(factors: seq<nat>, waits: seq<int>, synced: seq<bool>, jitters: seq<(nat, nat)>,
                          maxBackoffMS: int)
    requires |factors| == |waits| == |synced| == |jitters|
  {
    && (forall i {:trigger synced[i]} :: 0 <= i < |synced| ==>
          Follows(Before(factors, i), factors[i], synced[i], jitters[i].0, maxBackoffMS))
    && (forall i :: 0 <= i < |synced| ==> Bounded(factors[i], maxBackoffMS))
    && (forall i :: 0 <= i < |synced| ==> WaitFits(waits[i], factors[i], jitters[i].1, maxBackoffMS))
  }

  lemma MovesAsMeant(before: nat, factor: nat, ok: bool, jitter: (nat, nat), maxBackoffMS: int)
    requires Bounded(before, maxBackoffMS) && Moves(before, factor, ok, jitter.0, maxBackoffMS)
    requires CapFits(maxBackoffMS) && JitterFits(jitter.0) && JitterFits(jitter.1)
    ensures Follows(before, factor, ok, jitter.0, maxBackoffMS) && Bounded(factor, maxBackoffMS)
    ensures WaitFits(SendInterval(factor, jitter.1, maxBackoffMS), factor, jitter.1, maxBackoffMS)
  {
    hide WaitFits, SendInterval, Duration;
    IntervalFits(before, jitter.0, maxBackoffMS);
    FollowsKeepsBounded(before, factor, ok, jitter.0, maxBackoffMS);
    IntervalFits(factor, jitter.1, maxBackoffMS);
  }
}
