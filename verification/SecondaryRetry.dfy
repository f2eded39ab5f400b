/** The delay before a failed refresh is retried, in 64-bit arithmetic. */
module SecondaryRetry {

  const MAX_INT64: int := 0x7FFF_FFFF_FFFF_FFFF
  const HALF: int := 0x4000_0000_0000_0000

  predicate IsInt64(x: int) {
    -MAX_INT64 - 1 <= x <= MAX_INT64
  }

  /** Doubling a 64-bit integer wraps around. */
  function Double(x: int): (r: int)
    requires IsInt64(x)
    ensures IsInt64(r)
  {
    if x >= HALF then 2 * x - 0x1_0000_0000_0000_0000
    else if x < -HALF then 2 * x + 0x1_0000_0000_0000_0000
    else 2 * x
  }

  function Min(a: int, b: int): int {
    if a <= b then a else b
  }

  /** The delay after `doublings` rounds of the loop, starting from `delay`. */
  function Doubled(doublings: nat, delay: int, maximum: int): (r: int)
    requires IsInt64(delay)
    ensures IsInt64(r)
  {
    if doublings == 0 || delay >= maximum then delay else Doubled(doublings - 1, Double(delay), maximum)
  }

  /** The delay that `retryDelay` computes. */
  function Delay(failures: nat, minimum: int, maximum: int): int
    requires IsInt64(minimum)
  {
    Min(Doubled(if failures == 0 then 0 else failures - 1, minimum, maximum), maximum)
  }

  /** `retryDelay` */
  method RetryDelay(failures: nat, minimum: int, maximum: int) returns (r: int)
    requires IsInt64(minimum) && IsInt64(maximum)
    ensures r == Delay(failures, minimum, maximum)
  {
    var delay := minimum;
    var attempt := 1;
    while attempt < failures && delay < maximum
      invariant 1 <= attempt && IsInt64(delay) && (failures > 0 ==> attempt <= failures)
      invariant Doubled(if failures == 0 then 0 else failures - 1, minimum, maximum)
             == Doubled(if failures == 0 then 0 else failures - attempt, delay, maximum)
      decreases failures - attempt
    {
      delay := Double(delay);
      attempt := attempt + 1;
    }
    return Min(delay, maximum);
  }

  function Power(n: nat): (r: nat)
    ensures r >= 1
  {
    if n == 0 then 1 else 2 * Power(n - 1)
  }

  /** The delay that is promised: doubled for each failure after the first, capped. */
  function Backoff(failures: nat, minimum: nat, maximum: nat): int {
    Min(minimum * Power(if failures == 0 then 0 else failures - 1), maximum)
  }

  /** Some number of doublings lands in the upper half of the 64-bit range but still
      below the maximum, so that the next one wraps around. */
  ghost predicate Wraps(minimum: int, maximum: int) {
    exists k: nat :: HALF <= minimum * Power(k) < maximum
  }

  lemma Halves(a: nat, n: nat)
    requires n > 0
    ensures a * Power(n) == 2 * a * Power(n - 1)
  {
  }

  lemma AtLeast(a: nat, n: nat)
    ensures a <= a * Power(n)
  {
  }

  /** Without a wrap, the loop computes the capped power. */
  lemma {:induction false} DoubledExact(doublings: nat, delay: nat, maximum: nat)
    requires 0 < delay <= MAX_INT64 && maximum <= MAX_INT64
    requires forall k: nat :: k < doublings ==> !(HALF <= delay * Power(k) < maximum)
    ensures Min(Doubled(doublings, delay, maximum), maximum) == Min(delay * Power(doublings), maximum)
    decreases doublings
  {
    AtLeast(delay, doublings);
    var none: nat := 0;
    assert delay * Power(none) == delay;
    if doublings > 0 && delay < maximum {
      forall k: nat | k < doublings - 1 ensures !(HALF <= 2 * delay * Power(k) < maximum) {
        Halves(delay, k + 1);
      }
      DoubledExact(doublings - 1, 2 * delay, maximum);
      Halves(delay, doublings);
    }
  }

  /** With one, it computes a negative delay at the very next failure. */
  lemma {:induction false} DoubledWraps(k: nat, delay: nat, maximum: nat)
    requires 0 < delay && maximum <= MAX_INT64 && HALF <= delay * Power(k) < maximum
    ensures delay <= MAX_INT64 && Doubled(k + 1, delay, maximum) < 0
    decreases k
  {
    AtLeast(delay, k);
    if k == 0 {
      assert Doubled(1, delay, maximum) == Doubled(0, Double(delay), maximum);
    } else {
      Halves(delay, k);
      AtLeast(2 * delay, k - 1);
      DoubledWraps(k - 1, 2 * delay, maximum);
      BelowHalf(delay, k);
    }
  }

  lemma BelowHalf(delay: nat, k: nat)
    requires k > 0 && delay * Power(k) <= MAX_INT64
    ensures delay < HALF
  {
    AtLeast(2 * delay, k - 1);
    Halves(delay, k);
  }

  /** The delay is the promised one for every number of failures exactly when no
      doubling can wrap. */
  lemma BackoffExact(minimum: nat, maximum: nat)
    requires 0 < minimum <= MAX_INT64 && maximum <= MAX_INT64
    ensures (forall failures: nat :: Delay(failures, minimum, maximum) == Backoff(failures, minimum, maximum)) <==>
            !Wraps(minimum, maximum)
  {
    if Wraps(minimum, maximum) {
      var k: nat :| HALF <= minimum * Power(k) < maximum;
      DoubledWraps(k, minimum, maximum);
      assert Delay(k + 2, minimum, maximum) < 0;
      assert Backoff(k + 2, minimum, maximum) >= 0;
    } else {
      forall failures: nat ensures Delay(failures, minimum, maximum) == Backoff(failures, minimum, maximum) {
        DoubledExact(if failures == 0 then 0 else failures - 1, minimum, maximum);
      }
    }
  }

  /** No maximum up to 2^62 nanoseconds, which is 146 years, ever wraps. */
  lemma NoWrap(minimum: nat, maximum: nat, failures: nat)
    requires 0 < minimum <= MAX_INT64 && maximum <= HALF
    ensures !Wraps(minimum, maximum)
    ensures Delay(failures, minimum, maximum) == Backoff(failures, minimum, maximum)
  {
    BackoffExact(minimum, maximum);
  }

  /** Just above it, 2^62 doubles to a negative delay. */
  lemma WrapExample()
    ensures Delay(2, HALF, HALF + 1) == -MAX_INT64 - 1
    ensures Backoff(2, HALF, HALF + 1) == HALF + 1
  {
    assert Power(1) == 2 * Power(0) == 2;
    assert Doubled(1, HALF, HALF + 1) == Doubled(0, Double(HALF), HALF + 1);
  }
}
