/** Exponential backoff with full jitter. */
module Backoff {

  datatype RetryPolicy = RetryPolicy(baseDelay: real, cap: real, fullJitter: bool) {
    predicate Sensible() { baseDelay >= 0.0 && cap >= 0.0 }
  }

  function Min(a: real, b: real): real { if a <= b then a else b }

  function Pow2(n: nat): (p: nat)
    ensures p >= 1
  {
    if n == 0 then 1 else 2 * Pow2(n - 1)
  }

  /** 2^(k-1). */
  function Growth(k: nat): real {
    if k == 0 then 0.5 else Pow2(k - 1) as real
  }

  /** The delay before jitter of the k-th retry. */
  function Ceiling(policy: RetryPolicy, k: nat): real {
    Min(policy.cap, policy.baseDelay * Growth(k))
  }

  function Jitter(full: bool, draw: real, raw: real): real {
    if full then draw * raw else raw
  }

  /** The delay of the k-th retry; `draw` is where in [0, 1] the uniform draw fell. */
  function Delay(policy: RetryPolicy, k: nat, draw: real): real {
    Jitter(policy.fullJitter, draw, Ceiling(policy, k))
  }

  lemma ProductNonNegative(x: real, y: real)
    requires x >= 0.0 && y >= 0.0
    ensures x * y >= 0.0
  {
  }

  lemma JitterWithin(full: bool, draw: real, raw: real)
    requires 0.0 <= draw <= 1.0 && 0.0 <= raw
    ensures 0.0 <= Jitter(full, draw, raw) <= raw
  {
    ProductNonNegative(draw, raw);
    ProductNonNegative(1.0 - draw, raw);
    assert (1.0 - draw) * raw == raw - draw * raw;
  }

  lemma CeilingNonNegative(policy: RetryPolicy, k: nat)
    requires policy.Sensible()
    ensures 0.0 <= Ceiling(policy, k)
  {
    ProductNonNegative(policy.baseDelay, Growth(k));
  }

  lemma DelayWithinCeiling(policy: RetryPolicy, k: nat, draw: real)
    requires policy.Sensible() && 0.0 <= draw <= 1.0
    ensures Possible(policy, k, Delay(policy, k, draw))
  {
    CeilingNonNegative(policy, k);
    JitterWithin(policy.fullJitter, draw, Ceiling(policy, k));
  }

  lemma Doubled(b: real, p: real)
    requires b >= 0.0 && p >= 0.0
    ensures b * p <= b * (2.0 * p)
  {
    ProductNonNegative(b, p);
    assert b * (2.0 * p) == b * p + b * p;
  }

  lemma GrowthDoubles(k: nat)
    ensures Growth(k) >= 0.0 && Growth(k + 1) == 2.0 * Growth(k)
  {
  }

  lemma CeilingStep(policy: RetryPolicy, k: nat)
    requires policy.Sensible()
    ensures Ceiling(policy, k) <= Ceiling(policy, k + 1)
  {
    GrowthDoubles(k);
    hide Growth;
    Doubled(policy.baseDelay, Growth(k));
  }

  /** The ceilings never decrease. */
  lemma {:induction false} CeilingMonotone(policy: RetryPolicy, j: nat, k: nat)
    requires j <= k && policy.Sensible()
    ensures Ceiling(policy, j) <= Ceiling(policy, k)
  {
    if j < k {
      CeilingMonotone(policy, j, k - 1);
      CeilingStep(policy, k - 1);
      hide Ceiling;
    }
  }

  function Sum(waits: seq<real>): real {
    if waits == [] then 0.0 else Sum(waits[..|waits| - 1]) + waits[|waits| - 1]
  }

  /** c added n times, without multiplication. */
  function Repeated(c: real, n: nat): real {
    if n == 0 then 0.0 else Repeated(c, n - 1) + c
  }

  lemma {:induction false} RepeatedIsProduct(c: real, n: nat)
    ensures Repeated(c, n) == c * n as real
  {
    if n > 0 {
      RepeatedIsProduct(c, n - 1);
      assert n as real == (n - 1) as real + 1.0;
      assert c * ((n - 1) as real + 1.0) == c * (n - 1) as real + c;
    }
  }

  lemma {:induction false} RepeatedSplit(c: real, m: nat, n: nat)
    ensures Repeated(c, m + n) == Repeated(c, m) + Repeated(c, n)
  {
    if n > 0 {
      RepeatedSplit(c, m, n - 1);
    }
  }

  /** The bounds of the i-th wait. */
  ghost predicate Bounded(base: real, cap: real, wait: real, i: nat) {
    0.0 <= wait && wait <= cap && wait <= Repeated(base, Pow2(i))
  }

  lemma RepeatedDoubles(c: real, k: nat)
    requires k > 0
    ensures Repeated(c, Pow2(k) - 1) == Repeated(c, Pow2(k - 1) - 1) + Repeated(c, Pow2(k - 1))
  {
    assert Pow2(k) - 1 == (Pow2(k - 1) - 1) + Pow2(k - 1);
    RepeatedSplit(c, Pow2(k - 1) - 1, Pow2(k - 1));
  }

  lemma {:induction false} SumBounded(base: real, cap: real, waits: seq<real>)
    requires forall i :: 0 <= i < |waits| ==> Bounded(base, cap, waits[i], i)
    ensures 0.0 <= Sum(waits)
    ensures Sum(waits) <= Repeated(base, Pow2(|waits|) - 1)
    ensures Sum(waits) <= Repeated(cap, |waits|)
  {
    var k := |waits|;
    if k > 0 {
      RepeatedDoubles(base, k);
      assert Repeated(cap, k) == Repeated(cap, k - 1) + cap;
      assert Bounded(base, cap, waits[k - 1], k - 1);
      hide Repeated, Pow2;
      SumBounded(base, cap, waits[..k - 1]);
    }
  }

  lemma {:induction false} BelowProduct(x: real, c: real, n: nat)
    requires x <= Repeated(c, n)
    ensures x <= c * n as real
  {
    RepeatedIsProduct(c, n);
  }

  /** w is a delay that the k-th retry can get. */
  predicate Possible(policy: RetryPolicy, k: nat, w: real) {
    0.0 <= w <= Ceiling(policy, k)
  }

  lemma {:induction false} PossibleBounds(policy: RetryPolicy, k: nat, w: real)
    requires k >= 1 && Possible(policy, k, w)
    ensures 0.0 <= w && w <= policy.cap && w <= Repeated(policy.baseDelay, Pow2(k - 1))
  {
    RepeatedIsProduct(policy.baseDelay, Pow2(k - 1));
  }

  lemma {:induction false} WaitsBounded(policy: RetryPolicy, waits: seq<real>)
    requires forall i :: 0 <= i < |waits| ==> Possible(policy, i + 1, waits[i])
    ensures 0.0 <= Sum(waits)
    ensures Sum(waits) <= Repeated(policy.baseDelay, Pow2(|waits|) - 1)
    ensures Sum(waits) <= Repeated(policy.cap, |waits|)
  {
    forall i | 0 <= i < |waits|
      ensures Bounded(policy.baseDelay, policy.cap, waits[i], i)
    {
      PossibleBounds(policy, i + 1, waits[i]);
    }
    SumBounded(policy.baseDelay, policy.cap, waits);
  }

  /** Whatever the draws, the m - 1 retries of a step with m attempts together wait at
      most base * (2^(m-1) - 1), and at most (m - 1) * cap. */
  lemma {:induction false} TotalDelayBounded(policy: RetryPolicy, waits: seq<real>)
    requires forall i :: 0 <= i < |waits| ==> Possible(policy, i + 1, waits[i])
    ensures 0.0 <= Sum(waits)
    ensures Sum(waits) <= policy.baseDelay * (Pow2(|waits|) - 1) as real
    ensures Sum(waits) <= policy.cap * |waits| as real
  {
    hide Possible, Sum, Pow2, Repeated;
    WaitsBounded(policy, waits);
    BelowProduct(Sum(waits), policy.baseDelay, Pow2(|waits|) - 1);
    BelowProduct(Sum(waits), policy.cap, |waits|);
  }

  // ---------- the delay itself ----------

  /** The k-th retry is put off by min(cap, base * 2^(k-1)), times the draw if the policy jitters. */
  lemma DelayExact(policy: RetryPolicy, k: nat, draw: real)
    requires k >= 1
    ensures Pow2(0) == 1 && Pow2(k) == 2 * Pow2(k - 1)
    ensures var raw := policy.baseDelay * Pow2(k - 1) as real;
      var capped := if policy.cap < raw then policy.cap else raw;
      Delay(policy, k, draw) == if policy.fullJitter then draw * capped else capped
  {
  }

  /** With jitter every delay up to the ceiling is drawn by some draw. */
  lemma EveryDelayDrawn(policy: RetryPolicy, k: nat, w: real) returns (draw: real)
    requires policy.fullJitter && 0.0 <= w <= Ceiling(policy, k) && Ceiling(policy, k) > 0.0
    ensures 0.0 <= draw <= 1.0 && Delay(policy, k, draw) == w
  {
    var c := Ceiling(policy, k);
    hide Ceiling;
    draw := w / c;
    assert draw * c == w;
  }
}
