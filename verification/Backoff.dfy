/** Exponential back-off between the retries of one outbox row. */
module Backoff {

  function Pow2(n: nat): (p: nat)
    ensures p >= 1
  {
    if n == 0 then 1 else 2 * Pow2(n - 1)
  }

  function Min(a: nat, b: nat): (m: nat)
    ensures m <= a && m <= b && (m == a || m == b)
  {
    if a <= b then a else b
  }

  /** The wait after a failure, where `attempts` failures came before it. */
  function ComputeBackoff(attempts: nat, baseMs: nat, capMs: nat): nat {
    Min(baseMs * Pow2(attempts), capMs)
  }

  /** The waits after the first `k` failures, added up. */
  function TotalBackoff(k: nat, baseMs: nat, capMs: nat): nat {
    if k == 0 then 0 else TotalBackoff(k - 1, baseMs, capMs) + ComputeBackoff(k - 1, baseMs, capMs)
  }

  lemma {:induction false} Pow2Monotone(a: nat, b: nat)
    requires a <= b
    ensures Pow2(a) <= Pow2(b)
  {
    if a < b {
      Pow2Monotone(a, b - 1);
    }
  }

  /** Waits never shrink from one failure to the next, and saturate for good once they reach the cap. */
  lemma {:induction false} BackoffGrowsAndSaturates(a: nat, b: nat, baseMs: nat, capMs: nat)
    requires a <= b
    ensures ComputeBackoff(a, baseMs, capMs) <= ComputeBackoff(b, baseMs, capMs) <= capMs
    ensures ComputeBackoff(a, baseMs, capMs) == capMs ==> ComputeBackoff(b, baseMs, capMs) == capMs
  {
    Pow2Monotone(a, b);
    TimesMonotone(baseMs, Pow2(a), Pow2(b));
  }

  lemma TimesMonotone(c: nat, a: nat, b: nat)
    requires a <= b
    ensures c * a <= c * b
  {
  }

  /** While the last wait is under the cap, the waits add up to a geometric sum. */
  lemma {:induction false} TotalUnderCap(k: nat, baseMs: nat, capMs: nat)
    requires k > 0 ==> baseMs * Pow2(k - 1) <= capMs
    ensures TotalBackoff(k, baseMs, capMs) == baseMs * (Pow2(k) - 1)
  {
    if k == 0 {
    } else {
      if k > 1 {
        Pow2Monotone(k - 2, k - 1);
        TimesMonotone(baseMs, Pow2(k - 2), Pow2(k - 1));
      }
      TotalUnderCap(k - 1, baseMs, capMs);
      assert baseMs * (Pow2(k - 1) - 1) + baseMs * Pow2(k - 1) == baseMs * (Pow2(k) - 1);
    }
  }

  /** Whatever the base, the waits add up to no more than one cap each. */
  lemma {:induction false} TotalAtMostCaps(k: nat, baseMs: nat, capMs: nat)
    ensures TotalBackoff(k, baseMs, capMs) <= k * capMs
  {
    if k == 0 {
    } else {
      TotalAtMostCaps(k - 1, baseMs, capMs);
      assert k * capMs == (k - 1) * capMs + capMs;
    }
  }
}
