/** The shared retry policy: which statuses are transient and how long a retry waits. */
module Backoff {
  import opened Arithmetic

  const CAP_MS: nat := 30_000
  const MAX_DELAY_MS: nat := 45_000

  predicate Transient(status: nat) {
    status == 429 || status == 502 || status == 503 || status == 504
  }

  /** Exponential growth from `baseMs`, the exponent capped at 10 and the product at 30 s. */
  function Capped(baseMs: nat, attempt: nat): nat {
    var shift := Least(if attempt == 0 then 0 else attempt - 1, 10);
    Least(baseMs * Pow2(shift), CAP_MS)
  }

  function JitterCeiling(capped: nat): nat {
    if capped / 2 >= 1 then capped / 2 else 1
  }

  /** The delay before retry `attempt`, given one raw random draw. */
  function Delay(baseMs: nat, attempt: nat, draw: nat): (ms: nat)
    ensures Capped(baseMs, attempt) <= ms <= Capped(baseMs, attempt) + JitterCeiling(Capped(baseMs, attempt))
    ensures ms <= MAX_DELAY_MS == 45_000
  {
    var capped := Capped(baseMs, attempt);
    capped + draw % (JitterCeiling(capped) + 1)
  }

  /** The capped delay doubles at each of the first eleven attempts until it saturates, and is
      constant from then on. */
  lemma {:induction false} CappedDoubles(baseMs: nat, attempt: nat)
    requires attempt >= 1
    ensures Capped(baseMs, 0) == Capped(baseMs, 1) == if baseMs <= 30_000 then baseMs else 30_000
    ensures Capped(baseMs, attempt + 1) ==
            if attempt > 10 then Capped(baseMs, attempt)
            else if 2 * Capped(baseMs, attempt) <= 30_000 then 2 * Capped(baseMs, attempt)
            else 30_000
  {
    assert Pow2(0) == 1;
    if attempt <= 10 {
      var p := Pow2(attempt - 1);
      assert Pow2(attempt) == 2 * p;
      assert baseMs * (2 * p) == 2 * (baseMs * p);
    }
  }

  lemma {:induction false} JitterReach(capped: nat, k: nat)
    ensures k <= JitterCeiling(capped) <==> k <= 1 || 2 * k <= capped
    ensures k <= JitterCeiling(capped) ==> k % (JitterCeiling(capped) + 1) == k
  {
  }

  /** The delays an attempt can have are exactly the capped one and up to half as much again, or one
      millisecond more where half of it is nothing. */
  lemma {:induction false} DelayRange(baseMs: nat, attempt: nat, capped: nat, ms: nat)
    requires capped == Capped(baseMs, attempt)
    ensures (exists draw :: Delay(baseMs, attempt, draw) == ms) <==>
            capped <= ms && (ms <= capped + 1 || 2 * (ms - capped) <= capped)
  {
    if capped <= ms {
      JitterReach(capped, ms - capped);
      if ms - capped <= JitterCeiling(capped) {
        assert Delay(baseMs, attempt, ms - capped) == ms;
      }
    }
  }
}
