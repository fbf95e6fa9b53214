// The exponential lockout after refused recovery tokens, as arithmetic on the times of refusals.
module Lockout {
  import opened Clock

  function Pow2(n: nat): nat {
    if n == 0 then 1 else 2 * Pow2(n - 1)
  }

  function Min(a: nat, b: nat): nat {
    if a <= b then a else b
  }

  /** Seconds of lockout after `count` refusals in a row: `5 << min(count - 5, 5)`. */
  function Backoff(count: nat): nat
    requires count >= 5
  {
    5 * Pow2(Min(count - 5, 5))
  }

  /** The shift stays within 0 to 5 and the result within 5 to 160, so no shift or sum overflows. */
  lemma BackoffBounds(count: nat)
    requires count >= 5
    ensures 5 <= Backoff(count) <= 160
    ensures count >= 10 ==> Backoff(count) == 160
  {
    assert Pow2(2) == 4 && Pow2(4) == 16;
    var n := Min(count - 5, 5);
    if n <= 1 {
    } else if n == 2 || n == 3 {
    } else {
    }
  }

  /** From the fifth refusal on, each waits out the lockout of the one before it. */
  ghost predicate Spaced(refusals: seq<Instant>) {
    forall i :: 5 <= i < |refusals| ==> refusals[i - 1] + Backoff(i) * SECOND <= refusals[i]
  }

  lemma SpacedExtends(refusals: seq<Instant>, now: Instant)
    requires Spaced(refusals)
    requires |refusals| >= 5 ==> refusals[|refusals| - 1] + Backoff(|refusals|) * SECOND <= now
    ensures Spaced(refusals + [now])
  {
    hide Backoff;
  }

  /** The lockouts from the fifth refusal up to the `n`-th, in seconds. */
  function TotalWait(n: nat): nat
    requires n >= 5
  {
    if n == 5 then 0 else TotalWait(n - 1) + Backoff(n - 1)
  }

  /** `n` refusals in a row take at least the sum of the lockouts between them. */
  lemma {:induction false} RefusalsTakeTime(refusals: seq<Instant>, n: nat)
    requires Spaced(refusals) && 5 <= n <= |refusals|
    ensures refusals[n - 1] - refusals[4] >= TotalWait(n) * SECOND
  {
    if n > 5 {
      RefusalsTakeTime(refusals, n - 1);
      assert refusals[n - 2] + Backoff(n - 1) * SECOND <= refusals[n - 1];
    }
  }

  /** Doubling up to the eleventh refusal, 160 seconds each after that. */
  lemma {:induction false} TotalWaitClosedForm(n: nat)
    requires n >= 5
    ensures TotalWait(n) == if n <= 11 then 5 * (Pow2(n - 5) - 1) else 315 + 160 * (n - 11)
  {
    if n > 5 {
      TotalWaitClosedForm(n - 1);
      if n > 11 {
        BackoffBounds(n - 1);
        if n == 12 {
          SixDoublings();
        }
      }
    }
  }

  lemma SixDoublings()
    ensures Pow2(6) == 64
  {
    assert Pow2(3) == 8;
    assert Pow2(5) == 32;
  }
}
