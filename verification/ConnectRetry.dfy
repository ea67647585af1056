/** data/connect_retry.py: a fresh connect that fails in the shape of an outage is retried with jittered
    backoff until the budget is spent.  The clock is simulated: a sleep takes what was asked, a connect what the
    oracle says. */
module ConnectRetry {
  datatype Attempt = Connected(conn: nat) | Failed(exc: string, outage: bool)

  function Pow2(k: nat): nat { if k == 0 then 1 else 2 * Pow2(k - 1) }

  function Min(a: nat, b: nat): nat { if a <= b then a else b }

  /** The k-th pause without its jitter, in seconds. */
  function Backoff(k: nat): real { Min(Pow2(k), 4) as real * 0.5 }

  lemma {:induction false} BackoffCaps(k: nat)
    ensures Backoff(k) == if k == 0 then 0.5 else if k == 1 then 1.0 else 2.0
  {
    if k >= 2 { PowAtLeast(k); }
  }

  lemma {:induction false} PowAtLeast(k: nat)
    requires k >= 2
    ensures Pow2(k) >= 4
  {
    if k > 2 { PowAtLeast(k - 1); }
  }

  /** The first `k` pauses together. */
  function Paused(k: nat): real { if k == 0 then 0.0 else Paused(k - 1) + Backoff(k - 1) }

  /** Pauses add up to 1.5 s after two and two more seconds for each further one. */
  lemma {:induction false} PausedClosed(k: nat)
    ensures Paused(k) == if k == 0 then 0.0 else if k == 1 then 0.5 else 2.0 * k as real - 2.5
  {
    if k > 0 {
      PausedClosed(k - 1);
      BackoffCaps(k - 1);
    }
  }

  /** What the run depends on: the attempts' outcomes, how long each connect takes, and the jitters. */
  datatype World = World(attempt: nat -> Attempt, took: nat -> real, jitter: nat -> real, budget: real)

  ghost predicate Fair(w: World) {
    (forall i :: 0.0 <= w.took(i)) && forall k :: 0.0 <= w.jitter(k) <= 0.5
  }

  /** The thread-local flag: a nested connect inside a retry passes straight through. */
  class Local {
    var inside: bool

    constructor ()
      ensures !inside
    {
      inside := false;
    }

    /** `elapsed` counts from the first failure; `guarded` says of each connect whether the flag was up. */
    method WithRetry(w: World) returns (result: Attempt, connects: nat, elapsed: real, guarded: seq<bool>)
      requires Fair(w)
      modifies this
      ensures inside == old(inside)
      ensures connects >= 1 && |guarded| == connects && forall i | 0 <= i < connects :: guarded[i]
      ensures result == w.attempt(connects - 1)
      ensures forall i | 0 <= i < connects - 1 :: w.attempt(i).Failed? && w.attempt(i).outage
      ensures old(inside) || w.budget <= 0.0 ==> connects == 1
      ensures !old(inside) && result.Failed? && result.outage && w.budget > 0.0 ==> elapsed >= w.budget
      ensures w.budget > 0.0 ==> connects as real < w.budget / 2.0 + 3.25
      ensures connects > 1 ==> elapsed <= w.budget + 2.5 + w.took(connects - 1)
    {
      elapsed := 0.0;
      if inside { return w.attempt(0), 1, elapsed, [true]; }
      inside := true;
      guarded := [inside];
      connects := 1;
      result := w.attempt(0);
      if result.Connected? || !result.outage || w.budget <= 0.0 {
        inside := false;
        return;
      }
      var k: nat := 0;
      while elapsed < w.budget && result.Failed? && result.outage
        invariant connects == k + 1 && result == w.attempt(k) && inside
        invariant forall i | 0 <= i < k :: w.attempt(i).Failed? && w.attempt(i).outage
        invariant |guarded| == connects && forall i | 0 <= i < connects :: guarded[i]
        invariant Paused(k) <= elapsed && (k > 0 ==> elapsed <= w.budget + 2.5 + w.took(k) && Paused(k - 1) < w.budget)
        decreases 2.0 * w.budget - k as real
      {
        PausedClosed(k);
        PausedClosed(k + 1);
        BackoffCaps(k);
        elapsed := elapsed + Backoff(k) + w.jitter(k);
        k := k + 1;
        result := w.attempt(k);
        elapsed := elapsed + w.took(k);
        connects := connects + 1;
        guarded := guarded + [inside];
      }
      if k > 0 { PausedClosed(k - 1); }
      inside := false;
    }
  }
}
