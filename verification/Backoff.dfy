/** The retry timer: its timeout is multiplied after every failure, until a duration can hold no more. */
module Backoff {
  import opened Bytes
  import opened Time

  /** A duration holds 64 bits of seconds, and less than a second of nanoseconds. */
  const DURATION_LIMIT: nat := 0x1_0000_0000_0000_0000 * NANOS_PER_SEC

  function CheckedMul(d: Duration, factor: u32): Option<Duration> {
    if d * factor < DURATION_LIMIT then Some(d * factor) else None
  }

  /** A timer as a value. Until it is started it counts as expired. */
  datatype Timer = Timer(resetVal: Duration, factor: u32, timeout: Duration, started: Option<Instant>) {
    function Next(ok: bool, now: Instant): Timer {
      if ok then this.(timeout := resetVal, started := Some(now))
      else
        var longer := CheckedMul(timeout, factor);
        this.(timeout := if longer.Some? then longer.value else timeout, started := Some(now))
    }

    predicate Expired(now: Instant) {
      started.None? || Max(0, now - started.value) > timeout
    }
  }

  const DEFAULT_TIMEOUT: Duration := 500 * MILLIS

  function DefaultTimer(): Timer {
    Timer(DEFAULT_TIMEOUT, 2, DEFAULT_TIMEOUT, None)
  }

  class ExponentialBackoff {
    const resetVal: Duration
    const backoffFactor: u32
    var timeout: Duration
    var started: Option<Instant>

    /** The first timeout is the given one times the factor, while a reset goes back to the given one;
        a product that does not fit makes the program panic. */
    constructor (backoffFactor: u32, nextTimeout: Duration)
      requires nextTimeout * backoffFactor < DURATION_LIMIT
      ensures Model() == Timer(nextTimeout, backoffFactor, nextTimeout * backoffFactor, None)
    {
      resetVal, this.backoffFactor := nextTimeout, backoffFactor;
      timeout, started := nextTimeout * backoffFactor, None;
    }

    constructor Default()
      ensures Model() == DefaultTimer()
    {
      resetVal, backoffFactor := DEFAULT_TIMEOUT, 2;
      timeout, started := DEFAULT_TIMEOUT, None;
    }

    function Model(): Timer
      reads this
    {
      Timer(resetVal, backoffFactor, timeout, started)
    }

    method Reset()
      modifies `timeout
      ensures timeout == resetVal
    {
      timeout := resetVal;
    }

    method StartNext(result: bool, now: Instant)
      modifies this
      ensures Model() == old(Model()).Next(result, now)
    {
      if result {
        timeout := resetVal;
        started := Some(now);
      } else {
        var r := CheckedMul(timeout, backoffFactor);
        if r.Some? {
          timeout := r.value;
        }
        started := Some(now);
      }
    }

    method IsExpired(now: Instant) returns (expired: bool)
      ensures expired <==> Model().Expired(now)
    {
      if started.Some? {
        expired := Max(0, now - started.value) > timeout;
      } else {
        expired := true;
      }
    }
  }

  // ---------------------------------------------------------------- timeouts after many uses

  /** A use of the timer: the result it was started again with, and when. */
  datatype Use = Use(ok: bool, now: Instant)

  function After(t: Timer, uses: seq<Use>): Timer {
    if uses == [] then t
    else After(t, uses[..|uses| - 1]).Next(uses[|uses| - 1].ok, uses[|uses| - 1].now)
  }

  ghost predicate AllFail(uses: seq<Use>) {
    forall i :: 0 <= i < |uses| ==> !uses[i].ok
  }

  function Power(base: nat, n: nat): nat {
    if n == 0 then 1 else base * Power(base, n - 1)
  }

  lemma ProductStep(d: nat, base: nat, n: nat)
    ensures d * Power(base, n) * base == d * Power(base, n + 1)
  {
    assert Power(base, n + 1) == base * Power(base, n);
  }

  /** Failures multiply the timeout, and stop doing so at the first product that no longer fits. */
  lemma {:induction false} FailuresMultiply(t: Timer, uses: seq<Use>) returns (j: nat)
    requires t.timeout < DURATION_LIMIT && AllFail(uses)
    ensures j <= |uses| && After(t, uses).timeout == t.timeout * Power(t.factor, j) < DURATION_LIMIT
    ensures j < |uses| ==> t.timeout * Power(t.factor, j + 1) >= DURATION_LIMIT
    ensures After(t, uses).factor == t.factor && After(t, uses).resetVal == t.resetVal
  {
    if uses == [] {
      j := 0;
    } else {
      j := FailuresMultiply(t, uses[..|uses| - 1]);
      ProductStep(t.timeout, t.factor, j);
      if j == |uses| - 1 && t.timeout * Power(t.factor, j + 1) < DURATION_LIMIT {
        j := j + 1;
      }
    }
  }

  lemma {:induction false} PowerGrows(m: nat, n: nat)
    requires m <= n
    ensures Power(2, m) <= Power(2, n)
  {
    if m < n {
      PowerGrows(m, n - 1);
    }
  }

  lemma {:induction false} PowerSum(base: nat, m: nat, n: nat)
    ensures Power(base, m + n) == Power(base, m) * Power(base, n)
  {
    if m > 0 {
      PowerSum(base, m - 1, n);
      Regroup(base, Power(base, m - 1), Power(base, n));
    }
  }

  lemma Regroup(a: nat, b: nat, c: nat)
    ensures a * (b * c) == (a * b) * c
  {
  }

  lemma PowerOf64()
    ensures Power(2, 64) == 0x1_0000_0000_0000_0000
  {
    assert Power(2, 8) == 0x100;
    PowerSum(2, 8, 8);
    PowerSum(2, 16, 16);
    PowerSum(2, 32, 32);
  }

  /** From the default timer, failures double the timeout exactly 64 times and then leave it as it is. */
  lemma {:induction false} DefaultTimeout(t: Timer, uses: seq<Use>)
    requires t.timeout == DEFAULT_TIMEOUT && t.factor == 2 && AllFail(uses)
    ensures After(t, uses).timeout == DEFAULT_TIMEOUT * Power(2, Min(|uses|, 64))
  {
    var j := FailuresMultiply(t, uses);
    PowerOf64();
    assert Power(2, 65) == 2 * Power(2, 64);
    if j > 64 {
      PowerGrows(65, j);
    } else if j < Min(|uses|, 64) {
      PowerGrows(j + 1, 64);
    }
  }

  /** How many uses have failed since the last success. */
  function Failing(uses: seq<Use>): nat {
    if uses == [] || uses[|uses| - 1].ok then 0 else Failing(uses[..|uses| - 1]) + 1
  }

  lemma {:induction false} DoubledFits(n: nat)
    ensures CheckedMul(DEFAULT_TIMEOUT * Power(2, Min(n, 64)), 2)
         == if n < 64 then Some(DEFAULT_TIMEOUT * Power(2, n + 1)) else None
  {
    PowerOf64();
    if n < 64 {
      ProductStep(DEFAULT_TIMEOUT, 2, n);
      PowerGrows(n + 1, 64);
    }
  }

  /** After any uses of the default timer, its timeout is half a second doubled once for each failure since the
      last success, 64 times at most, and it runs since the last use. */
  lemma {:induction false} TimeoutByFailures(uses: seq<Use>)
    ensures var t := After(DefaultTimer(), uses);
            && t.timeout == 500 * MILLIS * Power(2, Min(Failing(uses), 64))
            && t.started == if uses == [] then None else Some(uses[|uses| - 1].now)
  {
    hide Power, CheckedMul;
    UsesKeepSettings(DefaultTimer(), uses);
    PowerOfNone();
    if uses != [] {
      var earlier := uses[..|uses| - 1];
      TimeoutByFailures(earlier);
      UsesKeepSettings(DefaultTimer(), earlier);
      DoubledFits(Failing(earlier));
    }
  }

  lemma PowerOfNone()
    ensures Power(2, 0) == 1
  {
  }

  /** A success wipes out everything before it. */
  lemma {:induction false} SuccessForgets(t: Timer, before: seq<Use>, ok: Use, later: seq<Use>)
    requires ok.ok
    ensures After(t, before + [ok] + later) == After(t.(timeout := t.resetVal, started := Some(ok.now)), later)
    decreases |later|
  {
    var uses := before + [ok] + later;
    if later == [] {
      assert uses[..|uses| - 1] == before;
      UsesKeepSettings(t, before);
    } else {
      assert uses[..|uses| - 1] == before + [ok] + later[..|later| - 1];
      SuccessForgets(t, before, ok, later[..|later| - 1]);
    }
  }

  lemma {:induction false} UsesKeepSettings(t: Timer, uses: seq<Use>)
    ensures After(t, uses).resetVal == t.resetVal && After(t, uses).factor == t.factor
    ensures uses != [] ==> After(t, uses).started == Some(uses[|uses| - 1].now)
  {
    if uses != [] {
      UsesKeepSettings(t, uses[..|uses| - 1]);
    }
  }

  lemma {:induction false} AfterCat(t: Timer, a: seq<Use>, b: seq<Use>)
    ensures After(t, a + b) == After(After(t, a), b)
    decreases |b|
  {
    if b == [] {
      assert a + b == a;
    } else {
      AfterCat(t, a, b[..|b| - 1]);
      assert (a + b)[..|a + b| - 1] == a + b[..|b| - 1];
    }
  }

  // ---------------------------------------------------------------- time between uses

  /** Each use waited for the timer. */
  ghost predicate Waited(t: Timer, uses: seq<Use>) {
    forall k :: 0 <= k < |uses| ==> After(t, uses[..k]).Expired(uses[k].now)
  }

  /** The least total time `n` uses take when all but perhaps the last fail. */
  function LeastSpan(n: nat): Duration {
    if n <= 1 then 0 else LeastSpan(n - 1) + DEFAULT_TIMEOUT * Power(2, Min(n - 1, 64))
  }

  /** The retry bound: if all but perhaps the last of two or more uses of a fresh default timer fail,
      the last is more than 1000 + 2000 + 4000 + ... milliseconds after the first. */
  lemma {:induction false} FailuresSpreadOut(t: Timer, uses: seq<Use>)
    requires t.timeout == DEFAULT_TIMEOUT && t.factor == 2
    requires |uses| >= 2 && AllFail(uses[..|uses| - 1]) && Waited(t, uses)
    ensures uses[|uses| - 1].now - uses[0].now > LeastSpan(|uses|)
    decreases |uses|
  {
    hide Power;
    var n := |uses|;
    var earlier, last := uses[..n - 1], uses[n - 1];
    DefaultTimeout(t, earlier);
    UsesKeepSettings(t, earlier);
    assert After(t, uses[..n - 1]).Expired(last.now);
    assert last.now - earlier[n - 2].now > DEFAULT_TIMEOUT * Power(2, Min(n - 1, 64));
    if n > 2 {
      forall k | 0 <= k < n - 1 ensures After(t, earlier[..k]).Expired(earlier[k].now) {
        assert earlier[..k] == uses[..k];
        assert After(t, uses[..k]).Expired(uses[k].now);
      }
      assert AllFail(earlier[..n - 2]);
      FailuresSpreadOut(t, earlier);
    }
  }

  /** That total is 500 * (2^n - 2) milliseconds up to the 64th doubling, and from there on the gap stays
      what it is. */
  lemma {:induction false} LeastSpanIs(n: nat)
    requires n >= 1
    ensures n <= 65 ==> LeastSpan(n) == 500 * (Power(2, n) - 2) * MILLIS
    ensures n > 65 ==> LeastSpan(n) == LeastSpan(n - 1) + 500 * 0x1_0000_0000_0000_0000 * MILLIS
  {
    PowerOf64();
    if n > 1 {
      LeastSpanIs(n - 1);
      assert Power(2, n) == 2 * Power(2, n - 1);
    }
  }
}
