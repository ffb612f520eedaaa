/** Delay between flushes of the concurrency-release flusher, in the source's 64-bit nanoseconds. */
module ReleaseBackoff {
  const TWO_63: int := 0x8000_0000_0000_0000
  const TWO_64: int := 0x1_0000_0000_0000_0000
  const DEFAULT_FLUSH_INTERVAL: int := 250_000_000

  newtype Duration = x: int | -0x8000_0000_0000_0000 <= x < 0x8000_0000_0000_0000

  datatype Timings = Timings(flushInterval: Duration, maxBackoff: Duration)

  /** Two's complement truncation of a product or sum. */
  function Wrap(x: int): Duration {
    var low := x % TWO_64;
    (if low >= TWO_63 then low - TWO_64 else low) as Duration
  }

  /** The limits in force, repaired so that 0 < flushInterval <= maxBackoff. */
  function Repaired(flushInterval: Duration, maxBackoff: Duration): (t: Timings)
    ensures 0 < t.flushInterval <= t.maxBackoff
    ensures 0 < flushInterval <= maxBackoff ==> t == Timings(flushInterval, maxBackoff)
  {
    var flush := if flushInterval <= 0 then DEFAULT_FLUSH_INTERVAL as Duration else flushInterval;
    Timings(flush, if maxBackoff < flush then flush else maxBackoff)
  }

  datatype Pause = Pause(delay: Duration, backingOff: bool)

  method NextDelay(delay: Duration, failed: bool, t: Timings) returns (d: Duration, backingOff: bool)
    requires 0 < t.flushInterval <= t.maxBackoff
    ensures Pause(d, backingOff) == Next(delay, failed, t)
  {
    if !failed {
      return t.flushInterval, false;
    }
    d := Wrap(2 * delay as int);
    if d < t.flushInterval {
      d := t.flushInterval;
    }
    if d > t.maxBackoff {
      d := t.maxBackoff;
    }
    backingOff := true;
  }

  function Next(delay: Duration, failed: bool, t: Timings): Pause {
    if !failed then Pause(t.flushInterval, false)
    else
      var doubled := Wrap(2 * delay as int);
      var raised := if doubled < t.flushInterval then t.flushInterval else doubled;
      Pause(if raised > t.maxBackoff then t.maxBackoff else raised, true)
  }

  /** The delay after `n` failures in a row, starting from the flush interval. */
  function DelayAfter(n: nat, t: Timings): Duration {
    if n == 0 then t.flushInterval else Next(DelayAfter(n - 1, t), true, t).delay
  }

  function Pow2(n: nat): nat {
    if n == 0 then 1 else 2 * Pow2(n - 1)
  }

  function Min(a: int, b: int): int {
    if a < b then a else b
  }

  /** The intended schedule: doubling, capped. */
  function Intended(n: nat, t: Timings): int {
    Min(t.flushInterval as int * Pow2(n), t.maxBackoff as int)
  }

  /** Whatever the previous delay was, and under whichever settings it was computed, the next one lies
      within the limits that the settings now in force are repaired to; a success goes back to the
      flush interval. */
  lemma NextStaysWithinLimits(delay: Duration, failed: bool, flushInterval: Duration, maxBackoff: Duration)
    ensures var t := Repaired(flushInterval, maxBackoff);
      && t.flushInterval <= Next(delay, failed, t).delay <= t.maxBackoff
      && (Next(delay, failed, t).backingOff <==> failed)
      && (!failed ==> Next(delay, failed, t).delay == t.flushInterval)
      && (!failed && flushInterval <= 0 ==> Next(delay, failed, t).delay == 250_000_000)
  {
  }

  /** Doubling a delay below 2^62 ns does not wrap; equal limits leave nothing to double. */
  predicate Doubles(t: Timings) {
    t.maxBackoff as int < TWO_63 / 2 || t.flushInterval == t.maxBackoff
  }

  lemma WrapSmall(x: int)
    requires 0 <= x < TWO_63
    ensures Wrap(x) as int == x
  {
  }

  lemma WrapLarge(x: int)
    requires TWO_63 <= x < TWO_64
    ensures Wrap(x) as int == x - TWO_64
  {
  }

  lemma {:induction false} DelayIsIntended(n: nat, t: Timings)
    requires 0 < t.flushInterval <= t.maxBackoff && Doubles(t)
    ensures DelayAfter(n, t) as int == Intended(n, t)
  {
    if n > 0 {
      DelayIsIntended(n - 1, t);
      var d := DelayAfter(n - 1, t) as int;
      if 2 * d < TWO_63 {
        WrapSmall(2 * d);
        PowScales(n, t.flushInterval as int);
      } else {
        WrapLarge(2 * d);
        PowScales(n, t.flushInterval as int);
        PowPositive(n);
      }
    }
  }

  lemma PowScales(n: nat, f: int)
    requires n > 0
    ensures f * Pow2(n) == 2 * (f * Pow2(n - 1))
  {
  }

  lemma {:induction false} PowPositive(n: nat)
    ensures Pow2(n) >= n + 1
  {
    if n > 0 { PowPositive(n - 1); }
  }

  lemma IntendedReachesMax(t: Timings)
    requires 0 < t.flushInterval <= t.maxBackoff
    ensures Intended(t.maxBackoff as int, t) == t.maxBackoff as int
  {
    var n := t.maxBackoff as int;
    PowPositive(n);
    assert t.flushInterval as int * Pow2(n) >= Pow2(n) by {
      Scale(t.flushInterval as int, Pow2(n));
    }
  }

  lemma Scale(f: int, p: int)
    requires f >= 1 && p >= 0
    ensures f * p >= p
  {
  }

  /** Once the delay is 2^62 ns or more, the next doubling wraps below zero and
      the delay drops back to the flush interval instead of staying at the maximum. */
  lemma WrappedDelayDrops(n: nat, t: Timings)
    requires 0 < t.flushInterval <= t.maxBackoff && !Doubles(t)
    requires DelayAfter(n, t) as int == Intended(n, t) && Intended(n, t) >= TWO_63 / 2
    ensures DelayAfter(n + 1, t) == t.flushInterval
    ensures DelayAfter(n + 1, t) as int != Intended(n + 1, t)
  {
    var d := DelayAfter(n, t) as int;
    WrapLarge(2 * d);
    PowScales(n + 1, t.flushInterval as int);
    PowPositive(n);
    Scale(t.flushInterval as int, Pow2(n));
  }

  /** The delay follows the capped doubling schedule exactly when the maximum is below 2^62 ns or
      the two limits coincide. */
  lemma BackoffScheduleHolds(t: Timings)
    requires 0 < t.flushInterval <= t.maxBackoff
    ensures (forall n: nat :: DelayAfter(n, t) as int == Intended(n, t)) <==> Doubles(t)
  {
    if Doubles(t) {
      forall n: nat ensures DelayAfter(n, t) as int == Intended(n, t) {
        DelayIsIntended(n, t);
      }
    } else if forall n: nat :: DelayAfter(n, t) as int == Intended(n, t) {
      IntendedReachesMax(t);
      var n: nat := t.maxBackoff as int;
      assert DelayAfter(n, t) as int == Intended(n, t);
      WrappedDelayDrops(n, t);
    }
  }
}
