/** The scheduler's machine arithmetic: retry backoff and epoch deadlines, in whole
    nanoseconds with the widths and saturation of the source. */
module SchedulerTiming {
  import opened Wrappers

  const U32_MAX: nat := 0xFFFF_FFFF

  /** The longest duration: 64 bits of seconds and a full fraction. */
  const DURATION_MAX: nat := U64_MAX * 1_000_000_000 + 999_999_999

  // ---- Backoff ---------------------------------------------------------------------

  function Pow(b: nat, e: nat): nat {
    if e == 0 then 1 else b * Pow(b, e - 1)
  }

  /** `u32::checked_pow`, saturated. */
  function Multiplier(factor: nat, retry: nat): nat {
    if Pow(factor, retry) <= U32_MAX then Pow(factor, retry) else U32_MAX
  }

  /** The delay before retry number `retry`, counted from 0. */
  function Backoff(base: nat, factor: nat, retry: nat): nat {
    var delay := base * Multiplier(factor, retry);
    if delay <= DURATION_MAX then delay else DURATION_MAX
  }

  /** Until something saturates the delay is `base * factor^retry`; it is never more
      than that, and never more than a duration can hold. */
  lemma BackoffIsExponential(base: nat, factor: nat, retry: nat)
    ensures Backoff(base, factor, retry) <= DURATION_MAX
    ensures Backoff(base, factor, retry) <= base * Pow(factor, retry)
    ensures Backoff(base, factor, retry) == base * Pow(factor, retry)
       <==> Unsaturated(base, factor, retry)
  {
  }

  /** Neither the power leaves 32 bits nor the product the range of a duration. */
  predicate Unsaturated(base: nat, factor: nat, retry: nat) {
    base == 0 || (Pow(factor, retry) <= U32_MAX && base * Pow(factor, retry) <= DURATION_MAX)
  }

  /** With a factor of at least one, what is exact at one retry was exact at all before. */
  lemma ExactUntilSaturated(base: nat, factor: nat, i: nat, j: nat)
    requires factor >= 1 && i <= j && Backoff(base, factor, j) == base * Pow(factor, j)
    ensures Backoff(base, factor, i) == base * Pow(factor, i)
  {
    BackoffIsExponential(base, factor, i);
    BackoffIsExponential(base, factor, j);
    PowGrows(factor, i, j);
    ScaleUp(Pow(factor, i), Pow(factor, j), base);
  }

  lemma ScaleUp(x: nat, y: nat, k: nat)
    requires x <= y
    ensures k * x <= k * y
  {
  }

  lemma {:induction false} PowGrows(b: nat, i: nat, j: nat)
    requires b >= 1 && i <= j
    ensures 1 <= Pow(b, i) <= Pow(b, j)
    decreases j
  {
    if i < j {
      PowGrows(b, i, j - 1);
      ScaleUp(1, b, Pow(b, j - 1));
    } else if i > 0 {
      PowGrows(b, i - 1, i - 1);
    }
  }

  /** Retry by retry: the base first, then the factor times the delay before. */
  lemma BackoffStepByStep(base: nat, factor: nat, retry: nat)
    requires base <= DURATION_MAX
    ensures Backoff(base, factor, 0) == base
    ensures Unsaturated(base, factor, retry + 1) ==>
      Backoff(base, factor, retry + 1) == factor * Backoff(base, factor, retry)
  {
    assert Pow(factor, 0) == 1;
    if Unsaturated(base, factor, retry + 1) {
      BackoffIsExponential(base, factor, retry + 1);
      if factor >= 1 {
        ExactUntilSaturated(base, factor, retry, retry + 1);
      }
      assert base * (factor * Pow(factor, retry)) == factor * (base * Pow(factor, retry));
    }
  }

  /** Delays never shrink from one retry to the next, exactly when the factor is at
      least 1 (or there is no delay at all). */
  lemma BackoffNeverShrinks(base: nat, factor: nat)
    requires base <= DURATION_MAX
    ensures (forall i: nat, j: nat :: i <= j ==> Backoff(base, factor, i) <= Backoff(base, factor, j))
       <==> factor >= 1 || base == 0
  {
    if factor >= 1 || base == 0 {
      forall i: nat, j: nat | i <= j ensures Backoff(base, factor, i) <= Backoff(base, factor, j) {
        if factor >= 1 {
          PowGrows(factor, i, j);
          ScaleUp(Multiplier(factor, i), Multiplier(factor, j), base);
        }
      }
    } else {
      assert Pow(factor, 0) == 1 && Pow(factor, 1) == 0 * Pow(factor, 0) == 0;
      assert Backoff(base, factor, 0) == base && Backoff(base, factor, 1) == 0;
    }
  }

  // ---- Epoch deadlines -----------------------------------------------------------------

  function DivCeil(a: nat, b: nat): nat
    requires b > 0
  {
    if a % b == 0 then a / b else a / b + 1
  }

  /** The scheduler's tick: the configured one, but at least a millisecond. */
  function Tick(configured: nat): nat {
    if configured < 1_000_000 then 1_000_000 else configured
  }

  /** A timeout as a number of epoch ticks; none means no bound. */
  function DeadlineTicks(timeout: Option<nat>, tick: nat): nat
    requires tick > 0
  {
    match timeout
    case None => U64_MAX
    case Some(d) =>
      var ticks := DivCeil(d, tick);
      if ticks > U64_MAX then U64_MAX else if ticks < 1 then 1 else ticks
  }

  /** What the runtime hands the engine. */
  function Clamped(ticks: nat): nat {
    if ticks < U64_MAX / 2 then ticks else U64_MAX / 2
  }

  /** The deadline added to the engine's epoch stays within 64 bits, for every
      timeout, exactly while the epoch is at most 2^63. */
  lemma DeadlineFits(epoch: nat)
    ensures (forall timeout, tick: nat :: tick > 0 ==> epoch + Clamped(DeadlineTicks(timeout, tick)) <= U64_MAX)
       <==> epoch <= 0x8000_0000_0000_0000
  {
    if epoch > 0x8000_0000_0000_0000 {
      assert epoch + Clamped(DeadlineTicks(None, 1)) > U64_MAX;
    }
  }

  lemma DivCeilIsLeast(d: nat, tick: nat, k: nat)
    requires tick > 0
    ensures DivCeil(d, tick) <= k <==> d <= k * tick
  {
    var q, r := d / tick, d % tick;
    assert d == q * tick + r;
    if k <= q {
      ScaleUp(k, q, tick);
      if k < q {
        ScaleUp(k + 1, q, tick);
        assert (k + 1) * tick == k * tick + tick;
      }
    } else {
      ScaleUp(q + 1, k, tick);
      assert (q + 1) * tick == q * tick + tick;
    }
  }

  /** The deadline is the least number of ticks, at least one, that covers the budget, or
      the largest 64-bit number where that is out of range. Without a timeout it is that
      of no timeout less. */
  lemma DeadlineCoversBudget(d: nat, tick: nat)
    requires tick > 0
    ensures var n := DeadlineTicks(Some(d), tick);
      && 1 <= n <= U64_MAX && (d <= U64_MAX * tick ==> d <= n * tick) && (d > U64_MAX * tick ==> n == U64_MAX)
      && (forall k: nat :: k >= 1 && d <= k * tick ==> k >= n)
      && DeadlineTicks(None, tick) >= n && Clamped(DeadlineTicks(None, tick)) >= Clamped(n)
  {
    var n := DeadlineTicks(Some(d), tick);
    DivCeilIsLeast(d, tick, n);
    DivCeilIsLeast(d, tick, U64_MAX);
    forall k: nat | k >= 1 && d <= k * tick ensures k >= n {
      DivCeilIsLeast(d, tick, k);
    }
  }

  /** The clamp only ever shortens a deadline, and only one of at least half the range. */
  lemma ClampIsRare(ticks: nat)
    ensures Clamped(ticks) <= ticks && (Clamped(ticks) < ticks ==> Clamped(ticks) == U64_MAX / 2)
  {
  }

  /** When the epoch is incremented, after the task started: consecutive increments
      are at least a tick apart. */
  ghost predicate Ticking(at: seq<nat>, start: nat, tick: nat) {
    && (|at| > 0 ==> at[0] >= start)
    && forall i :: 0 < i < |at| ==> at[i] >= at[i - 1] + tick
  }

  lemma {:induction false} NthIncrement(at: seq<nat>, start: nat, tick: nat, n: nat)
    requires Ticking(at, start, tick) && n < |at|
    ensures at[n] >= start + n * tick
  {
    if n > 0 {
      NthIncrement(at, start, tick, n - 1);
      assert n * tick == (n - 1) * tick + tick;
    }
  }

  /** A task is interrupted at the increment its deadline names. That is never before
      its budget less one tick, and the number of increments it takes is the budget
      in ticks, rounded up. */
  lemma NeverInterruptedEarly(at: seq<nat>, start: nat, configured: nat, d: nat)
    requires var tick := Tick(configured);
      Ticking(at, start, tick) && d <= U64_MAX / 2 * tick && |at| >= DeadlineTicks(Some(d), tick)
    ensures var tick := Tick(configured);
      var n := Clamped(DeadlineTicks(Some(d), tick));
      && tick >= 1_000_000 && tick >= configured && (tick == 1_000_000 || tick == configured)
      && n >= 1 && d <= n * tick && (forall k: nat :: k >= 1 && d <= k * tick ==> k >= n)
      && at[n - 1] + tick >= start + d
  {
    hide DeadlineTicks, DivCeil, Pow;
    var tick := Tick(configured);
    var n := DeadlineTicks(Some(d), tick);
    NoClamp(d, tick);
    NthIncrement(at, start, tick, n - 1);
    assert n * tick == (n - 1) * tick + tick;
  }

  lemma NoClamp(d: nat, tick: nat)
    requires tick > 0 && d <= U64_MAX / 2 * tick
    ensures var n := DeadlineTicks(Some(d), tick);
      && n >= 1 && Clamped(n) == n && d <= n * tick && forall k: nat :: k >= 1 && d <= k * tick ==> k >= n
  {
    hide DeadlineTicks, DivCeil;
    DeadlineCoversBudget(d, tick);
    ScaleUp(U64_MAX / 2, U64_MAX, tick);
  }
}
