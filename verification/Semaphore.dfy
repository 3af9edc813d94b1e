/** The scheduler's counting semaphore: a mutex-guarded counter and a condition
    variable. Each critical section is one step; between them threads interleave
    freely, may barge in ahead of waiters, and may wake up spuriously. */
module Semaphore {
  import opened Wrappers

  type Tid = nat

  /** `sleeping` threads wait on the condition variable, `woken` ones have been taken
      off it but have not re-locked the mutex yet. */
  datatype Sem = Sem(permits: nat, sleeping: set<Tid>, woken: set<Tid>, holders: set<Tid>)

  /** `Enter` is the first pass of `acquire`, `Resume` a later one after a wakeup.
      `Release` also names the thread `notify_one` picks, if any sleeps. */
  datatype Step = Enter(t: Tid) | Resume(t: Tid) | Spurious(t: Tid) | Release(t: Tid, notified: Option<Tid>)

  function New(permits: nat): Sem {
    Sem(permits, {}, {}, {})
  }

  ghost predicate Outside(s: Sem, t: Tid) {
    t !in s.sleeping && t !in s.woken && t !in s.holders
  }

  ghost predicate Enabled(s: Sem, step: Step) {
    match step
    case Enter(t) => Outside(s, t)
    case Resume(t) => t in s.woken
    case Spurious(t) => t in s.sleeping
    case Release(t, notified) =>
      t in s.holders && (if s.sleeping == {} then notified.None? else notified.Some? && notified.value in s.sleeping)
  }

  /** The loop test of `acquire`: take a permit, or go (back) to sleep. */
  ghost function TakeOrSleep(s: Sem, t: Tid): Sem {
    if s.permits > 0 then s.(permits := s.permits - 1, holders := s.holders + {t})
    else s.(sleeping := s.sleeping + {t})
  }

  ghost function Apply(s: Sem, step: Step): Sem
    requires Enabled(s, step)
  {
    match step
    case Enter(t) => TakeOrSleep(s, t)
    case Resume(t) => TakeOrSleep(s.(woken := s.woken - {t}), t)
    case Spurious(t) => s.(sleeping := s.sleeping - {t}, woken := s.woken + {t})
    case Release(t, notified) =>
      var freed := s.(permits := s.permits + 1, holders := s.holders - {t});
      match notified
      case None => freed
      case Some(w) => freed.(sleeping := freed.sleeping - {w}, woken := freed.woken + {w})
  }

  /** Permits are conserved, a thread is in one place, and while anyone sleeps every
      free permit has a woken thread on its way to it. */
  ghost predicate Inv(s: Sem, capacity: nat) {
    && s.permits + |s.holders| == capacity
    && (forall t <- s.sleeping :: t !in s.woken && t !in s.holders)
    && (forall t <- s.woken :: t !in s.holders)
    && (s.sleeping != {} ==> s.permits <= |s.woken|)
  }

  lemma StepKeepsInv(s: Sem, capacity: nat, step: Step)
    requires Inv(s, capacity) && Enabled(s, step)
    ensures Inv(Apply(s, step), capacity)
  {
  }

  ghost predicate Run(trace: seq<Sem>, steps: seq<Step>) {
    && |trace| == |steps| + 1
    && forall i :: 0 <= i < |steps| ==> Enabled(trace[i], steps[i]) && trace[i + 1] == Apply(trace[i], steps[i])
  }

  /** In every interleaving, no wakeup is lost and no permit appears or vanishes. */
  lemma {:induction false} NoLostWakeup(trace: seq<Sem>, steps: seq<Step>, capacity: nat, i: nat)
    requires Run(trace, steps) && trace[0] == New(capacity) && i < |trace|
    ensures Inv(trace[i], capacity)
  {
    if i > 0 {
      NoLostWakeup(trace, steps, capacity, i - 1);
      StepKeepsInv(trace[i - 1], capacity, steps[i - 1]);
    }
  }

  /** So a sleeper is never stranded: with a free permit some woken thread takes it
      as soon as it runs, and without one some holder is still to release. */
  lemma SleeperIsNotStranded(s: Sem, capacity: nat, t: Tid)
    requires Inv(s, capacity) && capacity >= 1 && t in s.sleeping
    ensures s.permits == 0 ==> s.holders != {}
    ensures s.permits > 0 ==> exists w :: w in s.woken && w in Apply(s, Resume(w)).holders
  {
  }

  // ---- Every waiter can still get in --------------------------------------------------

  lemma NotifiedTakesPermit(s: Sem, h: Tid, t: Tid) returns (trace: seq<Sem>, steps: seq<Step>)
    requires h in s.holders && t in s.sleeping
    ensures Run(trace, steps) && trace[0] == s && t in trace[|trace| - 1].holders
    ensures forall i :: 0 <= i < |steps| ==> !steps[i].Spurious?
  {
    var s1 := Apply(s, Release(h, Some(t)));
    var s2 := Apply(s1, Resume(t));
    trace, steps := [s, s1, s2], [Release(h, Some(t)), Resume(t)];
  }

  lemma WokenTakesPermit(s: Sem, capacity: nat, w: Tid, t: Tid)
    requires Inv(s, capacity) && s.permits > 0 && w in s.woken && t in s.sleeping
    ensures Enabled(s, Resume(w))
    ensures var s1 := Apply(s, Resume(w)); Inv(s1, capacity) && t in s1.sleeping && s1.permits < s.permits
  {
    StepKeepsInv(s, capacity, Resume(w));
  }

  lemma Precede(s: Sem, step: Step, trace: seq<Sem>, steps: seq<Step>)
    requires Enabled(s, step) && Run(trace, steps) && trace[0] == Apply(s, step)
    ensures Run([s] + trace, [step] + steps)
    ensures ([s] + trace)[0] == s && ([s] + trace)[|trace|] == trace[|trace| - 1]
  {
    hide Apply, Enabled;
  }

  /** From any reachable state, and without any spurious wakeup, there is a way for a
      given sleeper to get a permit: woken threads take the free permits, then a
      holder releases and notifies it. */
  lemma {:induction false} SleeperCanAcquire(s: Sem, capacity: nat, t: Tid) returns (trace: seq<Sem>, steps: seq<Step>)
    requires Inv(s, capacity) && capacity >= 1 && t in s.sleeping
    ensures Run(trace, steps) && trace[0] == s && t in trace[|trace| - 1].holders
    ensures forall i :: 0 <= i < |steps| ==> !steps[i].Spurious?
    decreases s.permits
  {
    SleeperIsNotStranded(s, capacity, t);
    if s.permits == 0 {
      var h :| h in s.holders;
      trace, steps := NotifiedTakesPermit(s, h, t);
    } else {
      var w :| w in s.woken;
      hide Inv, Apply, Enabled, Run;
      WokenTakesPermit(s, capacity, w, t);
      var trace', steps' := SleeperCanAcquire(Apply(s, Resume(w)), capacity, t);
      Precede(s, Resume(w), trace', steps');
      trace, steps := [s] + trace', [Resume(w)] + steps';
    }
  }
}
