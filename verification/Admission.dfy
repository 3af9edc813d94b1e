/** Admission control of one guest: a queue semaphore that sheds load and a
    concurrency semaphore that bounds running calls, under every interleaving of
    admissions, cancellations while waiting, and the two-stage drop of a permit. */
module Admission {

  /** Where one invocation is. `Reserved` holds a queue permit; `Queued` is also
      counted in the gauge and waits for a concurrency permit; `Granted` has it but
      is still counted. A finished call gives back its queue permit (`QueueFreed`)
      and then its concurrency permit. A call cancelled while waiting drops its gauge
      guard (`Uncounted`) and then its queue permit. */
  datatype Phase = Reserved | Queued | Granted | Running | QueueFreed | Uncounted | Rejected | Ended

  datatype Slot = Slot(
    capacity: nat, queueLimit: nat, concurrencyFree: nat, queueFree: nat, queued: int, rejected: nat,
    calls: map<nat, Phase>)

  datatype Step =
    | Arrive(call: nat)
    | EnterGuard(call: nat)
    | Acquire(call: nat)
    | DropGuard(call: nat)
    | Cancel(call: nat)
    | FreeQueueAfterCancel(call: nat)
    | FreeQueue(call: nat)
    | FreeConcurrency(call: nat)

  /** At least one call may run, and the queue is at least as deep as that. */
  function New(guestConcurrency: nat, queueLimit: nat): (s: Slot)
    ensures 1 <= s.capacity <= s.queueLimit
  {
    var capacity := if guestConcurrency < 1 then 1 else guestConcurrency;
    var queue := if queueLimit < capacity then capacity else queueLimit;
    Slot(capacity, queue, capacity, queue, 0, 0, map[])
  }

  ghost predicate At(s: Slot, call: nat, phase: Phase) {
    call in s.calls && s.calls[call] == phase
  }

  ghost predicate Enabled(s: Slot, step: Step) {
    match step
    case Arrive(c) => c !in s.calls
    case EnterGuard(c) => At(s, c, Reserved)
    case Acquire(c) => At(s, c, Queued) && s.concurrencyFree > 0
    case DropGuard(c) => At(s, c, Granted)
    case Cancel(c) => At(s, c, Queued)
    case FreeQueueAfterCancel(c) => At(s, c, Uncounted)
    case FreeQueue(c) => At(s, c, Running)
    case FreeConcurrency(c) => At(s, c, QueueFreed)
  }

  ghost function Apply(s: Slot, step: Step): Slot
    requires Enabled(s, step)
  {
    match step
    case Arrive(c) =>
      if s.queueFree > 0 then s.(queueFree := s.queueFree - 1, calls := s.calls[c := Reserved])
      else s.(rejected := s.rejected + 1, calls := s.calls[c := Rejected])
    case EnterGuard(c) => s.(queued := s.queued + 1, calls := s.calls[c := Queued])
    case Acquire(c) => s.(concurrencyFree := s.concurrencyFree - 1, calls := s.calls[c := Granted])
    case DropGuard(c) => s.(queued := s.queued - 1, calls := s.calls[c := Running])
    case Cancel(c) => s.(queued := s.queued - 1, calls := s.calls[c := Uncounted])
    case FreeQueueAfterCancel(c) => s.(queueFree := s.queueFree + 1, calls := s.calls[c := Ended])
    case FreeQueue(c) => s.(queueFree := s.queueFree + 1, calls := s.calls[c := QueueFreed])
    case FreeConcurrency(c) => s.(concurrencyFree := s.concurrencyFree + 1, calls := s.calls[c := Ended])
  }

  // ---- Counting invocations ----------------------------------------------------------

  datatype Holding = QueuePermit | ConcurrencyPermit | Gauge | Rejection

  /** Which invocations hold a permit, are counted as queued, or were turned away. */
  predicate Holds(p: Phase, what: Holding) {
    match what
    case QueuePermit => p.Reserved? || p.Queued? || p.Granted? || p.Running? || p.Uncounted?
    case ConcurrencyPermit => p.Granted? || p.Running? || p.QueueFreed?
    case Gauge => p.Queued? || p.Granted?
    case Rejection => p.Rejected?
  }

  ghost function Those(calls: map<nat, Phase>, what: Holding): set<nat> {
    set c | c in calls && Holds(calls[c], what)
  }

  ghost function One(b: bool): int {
    if b then 1 else 0
  }

  lemma InThose(calls: map<nat, Phase>, what: Holding, c: nat)
    ensures c in Those(calls, what) <==> c in calls && Holds(calls[c], what)
  {
  }

  lemma OthersStay(calls: map<nat, Phase>, c: nat, p: Phase, what: Holding)
    ensures Those(calls[c := p], what) - {c} == Those(calls, what) - {c}
  {
    hide Holds;
  }

  lemma Recount(calls: map<nat, Phase>, c: nat, p: Phase, what: Holding)
    ensures |Those(calls[c := p], what)|
         == |Those(calls, what)| - One(c in calls && Holds(calls[c], what)) + One(Holds(p, what))
  {
    hide Holds, Those;
    OthersStay(calls, c, p, what);
    InThose(calls, what, c);
    InThose(calls[c := p], what, c);
    WithoutOne(Those(calls, what), c);
    WithoutOne(Those(calls[c := p], what), c);
  }

  lemma WithoutOne(s: set<nat>, c: nat)
    ensures |s| == |s - {c}| + One(c in s)
  {
    if c !in s {
      assert s - {c} == s;
    }
  }

  // ---- What every step keeps -------------------------------------------------------------

  ghost predicate Inv(s: Slot) {
    && s.queueFree + |Those(s.calls, QueuePermit)| == s.queueLimit
    && s.concurrencyFree + |Those(s.calls, ConcurrencyPermit)| == s.capacity
    && s.queued == |Those(s.calls, Gauge)|
    && s.rejected == |Those(s.calls, Rejection)|
  }

  lemma StepKeepsInv(s: Slot, step: Step)
    requires Inv(s) && Enabled(s, step)
    ensures Inv(Apply(s, step))
    ensures Apply(s, step).capacity == s.capacity && Apply(s, step).queueLimit == s.queueLimit
  {
    var c, p := step.call, Apply(s, step).calls[step.call];
    Recount(s.calls, c, p, QueuePermit);
    Recount(s.calls, c, p, ConcurrencyPermit);
    Recount(s.calls, c, p, Gauge);
    Recount(s.calls, c, p, Rejection);
  }

  ghost predicate Run(trace: seq<Slot>, steps: seq<Step>) {
    && |trace| == |steps| + 1
    && forall i :: 0 <= i < |steps| ==> Enabled(trace[i], steps[i]) && trace[i + 1] == Apply(trace[i], steps[i])
  }

  lemma {:induction false} RunKeepsInv(trace: seq<Slot>, steps: seq<Step>, concurrency: nat, limit: nat, i: nat)
    requires Run(trace, steps) && trace[0] == New(concurrency, limit) && i < |trace|
    ensures Inv(trace[i])
    ensures trace[i].capacity == trace[0].capacity && trace[i].queueLimit == trace[0].queueLimit
  {
    if i > 0 {
      RunKeepsInv(trace, steps, concurrency, limit, i - 1);
      StepKeepsInv(trace[i - 1], steps[i - 1]);
    }
  }

  function Greatest(a: nat, b: nat, c: nat): (m: nat)
    ensures m >= a && m >= b && m >= c && m in {a, b, c}
  {
    if a < b then (if b < c then c else b) else if a < c then c else a
  }

  /** At every moment of every interleaving: held concurrency permits stay within the
      capacity, queue permits within the queue depth, and the gauge counts exactly the
      calls that are waiting or about to stop waiting. */
  lemma BoundsHold(trace: seq<Slot>, steps: seq<Step>, concurrency: nat, limit: nat, i: nat)
    requires Run(trace, steps) && trace[0] == New(concurrency, limit) && i < |trace|
    ensures var s := trace[i];
      && |Those(s.calls, ConcurrencyPermit)| <= (if concurrency < 1 then 1 else concurrency)
      && |Those(s.calls, QueuePermit)| <= Greatest(1, concurrency, limit)
      && s.queued == |Those(s.calls, Gauge)| && s.rejected == |Those(s.calls, Rejection)|
  {
    RunKeepsInv(trace, steps, concurrency, limit, i);
  }

  /** A request is turned away only when every queue permit is held. */
  lemma RejectedOnlyWhenFull(trace: seq<Slot>, steps: seq<Step>, concurrency: nat, limit: nat, i: nat)
    requires Run(trace, steps) && trace[0] == New(concurrency, limit) && i < |steps|
    requires steps[i].Arrive? && trace[i + 1].calls[steps[i].call].Rejected?
    ensures |Those(trace[i].calls, QueuePermit)| == Greatest(1, concurrency, limit)
  {
    RunKeepsInv(trace, steps, concurrency, limit, i);
  }

  /** A call waits only while all concurrency permits are held by calls that will
      give them back. */
  lemma WaitsOnlyWhenSaturated(trace: seq<Slot>, steps: seq<Step>, concurrency: nat, limit: nat, i: nat, c: nat)
    requires Run(trace, steps) && trace[0] == New(concurrency, limit) && i < |trace|
    requires At(trace[i], c, Queued) && !Enabled(trace[i], Acquire(c))
    ensures |Those(trace[i].calls, ConcurrencyPermit)| == if concurrency < 1 then 1 else concurrency
  {
    RunKeepsInv(trace, steps, concurrency, limit, i);
  }

  /** Once every invocation has ended, nothing is leaked. */
  lemma AllPermitsReturn(trace: seq<Slot>, steps: seq<Step>, concurrency: nat, limit: nat, i: nat)
    requires Run(trace, steps) && trace[0] == New(concurrency, limit) && i < |trace|
    requires forall c <- trace[i].calls :: trace[i].calls[c].Ended? || trace[i].calls[c].Rejected?
    ensures trace[i].concurrencyFree == trace[i].capacity
    ensures trace[i].queueFree == trace[i].queueLimit
    ensures trace[i].queued == 0
  {
    RunKeepsInv(trace, steps, concurrency, limit, i);
    NothingHeld(trace[i]);
  }

  lemma NothingHeld(s: Slot)
    requires Inv(s) && forall c <- s.calls :: !Live(s.calls[c])
    ensures s.concurrencyFree == s.capacity && s.queueFree == s.queueLimit && s.queued == 0
  {
    assert Those(s.calls, QueuePermit) == {};
    assert Those(s.calls, ConcurrencyPermit) == {};
    assert Those(s.calls, Gauge) == {};
  }

  // ---- Every invocation can end --------------------------------------------------------------

  /** The step an unfinished call is waiting to take, if it has one of its own. */
  ghost function Advance(c: nat, p: Phase): Step
    requires !p.Ended? && !p.Rejected?
  {
    match p
    case Reserved => EnterGuard(c)
    case Queued => Acquire(c)
    case Granted => DropGuard(c)
    case Running => FreeQueue(c)
    case QueueFreed => FreeConcurrency(c)
    case Uncounted => FreeQueueAfterCancel(c)
  }

  predicate Live(p: Phase) {
    !p.Ended? && !p.Rejected?
  }

  /** No deadlock: while any invocation is unfinished, one of them can advance. */
  lemma SomeoneCanAdvance(s: Slot, c: nat) returns (d: nat)
    requires Inv(s) && s.capacity >= 1 && c in s.calls && Live(s.calls[c])
    ensures d in s.calls && Live(s.calls[d]) && Enabled(s, Advance(d, s.calls[d]))
  {
    if s.calls[c].Queued? && s.concurrencyFree == 0 {
      assert Those(s.calls, ConcurrencyPermit) != {};
      d :| d in Those(s.calls, ConcurrencyPermit);
    } else {
      d := c;
    }
  }

  // ---- Draining --------------------------------------------------------------------------------

  predicate Draining(step: Step) {
    !step.Arrive? && !step.Cancel?
  }

  ghost predicate DrainRun(trace: seq<Slot>, steps: seq<Step>) {
    Run(trace, steps) && forall step <- steps :: Draining(step)
  }

  lemma JoinDrains(t: seq<Slot>, p: seq<Step>, t': seq<Slot>, p': seq<Step>)
    requires DrainRun(t, p) && DrainRun(t', p') && t[|p|] == t'[0]
    ensures DrainRun(t + t'[1..], p + p')
    ensures (t + t'[1..])[0] == t[0] && (t + t'[1..])[|p + p'|] == t'[|p'|]
  {
    hide Apply, Enabled;
    var trace, steps, n := t + t'[1..], p + p', |p|;
    assert forall k :: 0 <= k <= n ==> trace[k] == t[k];
    assert forall k :: n <= k <= |steps| ==> trace[k] == t'[k - n];
    assert forall k :: n <= k < |steps| ==> steps[k] == p'[k - n];
  }

  /** How many steps of its own a call is from its end. */
  function Remaining(p: Phase): nat {
    match p
    case Reserved => 5
    case Queued => 4
    case Granted => 3
    case Running => 2
    case QueueFreed => 1
    case Uncounted => 1
    case Rejected => 0
    case Ended => 0
  }

  /** A call that holds what it needs, or can get it, advances. */
  lemma AdvanceOne(s: Slot, c: nat)
    requires Inv(s) && c in s.calls && Live(s.calls[c])
    requires s.calls[c].Reserved? || s.calls[c].Queued? ==> s.concurrencyFree > 0
    ensures Enabled(s, Advance(c, s.calls[c])) && Draining(Advance(c, s.calls[c]))
    ensures var s' := Apply(s, Advance(c, s.calls[c]));
      && Inv(s') && s'.capacity == s.capacity && c in s'.calls && s'.calls == s.calls[c := s'.calls[c]]
      && !s'.calls[c].Rejected? && Remaining(s'.calls[c]) < Remaining(s.calls[c])
      && (s'.calls[c].Queued? ==> s'.concurrencyFree > 0) && !s'.calls[c].Reserved?
  {
    hide Inv;
    StepKeepsInv(s, Advance(c, s.calls[c]));
  }

  /** It runs to its end by itself, leaving the others where they were. */
  lemma {:induction false} FinishCall(s: Slot, c: nat) returns (trace: seq<Slot>, steps: seq<Step>)
    requires Inv(s) && c in s.calls && Live(s.calls[c])
    requires s.calls[c].Reserved? || s.calls[c].Queued? ==> s.concurrencyFree > 0
    ensures |trace| == |steps| + 1 && DrainRun(trace, steps) && trace[0] == s
    ensures var e := trace[|steps|]; Inv(e) && e.capacity == s.capacity && e.calls == s.calls[c := Ended]
    decreases Remaining(s.calls[c])
  {
    AdvanceOne(s, c);
    hide Inv, Enabled, Apply;
    var step := Advance(c, s.calls[c]);
    var s' := Apply(s, step);
    trace, steps := [s, s'], [step];
    if Live(s'.calls[c]) {
      var trace', steps' := FinishCall(s', c);
      JoinDrains(trace, steps, trace', steps');
      trace, steps := trace + trace'[1..], steps + steps';
    }
  }

  ghost function LiveCalls(s: Slot): set<nat> {
    set c | c in s.calls && Live(s.calls[c])
  }

  /** Some live call can run to its end at once: one that has its permit, or any when all
      permits are free. */
  lemma ReadyCall(s: Slot) returns (c: nat)
    requires Inv(s) && s.capacity >= 1 && LiveCalls(s) != {}
    ensures c in LiveCalls(s) && (s.calls[c].Reserved? || s.calls[c].Queued? ==> s.concurrencyFree > 0)
  {
    if holder :| holder in Those(s.calls, ConcurrencyPermit) {
      c := holder;
    } else {
      assert Those(s.calls, ConcurrencyPermit) == {};
      c :| c in LiveCalls(s);
    }
  }

  lemma {:induction false} DrainFrom(s: Slot) returns (trace: seq<Slot>, steps: seq<Step>)
    requires Inv(s) && s.capacity >= 1
    ensures |trace| == |steps| + 1 && DrainRun(trace, steps) && trace[0] == s
    ensures var e := trace[|steps|]; Inv(e) && e.capacity == s.capacity && LiveCalls(e) == {}
    decreases LiveCalls(s)
  {
    hide Inv, DrainRun;
    if LiveCalls(s) == {} {
      trace, steps := [s], [];
      NothingToDrain(s);
    } else {
      var c := ReadyCall(s);
      trace, steps := FinishCall(s, c);
      assert LiveCalls(trace[|steps|]) == LiveCalls(s) - {c};
      var trace', steps' := DrainFrom(trace[|steps|]);
      JoinDrains(trace, steps, trace', steps');
      trace, steps := trace + trace'[1..], steps + steps';
    }
  }

  lemma NothingToDrain(s: Slot)
    ensures DrainRun([s], [])
  {
  }

  /** From every state of every run, calls alone, without arrivals or cancellations, can
      all come to their end, and then every permit is free. */
  lemma EveryoneCanFinish(trace: seq<Slot>, steps: seq<Step>, concurrency: nat, limit: nat, i: nat)
    returns (onward: seq<Slot>, taken: seq<Step>)
    requires Run(trace, steps) && trace[0] == New(concurrency, limit) && i < |trace|
    ensures |onward| == |taken| + 1 && DrainRun(onward, taken) && onward[0] == trace[i]
    ensures var e := onward[|taken|];
      && (forall c <- e.calls :: e.calls[c].Ended? || e.calls[c].Rejected?)
      && e.concurrencyFree == e.capacity && e.queued == 0 && e.queueFree == e.queueLimit
  {
    RunKeepsInv(trace, steps, concurrency, limit, i);
    hide Inv, Run, DrainRun;
    onward, taken := DrainFrom(trace[i]);
    var e := onward[|taken|];
    assert forall c <- e.calls :: Live(e.calls[c]) ==> c in LiveCalls(e);
    NothingHeld(e);
  }
}
