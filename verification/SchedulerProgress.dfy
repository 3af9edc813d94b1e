/** Every task the scheduler accepted can still finish: from each state of each run there
    is a continuation, without spurious wakeups, that ends it. */
module SchedulerProgress {
  import opened Wrappers
  import opened Scheduler
  import Sem = Semaphore

  /** A thread that has given its permit back is not in the semaphore. */
  ghost predicate DoneOutside(s: State) {
    forall id <- s.tasks :: s.tasks[id].phase.Done? && s.tasks[id].guest in s.sems ==>
      Sem.Outside(s.sems[s.tasks[id].guest], id)
  }

  ghost predicate Good(s: State) {
    Inv(s) && DoneOutside(s)
  }

  lemma SemStepLeavesOutside(s: State, step: Step)
    requires Inv(s) && DoneOutside(s) && Enabled(s, step) && (step.AcquireStep? || step.ReleasePermit?)
    ensures DoneOutside(Apply(s, step))
  {
    hide Sem.Apply, Sem.Enabled, WaiterInv, Fits;
    var id, g := step.id, s.tasks[step.id].guest;
    assert TaskInv(s, id) && SemInv(s, g);
    SemMembers(s.sems[g], SemPart(step));
    ReleasedIsOutside(s.sems[g], s.perGuest, SemPart(step));
  }

  lemma ReleasedIsOutside(m: Sem.Sem, capacity: nat, step: Sem.Step)
    requires Sem.Inv(m, capacity) && Sem.Enabled(m, step)
    ensures step.Release? ==> Sem.Outside(Sem.Apply(m, step), step.t)
  {
  }

  lemma StepKeepsGood(s: State, step: Step)
    requires Good(s) && Enabled(s, step)
    ensures Good(Apply(s, step))
  {
    StepKeepsInv(s, step);
    if step.AcquireStep? || step.ReleasePermit? {
      SemStepLeavesOutside(s, step);
    } else {
      OtherStepLeavesOutside(s, step);
    }
    hide Inv, DoneOutside, Apply, Enabled;
  }

  lemma OtherStepLeavesOutside(s: State, step: Step)
    requires Inv(s) && DoneOutside(s) && Enabled(s, step) && !step.AcquireStep? && !step.ReleasePermit?
    ensures DoneOutside(Apply(s, step))
  {
    hide SemInv, WaiterInv, Fits, Sem.Outside;
    var s' := Apply(s, step);
    forall id <- s'.tasks | s'.tasks[id].phase.Done? && s'.tasks[id].guest in s'.sems
      ensures Sem.Outside(s'.sems[s'.tasks[id].guest], id)
    {
      assert id in s.tasks && TaskInv(s, id);
    }
  }

  lemma {:induction false} RunKeepsGood(trace: seq<State>, steps: seq<Step>, perGuest: nat, i: nat)
    requires Run(trace, steps) && trace[0] == New(perGuest) && i < |trace|
    ensures Good(trace[i])
  {
    if i == 0 {
      NewInv(perGuest);
    } else {
      hide Good, Apply, Enabled;
      RunKeepsGood(trace, steps, perGuest, i - 1);
      StepKeepsGood(trace[i - 1], steps[i - 1]);
    }
  }

  // ---- Runs without outside help -------------------------------------------------------------

  /** Steps of tasks already accepted, none of them a spurious wakeup. */
  predicate Calm(step: Step) {
    match step
    case Schedule(_, _) => false
    case Wait(_, _, _) => false
    case WakeWaiter(_) => false
    case AcquireStep(_, sem) => !sem.Spurious?
    case _ => true
  }

  ghost predicate CalmRun(trace: seq<State>, steps: seq<Step>) {
    Run(trace, steps) && Good(trace[|steps|]) && forall step <- steps :: Calm(step)
  }

  lemma OneCalmStep(s: State, step: Step)
    requires Good(s) && Enabled(s, step) && Calm(step)
    ensures CalmRun([s, Apply(s, step)], [step])
  {
    hide Good, Apply, Enabled;
    StepKeepsGood(s, step);
  }

  lemma JoinCalm(t: seq<State>, p: seq<Step>, t': seq<State>, p': seq<Step>)
    requires CalmRun(t, p) && CalmRun(t', p') && t[|p|] == t'[0]
    ensures CalmRun(t + t'[1..], p + p')
    ensures (t + t'[1..])[0] == t[0] && (t + t'[1..])[|p + p'|] == t'[|p'|]
  {
    hide Apply, Enabled, Good;
    var trace, steps, n := t + t'[1..], p + p', |p|;
    assert forall k :: 0 <= k <= n ==> trace[k] == t[k];
    assert forall k :: n <= k <= |steps| ==> trace[k] == t'[k - n];
    assert forall k :: n <= k < |steps| ==> steps[k] == p'[k - n];
  }

  // ---- A permit holder reaches its end by itself ---------------------------------------------

  /** What a task with a permit does next; its calls are answered. */
  ghost function OwnStep(id: TaskId, p: Phase): Step
    requires Holding(p) && !p.Notified?
  {
    match p
    case BackingOff => EndBackoff(id)
    case Looping => SetRunning(id)
    case Invoking => Invoke(id, Response(""))
    case Breaking(_) => SetFinal(id)
    case Inserted => NotifyWaiters(id)
  }

  function Rank(p: Phase): nat {
    match p
    case BackingOff => 5
    case Looping => 4
    case Invoking => 3
    case Breaking(_) => 2
    case Inserted => 1
    case _ => 0
  }

  /** The other tasks and every semaphore are as before. */
  ghost predicate OnlyMoves(s: State, s': State, id: TaskId) {
    && s'.sems == s.sems && s'.perGuest == s.perGuest
    && id in s.tasks && id in s'.tasks && s'.tasks == s.tasks[id := s'.tasks[id]]
    && s'.tasks[id].guest == s.tasks[id].guest
  }

  lemma OwnStepAdvances(s: State, id: TaskId)
    requires id in s.tasks && Holding(s.tasks[id].phase) && !s.tasks[id].phase.Notified?
    ensures var step := OwnStep(id, s.tasks[id].phase);
      && Enabled(s, step) && Calm(step) && OnlyMoves(s, Apply(s, step), id)
      && Holding(Apply(s, step).tasks[id].phase) && Rank(Apply(s, step).tasks[id].phase) < Rank(s.tasks[id].phase)
  {
  }

  lemma NotifiedIsTerminal(s: State, id: TaskId)
    requires Inv(s) && InPhase(s, id, Notified)
    ensures id in s.statuses && Terminal(s.statuses[id])
  {
    hide SemInv, WaiterInv;
    assert TaskInv(s, id);
  }

  lemma {:induction false} ReachesEnd(s: State, id: TaskId) returns (trace: seq<State>, steps: seq<Step>)
    requires Good(s) && id in s.tasks && Holding(s.tasks[id].phase)
    ensures |trace| == |steps| + 1 && CalmRun(trace, steps) && trace[0] == s
    ensures var e := trace[|steps|]; OnlyMoves(s, e, id) && InPhase(e, id, Notified) && Good(e)
    decreases Rank(s.tasks[id].phase)
  {
    hide Good, Apply, Enabled;
    trace, steps := [s], [];
    if !s.tasks[id].phase.Notified? {
      OwnStepAdvances(s, id);
      var step := OwnStep(id, s.tasks[id].phase);
      OneCalmStep(s, step);
      StepKeepsGood(s, step);
      hide CalmRun;
      var t, p := ReachesEnd(Apply(s, step), id);
      JoinCalm([s, Apply(s, step)], [step], t, p);
      trace, steps := [s, Apply(s, step)] + t[1..], [step] + p;
    }
  }

  // ---- A queued task gets a permit -------------------------------------------------------------

  ghost function SemOf(s: State, id: TaskId): Sem.Sem
    requires id in s.tasks && s.tasks[id].guest in s.sems
  {
    s.sems[s.tasks[id].guest]
  }

  /** A task that waits for a permit, with its semaphore. */
  ghost predicate Waiting(s: State, id: TaskId) {
    InPhase(s, id, Queueing) && s.tasks[id].guest in s.sems && id !in SemOf(s, id).holders
  }

  ghost function TakeStep(m: Sem.Sem, id: TaskId): Step {
    AcquireStep(id, if id in m.woken then Sem.Resume(id) else Sem.Enter(id))
  }

  /** Awake and with a free permit, it takes one. */
  lemma TakesPermit(s: State, id: TaskId)
    requires Waiting(s, id) && id !in SemOf(s, id).sleeping && SemOf(s, id).permits > 0
    ensures var m, step := SemOf(s, id), TakeStep(SemOf(s, id), id);
      && Enabled(s, step) && Calm(step)
      && var s' := Apply(s, step);
         && id in s'.tasks && s'.tasks[id].phase.Looping? && s'.tasks == s.tasks[id := s'.tasks[id]]
         && s'.sems.Keys == s.sems.Keys && s'.tasks[id].guest == s.tasks[id].guest
         && SemOf(s', id) == m.(permits := m.permits - 1, woken := m.woken - {id}, holders := m.holders + {id})
  {
    var m := SemOf(s, id);
    if id !in m.woken {
      assert m.woken - {id} == m.woken;
    }
  }

  ghost function Notify(m: Sem.Sem, id: TaskId): Option<Sem.Tid> {
    if m.sleeping == {} then None else if id in m.sleeping then Some(id) else Some(var w :| w in m.sleeping; w)
  }

  /** A finished holder releases its permit and wakes `id` if it sleeps. */
  lemma ReleasesPermit(s: State, h: TaskId, id: TaskId)
    requires InPhase(s, h, Notified) && Waiting(s, id) && s.tasks[h].guest == s.tasks[id].guest && h != id
    requires h in SemOf(s, id).holders
    ensures var step := ReleasePermit(h, Notify(SemOf(s, id), id));
      && Enabled(s, step) && Calm(step)
      && Waiting(Apply(s, step), id)
      && id !in SemOf(Apply(s, step), id).sleeping && SemOf(Apply(s, step), id).permits > 0
  {
  }

  /** The threads in a semaphore that do not hold a permit are queued tasks of its guest. */
  lemma WaitersAreQueued(s: State, id: TaskId, w: TaskId)
    requires Good(s) && Waiting(s, id) && (w in SemOf(s, id).woken || w in SemOf(s, id).sleeping)
    ensures Waiting(s, w) && s.tasks[w].guest == s.tasks[id].guest && w !in SemOf(s, id).holders
  {
    hide Fits, WaiterInv;
    assert SemInv(s, s.tasks[id].guest);
    assert !Sem.Outside(SemOf(s, id), w);
    assert TaskInv(s, w);
  }

  lemma SomeHolder(s: State, id: TaskId) returns (h: TaskId)
    requires Inv(s) && Waiting(s, id) && SemOf(s, id).permits == 0
    ensures h in SemOf(s, id).holders && h in s.tasks && h != id
    ensures s.tasks[h].guest == s.tasks[id].guest && Holding(s.tasks[h].phase)
  {
    hide Fits, WaiterInv;
    assert SemInv(s, s.tasks[id].guest);
    h :| h in SemOf(s, id).holders;
    assert !Sem.Outside(SemOf(s, id), h);
    assert TaskInv(s, h);
  }

  lemma TakeRun(s: State, id: TaskId) returns (trace: seq<State>, steps: seq<Step>)
    requires Good(s) && Waiting(s, id) && id !in SemOf(s, id).sleeping && SemOf(s, id).permits > 0
    ensures |trace| == 2 && |steps| == 1 && CalmRun(trace, steps) && trace[0] == s && Good(trace[1])
    ensures var m, s' := SemOf(s, id), trace[1];
      && id in s'.tasks && s'.tasks[id].phase.Looping? && s'.tasks == s.tasks[id := s'.tasks[id]]
      && s'.sems.Keys == s.sems.Keys && s'.tasks[id].guest == s.tasks[id].guest
      && SemOf(s', id) == m.(permits := m.permits - 1, woken := m.woken - {id}, holders := m.holders + {id})
  {
    hide Good, CalmRun, Apply, Enabled;
    TakesPermit(s, id);
    var step := TakeStep(SemOf(s, id), id);
    OneCalmStep(s, step);
    StepKeepsGood(s, step);
    trace, steps := [s, Apply(s, step)], [step];
  }

  /** With no free permit, a holder runs to its end and hands its permit on. */
  lemma HandOver(s: State, id: TaskId) returns (trace: seq<State>, steps: seq<Step>)
    requires Good(s) && Waiting(s, id) && SemOf(s, id).permits == 0
    ensures |trace| == |steps| + 1 && CalmRun(trace, steps) && trace[0] == s
    ensures var e := trace[|steps|];
      Good(e) && Waiting(e, id) && id !in SemOf(e, id).sleeping && SemOf(e, id).permits > 0
  {
    hide CalmRun, Apply, Enabled, Inv, DoneOutside;
    var h := SomeHolder(s, id);
    trace, steps := ReachesEnd(s, h);
    var e := trace[|steps|];
    ReleasesPermit(e, h, id);
    var step := ReleasePermit(h, Notify(SemOf(e, id), id));
    OneCalmStep(e, step);
    StepKeepsGood(e, step);
    JoinCalm(trace, steps, [e, Apply(e, step)], [step]);
    trace, steps := trace + [e, Apply(e, step)][1..], steps + [step];
  }

  lemma {:induction false} GetsPermit(s: State, id: TaskId) returns (trace: seq<State>, steps: seq<Step>)
    requires Good(s) && Waiting(s, id)
    ensures |trace| == |steps| + 1 && CalmRun(trace, steps) && trace[0] == s
    ensures var e := trace[|steps|]; Good(e) && id in e.tasks && Holding(e.tasks[id].phase)
    decreases SemOf(s, id).permits
  {
    hide CalmRun, Good;
    if SemOf(s, id).permits > 0 && id !in SemOf(s, id).sleeping {
      trace, steps := TakeRun(s, id);
    } else {
      var t, p;
      if SemOf(s, id).permits == 0 {
        trace, steps := HandOver(s, id);
        t, p := TakeRun(trace[|steps|], id);
      } else {
        var w := SomeWoken(s, id);
        trace, steps := TakeRun(s, w);
        t, p := GetsPermit(trace[|steps|], id);
      }
      JoinCalm(trace, steps, t, p);
      trace, steps := trace + t[1..], steps + p;
    }
  }

  lemma SomeWoken(s: State, id: TaskId) returns (w: TaskId)
    requires Good(s) && Waiting(s, id) && SemOf(s, id).permits > 0 && id in SemOf(s, id).sleeping
    ensures w != id && Waiting(s, w) && s.tasks[w].guest == s.tasks[id].guest && w !in SemOf(s, id).sleeping
  {
    assert SemInv(s, s.tasks[id].guest);
    w :| w in SemOf(s, id).woken;
    WaitersAreQueued(s, id, w);
  }

  lemma UnfinishedTask(s: State, id: TaskId)
    requires Inv(s) && id in s.tasks && id in s.statuses && !Terminal(s.statuses[id])
    ensures Waiting(s, id) || Holding(s.tasks[id].phase)
  {
    hide SemInv, WaiterInv;
    assert TaskInv(s, id);
  }

  /** From every state of every run, and for every task not yet terminal, there is a way
      on, without spurious wakeups or new tasks, to a state where it is. */
  lemma EveryTaskCanFinish(trace: seq<State>, steps: seq<Step>, perGuest: nat, i: nat, id: TaskId)
    returns (onward: seq<State>, taken: seq<Step>)
    requires Run(trace, steps) && trace[0] == New(perGuest) && i < |trace|
    requires id in trace[i].statuses && !Terminal(trace[i].statuses[id])
    ensures |onward| == |taken| + 1 && Run(onward, taken) && onward[0] == trace[i] && forall step <- taken :: Calm(step)
    ensures var e := onward[|taken|]; id in e.statuses && Terminal(e.statuses[id])
  {
    RunKeepsGood(trace, steps, perGuest, i);
    var s := trace[i];
    assert id in s.tasks;
    UnfinishedTask(s, id);
    hide Inv, DoneOutside, Apply, Enabled;
    if Holding(s.tasks[id].phase) {
      onward, taken := ReachesEnd(s, id);
    } else {
      onward, taken := GetsPermit(s, id);
      var t, p := ReachesEnd(onward[|taken|], id);
      JoinCalm(onward, taken, t, p);
      onward, taken := onward + t[1..], taken + p;
    }
    NotifiedIsTerminal(onward[|taken|], id);
  }
}
