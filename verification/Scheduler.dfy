/** The task scheduler: worker threads that queue on a per-guest semaphore, run a
    guest call with retries and report a status, and callers that block until a
    task is terminal. Every lock-protected section is one step; a guest call returns
    an arbitrary outcome. */
module Scheduler {
  import opened Wrappers
  import Sem = Semaphore

  type TaskId = nat
  type Guest = string

  datatype Status = Queued | Running | Completed(response: string) | TimedOut | Failed(reason: string)

  predicate Terminal(s: Status) {
    s.Completed? || s.TimedOut? || s.Failed?
  }

  datatype Outcome = Response(response: string) | Timeout | Error(reason: string)

  function FailureStatus(o: Outcome): Status
    requires !o.Response?
  {
    if o.Timeout? then TimedOut else Failed(o.reason)
  }

  /** Where a worker thread is. `Queueing` lasts from its start until it holds a
      permit; `Breaking` has left the attempt loop with a final status; the final
      status is inserted before waiters are notified, and the permit goes last. */
  datatype Phase = Queueing | Looping | Invoking | BackingOff | Breaking(final: Status) | Inserted | Notified | Done

  datatype Task = Task(guest: Guest, maxRetries: nat, phase: Phase, attempt: nat, calls: nat)

  /** A thread inside `wait`, or what its call returned. */
  datatype Waiter = Asleep(id: TaskId) | Awake(id: TaskId) | Returned(id: TaskId, result: Option<Status>)

  datatype State = State(
    perGuest: nat,
    next: TaskId,
    tasks: map<TaskId, Task>,
    statuses: map<TaskId, Status>,
    sems: map<Guest, Sem.Sem>,
    waiters: map<nat, Waiter>)

  datatype Step =
    | Schedule(guest: Guest, maxRetries: nat)
    | AcquireStep(id: TaskId, sem: Sem.Step)
    | SetRunning(id: TaskId)
    | Invoke(id: TaskId, outcome: Outcome)
    | EndBackoff(id: TaskId)
    | SetFinal(id: TaskId)
    | NotifyWaiters(id: TaskId)
    | ReleasePermit(id: TaskId, notified: Option<Sem.Tid>)
    | Wait(w: nat, task: TaskId, expired: bool)
    | WakeWaiter(w: nat)
    | Recheck(w: nat, expired: bool)

  function New(perGuestConcurrency: nat): State {
    State(if perGuestConcurrency < 1 then 1 else perGuestConcurrency, 0, map[], map[], map[], map[])
  }

  ghost predicate InPhase(s: State, id: TaskId, phase: Phase) {
    id in s.tasks && s.tasks[id].phase == phase
  }

  ghost predicate Enabled(s: State, step: Step) {
    match step
    case Schedule(_, _) => true
    case AcquireStep(id, sem) =>
      && InPhase(s, id, Queueing) && s.tasks[id].guest in s.sems
      && !sem.Release? && sem.t == id && Sem.Enabled(s.sems[s.tasks[id].guest], sem)
    case SetRunning(id) => InPhase(s, id, Looping)
    case Invoke(id, _) => InPhase(s, id, Invoking)
    case EndBackoff(id) => InPhase(s, id, BackingOff)
    case SetFinal(id) => id in s.tasks && s.tasks[id].phase.Breaking?
    case NotifyWaiters(id) => InPhase(s, id, Inserted)
    case ReleasePermit(id, notified) =>
      && InPhase(s, id, Notified) && s.tasks[id].guest in s.sems
      && Sem.Enabled(s.sems[s.tasks[id].guest], Sem.Release(id, notified))
    case Wait(w, _, _) => w !in s.waiters
    case WakeWaiter(w) => w in s.waiters && s.waiters[w].Asleep?
    case Recheck(w, _) => w in s.waiters && s.waiters[w].Awake?
  }

  /** One pass of the loop in `wait`: a terminal status is returned, an unknown task
      or an expired budget gives up, anything else sleeps. */
  ghost function Check(statuses: map<TaskId, Status>, id: TaskId, expired: bool): Waiter {
    if id !in statuses then Returned(id, None)
    else if Terminal(statuses[id]) then Returned(id, Some(statuses[id]))
    else if expired then Returned(id, None)
    else Asleep(id)
  }

  ghost function Wake(w: Waiter): Waiter {
    if w.Asleep? then Awake(w.id) else w
  }

  /** One pass of the attempt loop. */
  ghost function AfterCall(t: Task, outcome: Outcome): Task {
    t.(calls := t.calls + 1,
       phase := if outcome.Response? then Breaking(Completed(outcome.response))
                else if t.attempt < t.maxRetries then BackingOff
                else Breaking(FailureStatus(outcome)))
  }

  ghost function WithTask(s: State, id: TaskId, t: Task): State {
    s.(tasks := s.tasks[id := t])
  }

  ghost function Apply(s: State, step: Step): State
    requires Enabled(s, step)
  {
    match step
    case Schedule(guest, maxRetries) =>
      s.(next := s.next + 1,
         tasks := s.tasks[s.next := Task(guest, maxRetries, Queueing, 0, 0)],
         statuses := s.statuses[s.next := Queued],
         sems := if guest in s.sems then s.sems else s.sems[guest := Sem.New(s.perGuest)])
    case AcquireStep(id, sem) =>
      var t := s.tasks[id];
      var after := Sem.Apply(s.sems[t.guest], sem);
      WithTask(s.(sems := s.sems[t.guest := after]), id, if id in after.holders then t.(phase := Looping) else t)
    case SetRunning(id) =>
      WithTask(s.(statuses := s.statuses[id := Running]), id, s.tasks[id].(phase := Invoking))
    case Invoke(id, outcome) => WithTask(s, id, AfterCall(s.tasks[id], outcome))
    case EndBackoff(id) =>
      WithTask(s, id, s.tasks[id].(phase := Looping, attempt := s.tasks[id].attempt + 1))
    case SetFinal(id) =>
      WithTask(s.(statuses := s.statuses[id := s.tasks[id].phase.final]), id, s.tasks[id].(phase := Inserted))
    case NotifyWaiters(id) =>
      WithTask(s.(waiters := map w | w in s.waiters :: Wake(s.waiters[w])), id, s.tasks[id].(phase := Notified))
    case ReleasePermit(id, notified) =>
      var g := s.tasks[id].guest;
      WithTask(s.(sems := s.sems[g := Sem.Apply(s.sems[g], Sem.Release(id, notified))]), id,
               s.tasks[id].(phase := Done))
    case Wait(w, id, expired) => s.(waiters := s.waiters[w := Check(s.statuses, id, expired)])
    case WakeWaiter(w) => s.(waiters := s.waiters[w := Awake(s.waiters[w].id)])
    case Recheck(w, expired) => s.(waiters := s.waiters[w := Check(s.statuses, s.waiters[w].id, expired)])
  }

  // ---- What every step keeps ----------------------------------------------------------

  ghost predicate Holding(p: Phase) {
    !p.Queueing? && !p.Done?
  }

  /** How a task may end: at most one call more than it has retries, and a failure
      only after all of them. */
  ghost predicate Ended(t: Task, st: Status) {
    && Terminal(st) && t.calls == t.attempt + 1 && t.calls <= t.maxRetries + 1
    && (st.Completed? || t.calls == t.maxRetries + 1)
  }

  ghost predicate Fits(t: Task, st: Status) {
    match t.phase
    case Queueing => st.Queued? && t.attempt == t.calls == 0
    case Looping => t.calls == t.attempt <= t.maxRetries && (if t.attempt == 0 then st.Queued? else st.Running?)
    case Invoking => t.calls == t.attempt <= t.maxRetries && st.Running?
    case BackingOff => t.calls == t.attempt + 1 && t.attempt < t.maxRetries && st.Running?
    case Breaking(final) => st.Running? && Ended(t, final)
    case _ => Ended(t, st)
  }

  ghost predicate TaskInv(s: State, id: TaskId)
    requires id in s.tasks
  {
    var t := s.tasks[id];
    && id < s.next && id in s.statuses && Fits(t, s.statuses[id])
    && t.guest in s.sems && (id in s.sems[t.guest].holders <==> Holding(t.phase))
  }

  /** A semaphore only ever sees the worker threads of its own guest. */
  ghost predicate SemInv(s: State, g: Guest)
    requires g in s.sems
  {
    && Sem.Inv(s.sems[g], s.perGuest)
    && (forall id :: !Sem.Outside(s.sems[g], id) ==> id in s.tasks && s.tasks[id].guest == g)
  }

  /** A waiter sleeping on a finished task has its notification still to come. */
  ghost predicate WaiterInv(s: State, w: nat)
    requires w in s.waiters
  {
    match s.waiters[w]
    case Asleep(id) => id in s.statuses && (Terminal(s.statuses[id]) ==> InPhase(s, id, Inserted))
    case Awake(id) => id in s.statuses
    case Returned(id, result) =>
      result.Some? ==> id in s.statuses && s.statuses[id] == result.value && Terminal(result.value)
  }

  ghost predicate Inv(s: State) {
    && s.perGuest >= 1
    && s.tasks.Keys == s.statuses.Keys
    && (forall id <- s.tasks :: TaskInv(s, id))
    && (forall g <- s.sems :: SemInv(s, g))
    && (forall w <- s.waiters :: WaiterInv(s, w))
  }

  ghost predicate TaskFrame(s: State, s': State, id: TaskId) {
    && s'.next == s.next
    && id in s'.tasks && s'.tasks == s.tasks[id := s'.tasks[id]]
    && id in s'.statuses && s'.statuses == s.statuses[id := s'.statuses[id]]
    && s'.sems.Keys == s.sems.Keys
    && (forall g, x :: g in s.sems && x != id ==> (x in s'.sems[g].holders <==> x in s.sems[g].holders))
  }

  ghost predicate TaskChange(s: State, s': State, id: TaskId) {
    TaskFrame(s, s', id) && TaskInv(s', id)
  }

  lemma OtherTask(s: State, s': State, id: TaskId, x: TaskId)
    requires TaskFrame(s, s', id) && x in s.tasks && x != id && TaskInv(s, x)
    ensures x in s'.tasks && TaskInv(s', x)
  {
    hide Fits, Holding;
  }

  /** A step of one worker leaves every other task's part alone. */
  lemma OnlyThisTask(s: State, s': State, id: TaskId)
    requires Inv(s) && id in s.tasks && TaskChange(s, s', id)
    ensures s'.tasks.Keys == s'.statuses.Keys && forall x <- s'.tasks :: TaskInv(s', x)
  {
    hide SemInv, WaiterInv, TaskInv;
    forall x <- s'.tasks ensures TaskInv(s', x) {
      if x != id {
        OtherTask(s, s', id, x);
      }
    }
  }

  lemma FitsAfterWorkerStep(s: State, step: Step)
    requires Enabled(s, step)
    requires step.SetRunning? || step.Invoke? || step.EndBackoff? || step.SetFinal? || step.NotifyWaiters?
    requires step.id in s.statuses && Fits(s.tasks[step.id], s.statuses[step.id])
    ensures var s' := Apply(s, step);
      && step.id in s'.tasks && step.id in s'.statuses && Fits(s'.tasks[step.id], s'.statuses[step.id])
      && Holding(s'.tasks[step.id].phase) && Holding(s.tasks[step.id].phase)
      && s'.tasks[step.id].guest == s.tasks[step.id].guest
  {
  }

  lemma WorkerStep(s: State, step: Step)
    requires Inv(s) && Enabled(s, step)
    requires step.SetRunning? || step.Invoke? || step.EndBackoff? || step.SetFinal? || step.NotifyWaiters?
    ensures TaskChange(s, Apply(s, step), step.id)
  {
    hide SemInv, WaiterInv, Fits;
    assert TaskInv(s, step.id);
    FitsAfterWorkerStep(s, step);
  }

  ghost function SemPart(step: Step): Sem.Step
    requires step.AcquireStep? || step.ReleasePermit?
  {
    if step.AcquireStep? then step.sem else Sem.Release(step.id, step.notified)
  }

  lemma SemaphoreKept(s: State, step: Step)
    requires Inv(s) && Enabled(s, step) && (step.AcquireStep? || step.ReleasePermit?)
    ensures SemInv(Apply(s, step), s.tasks[step.id].guest)
  {
    hide Sem.Inv, Sem.Apply, Sem.Enabled, Sem.Outside, WaiterInv, TaskInv;
    var g := s.tasks[step.id].guest;
    assert SemInv(s, g);
    Sem.StepKeepsInv(s.sems[g], s.perGuest, SemPart(step));
    SemMembers(s.sems[g], SemPart(step));
  }

  lemma SemaphoreFrame(s: State, step: Step)
    requires Enabled(s, step) && (step.AcquireStep? || step.ReleasePermit?)
    requires step.id in s.statuses
    ensures TaskFrame(s, Apply(s, step), step.id)
  {
    hide Sem.Apply, Sem.Enabled, Sem.Outside;
    SemMembers(s.sems[s.tasks[step.id].guest], SemPart(step));
  }

  lemma SemaphoreFits(s: State, step: Step)
    requires Enabled(s, step) && (step.AcquireStep? || step.ReleasePermit?)
    requires TaskInv(s, step.id) && Sem.Inv(s.sems[s.tasks[step.id].guest], s.perGuest)
    ensures var s' := Apply(s, step); step.id in s'.tasks && TaskInv(s', step.id)
  {
    hide Sem.Inv, Sem.Apply, Sem.Enabled;
    ReleasedIsGone(s.sems[s.tasks[step.id].guest], s.perGuest, SemPart(step));
  }

  lemma SemaphoreStep(s: State, step: Step)
    requires Inv(s) && Enabled(s, step) && (step.AcquireStep? || step.ReleasePermit?)
    ensures TaskChange(s, Apply(s, step), step.id)
  {
    hide TaskFrame, WaiterInv, Apply, Sem.Inv, Sem.Apply, Sem.Enabled, Sem.Outside, Fits;
    var id, g := step.id, s.tasks[step.id].guest;
    assert TaskInv(s, id) && SemInv(s, g);
    SemaphoreFrame(s, step);
    SemaphoreFits(s, step);
  }

  lemma ReleasedIsGone(m: Sem.Sem, capacity: nat, step: Sem.Step)
    requires Sem.Inv(m, capacity) && Sem.Enabled(m, step)
    ensures step.Release? ==> step.t !in Sem.Apply(m, step).holders
  {
  }

  /** A semaphore step moves its own thread and at most one sleeper it wakes. */
  lemma SemMembers(m: Sem.Sem, step: Sem.Step)
    requires Sem.Enabled(m, step)
    ensures var m' := Sem.Apply(m, step);
      forall x :: x != step.t ==>
        && (x in m'.holders <==> x in m.holders)
        && (!Sem.Outside(m', x) <==> !Sem.Outside(m, x))
  {
  }

  lemma ScheduleKeepsSemaphores(s: State, step: Step)
    requires Inv(s) && step.Schedule?
    ensures var s' := Apply(s, step); forall g <- s'.sems :: SemInv(s', g) && Sem.Outside(s'.sems[g], s.next)
  {
    hide WaiterInv, Fits;
    var s', id := Apply(s, step), s.next;
    forall g <- s'.sems ensures SemInv(s', g) && Sem.Outside(s'.sems[g], id) {
      if g in s.sems {
        assert SemInv(s, g);
        assert forall x <- s.tasks :: TaskInv(s, x) ==> x != id;
      }
    }
  }

  lemma ScheduleStep(s: State, step: Step)
    requires Inv(s) && step.Schedule?
    ensures var s' := Apply(s, step);
      && s'.tasks.Keys == s'.statuses.Keys
      && (forall id <- s'.tasks :: TaskInv(s', id)) && (forall g <- s'.sems :: SemInv(s', g))
  {
    hide WaiterInv, SemInv;
    var s', id := Apply(s, step), s.next;
    ScheduleKeepsSemaphores(s, step);
    forall x <- s'.tasks ensures TaskInv(s', x) {
      if x != id {
        assert TaskInv(s, x);
      }
    }
  }

  lemma OtherSemaphores(s: State, s': State, id: TaskId, g: Guest)
    requires Inv(s) && id in s.tasks && id in s'.tasks && s'.tasks == s.tasks[id := s'.tasks[id]]
    requires s'.tasks[id].guest == s.tasks[id].guest && s'.perGuest == s.perGuest
    requires g in s.sems && g in s'.sems && s'.sems[g] == s.sems[g]
    ensures SemInv(s', g)
  {
    assert SemInv(s, g);
    hide WaiterInv, TaskInv, Sem.Inv;
  }

  lemma StepKeepsTasks(s: State, step: Step)
    requires Inv(s) && Enabled(s, step)
    ensures var s' := Apply(s, step);
      && s'.perGuest >= 1 && s'.tasks.Keys == s'.statuses.Keys
      && (forall id <- s'.tasks :: TaskInv(s', id)) && (forall g <- s'.sems :: SemInv(s', g))
  {
    hide TaskInv, SemInv, WaiterInv, Sem.Apply, Sem.Enabled;
    var s' := Apply(s, step);
    match step
    case Schedule(_, _) => ScheduleStep(s, step);
    case Wait(_, _, _) => SameTasks(s, s');
    case WakeWaiter(_) => SameTasks(s, s');
    case Recheck(_, _) => SameTasks(s, s');
    case _ =>
      var id := step.id;
      if step.AcquireStep? || step.ReleasePermit? {
        SemaphoreStep(s, step);
        SemaphoreKept(s, step);
      } else {
        WorkerStep(s, step);
      }
      OnlyThisTask(s, s', id);
      forall g <- s'.sems ensures SemInv(s', g) {
        if s'.sems[g] == s.sems[g] {
          OtherSemaphores(s, s', id, g);
        }
      }
  }

  lemma SameTasks(s: State, s': State)
    requires Inv(s) && s' == s.(waiters := s'.waiters)
    ensures s'.tasks.Keys == s'.statuses.Keys
    ensures (forall id <- s'.tasks :: TaskInv(s', id)) && (forall g <- s'.sems :: SemInv(s', g))
  {
    forall id <- s'.tasks ensures TaskInv(s', id) { assert TaskInv(s, id); }
    forall g <- s'.sems ensures SemInv(s', g) { assert SemInv(s, g); }
  }

  lemma CheckedWaiter(s: State, w: nat, id: TaskId, expired: bool)
    requires w in s.waiters && s.waiters[w] == Check(s.statuses, id, expired)
    ensures WaiterInv(s, w)
  {
  }

  /** One step of a status: queued, then running, then a terminal one that stays. */
  ghost predicate Advances(before: Status, after: Status) {
    match before
    case Queued => after.Queued? || after.Running?
    case Running => !after.Queued?
    case _ => after == before
  }

  /** Any number of them. */
  ghost predicate Forward(before: Status, after: Status) {
    before.Queued? || Advances(before, after)
  }

  ghost predicate StatusesAdvance(s: State, s': State) {
    forall id <- s.statuses :: id in s'.statuses && Advances(s.statuses[id], s'.statuses[id])
  }

  lemma StepMovesForward(s: State, step: Step)
    requires Inv(s) && Enabled(s, step)
    ensures StatusesAdvance(s, Apply(s, step))
  {
    hide SemInv, WaiterInv, Sem.Apply, Sem.Enabled;
    if step.SetRunning? || step.SetFinal? {
      assert TaskInv(s, step.id);
    } else if step.Schedule? {
      assert forall x <- s.tasks :: TaskInv(s, x) ==> x != s.next;
    }
  }

  /** A task turns terminal only by inserting its status, and stays unnotified until
      everyone asleep has been woken. */
  lemma InsertedUntilNotified(s: State, step: Step, id: TaskId)
    requires Inv(s) && Enabled(s, step) && !step.NotifyWaiters? && id in s.statuses
    requires Terminal(s.statuses[id]) ==> InPhase(s, id, Inserted)
    ensures Terminal(Apply(s, step).statuses[id]) ==> InPhase(Apply(s, step), id, Inserted)
  {
    hide SemInv, WaiterInv, Sem.Apply, Sem.Enabled;
    assert TaskInv(s, id);
  }

  lemma StepKeepsWaiters(s: State, step: Step)
    requires Inv(s) && Enabled(s, step)
    ensures forall w <- Apply(s, step).waiters :: WaiterInv(Apply(s, step), w)
  {
    hide TaskInv, SemInv, Sem.Apply, Sem.Enabled;
    var s' := Apply(s, step);
    StepMovesForward(s, step);
    forall w <- s'.waiters ensures WaiterInv(s', w) {
      if step.Wait? && w == step.w {
        CheckedWaiter(s', w, step.task, step.expired);
      } else if step.Recheck? && w == step.w {
        CheckedWaiter(s', w, s.waiters[w].id, step.expired);
      } else {
        assert WaiterInv(s, w);
        if !step.NotifyWaiters? && s.waiters[w].Asleep? {
          InsertedUntilNotified(s, step, s.waiters[w].id);
        }
      }
    }
  }

  lemma StepKeepsInv(s: State, step: Step)
    requires Inv(s) && Enabled(s, step)
    ensures Inv(Apply(s, step))
  {
    StepKeepsTasks(s, step);
    StepKeepsWaiters(s, step);
    hide TaskInv, SemInv, WaiterInv, Apply, Enabled;
  }

  // ---- Every run ---------------------------------------------------------------------------

  ghost predicate Run(trace: seq<State>, steps: seq<Step>) {
    && |trace| == |steps| + 1
    && forall i :: 0 <= i < |steps| ==> Enabled(trace[i], steps[i]) && trace[i + 1] == Apply(trace[i], steps[i])
  }

  lemma {:induction false} RunKeepsInv(trace: seq<State>, steps: seq<Step>, perGuest: nat, i: nat)
    requires Run(trace, steps) && trace[0] == New(perGuest) && i < |trace|
    ensures Inv(trace[i]) && trace[i].perGuest == trace[0].perGuest
  {
    hide Inv;
    if i == 0 {
      NewInv(perGuest);
    } else {
      RunKeepsInv(trace, steps, perGuest, i - 1);
      StepKeepsInv(trace[i - 1], steps[i - 1]);
    }
  }

  lemma NewInv(perGuest: nat)
    ensures Inv(New(perGuest))
  {
  }

  ghost function RunningTasks(s: State, g: Guest): set<TaskId> {
    set id | id in s.tasks && s.tasks[id].guest == g && id in s.statuses && s.statuses[id].Running?
  }

  /** At no moment of any run are more tasks of one guest Running than the limit,
      counting the ones that sleep between attempts. */
  lemma ConcurrencyLimit(trace: seq<State>, steps: seq<Step>, perGuest: nat, i: nat, g: Guest)
    requires Run(trace, steps) && trace[0] == New(perGuest) && i < |trace|
    ensures |RunningTasks(trace[i], g)| <= if perGuest < 1 then 1 else perGuest
  {
    RunKeepsInv(trace, steps, perGuest, i);
    var s := trace[i];
    hide WaiterInv, Sem.Apply, Sem.Enabled;
    forall id <- RunningTasks(s, g) ensures g in s.sems && id in s.sems[g].holders {
      assert TaskInv(s, id);
    }
    if g in s.sems {
      assert SemInv(s, g);
      SubsetSize(RunningTasks(s, g), s.sems[g].holders);
    } else {
      assert RunningTasks(s, g) == {};
    }
  }

  ghost predicate RunsBetween(trace: seq<State>, i: nat, j: nat, id: TaskId)
    requires j < |trace|
  {
    exists k :: i < k < j && id in trace[k].statuses && trace[k].statuses[id].Running?
  }

  /** A status never moves back, a terminal status never changes again, and between being
      queued and being terminal a task has been running. */
  lemma {:induction false} StatusesNeverMoveBack(trace: seq<State>, steps: seq<Step>, perGuest: nat,
                                                 i: nat, j: nat, id: TaskId)
    requires Run(trace, steps) && trace[0] == New(perGuest) && i <= j < |trace| && id in trace[i].statuses
    ensures id in trace[j].statuses && Forward(trace[i].statuses[id], trace[j].statuses[id])
    ensures trace[i].statuses[id].Queued? && Terminal(trace[j].statuses[id]) ==> RunsBetween(trace, i, j, id)
    decreases j
  {
    hide Inv, Apply, Enabled;
    if i < j {
      StatusesNeverMoveBack(trace, steps, perGuest, i, j - 1, id);
      RunKeepsInv(trace, steps, perGuest, j - 1);
      StepMovesForward(trace[j - 1], steps[j - 1]);
      if trace[j - 1].statuses[id].Running? && trace[i].statuses[id].Queued? {
        assert i < j - 1;
      }
    }
  }

  /** A task ends Failed or TimedOut only after exactly one call more than it has
      retries, and Completed after at most that many. */
  lemma AttemptsAreExact(trace: seq<State>, steps: seq<Step>, perGuest: nat, i: nat, id: TaskId)
    requires Run(trace, steps) && trace[0] == New(perGuest) && i < |trace|
    requires id in trace[i].statuses && Terminal(trace[i].statuses[id])
    ensures id in trace[i].tasks
    ensures var t := trace[i].tasks[id];
      && 1 <= t.calls <= t.maxRetries + 1
      && (!trace[i].statuses[id].Completed? ==> t.calls == t.maxRetries + 1)
  {
    RunKeepsInv(trace, steps, perGuest, i);
    assert TaskInv(trace[i], id);
  }

  /** What `wait` returned is the task's terminal status, now and ever after. */
  lemma WaitReturnsFinalStatus(trace: seq<State>, steps: seq<Step>, perGuest: nat, i: nat, j: nat, w: nat)
    requires Run(trace, steps) && trace[0] == New(perGuest) && i <= j < |trace|
    requires w in trace[i].waiters && trace[i].waiters[w].Returned? && trace[i].waiters[w].result.Some?
    ensures var id, st := trace[i].waiters[w].id, trace[i].waiters[w].result.value;
      Terminal(st) && id in trace[j].statuses && trace[j].statuses[id] == st
  {
    RunKeepsInv(trace, steps, perGuest, i);
    assert WaiterInv(trace[i], w);
    StatusesNeverMoveBack(trace, steps, perGuest, i, j, trace[i].waiters[w].id);
  }

  /** No waiter sleeps through the end of its task: while it sleeps on a terminal
      task, the worker still has to notify, and that wakes it. */
  lemma WaiterIsNotStranded(trace: seq<State>, steps: seq<Step>, perGuest: nat, i: nat, w: nat)
    requires Run(trace, steps) && trace[0] == New(perGuest) && i < |trace|
    requires w in trace[i].waiters && trace[i].waiters[w].Asleep?
    requires var id := trace[i].waiters[w].id; id in trace[i].statuses && Terminal(trace[i].statuses[id])
    ensures var step := NotifyWaiters(trace[i].waiters[w].id);
      Enabled(trace[i], step) && Apply(trace[i], step).waiters[w].Awake?
  {
    RunKeepsInv(trace, steps, perGuest, i);
    assert WaiterInv(trace[i], w);
  }
}
