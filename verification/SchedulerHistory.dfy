/** What a run of the scheduler says of each task in terms of the calls made: who asked
    for it, how often its guest was called, and how it ended. */
module SchedulerHistory {
  import opened Wrappers
  import opened Scheduler
  import Sem = Semaphore

  // ---- Where a task comes from -----------------------------------------------------------

  /** Step `k` asked for task `id`, which keeps what was asked. */
  ghost predicate AskedAt(trace: seq<State>, steps: seq<Step>, k: nat, i: nat, id: TaskId) {
    && k < i < |trace| && k < |steps| && steps[k].Schedule? && trace[k].next == id && id in trace[i].tasks
    && trace[i].tasks[id].guest == steps[k].guest && trace[i].tasks[id].maxRetries == steps[k].maxRetries
  }

  lemma TaskKept(s: State, step: Step, id: TaskId)
    requires Enabled(s, step) && id in Apply(s, step).tasks
    ensures var t := Apply(s, step).tasks[id];
      if id in s.tasks then
        (step.Schedule? ==> id != s.next) ==> t.guest == s.tasks[id].guest && t.maxRetries == s.tasks[id].maxRetries
      else
        step.Schedule? && id == s.next && t.guest == step.guest && t.maxRetries == step.maxRetries
  {
    hide Sem.Apply, Sem.Enabled;
  }

  lemma NextIsNew(s: State)
    requires Inv(s)
    ensures s.next !in s.tasks
  {
    hide SemInv, WaiterInv, Fits;
    assert s.next in s.tasks ==> TaskInv(s, s.next);
  }

  lemma {:induction false} TaskWasAsked(trace: seq<State>, steps: seq<Step>, perGuest: nat, i: nat, id: TaskId)
    returns (k: nat)
    requires Run(trace, steps) && trace[0] == New(perGuest) && i < |trace| && id in trace[i].tasks
    ensures AskedAt(trace, steps, k, i, id)
  {
    hide Inv, Apply, Enabled;
    assert i > 0;
    TaskKept(trace[i - 1], steps[i - 1], id);
    if id in trace[i - 1].tasks {
      k := TaskWasAsked(trace, steps, perGuest, i - 1, id);
      RunKeepsInv(trace, steps, perGuest, i - 1);
      NextIsNew(trace[i - 1]);
    } else {
      k := i - 1;
    }
  }

  // ---- How often its guest was called ------------------------------------------------------

  predicate IsCall(step: Step, id: TaskId) {
    step.Invoke? && step.id == id
  }

  ghost function Calls(steps: seq<Step>, id: TaskId): nat {
    if steps == [] then 0 else
    Calls(steps[..|steps| - 1], id) + if IsCall(steps[|steps| - 1], id) then 1 else 0
  }

  ghost function CallsOf(s: State, id: TaskId): nat {
    if id in s.tasks then s.tasks[id].calls else 0
  }

  lemma StepCalls(s: State, step: Step, id: TaskId)
    requires Enabled(s, step) && s.next !in s.tasks
    ensures CallsOf(Apply(s, step), id) == CallsOf(s, id) + if IsCall(step, id) then 1 else 0
  {
    hide Sem.Apply, Sem.Enabled;
  }

  lemma {:induction false} CallsAreCounted(trace: seq<State>, steps: seq<Step>, perGuest: nat, i: nat, id: TaskId)
    requires Run(trace, steps) && trace[0] == New(perGuest) && i < |trace|
    ensures CallsOf(trace[i], id) == Calls(steps[..i], id)
  {
    hide Inv, Apply, Enabled;
    if i > 0 {
      CallsAreCounted(trace, steps, perGuest, i - 1, id);
      RunKeepsInv(trace, steps, perGuest, i - 1);
      NextIsNew(trace[i - 1]);
      StepCalls(trace[i - 1], steps[i - 1], id);
      assert steps[..i][..i - 1] == steps[..i - 1];
    }
  }

  /** A task that has failed or timed out was asked for by one step, and the run holds
      exactly one call of its guest more than the retries that step gave it. A completed
      one has at least one call and at most that many. */
  lemma AttemptsAreCounted(trace: seq<State>, steps: seq<Step>, perGuest: nat, i: nat, id: TaskId) returns (k: nat)
    requires Run(trace, steps) && trace[0] == New(perGuest) && i < |trace|
    requires id in trace[i].statuses && Terminal(trace[i].statuses[id])
    ensures AskedAt(trace, steps, k, i, id)
    ensures 1 <= Calls(steps[..i], id) <= steps[k].maxRetries + 1
    ensures !trace[i].statuses[id].Completed? ==> Calls(steps[..i], id) == steps[k].maxRetries + 1
  {
    hide Run;
    AttemptsAreExact(trace, steps, perGuest, i, id);
    k := TaskWasAsked(trace, steps, perGuest, i, id);
    CallsAreCounted(trace, steps, perGuest, i, id);
  }

  // ---- How it ended ----------------------------------------------------------------------------

  /** The status says what the call came back with. */
  ghost predicate Tells(st: Status, outcome: Outcome) {
    match st
    case Completed(response) => outcome == Response(response)
    case TimedOut => outcome == Timeout
    case Failed(reason) => outcome == Error(reason)
    case _ => false
  }

  /** The status a task has, or has decided on. */
  ghost function Decided(s: State, id: TaskId): Option<Status> {
    if id in s.tasks && s.tasks[id].phase.Breaking? then Some(s.tasks[id].phase.final)
    else if id in s.statuses && Terminal(s.statuses[id]) then Some(s.statuses[id])
    else None
  }

  lemma StepDecides(s: State, step: Step, id: TaskId)
    requires Inv(s) && Enabled(s, step) && Decided(Apply(s, step), id).Some?
    ensures IsCall(step, id) ==> Decided(s, id).None? && Tells(Decided(Apply(s, step), id).value, step.outcome)
    ensures !IsCall(step, id) ==> Decided(s, id) == Decided(Apply(s, step), id)
  {
    hide SemInv, WaiterInv, Sem.Apply, Sem.Enabled;
    if id in s.tasks {
      assert TaskInv(s, id);
    }
  }

  lemma ResponseEnds(s: State, step: Step, id: TaskId)
    requires Inv(s) && Enabled(s, step) && IsCall(step, id) && step.outcome.Response?
    ensures Decided(Apply(s, step), id).Some?
  {
  }

  lemma DecidedStays(s: State, step: Step, id: TaskId)
    requires Inv(s) && Enabled(s, step) && Decided(s, id).Some?
    ensures !IsCall(step, id) && Decided(Apply(s, step), id) == Decided(s, id)
  {
    hide SemInv, WaiterInv, Sem.Apply, Sem.Enabled;
    NextIsNew(s);
    assert id in s.tasks && TaskInv(s, id);
  }

  /** Step `k` is the last call of the task before state `i`, told by its status, and no
      call before it was answered. */
  ghost predicate EndedBy(trace: seq<State>, steps: seq<Step>, k: nat, i: nat, id: TaskId, st: Status) {
    && k < i <= |steps| && IsCall(steps[k], id) && Tells(st, steps[k].outcome)
    && (forall j :: k < j < i ==> !IsCall(steps[j], id))
    && (forall j :: 0 <= j < k && IsCall(steps[j], id) ==> !steps[j].outcome.Response?)
  }

  lemma {:induction false} NoAnswerBefore(trace: seq<State>, steps: seq<Step>, perGuest: nat, k: nat, id: TaskId)
    requires Run(trace, steps) && trace[0] == New(perGuest) && k < |trace| && Decided(trace[k], id).None?
    ensures forall j :: 0 <= j < k && IsCall(steps[j], id) ==> !steps[j].outcome.Response?
  {
    hide Inv, Apply, Enabled, Decided;
    if k > 0 {
      RunKeepsInv(trace, steps, perGuest, k - 1);
      if Decided(trace[k - 1], id).Some? {
        DecidedStays(trace[k - 1], steps[k - 1], id);
      }
      NoAnswerBefore(trace, steps, perGuest, k - 1, id);
      if IsCall(steps[k - 1], id) && steps[k - 1].outcome.Response? {
        ResponseEnds(trace[k - 1], steps[k - 1], id);
      }
    }
  }

  lemma {:induction false} DecidedByCall(trace: seq<State>, steps: seq<Step>, perGuest: nat, i: nat, id: TaskId)
    returns (k: nat)
    requires Run(trace, steps) && trace[0] == New(perGuest) && i < |trace| && Decided(trace[i], id).Some?
    ensures EndedBy(trace, steps, k, i, id, Decided(trace[i], id).value)
  {
    hide Inv, Apply, Enabled, Tells;
    NothingAtFirst(perGuest, id);
    hide Decided;
    RunKeepsInv(trace, steps, perGuest, i - 1);
    StepDecides(trace[i - 1], steps[i - 1], id);
    if IsCall(steps[i - 1], id) {
      k := i - 1;
      NoAnswerBefore(trace, steps, perGuest, i - 1, id);
    } else {
      k := DecidedByCall(trace, steps, perGuest, i - 1, id);
    }
  }

  lemma NothingAtFirst(perGuest: nat, id: TaskId)
    ensures Decided(New(perGuest), id).None?
  {
  }

  /** A terminal status is that of the task's last call in the run, and the calls before
      it were not answered. */
  lemma StatusTellsLastCall(trace: seq<State>, steps: seq<Step>, perGuest: nat, i: nat, id: TaskId) returns (k: nat)
    requires Run(trace, steps) && trace[0] == New(perGuest) && i < |trace|
    requires id in trace[i].statuses && Terminal(trace[i].statuses[id])
    ensures EndedBy(trace, steps, k, i, id, trace[i].statuses[id])
  {
    RunKeepsInv(trace, steps, perGuest, i);
    assert TaskInv(trace[i], id);
    hide Run, Inv;
    k := DecidedByCall(trace, steps, perGuest, i, id);
  }

  // ---- What waiting can come to ------------------------------------------------------------------

  /** Step `k` made waiter `w` give up on `id`: the task is unknown, or its budget is spent
      and the task has not ended. */
  ghost predicate GaveUpAt(trace: seq<State>, steps: seq<Step>, k: nat, w: nat, id: TaskId) {
    && k < |steps| && k < |trace|
    && ((steps[k].Wait? && steps[k].w == w && steps[k].task == id) || (steps[k].Recheck? && steps[k].w == w))
    && (id in trace[k].statuses ==> steps[k].expired && !Terminal(trace[k].statuses[id]))
  }

  lemma StepReturns(s: State, step: Step, w: nat)
    requires Enabled(s, step) && w in Apply(s, step).waiters && Apply(s, step).waiters[w].Returned?
    ensures (w in s.waiters && s.waiters[w] == Apply(s, step).waiters[w])
         || (step.Wait? && step.w == w && Apply(s, step).waiters[w] == Check(s.statuses, step.task, step.expired))
         || (step.Recheck? && step.w == w && w in s.waiters
             && Apply(s, step).waiters[w] == Check(s.statuses, s.waiters[w].id, step.expired))
  {
    hide Sem.Apply, Sem.Enabled, Check;
  }

  /** A wait that returned nothing gave up for one of those reasons. */
  lemma {:induction false} NothingMeansGaveUp(trace: seq<State>, steps: seq<Step>, perGuest: nat, i: nat, w: nat)
    returns (k: nat)
    requires Run(trace, steps) && trace[0] == New(perGuest) && i < |trace|
    requires w in trace[i].waiters && trace[i].waiters[w].Returned? && trace[i].waiters[w].result.None?
    ensures k < i && GaveUpAt(trace, steps, k, w, trace[i].waiters[w].id)
  {
    hide Apply, Enabled;
    assert i > 0;
    StepReturns(trace[i - 1], steps[i - 1], w);
    if w in trace[i - 1].waiters && trace[i - 1].waiters[w] == trace[i].waiters[w] {
      k := NothingMeansGaveUp(trace, steps, perGuest, i - 1, w);
    } else {
      k := i - 1;
    }
  }

  // ---- The limit is reached --------------------------------------------------------------------

  ghost function UpTo(k: nat): (ids: set<TaskId>)
    ensures |ids| == k && forall id: TaskId :: id in ids <==> id < k
  {
    if k == 0 then {} else UpTo(k - 1) + {k - 1}
  }

  /** `k` tasks of one guest running at once, with `capacity` allowed. */
  ghost function Crowd(capacity: nat, g: Guest, k: nat): State
    requires k <= capacity
  {
    var ids := UpTo(k);
    State(capacity, k, map id | id in ids :: Task(g, 0, Invoking, 0, 0), map id | id in ids :: Running,
          if k == 0 then map[] else map[g := Sem.Sem(capacity - k, {}, {}, ids)], map[])
  }

  lemma OneMore(capacity: nat, g: Guest, k: nat) returns (trace: seq<State>, steps: seq<Step>)
    requires k < capacity
    ensures |trace| == |steps| + 1 && Run(trace, steps) && trace[0] == Crowd(capacity, g, k)
    ensures trace[|steps|] == Crowd(capacity, g, k + 1)
  {
    var s := Crowd(capacity, g, k);
    var s1 := Asks(capacity, g, k);
    var s2 := Enters(capacity, g, k, s1);
    var s3 := Apply(s2, SetRunning(k));
    trace, steps := [s, s1, s2, s3], [Schedule(g, 0), AcquireStep(k, Sem.Enter(k)), SetRunning(k)];
    hide Sem.Apply, Sem.Enabled;
    Grown(capacity, g, k, s2);
  }

  lemma Asks(capacity: nat, g: Guest, k: nat) returns (s1: State)
    requires k < capacity
    ensures var s := Crowd(capacity, g, k);
      && Enabled(s, Schedule(g, 0)) && s1 == Apply(s, Schedule(g, 0))
      && s1 == s.(next := k + 1, tasks := s.tasks[k := Task(g, 0, Queueing, 0, 0)],
                  statuses := s.statuses[k := Queued], sems := map[g := Sem.Sem(capacity - k, {}, {}, UpTo(k))])
  {
    var s := Crowd(capacity, g, k);
    s1 := Apply(s, Schedule(g, 0));
    assert s1.sems == map[g := Sem.Sem(capacity - k, {}, {}, UpTo(k))];
  }

  lemma Enters(capacity: nat, g: Guest, k: nat, s1: State) returns (s2: State)
    requires k < capacity && k in s1.tasks && s1.tasks[k] == Task(g, 0, Queueing, 0, 0)
    requires s1.sems == map[g := Sem.Sem(capacity - k, {}, {}, UpTo(k))]
    ensures Enabled(s1, AcquireStep(k, Sem.Enter(k))) && s2 == Apply(s1, AcquireStep(k, Sem.Enter(k)))
    ensures s2 == s1.(tasks := s1.tasks[k := Task(g, 0, Looping, 0, 0)],
                      sems := map[g := Sem.Sem(capacity - (k + 1), {}, {}, UpTo(k + 1))])
  {
    assert UpTo(k + 1) == UpTo(k) + {k};
    s2 := Apply(s1, AcquireStep(k, Sem.Enter(k)));
    assert s2.sems == map[g := s2.sems[g]];
  }

  lemma Grown(capacity: nat, g: Guest, k: nat, s2: State)
    requires k < capacity
    requires var s := Crowd(capacity, g, k);
      s2 == State(capacity, k + 1, s.tasks[k := Task(g, 0, Queueing, 0, 0)][k := Task(g, 0, Looping, 0, 0)],
                  s.statuses[k := Queued], map[g := Sem.Sem(capacity - (k + 1), {}, {}, UpTo(k + 1))], map[])
    ensures Enabled(s2, SetRunning(k)) && Apply(s2, SetRunning(k)) == Crowd(capacity, g, k + 1)
  {
    var s3, e := Apply(s2, SetRunning(k)), Crowd(capacity, g, k + 1);
    assert UpTo(k + 1) == UpTo(k) + {k};
    assert s3.tasks == e.tasks;
    assert s3.statuses == e.statuses;
  }

  lemma JoinRuns(t: seq<State>, p: seq<Step>, t': seq<State>, p': seq<Step>)
    requires Run(t, p) && Run(t', p') && t[|p|] == t'[0]
    ensures Run(t + t'[1..], p + p')
    ensures (t + t'[1..])[0] == t[0] && (t + t'[1..])[|p + p'|] == t'[|p'|]
  {
    hide Apply, Enabled;
    var trace, steps, n := t + t'[1..], p + p', |p|;
    assert forall k :: 0 <= k <= n ==> trace[k] == t[k];
    assert forall k :: n <= k <= |steps| ==> trace[k] == t'[k - n];
    assert forall k :: n <= k < |steps| ==> steps[k] == p'[k - n];
  }

  lemma {:induction false} FillUp(capacity: nat, g: Guest, k: nat) returns (trace: seq<State>, steps: seq<Step>)
    requires k <= capacity
    ensures |trace| == |steps| + 1 && Run(trace, steps) && trace[0] == Crowd(capacity, g, 0)
    ensures trace[|steps|] == Crowd(capacity, g, k)
  {
    hide Crowd, Apply, Enabled;
    if k == 0 {
      trace, steps := [Crowd(capacity, g, 0)], [];
    } else {
      trace, steps := FillUp(capacity, g, k - 1);
      var t, p := OneMore(capacity, g, k - 1);
      JoinRuns(trace, steps, t, p);
      trace, steps := trace + t[1..], steps + p;
    }
  }

  lemma CrowdRuns(capacity: nat, g: Guest, k: nat)
    requires k <= capacity
    ensures |RunningTasks(Crowd(capacity, g, k), g)| == k
  {
    assert RunningTasks(Crowd(capacity, g, k), g) == UpTo(k);
  }

  /** For every limit and guest there is a run in which that many of its tasks run at once. */
  lemma LimitIsReached(perGuest: nat, g: Guest) returns (trace: seq<State>, steps: seq<Step>)
    ensures |trace| == |steps| + 1 && Run(trace, steps) && trace[0] == New(perGuest)
    ensures |RunningTasks(trace[|steps|], g)| == if perGuest < 1 then 1 else perGuest
  {
    hide Run, RunningTasks;
    var capacity := if perGuest < 1 then 1 else perGuest;
    trace, steps := FillUp(capacity, g, capacity);
    CrowdRuns(capacity, g, capacity);
  }
}
