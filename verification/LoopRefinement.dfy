/** The executor loop inside the engine: a walk over the steps with nothing else in
    between is one run of the interleaved engine, with the same end. */
module LoopRefinement {
  import opened Wrappers
  import opened Firm
  import opened LoopEngine
  import opened LoopRuns
  import G = Grants
  import Caps = Capabilities

  /** What the executor finds at each step while clock and grants stand still. */
  ghost function DoorsOf(s: State): seq<Door> {
    seq(|s.steps|, i requires 0 <= i < |s.steps| =>
      Door(s.clock >= s.deadline, G.Authorize(s.db, s.caller, s.steps[i].scope, s.steps[i].skill, s.clock).Ok?))
  }

  /** What running a step can come to: a guest step may also be refused by its policy's
      clearance floor. */
  ghost predicate Possible(caller: Caller, step: LoopStep, r: Conclusion) {
    if step.tool != "" then ToolResult(r)
    else CallResult(step, r) || (step.provider == "" && r == Halt(Denied) && !AtLeast(caller.clearance, L5))
  }

  /** The outcomes of a run of which `k` steps completed and the next shows `current`. */
  ghost function Shown(n: nat, k: nat, current: StepOutcome): (r: seq<StepOutcome>)
    ensures |r| == n
  {
    seq(n, i requires 0 <= i < n => if i < k then Completed else if i == k then current else Pending)
  }

  /** They are what the registry shows of such a run. */
  lemma ShownIsView(positions: seq<int>, k: nat, current: StepOutcome)
    ensures var view := View(positions, k, current);
      && |view| == |positions|
      && forall i :: 0 <= i < |view| ==> view[i] == StepState(positions[i], Shown(|positions|, k, current)[i])
  {
  }

  // ---- Paths -------------------------------------------------------------------------------

  ghost predicate Path(trace: seq<State>, steps: seq<Step>) {
    && |trace| == |steps| + 1
    && forall i :: 0 <= i < |steps| ==>
         Sized(trace[i]) && Enabled(trace[i], steps[i]) && trace[i + 1] == Apply(trace[i], steps[i])
  }

  lemma JoinPaths(t: seq<State>, p: seq<Step>, t': seq<State>, p': seq<Step>)
    requires Path(t, p) && Path(t', p') && t[|p|] == t'[0]
    ensures Path(t + t'[1..], p + p')
    ensures (t + t'[1..])[0] == t[0] && (t + t'[1..])[|p + p'|] == t'[|p'|]
  {
    hide Apply, Enabled, Sized;
    var trace, steps, n := t + t'[1..], p + p', |p|;
    assert forall k :: 0 <= k <= n ==> trace[k] == t[k];
    assert forall k :: n <= k <= |steps| ==> trace[k] == t'[k - n];
    assert forall k :: n <= k < |steps| ==> steps[k] == p'[k - n];
  }

  lemma OnePath(s: State, step: Step)
    requires Sized(s) && Enabled(s, step)
    ensures Path([s, Apply(s, step)], [step])
  {
    hide Apply, Enabled, Sized;
  }

  /** What a step of the walk never touches. */
  ghost predicate Kept(s: State, e: State) {
    && e.steps == s.steps && e.caller == s.caller && e.initial == s.initial && e.deadline == s.deadline
    && e.db == s.db && e.clock == s.clock
  }

  /** What running a step up to its conclusion leaves as well. */
  ghost predicate Within(s: State, e: State) {
    Kept(s, e) && e.outcomes == s.outcomes && e.payload == s.payload && e.status == s.status
  }

  // ---- Between a passed gate and the conclusion ------------------------------------------------

  lemma {:induction false} Bound(s: set<nat>) returns (b: nat)
    ensures forall x <- s :: x < b
  {
    b := 0;
    if s != {} {
      var x :| x in s;
      var rest := s - {x};
      var below := Bound(rest);
      b := if x < below then below else x + 1;
      assert forall y <- s :: y == x || y in rest;
    }
  }

  lemma ToolBody(s: State, i: nat, r: Conclusion) returns (trace: seq<State>, steps: seq<Step>)
    requires Sized(s) && s.pc.Passed? && s.pc.i == i < |s.steps| && s.steps[i].tool != "" && ToolResult(r)
    ensures |trace| == |steps| + 1 && Path(trace, steps) && trace[0] == s
    ensures trace[|steps|].pc == Concluded(i, r) && Within(s, trace[|steps|])
  {
    var cap := Bound(s.caps.Keys + s.minted.Keys);
    assert cap !in s.caps.Keys + s.minted.Keys;
    var s1 := Apply(s, Step.MintCap(cap, 0));
    var s2 := Apply(s1, CallTool(r));
    trace := [s, s1, s2, Apply(s2, Step.RevokeCap)];
    steps := [Step.MintCap(cap, 0), CallTool(r), Step.RevokeCap];
  }

  lemma GuestBody(s: State, i: nat, r: Conclusion) returns (trace: seq<State>, steps: seq<Step>)
    requires Sized(s) && s.pc.Passed? && s.pc.i == i < |s.steps|
    requires s.steps[i].tool == "" && s.steps[i].provider == "" && Possible(s.caller, s.steps[i], r)
    ensures |trace| == |steps| + 1 && Path(trace, steps) && trace[0] == s
    ensures trace[|steps|].pc == Concluded(i, r) && Within(s, trace[|steps|])
  {
    if r == Halt(Denied) {
      trace, steps := [s, Apply(s, CheckFloor(Some(Some(L5))))], [CheckFloor(Some(Some(L5)))];
    } else {
      var s1 := Apply(s, CheckFloor(Some(None)));
      var s2 := Apply(s1, ScheduleGuest);
      trace, steps := [s, s1, s2, Apply(s2, Await(r))], [CheckFloor(Some(None)), ScheduleGuest, Await(r)];
    }
  }

  lemma ProviderBody(s: State, i: nat, r: Conclusion) returns (trace: seq<State>, steps: seq<Step>)
    requires Sized(s) && s.pc.Passed? && s.pc.i == i < |s.steps|
    requires s.steps[i].tool == "" && s.steps[i].provider != "" && CallResult(s.steps[i], r)
    ensures |trace| == |steps| + 1 && Path(trace, steps) && trace[0] == s
    ensures trace[|steps|].pc == Concluded(i, r) && Within(s, trace[|steps|])
  {
    var s1 := Apply(s, FindKey(true));
    var s2 := Apply(s1, CallProvider);
    trace, steps := [s, s1, s2, Apply(s2, Await(r))], [FindKey(true), CallProvider, Await(r)];
  }

  lemma StepBody(s: State, i: nat, r: Conclusion) returns (trace: seq<State>, steps: seq<Step>)
    requires Sized(s) && s.pc.Passed? && s.pc.i == i < |s.steps| && Possible(s.caller, s.steps[i], r)
    ensures |trace| == |steps| + 1 && Path(trace, steps) && trace[0] == s
    ensures trace[|steps|].pc == Concluded(i, r) && Within(s, trace[|steps|])
  {
    hide Path, Within;
    if s.steps[i].tool != "" {
      trace, steps := ToolBody(s, i, r);
    } else if s.steps[i].provider == "" {
      trace, steps := GuestBody(s, i, r);
    } else {
      trace, steps := ProviderBody(s, i, r);
    }
  }

  // ---- One step of the walk -----------------------------------------------------------------------

  /** In front of step `i`, the steps before it completed and their outputs piped. */
  ghost predicate AtStep(s0: State, s: State, run: Runner, i: nat) {
    && Kept(s0, s) && s.pc == Boundary(i) && i <= |s.steps| && s.status == Ongoing
    && s.outcomes == Shown(|s.steps|, i, Pending) && s.payload == Piped(run, s0.initial, i)
  }

  /** Stopped at step `i`, which shows `outcome`. */
  ghost predicate StoppedAt(s0: State, s: State, run: Runner, i: nat, outcome: StepOutcome) {
    && Kept(s0, s) && s.pc == Stopping(i) && i < |s.steps| && s.status == Ongoing
    && s.outcomes == Shown(|s.steps|, i, outcome) && s.payload == Piped(run, s0.initial, i)
  }

  lemma Reshown(n: nat, k: nat, was: StepOutcome, now: StepOutcome)
    requires k < n
    ensures Shown(n, k, was)[k := now] == Shown(n, k, now) && Shown(n, k, Completed) == Shown(n, k + 1, Pending)
  {
  }

  /** Starting a step: out of time, refused by its gate, or on to its body. */
  lemma EnterStep(s0: State, s: State, run: Runner, i: nat) returns (trace: seq<State>, steps: seq<Step>)
    requires AtStep(s0, s, run, i) && i < |s.steps|
    ensures |trace| == |steps| + 1 && Path(trace, steps) && trace[0] == s
    ensures var e, door := trace[|steps|], DoorsOf(s0)[i];
      if door.expired then StoppedAt(s0, e, run, i, Failed)
      else if !door.open then StoppedAt(s0, e, run, i, Denied)
      else Kept(s0, e) && e.pc.Passed? && e.pc.i == i && e.status == Ongoing
           && e.outcomes == Shown(|s.steps|, i, Running) && e.payload == s.payload
  {
    hide G.Authorize, Piped;
    var n := |s.steps|;
    Reshown(n, i, Pending, Failed);
    Reshown(n, i, Pending, Running);
    Reshown(n, i, Running, Denied);
    hide Shown;
    var s1 := Apply(s, StartStep);
    trace, steps := [s, s1], [StartStep];
    if s.clock < s.deadline {
      trace, steps := [s, s1, Apply(s1, PassGate)], [StartStep, PassGate];
    }
  }

  lemma LeaveStep(s0: State, s: State, run: Runner, i: nat) returns (e: State)
    requires Kept(s0, s) && i < |s.steps| && s.status == Ongoing && s.outcomes == Shown(|s.steps|, i, Running)
    requires s.payload == Piped(run, s0.initial, i) && s.pc == Concluded(i, run(i, s.payload))
    ensures Path([s, e], [Conclude])
    ensures var r := run(i, s.payload);
      if r.Output? then AtStep(s0, e, run, i + 1) else StoppedAt(s0, e, run, i, r.outcome)
  {
    var r := run(i, s.payload);
    Reshown(|s.steps|, i, Running, if r.Output? then Completed else r.outcome);
    assert Piped(run, s0.initial, i + 1) == if r.Output? then r.payload else s.payload;
    hide Shown, Piped;
    e := Apply(s, Conclude);
    OnePath(s, Conclude);
  }

  ghost predicate AllPossible(s: State, run: Runner) {
    forall i, p :: 0 <= i < |s.steps| ==> Possible(s.caller, s.steps[i], run(i, p))
  }

  lemma WalkStep(s0: State, s: State, run: Runner, i: nat) returns (trace: seq<State>, steps: seq<Step>)
    requires AtStep(s0, s, run, i) && i < |s.steps| && AllPossible(s0, run)
    ensures |trace| == |steps| + 1 && Path(trace, steps) && trace[0] == s
    ensures var e, doors := trace[|steps|], DoorsOf(s0);
      if Completes(doors, run, s0.initial, i) then AtStep(s0, e, run, i + 1)
      else StoppedAt(s0, e, run, i, StopOutcome(doors[i], run(i, Piped(run, s0.initial, i))))
  {
    hide Path, Possible, Piped, Shown, G.Authorize;
    trace, steps := EnterStep(s0, s, run, i);
    var door := DoorsOf(s0)[i];
    if !door.expired && door.open {
      var t, p := StepBody(trace[|steps|], i, run(i, s.payload));
      JoinPaths(trace, steps, t, p);
      trace, steps := trace + t[1..], steps + p;
      var e := LeaveStep(s0, trace[|steps|], run, i);
      JoinPaths(trace, steps, [trace[|steps|], e], [Conclude]);
      trace, steps := trace + [trace[|steps|], e][1..], steps + [Conclude];
    }
  }

  // ---- The whole walk -----------------------------------------------------------------------------

  /** The end of a walk of which `k` steps completed. */
  ghost predicate EndsAt(s0: State, e: State, run: Runner, k: nat) {
    var doors := DoorsOf(s0);
    && StopsAt(doors, run, s0.initial, k) && e.pc.Finished? && e.payload == Piped(run, s0.initial, k)
    && e.status == (if k < |doors| then Stopped else Succeeded)
    && e.outcomes == Shown(|doors|, k, if k < |doors| then StopOutcome(doors[k], run(k, e.payload)) else Pending)
  }

  lemma FinishWalk(s: State)
    requires Sized(s) && (s.pc.Stopping? || s.pc == Boundary(|s.steps|))
    ensures Path([s, Apply(s, Finish)], [Finish])
    ensures Apply(s, Finish) == s.(status := if s.pc.Stopping? then Stopped else Succeeded, pc := Finished)
  {
    OnePath(s, Finish);
  }

  lemma {:induction false} WalkFrom(s0: State, s: State, run: Runner, i: nat)
    returns (trace: seq<State>, steps: seq<Step>, k: nat)
    requires AtStep(s0, s, run, i) && AllPossible(s0, run)
    requires forall j: nat :: j < i ==> Completes(DoorsOf(s0), run, s0.initial, j)
    ensures |trace| == |steps| + 1 && Path(trace, steps) && trace[0] == s && EndsAt(s0, trace[|steps|], run, k)
    decreases |s0.steps| - i
  {
    hide Path, Completes, AllPossible, Piped, Apply, G.Authorize;
    if i == |s.steps| {
      k := i;
      FinishWalk(s);
      trace, steps := [s, Apply(s, Finish)], [Finish];
    } else {
      trace, steps := WalkStep(s0, s, run, i);
      var e := trace[|steps|];
      var t, p;
      if Completes(DoorsOf(s0), run, s0.initial, i) {
        t, p, k := WalkFrom(s0, e, run, i + 1);
      } else {
        k := i;
        FinishWalk(e);
        t, p := [e, Apply(e, Finish)], [Finish];
      }
      JoinPaths(trace, steps, t, p);
      trace, steps := trace + t[1..], steps + p;
    }
  }

  /** From every start, and for every possible behaviour of the steps, the engine has a run
      in which nothing else happens and which ends as the executor's loop does: stopped at
      the same step with the same outcomes, or succeeded, and with the same payload. */
  lemma LoopIsEngineRun(s: State, run: Runner) returns (trace: seq<State>, steps: seq<Step>, k: nat)
    requires Start(s) && AllPossible(s, run)
    ensures |trace| == |steps| + 1 && Run(trace, steps) && trace[0] == s && EndsAt(s, trace[|steps|], run, k)
  {
    assert s.outcomes == Shown(|s.steps|, 0, Pending);
    trace, steps, k := WalkFrom(s, s, run, 0);
    hide EndsAt, Apply, Enabled;
  }
}
