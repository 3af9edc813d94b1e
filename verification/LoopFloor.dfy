/** What stands between a loop step and its effect besides the gate: the clearance floor of
    the step's guest, and the run's time budget. */
module LoopFloor {
  import opened Wrappers
  import opened Firm
  import opened LoopEngine
  import Caps = Capabilities
  import G = Grants

  /** The floor a guest's policy sets is met; a policy that cannot be read admits nobody,
      and a guest without a policy has no floor. */
  ghost predicate Admits(policy: Option<Option<Clearance>>, caller: Caller) {
    policy.Some? && (policy.value.None? || Rank(policy.value.value) <= Rank(caller.clearance))
  }

  predicate IsGuestStep(step: LoopStep) {
    step.tool == "" && step.provider == ""
  }

  // ---- Which path a step takes ----------------------------------------------------------------

  /** The thread is on the path that the step's kind prescribes. */
  ghost predicate OnPath(s: State) {
    && (s.pc.CapMinted? || s.pc.ToolReturned? ==> s.pc.i < |s.steps| && s.steps[s.pc.i].tool != "")
    && (s.pc.KeyFound? ==> s.pc.i < |s.steps| && s.steps[s.pc.i].tool == "" && s.steps[s.pc.i].provider != "")
    && (s.pc.MaySchedule? ==> s.pc.i < |s.steps| && IsGuestStep(s.steps[s.pc.i]))
  }

  lemma StepKeepsPath(s: State, step: Step)
    requires Sized(s) && Enabled(s, step) && OnPath(s)
    ensures OnPath(Apply(s, step))
  {
    hide G.Authorize, G.Apply;
  }

  lemma {:induction false} RunKeepsPath(trace: seq<State>, steps: seq<Step>, i: nat)
    requires Run(trace, steps) && i < |trace|
    ensures OnPath(trace[i])
  {
    hide Apply, Enabled;
    if i > 0 {
      RunKeepsPath(trace, steps, i - 1);
      StepKeepsPath(trace[i - 1], steps[i - 1]);
    }
  }

  // ---- The floor was checked --------------------------------------------------------------------

  /** Step `check` of the run looked up the policy of step `i`'s guest, and it admits the caller. */
  ghost predicate CheckedAt(trace: seq<State>, steps: seq<Step>, check: nat, i: nat) {
    && check < |steps| && check < |trace| && steps[check].CheckFloor?
    && trace[check].pc.Passed? && trace[check].pc.i == i && Admits(steps[check].policy, trace[check].caller)
  }

  lemma ReachesSchedule(s: State, step: Step)
    requires Sized(s) && Enabled(s, step) && Apply(s, step).pc.MaySchedule?
    ensures s.pc == Apply(s, step).pc
         || (step.CheckFloor? && s.pc.Passed? && s.pc.i == Apply(s, step).pc.i && Admits(step.policy, s.caller))
  {
    hide G.Authorize, G.Apply;
  }

  lemma {:induction false} ScheduleWasChecked(trace: seq<State>, steps: seq<Step>, n: nat) returns (check: nat)
    requires Run(trace, steps) && n < |trace| && trace[n].pc.MaySchedule?
    ensures check < n && CheckedAt(trace, steps, check, trace[n].pc.i)
  {
    hide Apply, Enabled, Admits;
    assert n > 0;
    ReachesSchedule(trace[n - 1], steps[n - 1]);
    if trace[n - 1].pc == trace[n].pc {
      check := ScheduleWasChecked(trace, steps, n - 1);
    } else {
      check := n - 1;
    }
  }

  lemma EffectOfGuestStep(s: State, step: Step, e: Event)
    requires Sized(s) && Enabled(s, step) && OnPath(s) && Apply(s, step).log == s.log + [e] && e.Effect?
    ensures s.pc.i == e.step && !s.pc.Finished?
    ensures e.step < |s.steps| && IsGuestStep(s.steps[e.step]) ==> s.pc.MaySchedule?
  {
    hide G.Authorize, G.Apply;
    assert (s.log + [e])[|s.log|] == e;
  }

  /** In every run, behind every effect of a guest step there is an earlier check of that
      step's guest whose policy has no floor, or one of at most the caller's rank. */
  lemma GuestFloorWasMet(trace: seq<State>, steps: seq<Step>, i: nat, m: nat) returns (check: nat, at: nat)
    requires Run(trace, steps) && i < |trace| && m < |trace[i].log| && trace[i].log[m].Effect?
    requires var n := trace[i].log[m].step; n < |trace[0].steps| && IsGuestStep(trace[0].steps[n])
    ensures check < at && LoggedAt(trace, i, m, at) && CheckedAt(trace, steps, check, trace[i].log[m].step)
    ensures trace[check].caller == trace[0].caller
  {
    hide Apply, Enabled, Admits, Inv, Start;
    at := LogOrigin(trace, steps, i, m);
    RunKeepsPath(trace, steps, at);
    RunKeepsInv(trace, steps, at);
    EffectOfGuestStep(trace[at], steps[at], trace[i].log[m]);
    check := ScheduleWasChecked(trace, steps, at);
    RunKeepsInv(trace, steps, check);
  }

  // ---- And below the floor nothing happens ---------------------------------------------------------

  /** The step is on its way to, or has come to, the end its refusal prescribes. */
  ghost predicate TurnedAway(s: State, i: nat, outcome: StepOutcome) {
    && i < |s.outcomes| && |s.outputs| <= i
    && (s.pc == Concluded(i, Halt(outcome))
        || (s.outcomes[i] == outcome && (s.pc == Stopping(i) || (s.pc.Finished? && s.status == Stopped))))
  }

  ghost predicate NoEffect(log: seq<Event>, i: nat) {
    forall e <- log :: e.Effect? ==> e.step != i
  }

  lemma TurnedAwayStays(s: State, step: Step, i: nat, outcome: StepOutcome)
    requires Sized(s) && Enabled(s, step) && TurnedAway(s, i, outcome) && NoEffect(s.log, i)
    ensures TurnedAway(Apply(s, step), i, outcome) && NoEffect(Apply(s, step).log, i)
  {
    hide G.Authorize, G.Apply;
  }

  ghost function Refusal(policy: Option<Option<Clearance>>): StepOutcome {
    if policy.None? then Failed else Denied
  }

  lemma CheckRefuses(s: State, step: Step)
    requires Inv(s) && Enabled(s, step) && step.CheckFloor? && !Admits(step.policy, s.caller)
    ensures TurnedAway(Apply(s, step), s.pc.i, Refusal(step.policy)) && NoEffect(Apply(s, step).log, s.pc.i)
  {
    hide GatedLog, OnceEach, CompletedBelow, CapsOk, Block, Input;
  }

  /** In every run, a caller below the floor is denied the step, as a policy that cannot be
      read fails it: from then on the step shows that, the run goes nowhere but to its end,
      stopped, and no effect of the step is ever logged. */
  lemma {:induction false} BelowFloorIsDenied(trace: seq<State>, steps: seq<Step>, check: nat, k: nat)
    requires Run(trace, steps) && check < k < |trace| && steps[check].CheckFloor?
    requires !Admits(steps[check].policy, trace[check].caller)
    ensures TurnedAway(trace[k], trace[check].pc.i, Refusal(steps[check].policy))
    ensures NoEffect(trace[k].log, trace[check].pc.i)
  {
    hide Apply, Inv, TurnedAway, NoEffect, Admits;
    if k == check + 1 {
      RunKeepsInv(trace, steps, check);
      CheckRefuses(trace[check], steps[check]);
    } else {
      BelowFloorIsDenied(trace, steps, check, k - 1);
      TurnedAwayStays(trace[k - 1], steps[k - 1], trace[check].pc.i, Refusal(steps[check].policy));
    }
  }

  /** What being below the floor means, level by level. */
  lemma FloorByLevel(caller: Caller, i: nat, j: nat)
    requires i < 5 && j < 5
    ensures var levels := [L1, L2, L3, L4, L5];
      Admits(Some(Some(levels[i])), Caller(caller.email, levels[j])) <==> i <= j
  {
    LevelsAscend(j, i);
  }

  // ---- A provider's key ---------------------------------------------------------------------------

  /** Step `find` of the run found the caller's key for the provider of step `i`. */
  ghost predicate KeyFoundAt(trace: seq<State>, steps: seq<Step>, find: nat, i: nat) {
    && find < |steps| && find < |trace| && steps[find] == FindKey(true)
    && trace[find].pc.Passed? && trace[find].pc.i == i
  }

  lemma ReachesKey(s: State, step: Step)
    requires Sized(s) && Enabled(s, step) && Apply(s, step).pc.KeyFound?
    ensures s.pc == Apply(s, step).pc || (step == FindKey(true) && s.pc.Passed? && s.pc.i == Apply(s, step).pc.i)
  {
    hide G.Authorize, G.Apply;
  }

  lemma {:induction false} KeyWasFound(trace: seq<State>, steps: seq<Step>, n: nat) returns (find: nat)
    requires Run(trace, steps) && n < |trace| && trace[n].pc.KeyFound?
    ensures find < n && KeyFoundAt(trace, steps, find, trace[n].pc.i)
  {
    hide Apply, Enabled;
    assert n > 0;
    ReachesKey(trace[n - 1], steps[n - 1]);
    if trace[n - 1].pc == trace[n].pc {
      find := KeyWasFound(trace, steps, n - 1);
    } else {
      find := n - 1;
    }
  }

  lemma EffectOfProviderStep(s: State, step: Step, e: Event)
    requires Sized(s) && Enabled(s, step) && OnPath(s) && Apply(s, step).log == s.log + [e] && e.Effect?
    ensures e.step < |s.steps| && s.steps[e.step].tool == "" && s.steps[e.step].provider != "" ==>
      s.pc.KeyFound? && s.pc.i == e.step
  {
    hide G.Authorize, G.Apply;
    assert (s.log + [e])[|s.log|] == e;
  }

  /** In every run, behind every effect of a provider step a key was found for it. */
  lemma ProviderKeyWasFound(trace: seq<State>, steps: seq<Step>, i: nat, m: nat) returns (find: nat, at: nat)
    requires Run(trace, steps) && i < |trace| && m < |trace[i].log| && trace[i].log[m].Effect?
    requires var n := trace[i].log[m].step;
      n < |trace[0].steps| && trace[0].steps[n].tool == "" && trace[0].steps[n].provider != ""
    ensures find < at && LoggedAt(trace, i, m, at) && KeyFoundAt(trace, steps, find, trace[i].log[m].step)
  {
    hide Apply, Enabled, Inv, Start;
    at := LogOrigin(trace, steps, i, m);
    RunKeepsPath(trace, steps, at);
    RunKeepsInv(trace, steps, at);
    EffectOfProviderStep(trace[at], steps[at], trace[i].log[m]);
    find := KeyWasFound(trace, steps, at);
  }

  lemma KeyRefuses(s: State, step: Step)
    requires Inv(s) && Enabled(s, step) && step == FindKey(false)
    ensures TurnedAway(Apply(s, step), s.pc.i, Failed) && NoEffect(Apply(s, step).log, s.pc.i)
  {
    hide GatedLog, OnceEach, CompletedBelow, CapsOk, Block, Input;
  }

  /** And without one the step fails, the run stops, and nothing of the step is logged. */
  lemma {:induction false} NoKeyFails(trace: seq<State>, steps: seq<Step>, find: nat, k: nat)
    requires Run(trace, steps) && find < k < |trace| && steps[find] == FindKey(false)
    ensures TurnedAway(trace[k], trace[find].pc.i, Failed) && NoEffect(trace[k].log, trace[find].pc.i)
  {
    hide Apply, Inv, TurnedAway, NoEffect;
    if k == find + 1 {
      RunKeepsInv(trace, steps, find);
      KeyRefuses(trace[find], steps[find]);
    } else {
      NoKeyFails(trace, steps, find, k - 1);
      TurnedAwayStays(trace[k - 1], steps[k - 1], trace[find].pc.i, Failed);
    }
  }

  // ---- The budget --------------------------------------------------------------------------------

  /** Step `start` of the run began step `i` before the deadline. */
  ghost predicate BegunAt(trace: seq<State>, steps: seq<Step>, start: nat, i: nat) {
    && start < |steps| && start < |trace| && steps[start].StartStep?
    && trace[start].pc == Boundary(i) && trace[start].clock < trace[start].deadline
  }

  lemma ReachesStep(s: State, step: Step)
    requires Sized(s) && Enabled(s, step) && InStep(Apply(s, step).pc)
    ensures (InStep(s.pc) && s.pc.i == Apply(s, step).pc.i)
         || (step.StartStep? && s.pc == Boundary(Apply(s, step).pc.i) && s.clock < s.deadline)
  {
    hide G.Authorize, G.Apply;
  }

  /** In every run, a step under way was begun before the deadline. */
  lemma {:induction false} BegunInTime(trace: seq<State>, steps: seq<Step>, n: nat) returns (start: nat)
    requires Run(trace, steps) && n < |trace| && InStep(trace[n].pc)
    ensures start < n && BegunAt(trace, steps, start, trace[n].pc.i)
  {
    hide Apply, Enabled;
    assert n > 0;
    ReachesStep(trace[n - 1], steps[n - 1]);
    if InStep(trace[n - 1].pc) && trace[n - 1].pc.i == trace[n].pc.i {
      start := BegunInTime(trace, steps, n - 1);
    } else {
      start := n - 1;
    }
  }

  lemma BudgetRefuses(s: State, step: Step)
    requires Inv(s) && Enabled(s, step) && step.StartStep? && s.clock >= s.deadline
    ensures TurnedAway(Apply(s, step), s.pc.i, Failed) && NoEffect(Apply(s, step).log, s.pc.i)
  {
    hide GatedLog, OnceEach, CompletedBelow, CapsOk, Block, Input;
  }

  /** And a step reached at the deadline or later fails, stops the run and has no effect. */
  lemma {:induction false} SpentBudgetStops(trace: seq<State>, steps: seq<Step>, start: nat, k: nat)
    requires Run(trace, steps) && start < k < |trace| && steps[start].StartStep?
    requires trace[start].clock >= trace[start].deadline
    ensures TurnedAway(trace[k], trace[start].pc.i, Failed) && NoEffect(trace[k].log, trace[start].pc.i)
  {
    hide Apply, Inv, TurnedAway, NoEffect;
    if k == start + 1 {
      RunKeepsInv(trace, steps, start);
      BudgetRefuses(trace[start], steps[start]);
    } else {
      SpentBudgetStops(trace, steps, start, k - 1);
      TurnedAwayStays(trace[k - 1], steps[k - 1], trace[start].pc.i, Failed);
    }
  }

  // ---- The life of a capability --------------------------------------------------------------------

  /** While its step uses it, the registry holds it for the caller until `expiry`, or has
      dropped it once that has passed. */
  ghost predicate Lent(s: State, cap: Caps.Cap, expiry: int) {
    HoldsCap(s.pc, cap) && cap in s.minted ==>
      if cap in s.caps then s.caps[cap].expiresAt == expiry else s.clock >= expiry
  }

  lemma MintLends(s: State, step: Step)
    requires Sized(s) && Enabled(s, step) && step.MintCap?
    ensures Lent(Apply(s, step), step.cap, s.clock + step.ttl)
  {
  }

  lemma StepLends(s: State, step: Step, cap: Caps.Cap, expiry: int)
    requires Sized(s) && Enabled(s, step) && Lent(s, cap, expiry) && cap in s.minted
    ensures Lent(Apply(s, step), cap, expiry)
    ensures cap in Apply(s, step).minted
  {
    hide G.Authorize, G.Apply;
  }

  lemma {:induction false} StaysLent(trace: seq<State>, steps: seq<Step>, j: nat, n: nat)
    requires Run(trace, steps) && j < n < |trace| && steps[j].MintCap?
    ensures Lent(trace[n], steps[j].cap, trace[j].clock + steps[j].ttl) && steps[j].cap in trace[n].minted
  {
    hide Apply, Lent;
    if n == j + 1 {
      MintLends(trace[j], steps[j]);
      MintRecords(trace[j], steps[j]);
    } else {
      StaysLent(trace, steps, j, n - 1);
      StepLends(trace[n - 1], steps[n - 1], steps[j].cap, trace[j].clock + steps[j].ttl);
    }
  }

  lemma MintRecords(s: State, step: Step)
    requires Sized(s) && Enabled(s, step) && step.MintCap?
    ensures step.cap in Apply(s, step).minted
  {
  }

  /** In every run, whatever others mint and revoke, a capability in use resolves if and only
      if the time it was minted for has not passed. */
  lemma CapLastsItsTime(trace: seq<State>, steps: seq<Step>, j: nat, n: nat)
    requires Run(trace, steps) && j < n < |trace| && steps[j].MintCap? && HoldsCap(trace[n].pc, steps[j].cap)
    ensures Caps.Resolve(trace[n].caps, steps[j].cap, trace[n].clock).Some? <==>
      trace[n].clock < trace[j].clock + steps[j].ttl
  {
    hide Run;
    StaysLent(trace, steps, j, n);
  }
}
