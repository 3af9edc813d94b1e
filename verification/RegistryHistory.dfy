/** What a run of the registry protocol says of a guest in terms of the activations and
    loads made: the executor runs what was activated last. */
module RegistryHistory {
  import opened Wrappers
  import opened RegistryProtocol

  // ---- The last activation stands ---------------------------------------------------------

  /** Step `j` is the last before `i` to activate `g`. */
  ghost predicate LastWrite(steps: seq<Step>, j: nat, i: nat, g: Guest) {
    && j < i <= |steps| && steps[j].Write? && steps[j].guest == g
    && forall k :: j < k < i ==> !(steps[k].Write? && steps[k].guest == g)
  }

  ghost predicate IsActivation(p: Policy, step: Step)
    requires step.Write?
  {
    p.assetUri == step.assetUri && p.version == step.version && p.fromRegistry
  }

  lemma WriteStands(s: State, step: Step, g: Guest)
    requires Enabled(s, step)
    ensures if step.Write? && step.guest == g
            then g in Apply(s, step).cp.policies && IsActivation(Apply(s, step).cp.policies[g], step)
            else g in s.cp.policies ==>
              g in Apply(s, step).cp.policies && Apply(s, step).cp.policies[g] == s.cp.policies[g]
  {
    hide Lists;
  }

  lemma {:induction false} LastWriteStands(trace: seq<State>, steps: seq<Step>, j: nat, i: nat, g: Guest)
    requires Run(trace, steps) && LastWrite(steps, j, i, g)
    ensures g in trace[i].cp.policies && IsActivation(trace[i].cp.policies[g], steps[j])
    decreases i
  {
    hide Apply, Enabled, IsActivation;
    WriteStands(trace[i - 1], steps[i - 1], g);
    if i > j + 1 {
      LastWriteStands(trace, steps, j, i - 1, g);
    }
  }

  // ---- A load is remembered ------------------------------------------------------------------

  /** Step `k` loads `g` from the list being applied. */
  ghost predicate LoadsAt(trace: seq<State>, steps: seq<Step>, k: nat, g: Guest) {
    && k < |steps| && |trace| == |steps| + 1 && steps[k] == LoadNext(true) && Enabled(trace[k], steps[k])
    && trace[k].ex.phase.list[trace[k].ex.phase.at].guest == g
  }

  ghost predicate ApplyingList(s: State, list: seq<Entry>, g: Guest) {
    s.ex.phase.Applying? && s.ex.phase.list == list && g in s.ex.phase.ok
  }

  lemma {:induction false} LoadIsKept(trace: seq<State>, steps: seq<Step>, k: nat, n: nat, g: Guest)
    requires Run(trace, steps) && LoadsAt(trace, steps, k, g) && k < n < |trace|
    requires trace[k].ex.phase.list[trace[k].ex.phase.at].policy.fromRegistry
    requires forall m :: k < m < n ==> !steps[m].StoreGeneration?
    ensures ApplyingList(trace[n], trace[k].ex.phase.list, g)
    decreases n
  {
    hide Lists;
    if n > k + 1 {
      LoadIsKept(trace, steps, k, n - 1, g);
    }
  }

  lemma {:induction false} StoreIsKept(trace: seq<State>, steps: seq<Step>, b: nat, n: nat)
    requires Run(trace, steps) && b < n < |trace| && steps[b].StoreGeneration?
    requires forall m :: b < m < n ==> !steps[m].StoreGeneration?
    ensures trace[n].ex.applied == trace[b].ex.phase.list && trace[n].ex.succeeded == trace[b].ex.phase.ok
    decreases n
  {
    hide Lists;
    if n > b + 1 {
      StoreIsKept(trace, steps, b, n - 1);
    }
  }

  lemma {:induction false} ListIsKept(trace: seq<State>, steps: seq<Step>, k: nat, n: nat)
    requires Run(trace, steps) && k <= n < |trace| && trace[k].ex.phase.Applying?
    requires forall m :: k <= m < n ==> !steps[m].StoreGeneration?
    ensures trace[n].ex.phase.Applying? && trace[n].ex.phase.list == trace[k].ex.phase.list
    decreases n
  {
    hide Lists;
    if n > k {
      ListIsKept(trace, steps, k, n - 1);
    }
  }

  /** Step `k` loads `g` successfully in the last replay finished before `i`, by step `b`. */
  ghost predicate LastReplayLoads(trace: seq<State>, steps: seq<Step>, k: nat, b: nat, i: nat, g: Guest) {
    && LoadsAt(trace, steps, k, g) && k < b < i <= |steps| && steps[b].StoreGeneration?
    && (forall m :: k < m < b ==> !steps[m].StoreGeneration?)
    && (forall m :: b < m < i ==> !steps[m].StoreGeneration?)
  }

  /** In every timely run from boot: when the executor is level with a finished control
      plane, a guest that its last replay loaded runs with the asset and version of the last
      activation of that guest in the run. */
  lemma RunsLastActivation(trace: seq<State>, steps: seq<Step>, j: nat, k: nat, b: nat, i: nat, g: Guest)
    requires Run(trace, steps) && Initial(trace[0]) && AllTimely(trace, steps) && i < |trace| && Agree(trace[i])
    requires LastWrite(steps, j, i, g) && LastReplayLoads(trace, steps, k, b, i, g)
    ensures g in trace[i].ex.loaded && IsActivation(trace[i].ex.loaded[g], steps[j])
  {
    LastWriteStands(trace, steps, j, i, g);
    TimelyRunsLoseNothing(trace, steps, i);
    ListIsKept(trace, steps, k, b);
    StoreIsKept(trace, steps, b, i);
    hide Run, Apply, Enabled, IsActivation;
    var phase := trace[k].ex.phase;
    var e := phase.list[phase.at];
    assert e in trace[i].ex.applied;
    assert e.policy == trace[i].cp.policies[g];
    IsFromRegistry(trace[i].cp.policies[g], steps[j]);
    LoadIsKept(trace, steps, k, b, g);
  }

  lemma IsFromRegistry(p: Policy, step: Step)
    requires step.Write? && IsActivation(p, step)
    ensures p.fromRegistry
  {
  }

  // ---- A poll that brings nothing new ----------------------------------------------------------

  /** Asking and being told no newer generation, or not being told, leaves everything as it
      was; being told a newer one starts a replay of the list. */
  lemma PollDecides(s: State, list: seq<Entry>)
    requires s.ex.phase.Idle? && Lists(list, s.cp.policies)
    ensures Enabled(s, Ask) && Enabled(Apply(s, Ask), PollFails) && Apply(Apply(s, Ask), PollFails) == s
    ensures var asked := Apply(s, Ask);
      && Enabled(asked, ReceiveList(list))
      && (Apply(asked, ReceiveList(list)) == s <==> s.ex.generation.Some? && s.cp.generation <= s.ex.generation.value)
  {
    hide Lists;
  }
}
