/** What one bump that reads out of turn costs: the loss of an activation, from every
    state and for every guest. */
module RegistryRace {
  import opened Wrappers
  import opened RegistryProtocol
  import opened RegistryExecutor

  /** All of a run's loads succeed, and its only untimely read is step `late`. */
  ghost predicate OneLateRead(trace: seq<State>, steps: seq<Step>, late: nat) {
    && |trace| == |steps| + 1 && late < |steps|
    && (forall step <- steps :: step.LoadNext? ==> step.ok)
    && forall k :: 0 <= k < |steps| ==> (Timely(trace[k], steps[k]) <==> k != late)
  }

  lemma JoinLate(t: seq<State>, p: seq<Step>, t': seq<State>, p': seq<Step>, late: nat)
    requires Run(t, p) && Run(t', p') && t[|t| - 1] == t'[0] && OneLateRead(t, p, late)
    requires AllTimely(t', p') && forall step <- p' :: step.LoadNext? ==> step.ok
    ensures Run(t + t'[1..], p + p') && OneLateRead(t + t'[1..], p + p', late)
    ensures (t + t'[1..])[|p + p'|] == t'[|p'|]
  {
    JoinRuns(t, p, t', p');
  }

  lemma JoinBefore(t: seq<State>, p: seq<Step>, t': seq<State>, p': seq<Step>, late: nat)
    requires Run(t, p) && Run(t', p') && t[|t| - 1] == t'[0] && OneLateRead(t', p', late)
    requires AllTimely(t, p) && forall step <- p :: !step.LoadNext?
    ensures Run(t + t'[1..], p + p') && OneLateRead(t + t'[1..], p + p', |p| + late)
    ensures (t + t'[1..])[|p + p'|] == t'[|p'|]
  {
    JoinRuns(t, p, t', p');
    var trace, steps := t + t'[1..], p + p';
    forall k | 0 <= k < |steps| ensures Timely(trace[k], steps[k]) <==> k != |p| + late {
      if k < |p| {
        assert trace[k] == t[k] && steps[k] == p[k];
      } else {
        assert trace[k] == t'[k - |p|] && steps[k] == p'[k - |p|];
      }
    }
  }

  /** A bump writes and reads. */
  lemma FirstRead(s: State, g: Guest) returns (trace: seq<State>, steps: seq<Step>)
    requires s.cp.pending == map[]
    ensures |trace| == |steps| + 1 && Run(trace, steps) && trace[0] == s && AllTimely(trace, steps)
    ensures forall step <- steps :: !step.LoadNext?
    ensures var e := trace[|steps|];
      && e.ex == s.ex && e.cp.generation == s.cp.generation
      && e.cp.pending == map[1 := Setting(s.cp.generation + 1)]
  {
    var write := Write(1, g, "", "");
    var s1 := Apply(s, write);
    trace, steps := [s, s1, Apply(s1, ReadGeneration(1))], [write, ReadGeneration(1)];
  }

  /** While it is still to set, another writes, reads and sets. */
  lemma WholeBump(s: State, g: Guest) returns (trace: seq<State>, steps: seq<Step>)
    requires 1 in s.cp.pending && s.cp.pending == map[1 := s.cp.pending[1]] && s.cp.pending[1].Setting?
    ensures |steps| == 3 && |trace| == 4 && Run(trace, steps) && trace[0] == s
    ensures forall step <- steps :: !step.LoadNext?
    ensures forall k :: 0 <= k < 3 ==>
      (Timely(trace[k], steps[k]) <==> k != 1 || s.cp.pending[1].next > s.cp.generation)
    ensures var e := trace[3];
      e.ex == s.ex && e.cp.generation == s.cp.generation + 1 && e.cp.pending == s.cp.pending
  {
    var write := Write(2, g, "", "");
    var s1 := Apply(s, write);
    var s2 := Apply(s1, ReadGeneration(2));
    trace, steps := [s, s1, s2, Apply(s2, SetGeneration(2))], [write, ReadGeneration(2), SetGeneration(2)];
    assert s1.cp.pending[1] == s.cp.pending[1];
  }

  lemma BumpIsLate(trace: seq<State>, steps: seq<Step>)
    requires |steps| == 3 && |trace| == 4 && forall step <- steps :: !step.LoadNext?
    requires forall k :: 0 <= k < 3 ==> (Timely(trace[k], steps[k]) <==> k != 1)
    ensures OneLateRead(trace, steps, 1)
  {
  }

  /** Two bumps read the same generation, and one of them sets it. */
  lemma TwoBumps(s: State, g: Guest) returns (trace: seq<State>, steps: seq<Step>)
    requires s.cp.pending == map[]
    ensures |trace| == |steps| + 1 && Run(trace, steps) && trace[0] == s && AllTimely(trace, steps)
    ensures forall step <- steps :: !step.LoadNext?
    ensures var e := trace[|steps|];
      && e.ex == s.ex && e.cp.generation == s.cp.generation + 1
      && e.cp.pending == map[1 := Setting(s.cp.generation + 1)]
  {
    hide Run, Timely;
    var t, p := FirstRead(s, g);
    var t', p' := WholeBump(t[|p|], g);
    assert AllTimely(t', p');
    JoinRuns(t, p, t', p');
    trace, steps := t + t'[1..], p + p';
  }

  lemma PollRun(s: State) returns (trace: seq<State>, steps: seq<Step>)
    requires Quiescent(s.(cp := s.cp.(pending := map[]))) && s.ex.generation.value < s.cp.generation
    ensures |trace| == |steps| + 1 && Run(trace, steps) && trace[0] == s && AllTimely(trace, steps)
    ensures forall step <- steps :: step.LoadNext? ==> step.ok
    ensures var e := trace[|steps|]; e.cp == s.cp && e.ex.phase.Idle? && e.ex.generation == Some(s.cp.generation)
  {
    var list := ListingExists(s.cp.policies);
    trace, steps := PollIsReconcile(s, list, seq(|list|, _ => true));
    assert forall step <- steps :: !step.ReadGeneration?;
  }

  /** From every quiescent state whose executor is not ahead, and for every guest, a run
      with a single untimely read and no failed load ends with the executor level with
      the control plane and the guest's activation missed for good. */
  lemma LateReadLosesActivation(s: State, g: Guest) returns (trace: seq<State>, steps: seq<Step>, late: nat)
    requires Consistent(s) && Quiescent(s) && s.ex.generation.value <= s.cp.generation
    ensures Run(trace, steps) && trace[0] == s && OneLateRead(trace, steps, late)
    ensures Agree(trace[|steps|]) && Missing(trace[|steps|], g)
  {
    hide Consistent, Run, OneLateRead, Missing, AllTimely, AllSerial;
    var t, p := TwoBumps(s, g);
    var t', p' := WholeBump(t[|p|], g);
    BumpIsLate(t', p');
    JoinBefore(t, p, t', p', 1);
    trace, steps, late := t + t'[1..], p + p', |p| + 1;
    t, p := PollRun(trace[|steps|]);
    JoinLate(trace, steps, t, p, late);
    trace, steps := trace + t[1..], steps + p;
    t, p := LateSet(trace[|steps|], s.cp.generation + 1);
    JoinLate(trace, steps, t, p, late);
    trace, steps := trace + t[1..], steps + p;
    RunKeeps(trace, steps, |steps|);
    t, p := ActivateRun(trace[|steps|], g, 1, 1);
    SerialIsTimely(t, p);
    JoinLate(trace, steps, t, p, late);
    trace, steps := trace + t[1..], steps + p;
  }

  lemma LateSet(s: State, next: nat) returns (trace: seq<State>, steps: seq<Step>)
    requires s.cp.pending == map[1 := Setting(next)]
    ensures |trace| == |steps| + 1 && Run(trace, steps) && trace[0] == s && AllTimely(trace, steps)
    ensures forall step <- steps :: !step.LoadNext?
    ensures var e := trace[|steps|]; e.ex == s.ex && e.cp.pending == map[] && e.cp.generation == next
  {
    trace, steps := [s, Apply(s, SetGeneration(1))], [SetGeneration(1)];
  }
}
