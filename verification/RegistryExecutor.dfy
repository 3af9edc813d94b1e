/** The executor side of the registry: replaying a listing into the mesh and
    advancing the generation, as one object; and its place in the protocol. */
module RegistryExecutor {
  import opened Wrappers
  import opened RegistryProtocol

  /** The control plane's answer, or the failure of the request. */
  datatype Reply = Listing(generation: nat, guests: seq<Entry>) | Unreachable

  datatype Outcome = Reconciled | Unchanged | Failed

  /** The mesh after replaying `list`; `ok[i]` says whether the fetch and the compile
      of the i-th guest succeeded. */
  ghost function Replay(mesh: map<Guest, Policy>, list: seq<Entry>, ok: seq<bool>): map<Guest, Policy>
    requires |ok| == |list|
  {
    if list == [] then mesh else
    var n := |list| - 1;
    LoadEntry(Replay(mesh, list[..n], ok[..n]), list[n], ok[n])
  }

  /** Each guest ends on its listed policy if it is a registry guest that loaded, and
      otherwise keeps what it had. */
  lemma {:induction false} ReplaySpec(mesh: map<Guest, Policy>, list: seq<Entry>, ok: seq<bool>, i: nat, g: Guest)
    requires |ok| == |list| && i < |list|
    requires forall j, k :: 0 <= j < k < |list| ==> list[j].guest != list[k].guest
    ensures list[i].policy.fromRegistry && ok[i] ==>
      list[i].guest in Replay(mesh, list, ok) && Replay(mesh, list, ok)[list[i].guest] == list[i].policy
    ensures !(list[i].policy.fromRegistry && ok[i]) ==>
      (list[i].guest in Replay(mesh, list, ok) <==> list[i].guest in mesh)
      && (list[i].guest in mesh ==> Replay(mesh, list, ok)[list[i].guest] == mesh[list[i].guest])
    ensures (forall e <- list :: e.guest != g) ==>
      (g in Replay(mesh, list, ok) <==> g in mesh) && (g in mesh ==> Replay(mesh, list, ok)[g] == mesh[g])
  {
    var n := |list| - 1;
    var init := list[..n];
    if i < n {
      ReplaySpec(mesh, init, ok[..n], i, g);
    } else if n > 0 {
      ReplaySpec(mesh, init, ok[..n], 0, list[n].guest);
      ReplaySpec(mesh, init, ok[..n], 0, g);
      forall e <- init ensures e.guest != list[n].guest {
        var j :| 0 <= j < n && list[j] == e;
      }
    }
  }

  class ExecutorPod {
    var mesh: map<Guest, Policy>
    var generation: nat

    /** Boot: replay whatever the control plane lists and record its generation. */
    constructor (embedded: map<Guest, Policy>, guests: seq<Entry>, told: nat, ok: seq<bool>)
      requires |ok| == |guests|
      ensures mesh == Replay(embedded, guests, ok) && generation == told
    {
      mesh := embedded;
      generation := told;
      new;
      ApplyRegistry(guests, ok);
    }

    method ApplyRegistry(guests: seq<Entry>, ok: seq<bool>)
      requires |ok| == |guests|
      modifies this`mesh
      ensures mesh == Replay(old(mesh), guests, ok)
    {
      var i := 0;
      while i < |guests|
        invariant 0 <= i <= |guests|
        invariant mesh == Replay(old(mesh), guests[..i], ok[..i])
      {
        var guest := guests[i];
        assert guests[..i + 1][..i] == guests[..i] && ok[..i + 1][..i] == ok[..i];
        if guest.policy.fromRegistry {
          if ok[i] {
            mesh := mesh[guest.guest := guest.policy];
          }
        }
        i := i + 1;
      }
      assert guests[..i] == guests && ok[..i] == ok;
    }

    method ReconcileOnce(reply: Reply, ok: seq<bool>) returns (r: Outcome)
      requires reply.Listing? ==> |ok| == |reply.guests|
      modifies this
      ensures r == if reply.Unreachable? then Failed
                   else if reply.generation <= old(generation) then Unchanged else Reconciled
      ensures r != Reconciled ==> mesh == old(mesh) && generation == old(generation)
      ensures r == Reconciled ==>
        mesh == Replay(old(mesh), reply.guests, ok) && generation == reply.generation > old(generation)
    {
      match reply {
        case Unreachable => return Failed;
        case Listing(told, guests) =>
          if told <= generation { return Unchanged; }
          ApplyRegistry(guests, ok);
          generation := told;
          return Reconciled;
      }
    }
  }

  // ---- The pod inside the protocol ---------------------------------------------------

  ghost function Loads(ok: seq<bool>): seq<Step> {
    seq(|ok|, i requires 0 <= i < |ok| => LoadNext(ok[i]))
  }

  /** The protocol's loading steps compute the same replay, so a pod's reconcile is a
      poll of the protocol in which nothing else happened in between. */
  lemma {:induction false} LoadsReplay(s: State, list: seq<Entry>, ok: seq<bool>, n: nat)
    returns (trace: seq<State>)
    requires s.ex.phase.Applying? && s.ex.phase.list == list && s.ex.phase.at == 0 && |ok| == |list| && n <= |list|
    ensures Run(trace, Loads(ok)[..n]) && trace[0] == s
    ensures var e := trace[n];
      && e.cp == s.cp && e.ex.generation == s.ex.generation
      && e.ex.phase.Applying? && e.ex.phase.told == s.ex.phase.told && e.ex.phase.list == list && e.ex.phase.at == n
      && e.ex.loaded == Replay(s.ex.loaded, list[..n], ok[..n])
  {
    if n == 0 {
      trace := [s];
    } else {
      trace := LoadsReplay(s, list, ok, n - 1);
      assert list[..n][..n - 1] == list[..n - 1] && ok[..n][..n - 1] == ok[..n - 1];
      assert Loads(ok)[..n][..n - 1] == Loads(ok)[..n - 1];
      trace := trace + [Apply(trace[n - 1], LoadNext(ok[n - 1]))];
    }
  }

  lemma PollIsReconcile(s: State, list: seq<Entry>, ok: seq<bool>) returns (trace: seq<State>, steps: seq<Step>)
    requires s.ex.phase.Idle? && Lists(list, s.cp.policies) && |ok| == |list|
    requires s.ex.generation.None? || s.cp.generation > s.ex.generation.value
    ensures steps == [Ask, ReceiveList(list)] + Loads(ok) + [StoreGeneration]
    ensures Run(trace, steps) && trace[0] == s
    ensures var e := trace[|steps|];
      && e.cp == s.cp && e.ex.phase.Idle?
      && e.ex.generation == Some(s.cp.generation) && e.ex.applied == list
      && e.ex.loaded == Replay(s.ex.loaded, list, ok)
  {
    hide Run, Apply, Enabled, Loads, Replay, Lists;
    var t, p := PollStarts(s, list);
    var t' := LoadsReplay(t[2], list, ok, |list|);
    LoadsWhole(list, ok);
    JoinRuns(t, p, t', Loads(ok));
    trace, steps := t + t'[1..], p + Loads(ok);
    t, p := PollEnds(trace[|steps|]);
    JoinRuns(trace, steps, t, p);
    trace, steps := trace + t[1..], steps + p;
  }

  lemma PollStarts(s: State, list: seq<Entry>) returns (trace: seq<State>, steps: seq<Step>)
    requires s.ex.phase.Idle? && Lists(list, s.cp.policies)
    requires s.ex.generation.None? || s.cp.generation > s.ex.generation.value
    ensures steps == [Ask, ReceiveList(list)] && |trace| == 3 && Run(trace, steps) && trace[0] == s
    ensures trace[2] == s.(ex := s.ex.(phase := Applying(s.cp.generation, list, 0, {})))
  {
    hide Lists;
    var s1 := Apply(s, Ask);
    trace, steps := [s, s1, Apply(s1, ReceiveList(list))], [Ask, ReceiveList(list)];
  }

  lemma PollEnds(s: State) returns (trace: seq<State>, steps: seq<Step>)
    requires s.ex.phase.Applying? && s.ex.phase.at == |s.ex.phase.list|
    ensures steps == [StoreGeneration] && |trace| == 2 && Run(trace, steps) && trace[0] == s
    ensures var e := trace[1];
      && e.cp == s.cp && e.ex.phase.Idle? && e.ex.generation == Some(s.ex.phase.told) && e.ex.loaded == s.ex.loaded
      && e.ex.succeeded == s.ex.phase.ok && e.ex.applied == s.ex.phase.list
  {
    trace, steps := [s, Apply(s, StoreGeneration)], [StoreGeneration];
  }

  lemma LoadsWhole(list: seq<Entry>, ok: seq<bool>)
    requires |ok| == |list|
    ensures list[..|list|] == list && ok[..|list|] == ok && Loads(ok)[..|list|] == Loads(ok) && |Loads(ok)| == |list|
  {
  }

  // ---- Catching up ----------------------------------------------------------------------

  lemma {:induction false} ListingExists(policies: map<Guest, Policy>) returns (list: seq<Entry>)
    ensures Lists(list, policies)
  {
    list := [];
    if policies != map[] {
      var g :| g in policies;
      var others := policies - {g};
      var rest := ListingExists(others);
      list := [Entry(g, policies[g])] + rest;
      assert Entry(g, policies[g]) in list;
      forall x <- policies ensures Entry(x, policies[x]) in list {
        if x != g {
          assert x in others && Entry(x, others[x]) in rest;
        }
      }
    }
  }

  lemma ReplayLoadsAll(mesh: map<Guest, Policy>, list: seq<Entry>, ok: seq<bool>,
                       policies: map<Guest, Policy>, g: Guest)
    requires Lists(list, policies) && |ok| == |list| && (forall b <- ok :: b)
    requires g in policies && policies[g].fromRegistry
    ensures g in Replay(mesh, list, ok) && Replay(mesh, list, ok)[g] == policies[g]
  {
    hide Replay;
    assert Entry(g, policies[g]) in list;
    var i :| 0 <= i < |list| && list[i] == Entry(g, policies[g]);
    assert ok[i] in ok;
    ReplaySpec(mesh, list, ok, i, g);
  }

  /** From every quiescent state with the executor behind, an uninterrupted poll whose
      loads succeed makes it level, up to date and running every registry policy, and
      from there no timely run loses an activation. */
  lemma PollCatchesUp(s: State) returns (trace: seq<State>, steps: seq<Step>)
    requires Consistent(s) && Quiescent(s) && s.ex.generation.value < s.cp.generation
    ensures |trace| == |steps| + 1 && Run(trace, steps) && trace[0] == s && AllSerial(trace, steps)
    ensures forall step <- steps :: step.LoadNext? ==> step.ok
    ensures var e := trace[|steps|];
      && e.cp == s.cp && Agree(e) && UpToDate(e) && Safe(e)
      && forall g <- e.cp.policies :: e.cp.policies[g].fromRegistry ==>
           g in e.ex.loaded && e.ex.loaded[g] == e.cp.policies[g]
  {
    var list := ListingExists(s.cp.policies);
    var ok := seq(|list|, _ => true);
    trace, steps := PollIsReconcile(s, list, ok);
    assert forall step <- steps :: !step.ReadGeneration?;
    hide Replay, Safe, Apply, Enabled;
    RunKeeps(trace, steps, |steps|);
    var e := trace[|steps|];
    forall g <- e.cp.policies | e.cp.policies[g].fromRegistry
      ensures g in e.ex.loaded && e.ex.loaded[g] == e.cp.policies[g]
    {
      ReplayLoadsAll(s.ex.loaded, list, ok, s.cp.policies, g);
    }
    SafeExactlyWhenNotAhead(e);
  }
}
