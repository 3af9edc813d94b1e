/** The guest registry shared by the control plane and an executor, as a protocol
    of separate store and network steps that interleave arbitrarily.

    An activation writes its policy, then bumps the registry generation by reading
    it and setting it one higher. The registry handler reads the generation and
    then lists the policies. An executor asks, applies the list guest by guest when
    the generation is newer than its own, and stores the generation it was told. */
module RegistryProtocol {
  import opened Wrappers

  type Guest = string

  /** `stamp` numbers the policy writes, so policies of one guest are ordered. */
  datatype Policy = Policy(assetUri: string, version: string, fromRegistry: bool, stamp: nat)

  datatype Entry = Entry(guest: Guest, policy: Policy)

  /** An activation whose policy is written but whose bump is not finished. */
  datatype Activation = Wrote | Setting(next: nat)

  datatype ControlPlane = ControlPlane(
    generation: nat, policies: map<Guest, Policy>, writes: nat, pending: map<nat, Activation>)

  /** What the executor is doing: waiting, waiting for a list after the handler has
      read `told`, or applying a list up to position `at`. */
  datatype Phase =
    | Idle
    | Asked(told: nat)
    | Applying(told: nat, list: seq<Entry>, at: nat, ok: set<Guest>)

  /** `generation` is absent until the boot replay has finished. `applied` is the
      list of the last finished replay, `succeeded` the guests it loaded. */
  datatype Executor = Executor(
    generation: Option<nat>, loaded: map<Guest, Policy>, phase: Phase, applied: seq<Entry>, succeeded: set<Guest>)

  datatype State = State(cp: ControlPlane, ex: Executor)

  datatype Step =
    | Write(id: nat, guest: Guest, assetUri: string, version: string)
    | ReadGeneration(id: nat)
    | SetGeneration(id: nat)
    | Ask
    | ReceiveList(list: seq<Entry>)
    | PollFails
    | LoadNext(ok: bool)
    | StoreGeneration

  /** `list` is a listing of `policies` in some order. */
  ghost predicate Lists(list: seq<Entry>, policies: map<Guest, Policy>) {
    && (forall i, j :: 0 <= i < j < |list| ==> list[i].guest != list[j].guest)
    && (forall e <- list :: e.guest in policies && policies[e.guest] == e.policy)
    && (forall g <- policies :: Entry(g, policies[g]) in list)
  }

  ghost predicate Enabled(s: State, step: Step) {
    match step
    case Write(id, _, _, _) => id !in s.cp.pending
    case ReadGeneration(id) => id in s.cp.pending && s.cp.pending[id].Wrote?
    case SetGeneration(id) => id in s.cp.pending && s.cp.pending[id].Setting?
    case Ask => s.ex.phase.Idle?
    case ReceiveList(list) => s.ex.phase.Asked? && Lists(list, s.cp.policies)
    case PollFails => s.ex.phase.Asked?
    case LoadNext(_) => s.ex.phase.Applying? && s.ex.phase.at < |s.ex.phase.list|
    case StoreGeneration => s.ex.phase.Applying? && s.ex.phase.at == |s.ex.phase.list|
  }

  /** An embedded guest is skipped, and a failed fetch or compile leaves the prior
      module in place. */
  function LoadEntry(loaded: map<Guest, Policy>, e: Entry, ok: bool): map<Guest, Policy> {
    if e.policy.fromRegistry && ok then loaded[e.guest := e.policy] else loaded
  }

  ghost function Apply(s: State, step: Step): State
    requires Enabled(s, step)
  {
    var cp, ex := s.cp, s.ex;
    match step
    case Write(id, guest, assetUri, version) =>
      s.(cp := cp.(policies := cp.policies[guest := Policy(assetUri, version, true, cp.writes)],
                   writes := cp.writes + 1,
                   pending := cp.pending[id := Wrote]))
    case ReadGeneration(id) =>
      s.(cp := cp.(pending := cp.pending[id := Setting(cp.generation + 1)]))
    case SetGeneration(id) =>
      s.(cp := cp.(generation := cp.pending[id].next, pending := cp.pending - {id}))
    case Ask =>
      s.(ex := ex.(phase := Asked(cp.generation)))
    case ReceiveList(list) =>
      if ex.generation.Some? && ex.phase.told <= ex.generation.value
      then s.(ex := ex.(phase := Idle))
      else s.(ex := ex.(phase := Applying(ex.phase.told, list, 0, {})))
    case PollFails =>
      s.(ex := ex.(phase := Idle))
    case LoadNext(ok) =>
      var e := ex.phase.list[ex.phase.at];
      s.(ex := ex.(loaded := LoadEntry(ex.loaded, e, ok),
                   phase := ex.phase.(at := ex.phase.at + 1,
                                      ok := if e.policy.fromRegistry && ok then ex.phase.ok + {e.guest}
                                            else ex.phase.ok)))
    case StoreGeneration =>
      s.(ex := ex.(generation := Some(ex.phase.told), applied := ex.phase.list,
                   succeeded := ex.phase.ok, phase := Idle))
  }

  /** The seeded embedded policies carry stamps below `writes`. */
  ghost predicate Initial(s: State) {
    && s.cp.generation == 0 && s.cp.pending == map[]
    && (forall g <- s.cp.policies :: s.cp.policies[g].stamp < s.cp.writes)
    && s.ex == Executor(None, map[], Idle, [], {})
  }

  /** `trace` is a run of the protocol taking `steps`. */
  ghost predicate Run(trace: seq<State>, steps: seq<Step>) {
    && |trace| == |steps| + 1
    && forall i :: 0 <= i < |steps| ==> Enabled(trace[i], steps[i]) && trace[i + 1] == Apply(trace[i], steps[i])
  }

  /** A bump that does not move the generation back. */
  ghost predicate Raises(s: State, step: Step) {
    step.SetGeneration? && Enabled(s, step) ==> s.cp.pending[step.id].next >= s.cp.generation
  }

  ghost predicate NeverLowers(trace: seq<State>, steps: seq<Step>)
    requires |trace| == |steps| + 1
  {
    forall i :: 0 <= i < |steps| ==> Raises(trace[i], steps[i])
  }

  /** The executor has nothing to do and the control plane no unfinished activation. */
  ghost predicate Quiescent(s: State) {
    s.ex.phase.Idle? && s.ex.generation.Some? && s.cp.pending == map[]
  }

  ghost predicate Agree(s: State) {
    Quiescent(s) && s.ex.generation.value == s.cp.generation
  }

  /** The last replay listed exactly the current policies. */
  ghost predicate UpToDate(s: State) {
    Lists(s.ex.applied, s.cp.policies)
  }

  // ---- What every step keeps, whatever the bumps do ---------------------------------

  ghost predicate Older(a: map<Guest, Policy>, b: map<Guest, Policy>) {
    forall g <- a :: g in b && a[g].stamp <= b[g].stamp
  }

  ghost predicate ListOlder(list: seq<Entry>, b: map<Guest, Policy>) {
    forall e <- list :: e.guest in b && e.policy.stamp <= b[e.guest].stamp
  }

  /** What the executor runs for a guest it counts as loaded is what the list said. */
  ghost predicate LoadedFrom(loaded: map<Guest, Policy>, list: seq<Entry>, ok: set<Guest>) {
    forall g <- ok :: g in loaded && Entry(g, loaded[g]) in list
  }

  ghost predicate ReplayConsistent(loaded: map<Guest, Policy>, list: seq<Entry>, at: nat, ok: set<Guest>) {
    && at <= |list|
    && (forall i, j :: 0 <= i < j < |list| ==> list[i].guest != list[j].guest)
    && LoadedFrom(loaded, list[..at], ok)
    && (forall e <- list[at..] :: e.guest in loaded ==> loaded[e.guest].stamp <= e.policy.stamp)
  }

  ghost predicate Consistent(s: State) {
    var cp, ex := s.cp, s.ex;
    && (forall g <- cp.policies :: cp.policies[g].stamp < cp.writes)
    && Older(ex.loaded, cp.policies)
    && ListOlder(ex.applied, cp.policies)
    && (match ex.phase
        case Applying(_, list, at, ok) => ListOlder(list, cp.policies) && ReplayConsistent(ex.loaded, list, at, ok)
        case _ => LoadedFrom(ex.loaded, ex.applied, ex.succeeded))
  }

  /** Guests never move back to an older policy. */
  ghost predicate NoRollback(s: State, s': State) {
    Older(s.ex.loaded, s'.ex.loaded)
  }

  lemma ReplayStep(loaded: map<Guest, Policy>, list: seq<Entry>, at: nat, ok: set<Guest>, e: Entry, good: bool)
    requires ReplayConsistent(loaded, list, at, ok) && at < |list| && e == list[at]
    ensures Older(loaded, LoadEntry(loaded, e, good))
    ensures ReplayConsistent(LoadEntry(loaded, e, good), list, at + 1,
                             if e.policy.fromRegistry && good then ok + {e.guest} else ok)
  {
  }

  lemma ReplayStarts(loaded: map<Guest, Policy>, list: seq<Entry>, policies: map<Guest, Policy>)
    requires Older(loaded, policies) && Lists(list, policies)
    ensures ReplayConsistent(loaded, list, 0, {}) && ListOlder(list, policies)
  {
  }

  lemma StepConsistent(s: State, step: Step)
    requires Consistent(s) && Enabled(s, step)
    ensures Consistent(Apply(s, step)) && NoRollback(s, Apply(s, step))
  {
    match step
    case ReceiveList(list) => ReplayStarts(s.ex.loaded, list, s.cp.policies);
    case LoadNext(ok) =>
      var ph := s.ex.phase;
      assert ph.list[ph.at] in ph.list;
      ReplayStep(s.ex.loaded, ph.list, ph.at, ph.ok, ph.list[ph.at], ok);
    case StoreGeneration =>
      assert s.ex.phase.list[..s.ex.phase.at] == s.ex.phase.list;
    case _ =>
  }

  // ---- What holds while no bump moves the generation back ----------------------------

  /** `list`, read after the generation `told`, is current, or a newer generation is
      set or still to be set. */
  ghost predicate Covered(cp: ControlPlane, told: nat, list: seq<Entry>) {
    || Lists(list, cp.policies)
    || cp.generation > told
    || exists id :: id in cp.pending && (cp.pending[id].Wrote? || cp.pending[id].next > told)
  }

  ghost predicate NothingLost(s: State) {
    var cp, ex := s.cp, s.ex;
    && (ex.generation.Some? ==> ex.generation.value <= cp.generation && Covered(cp, ex.generation.value, ex.applied))
    && (match ex.phase
        case Idle => true
        case Asked(told) => told <= cp.generation
        case Applying(told, list, _, _) => told <= cp.generation && Covered(cp, told, list))
  }

  lemma StillCovered(s: State, step: Step, told: nat, list: seq<Entry>)
    requires Enabled(s, step) && Raises(s, step)
    requires told <= s.cp.generation && Covered(s.cp, told, list)
    ensures told <= Apply(s, step).cp.generation && Covered(Apply(s, step).cp, told, list)
  {
    var cp' := Apply(s, step).cp;
    if step.Write? {
      assert step.id in cp'.pending;
    } else if id :| id in s.cp.pending && (s.cp.pending[id].Wrote? || s.cp.pending[id].next > told) {
      if (step.ReadGeneration? || step.SetGeneration?) && step.id == id {
        assert step.ReadGeneration? ==> cp'.pending[id].next > told;
      } else {
        assert id in cp'.pending && cp'.pending[id] == s.cp.pending[id];
      }
    }
  }

  lemma StepLosesNothing(s: State, step: Step)
    requires NothingLost(s) && Enabled(s, step) && Raises(s, step)
    ensures NothingLost(Apply(s, step))
  {
    if s.ex.generation.Some? {
      StillCovered(s, step, s.ex.generation.value, s.ex.applied);
    }
    if s.ex.phase.Applying? {
      StillCovered(s, step, s.ex.phase.told, s.ex.phase.list);
    }
  }

  lemma {:induction false} RunKeeps(trace: seq<State>, steps: seq<Step>, i: nat)
    requires Run(trace, steps) && Consistent(trace[0]) && i < |trace|
    ensures Consistent(trace[i])
    ensures NothingLost(trace[0]) && NeverLowers(trace, steps) ==> NothingLost(trace[i])
  {
    if i > 0 {
      RunKeeps(trace, steps, i - 1);
      StepConsistent(trace[i - 1], steps[i - 1]);
      if NothingLost(trace[0]) && NeverLowers(trace, steps) {
        StepLosesNothing(trace[i - 1], steps[i - 1]);
      }
    }
  }

  /** The list applied last is current once the generations agree and nothing is
      unfinished, and everything that loaded from it is what now runs. */
  ghost predicate Synced(s: State) {
    && UpToDate(s)
    && forall g <- s.ex.succeeded :: g in s.cp.policies && g in s.ex.loaded && s.ex.loaded[g] == s.cp.policies[g]
  }

  lemma AgreementMeansSynced(s: State)
    requires Consistent(s) && NothingLost(s) && Agree(s)
    ensures Synced(s)
  {
  }

  /** Over every interleaving in which no bump moves the generation back, an idle
      executor whose generation equals the control plane's, with no activation
      unfinished, runs the current policy of every guest it managed to load. */
  lemma NoActivationIsLost(trace: seq<State>, steps: seq<Step>, i: nat)
    requires Run(trace, steps) && Initial(trace[0]) && NeverLowers(trace, steps) && i < |trace|
    requires Agree(trace[i])
    ensures Synced(trace[i])
  {
    RunKeeps(trace, steps, i);
    AgreementMeansSynced(trace[i]);
  }

  lemma OlderReflexive(a: map<Guest, Policy>)
    ensures Older(a, a)
  {
  }

  lemma OlderTransitive(a: map<Guest, Policy>, b: map<Guest, Policy>, c: map<Guest, Policy>)
    requires Older(a, b) && Older(b, c)
    ensures Older(a, c)
  {
  }

  /** No interleaving, raising or not, takes a guest back to an older policy. */
  lemma {:induction false} PoliciesNeverRollBack(trace: seq<State>, steps: seq<Step>, i: nat, j: nat)
    requires Run(trace, steps) && Initial(trace[0]) && i <= j < |trace|
    ensures Older(trace[i].ex.loaded, trace[j].ex.loaded)
    decreases j
  {
    hide Apply, Enabled, Older, NothingLost;
    if i < j {
      PoliciesNeverRollBack(trace, steps, i, j - 1);
      RunKeeps(trace, steps, j - 1);
      StepConsistent(trace[j - 1], steps[j - 1]);
      OlderTransitive(trace[i].ex.loaded, trace[j - 1].ex.loaded, trace[j].ex.loaded);
    } else {
      OlderReflexive(trace[i].ex.loaded);
    }
  }

  // ---- When the generation is read ------------------------------------------------------

  /** No other bump stands between its read and its set when this one reads. */
  ghost predicate Serial(s: State, step: Step) {
    step.ReadGeneration? ==> forall id <- s.cp.pending :: s.cp.pending[id].Wrote?
  }

  /** Weaker: no bump that read before the last set is still to set when this one reads. */
  ghost predicate Timely(s: State, step: Step) {
    step.ReadGeneration? ==>
      forall id <- s.cp.pending :: s.cp.pending[id].Setting? ==> s.cp.pending[id].next > s.cp.generation
  }

  ghost predicate AllSerial(trace: seq<State>, steps: seq<Step>)
    requires |trace| == |steps| + 1
  {
    forall k :: 0 <= k < |steps| ==> Serial(trace[k], steps[k])
  }

  ghost predicate AllTimely(trace: seq<State>, steps: seq<Step>)
    requires |trace| == |steps| + 1
  {
    forall k :: 0 <= k < |steps| ==> Timely(trace[k], steps[k])
  }

  /** Unfinished bumps will all raise the generation by one, or all leave it. */
  ghost predicate Level(cp: ControlPlane) {
    || (forall id <- cp.pending :: cp.pending[id].Setting? ==> cp.pending[id].next == cp.generation + 1)
    || (forall id <- cp.pending :: cp.pending[id].Setting? ==> cp.pending[id].next == cp.generation)
  }

  lemma TimelyStep(s: State, step: Step)
    requires Level(s.cp) && Enabled(s, step) && Timely(s, step)
    ensures Level(Apply(s, step).cp) && Raises(s, step)
  {
  }

  /** From any state whose bumps are level, such as one without any, timely bumps never
      move the generation back. */
  lemma {:induction false} TimelyBumpsNeverLower(trace: seq<State>, steps: seq<Step>, i: nat)
    requires Run(trace, steps) && Level(trace[0].cp) && i < |trace| && AllTimely(trace, steps)
    ensures Level(trace[i].cp)
    ensures forall k :: 0 <= k < i ==> Raises(trace[k], steps[k])
  {
    if i > 0 {
      TimelyBumpsNeverLower(trace, steps, i - 1);
      TimelyStep(trace[i - 1], steps[i - 1]);
    }
  }

  lemma SerialIsTimely(trace: seq<State>, steps: seq<Step>)
    requires Run(trace, steps) && AllSerial(trace, steps)
    ensures AllTimely(trace, steps)
  {
    assert forall k :: 0 <= k < |steps| && Serial(trace[k], steps[k]) ==> Timely(trace[k], steps[k]);
  }

  /** At most one bump is between its read and its set, and will raise the generation. */
  ghost predicate OneBump(cp: ControlPlane) {
    && (forall id <- cp.pending :: cp.pending[id].Setting? ==> cp.pending[id].next == cp.generation + 1)
    && (forall a <- cp.pending, b <- cp.pending :: cp.pending[a].Setting? && cp.pending[b].Setting? ==> a == b)
  }

  lemma {:induction false} SerialKeepsOneBump(trace: seq<State>, steps: seq<Step>, i: nat)
    requires Run(trace, steps) && OneBump(trace[0].cp) && i < |trace|
    requires forall k :: 0 <= k < i ==> Serial(trace[k], steps[k])
    ensures OneBump(trace[i].cp)
  {
    if i > 0 {
      SerialKeepsOneBump(trace, steps, i - 1);
      assert Serial(trace[i - 1], steps[i - 1]);
    }
  }

  /** A run in which no read but that of step `k` overlaps another bump is timely, so two
      overlapping reads are the least that can cost an activation. */
  lemma OneOverlapIsTimely(trace: seq<State>, steps: seq<Step>, k: nat)
    requires Run(trace, steps) && OneBump(trace[0].cp) && k < |steps|
    requires forall j :: 0 <= j < |steps| && j != k ==> Serial(trace[j], steps[j])
    ensures AllTimely(trace, steps)
  {
    SerialKeepsOneBump(trace, steps, k);
    forall j | 0 <= j < |steps| ensures Timely(trace[j], steps[j]) {
      assert j == k || Serial(trace[j], steps[j]);
    }
  }

  // ---- Exactly when activations are safe --------------------------------------------------

  /** From here on, however timely bumps interleave with polls, an executor level with a
      finished control plane runs what it should. */
  ghost predicate Safe(s: State) {
    forall trace: seq<State>, steps, i ::
      Run(trace, steps) && trace[0] == s && AllTimely(trace, steps) && 0 <= i < |trace| && Agree(trace[i])
      ==> Synced(trace[i])
  }

  /** The same for bumps that do not overlap at all. */
  ghost predicate SafeSerially(s: State) {
    forall trace: seq<State>, steps, i ::
      Run(trace, steps) && trace[0] == s && AllSerial(trace, steps) && 0 <= i < |trace| && Agree(trace[i])
      ==> Synced(trace[i])
  }

  /** A quiescent executor that is behind is safe, and so is one that is level and
      up to date. */
  lemma BehindIsSafe(s: State)
    requires Consistent(s) && Quiescent(s)
    requires s.ex.generation.value < s.cp.generation
          || (s.ex.generation.value == s.cp.generation && UpToDate(s))
    ensures Safe(s)
  {
    forall trace: seq<State>, steps, i
      | Run(trace, steps) && trace[0] == s && AllTimely(trace, steps) && 0 <= i < |trace| && Agree(trace[i])
      ensures Synced(trace[i])
    {
      TimelyBumpsNeverLower(trace, steps, |steps|);
      RunKeeps(trace, steps, i);
      AgreementMeansSynced(trace[i]);
    }
  }

  /** The current policy of `g` comes from the registry and is not what the executor runs. */
  ghost predicate Missing(s: State, g: Guest) {
    && g in s.cp.policies && s.cp.policies[g].fromRegistry
    && (g !in s.ex.loaded || s.ex.loaded[g] != s.cp.policies[g])
    && Entry(g, s.cp.policies[g]) !in s.ex.applied
  }

  lemma ActivateOnce(s: State, g: Guest, id: nat) returns (trace: seq<State>, steps: seq<Step>)
    requires Consistent(s) && s.cp.pending == map[]
    ensures |trace| == |steps| + 1 && Run(trace, steps) && trace[0] == s && AllSerial(trace, steps)
    ensures forall step <- steps :: !step.LoadNext?
    ensures var e := trace[|steps|];
      e.ex == s.ex && e.cp.pending == map[] && e.cp.generation == s.cp.generation + 1 && Missing(e, g)
  {
    var write := Write(id, g, "", "");
    var s1 := Apply(s, write);
    var s2 := Apply(s1, ReadGeneration(id));
    trace, steps := [s, s1, s2, Apply(s2, SetGeneration(id))], [write, ReadGeneration(id), SetGeneration(id)];
  }

  /** `n` uninterrupted activations of `g` raise the generation by `n`, leave the
      executor and the other policies as they were, and are missed so far. */
  lemma {:induction false} ActivateRun(s: State, g: Guest, id: nat, n: nat)
    returns (trace: seq<State>, steps: seq<Step>)
    requires Consistent(s) && s.cp.pending == map[] && n >= 1
    ensures |trace| == |steps| + 1 && Run(trace, steps) && trace[0] == s && AllSerial(trace, steps)
    ensures forall step <- steps :: !step.LoadNext?
    ensures var e := trace[|steps|];
      e.ex == s.ex && e.cp.pending == map[] && e.cp.generation == s.cp.generation + n && Missing(e, g)
    decreases n
  {
    hide Run, AllSerial, Consistent, Missing;
    trace, steps := ActivateOnce(s, g, id);
    if n > 1 {
      RunKeeps(trace, steps, |steps|);
      var trace', steps' := ActivateRun(trace[|steps|], g, id, n - 1);
      JoinRuns(trace, steps, trace', steps');
      trace, steps := trace + trace'[1..], steps + steps';
    }
  }

  lemma JoinRuns(t: seq<State>, p: seq<Step>, t': seq<State>, p': seq<Step>)
    requires Run(t, p) && Run(t', p') && t[|t| - 1] == t'[0]
    ensures Run(t + t'[1..], p + p') && (t + t'[1..])[|p + p'|] == t'[|p'|]
    ensures AllSerial(t, p) && AllSerial(t', p') ==> AllSerial(t + t'[1..], p + p')
    ensures AllTimely(t, p) && AllTimely(t', p') ==> AllTimely(t + t'[1..], p + p')
  {
    hide Apply, Enabled, Serial, Timely;
    var trace, steps, n := t + t'[1..], p + p', |p|;
    assert forall k :: 0 <= k < n ==> trace[k] == t[k] && steps[k] == p[k];
    assert forall k :: n <= k <= |steps| ==> trace[k] == t'[k - n];
    assert forall k :: n <= k < |steps| ==> steps[k] == p'[k - n];
  }

  /** From every state with the executor ahead of the control plane, an activation of any
      guest can be missed though no two bumps overlap. */
  lemma AheadLosesActivation(s: State, g: Guest) returns (trace: seq<State>, steps: seq<Step>)
    requires Consistent(s) && Quiescent(s) && s.ex.generation.value > s.cp.generation
    ensures Run(trace, steps) && trace[0] == s && AllSerial(trace, steps)
    ensures Agree(trace[|steps|]) && Missing(trace[|steps|], g)
  {
    trace, steps := ActivateRun(s, g, 0, s.ex.generation.value - s.cp.generation);
  }

  /** Exactly when a quiescent state is safe, for timely bumps and for serial ones: the
      executor is behind the control plane, or level with it and up to date. */
  lemma SafeExactlyWhenNotAhead(s: State)
    requires Consistent(s) && Quiescent(s)
    ensures Safe(s) <==> (s.ex.generation.value < s.cp.generation
                          || (s.ex.generation.value == s.cp.generation && UpToDate(s)))
    ensures SafeSerially(s) <==> Safe(s)
  {
    if s.ex.generation.value > s.cp.generation {
      var trace, steps := AheadLosesActivation(s, "g");
      SerialIsTimely(trace, steps);
      assert !Synced(trace[|steps|]);
    } else if s.ex.generation.value == s.cp.generation && !UpToDate(s) {
      assert Run([s], []) && AllSerial([s], []) && AllTimely([s], []) && Agree([s][0]) && !Synced([s][0]);
    } else {
      BehindIsSafe(s);
      SerialFromSafe(s);
    }
  }

  lemma SerialFromSafe(s: State)
    requires Safe(s)
    ensures SafeSerially(s)
  {
    forall trace: seq<State>, steps, i
      | Run(trace, steps) && trace[0] == s && AllSerial(trace, steps) && 0 <= i < |trace| && Agree(trace[i])
      ensures Synced(trace[i])
    {
      SerialIsTimely(trace, steps);
    }
  }

  /** So it is from boot: with timely bumps no activation is ever lost. */
  lemma TimelyRunsLoseNothing(trace: seq<State>, steps: seq<Step>, i: nat)
    requires Run(trace, steps) && Initial(trace[0]) && AllTimely(trace, steps) && i < |trace| && Agree(trace[i])
    ensures Synced(trace[i])
  {
    TimelyBumpsNeverLower(trace, steps, |steps|);
    NoActivationIsLost(trace, steps, i);
  }
}
