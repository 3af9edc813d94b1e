/** One loop run, step by step, interleaved with grant calls and with other users of
    the capability registry. Every gate reads the grants as they are at that moment. */
module LoopEngine {
  import opened Wrappers
  import opened Firm
  import G = Grants
  import H = GrantHistory
  import Caps = Capabilities

  /** An opaque JSON value. */
  type Payload = string

  datatype LoopStep = LoopStep(skill: string, scope: G.Id, tool: string, provider: string)

  datatype StepOutcome = Pending | Running | Completed | Failed | Denied | TimedOut
  datatype RunStatus = Ongoing | Succeeded | Stopped

  predicate Bad(o: StepOutcome) {
    o.Failed? || o.Denied? || o.TimedOut?
  }

  /** How running a step came out: a payload to pipe onward, or the outcome that stops
      the run. */
  datatype Conclusion = Output(payload: Payload) | Halt(outcome: StepOutcome)

  /** Where the executor thread is. */
  datatype Pc =
    | Boundary(i: nat)
    | Gating(i: nat)
    | Passed(i: nat, skill: G.Skill)
    | CapMinted(i: nat, cap: Caps.Cap)
    | ToolReturned(i: nat, cap: Caps.Cap, result: Conclusion)
    | MaySchedule(i: nat)
    | KeyFound(i: nat)
    | Calling(i: nat)
    | Concluded(i: nat, result: Conclusion)
    | Stopping(i: nat)
    | Finished

  /** What the run did, in order. `Effect` is a tool call, a guest schedule or a
      provider call, with the payload it was given. */
  datatype Event = Gate(step: nat, passed: bool) | Effect(step: nat, input: Payload) | Completion(step: nat)

  datatype State = State(
    steps: seq<LoopStep>, caller: Caller, initial: Payload, deadline: int,
    db: G.Db, caps: map<Caps.Cap, Caps.Entry>, clock: int,
    outcomes: seq<StepOutcome>, status: RunStatus, payload: Payload, pc: Pc,
    outputs: seq<Payload>, log: seq<Event>, minted: map<Caps.Cap, nat>)

  datatype Step =
    | StartStep
    | PassGate
    | MintCap(cap: Caps.Cap, ttl: int)
    | CallTool(result: Conclusion)
    | RevokeCap
    | CheckFloor(policy: Option<Option<Clearance>>)
    | ScheduleGuest
    | FindKey(found: bool)
    | CallProvider
    | Await(result: Conclusion)
    | Conclude
    | Finish
    | GrantCall(call: G.Call)
    | OtherMint(cap: Caps.Cap, entry: Caps.Entry)
    | OtherRevoke(cap: Caps.Cap)
    | Tick(to: int)

  ghost predicate ToolResult(r: Conclusion) {
    r.Output? || r.outcome.Failed?
  }

  ghost predicate CallResult(s: LoopStep, r: Conclusion) {
    r.Output? || r.outcome.Failed? || (r.outcome.TimedOut? && s.provider == "")
  }

  /** A non-empty tool makes a tool step, else an empty provider makes a guest step. */
  ghost predicate Enabled(s: State, step: Step) {
    var pc := s.pc;
    match step
    case StartStep => pc.Boundary? && pc.i < |s.steps|
    case PassGate => pc.Gating? && pc.i < |s.steps|
    case MintCap(cap, _) =>
      pc.Passed? && pc.i < |s.steps| && s.steps[pc.i].tool != "" && cap !in s.caps && cap !in s.minted
    case CallTool(r) => pc.CapMinted? && ToolResult(r)
    case RevokeCap => pc.ToolReturned?
    case CheckFloor(_) => pc.Passed? && pc.i < |s.steps| && s.steps[pc.i].tool == "" && s.steps[pc.i].provider == ""
    case ScheduleGuest => pc.MaySchedule?
    case FindKey(_) => pc.Passed? && pc.i < |s.steps| && s.steps[pc.i].tool == "" && s.steps[pc.i].provider != ""
    case CallProvider => pc.KeyFound?
    case Await(r) => pc.Calling? && pc.i < |s.steps| && CallResult(s.steps[pc.i], r)
    case Conclude => pc.Concluded? && pc.i < |s.outcomes|
    case Finish => pc.Stopping? || (pc.Boundary? && pc.i == |s.steps|)
    case GrantCall(_) => true
    case OtherMint(cap, _) => cap !in s.caps && cap !in s.minted
    case OtherRevoke(cap) => cap !in s.minted
    case Tick(to) => to >= s.clock
  }

  ghost function Mark(s: State, i: nat, o: StepOutcome, pc: Pc): State
    requires i < |s.outcomes|
  {
    s.(outcomes := s.outcomes[i := o], pc := pc)
  }

  ghost predicate Sized(s: State) {
    |s.outcomes| == |s.steps|
  }

  ghost function Apply(s: State, step: Step): State
    requires Enabled(s, step) && Sized(s)
  {
    var pc := s.pc;
    match step
    case StartStep =>
      if s.clock >= s.deadline then Mark(s, pc.i, Failed, Stopping(pc.i)) else Mark(s, pc.i, Running, Gating(pc.i))
    case PassGate =>
      (match G.Authorize(s.db, s.caller, s.steps[pc.i].scope, s.steps[pc.i].skill, s.clock)
       case Ok(skill) => s.(pc := Passed(pc.i, skill), log := s.log + [Gate(pc.i, true)])
       case Err(_) => Mark(s.(log := s.log + [Gate(pc.i, false)]), pc.i, Denied, Stopping(pc.i)))
    case MintCap(cap, ttl) =>
      s.(caps := Caps.Mint(s.caps, cap, s.caller, s.clock + ttl, s.clock), minted := s.minted[cap := pc.i],
         pc := CapMinted(pc.i, cap))
    case CallTool(r) => s.(pc := ToolReturned(pc.i, pc.cap, r), log := s.log + [Effect(pc.i, s.payload)])
    case RevokeCap => s.(caps := s.caps - {pc.cap}, pc := Concluded(pc.i, pc.result))
    case CheckFloor(policy) =>
      s.(pc := match policy
               case None => Concluded(pc.i, Halt(Failed))
               case Some(None) => MaySchedule(pc.i)
               case Some(Some(floor)) =>
                 if AtLeast(s.caller.clearance, floor) then MaySchedule(pc.i) else Concluded(pc.i, Halt(Denied)))
    case ScheduleGuest => s.(pc := Calling(pc.i), log := s.log + [Effect(pc.i, s.payload)])
    case FindKey(found) => s.(pc := if found then KeyFound(pc.i) else Concluded(pc.i, Halt(Failed)))
    case CallProvider => s.(pc := Calling(pc.i), log := s.log + [Effect(pc.i, s.payload)])
    case Await(r) => s.(pc := Concluded(pc.i, r))
    case Conclude =>
      (match pc.result
       case Output(v) =>
         Mark(s.(payload := v, outputs := s.outputs + [v], log := s.log + [Completion(pc.i)]),
              pc.i, Completed, Boundary(pc.i + 1))
       case Halt(o) => Mark(s, pc.i, o, Stopping(pc.i)))
    case Finish => s.(status := if pc.Stopping? then Stopped else Succeeded, pc := Finished)
    case GrantCall(call) => s.(db := G.Apply(s.db, call))
    case OtherMint(cap, entry) => s.(caps := Caps.Sweep(s.caps, s.clock)[cap := entry])
    case OtherRevoke(cap) => s.(caps := s.caps - {cap})
    case Tick(to) => s.(clock := to)
  }

  ghost predicate Start(s: State) {
    && s.outcomes == seq(|s.steps|, _ => Pending) && s.status == Ongoing && s.payload == s.initial
    && s.pc == Boundary(0) && s.outputs == [] && s.log == [] && s.minted == map[] && H.Linked(s.db)
  }

  // ---- Step outcomes ---------------------------------------------------------------------

  /** `k` completed steps, the step at `k` anything but completed, then only pending. */
  ghost predicate Block(outcomes: seq<StepOutcome>, k: nat) {
    && k <= |outcomes|
    && (forall j :: 0 <= j < k ==> outcomes[j] == Completed)
    && (k < |outcomes| ==> outcomes[k] != Completed)
    && (forall j :: k < j < |outcomes| ==> outcomes[j] == Pending)
  }

  ghost predicate InStep(pc: Pc) {
    !pc.Boundary? && !pc.Stopping? && !pc.Finished?
  }

  ghost predicate Halts(pc: Pc) {
    match pc
    case ToolReturned(_, _, r) => r.Halt? ==> Bad(r.outcome)
    case Concluded(_, r) => r.Halt? ==> Bad(r.outcome)
    case _ => true
  }

  /** `k` counts the completed steps, whose outputs are piped. */
  ghost predicate Progress(s: State) {
    var n, k := |s.steps|, |s.outputs|;
    && Sized(s) && Block(s.outcomes, k) && Halts(s.pc)
    && s.payload == Input(s, k)
    && (match s.pc
        case Boundary(i) => i == k && s.status == Ongoing && (k < n ==> s.outcomes[k] == Pending)
        case Stopping(i) => i == k < n && s.status == Ongoing && Bad(s.outcomes[k])
        case Finished =>
          if k == n then s.status == Succeeded else s.status == Stopped && Bad(s.outcomes[k])
        case _ => s.pc.i == k < n && s.status == Ongoing && s.outcomes[k] == Running)
  }

  /** What step `i` is given: the initial input, or the output of the step before. */
  ghost function Input(s: State, i: nat): Payload
    requires i <= |s.outputs|
  {
    if i == 0 then s.initial else s.outputs[i - 1]
  }

  /** Steps at a boundary or that mark an outcome. */
  ghost predicate Marks(step: Step) {
    step.StartStep? || step.PassGate? || step.Conclude? || step.Finish?
  }

  lemma StartKeepsProgress(s: State, step: Step)
    requires Progress(s) && Enabled(s, step) && step.StartStep?
    ensures Progress(Apply(s, step))
  {
  }

  lemma GateKeepsProgress(s: State, step: Step)
    requires Progress(s) && Enabled(s, step) && step.PassGate?
    ensures Progress(Apply(s, step))
  {
    hide G.Authorize;
  }

  lemma ConcludeKeepsProgress(s: State, step: Step)
    requires Progress(s) && Enabled(s, step) && step.Conclude?
    ensures Progress(Apply(s, step))
  {
  }

  lemma FinishKeepsProgress(s: State, step: Step)
    requires Progress(s) && Enabled(s, step) && step.Finish?
    ensures Progress(Apply(s, step))
  {
  }

  lemma InnerStep(s: State, step: Step)
    requires Sized(s) && Enabled(s, step) && !Marks(step) && Halts(s.pc)
    ensures var s' := Apply(s, step);
      && s'.steps == s.steps && s'.outputs == s.outputs && s'.outcomes == s.outcomes && s'.payload == s.payload
      && s'.status == s.status && s'.initial == s.initial && Halts(s'.pc)
      && (s'.pc == s.pc || (InStep(s.pc) && InStep(s'.pc) && s'.pc.i == s.pc.i))
  {
    hide G.Apply;
  }

  lemma StepKeepsProgress(s: State, step: Step)
    requires Progress(s) && Enabled(s, step)
    ensures Progress(Apply(s, step))
  {
    hide Apply, Enabled, Block, Halts;
    match step
    case StartStep => StartKeepsProgress(s, step);
    case PassGate => GateKeepsProgress(s, step);
    case Conclude => ConcludeKeepsProgress(s, step);
    case Finish => FinishKeepsProgress(s, step);
    case _ => InnerStep(s, step);
  }

  // ---- Gates before effects -----------------------------------------------------------------

  ghost predicate PastGate(pc: Pc) {
    InStep(pc) && !pc.Gating?
  }

  ghost predicate BeforeEffect(pc: Pc) {
    !pc.ToolReturned? && !pc.Calling? && !pc.Concluded? && !pc.Stopping? && !pc.Finished?
  }

  ghost predicate GateIn(log: seq<Event>, upto: nat, step: nat)
    requires upto <= |log|
  {
    Gate(step, true) in log[..upto]
  }

  /** Every effect and every completion comes after a passed gate of the same step. */
  ghost predicate GatedLog(log: seq<Event>) {
    forall k :: 0 <= k < |log| && !log[k].Gate? ==> GateIn(log, k, log[k].step)
  }

  ghost predicate SameKind(a: Event, b: Event) {
    (a.Effect? && b.Effect?) || (a.Completion? && b.Completion?)
  }

  /** Each step has at most one effect and one completion, in the order of the steps. */
  ghost predicate OnceEach(log: seq<Event>) {
    forall j, k :: 0 <= j < k < |log| && SameKind(log[j], log[k]) ==> log[j].step < log[k].step
  }

  ghost predicate CompletedBelow(log: seq<Event>, bound: nat) {
    forall e <- log :: e.Completion? ==> e.step < bound
  }

  /** Each effect was given the previous step's output, and steps before `bound` only. */
  ghost predicate Fed(log: seq<Event>, initial: Payload, outputs: seq<Payload>, bound: nat) {
    forall e <- log :: e.Effect? ==>
      e.step < bound && e.step <= |outputs| && e.input == if e.step == 0 then initial else outputs[e.step - 1]
  }

  ghost predicate Disciplined(s: State) {
    && GatedLog(s.log) && OnceEach(s.log) && CompletedBelow(s.log, |s.outputs|)
    && Fed(s.log, s.initial, s.outputs, if BeforeEffect(s.pc) then |s.outputs| else |s.outputs| + 1)
    && (PastGate(s.pc) ==> Gate(s.pc.i, true) in s.log)
  }

  lemma LogGrows(log: seq<Event>, e: Event)
    requires GatedLog(log) && (e.Gate? || Gate(e.step, true) in log)
    ensures GatedLog(log + [e])
  {
    var log' := log + [e];
    forall k | 0 <= k < |log'| && !log'[k].Gate? ensures GateIn(log', k, log'[k].step) {
      assert log'[..k] == log[..k];
      assert k == |log| ==> log[..k] == log;
    }
  }

  lemma KindsGrow(log: seq<Event>, e: Event)
    requires OnceEach(log) && forall x <- log :: SameKind(x, e) ==> x.step < e.step
    ensures OnceEach(log + [e])
  {
  }

  lemma FedGrows(log: seq<Event>, e: Event, initial: Payload, outputs: seq<Payload>, bound: nat, bound': nat)
    requires Fed(log, initial, outputs, bound) && bound <= bound'
    requires e.Effect? ==>
      e.step < bound' && e.step <= |outputs| && e.input == if e.step == 0 then initial else outputs[e.step - 1]
    ensures Fed(log + [e], initial, outputs, bound')
  {
  }

  lemma FedLater(log: seq<Event>, initial: Payload, outputs: seq<Payload>, v: Payload, bound: nat)
    requires Fed(log, initial, outputs, bound)
    ensures Fed(log, initial, outputs + [v], bound)
  {
  }

  lemma GateStep(s: State, step: Step)
    requires Progress(s) && Disciplined(s) && Enabled(s, step) && step.PassGate?
    ensures Disciplined(Apply(s, step))
  {
    hide G.Authorize, Block, GatedLog, OnceEach, Fed, Input;
    var passed := G.Authorize(s.db, s.caller, s.steps[s.pc.i].scope, s.steps[s.pc.i].skill, s.clock).Ok?;
    var e := Gate(s.pc.i, passed);
    LogGrows(s.log, e);
    KindsGrow(s.log, e);
    FedGrows(s.log, e, s.initial, s.outputs, |s.outputs|, |s.outputs|);
    FedGrows(s.log, e, s.initial, s.outputs, |s.outputs|, |s.outputs| + 1);
  }

  lemma EffectStep(s: State, step: Step)
    requires Progress(s) && Disciplined(s) && Enabled(s, step)
    requires step.CallTool? || step.ScheduleGuest? || step.CallProvider?
    ensures Disciplined(Apply(s, step))
  {
    hide Block, GatedLog, OnceEach;
    var e := Effect(s.pc.i, s.payload);
    LogGrows(s.log, e);
    KindsGrow(s.log, e);
    FedGrows(s.log, e, s.initial, s.outputs, |s.outputs|, |s.outputs| + 1);
    hide Fed;
    assert Gate(s.pc.i, true) in s.log + [e];
  }

  lemma ConcludeStep(s: State, step: Step)
    requires Progress(s) && Disciplined(s) && Enabled(s, step) && step.Conclude?
    ensures Disciplined(Apply(s, step))
  {
    hide Block, GatedLog, OnceEach, Fed, Input;
    var e, k := Completion(s.pc.i), |s.outputs|;
    LogGrows(s.log, e);
    KindsGrow(s.log, e);
    FedGrows(s.log, e, s.initial, s.outputs, k + 1, k + 1);
    if s.pc.result.Output? {
      FedLater(s.log + [e], s.initial, s.outputs, s.pc.result.payload, k + 1);
    }
  }

  lemma FedWider(log: seq<Event>, initial: Payload, outputs: seq<Payload>, bound: nat)
    ensures Fed(log, initial, outputs, bound) ==> Fed(log, initial, outputs, bound + 1)
  {
  }

  ghost predicate Logs(step: Step) {
    step.PassGate? || step.CallTool? || step.ScheduleGuest? || step.CallProvider? || step.Conclude?
  }

  /** The other steps log nothing, and pass no gate and no effect. */
  lemma QuietStep(s: State, step: Step)
    requires Sized(s) && Enabled(s, step) && !Logs(step)
    ensures var s' := Apply(s, step);
      && s'.log == s.log && s'.outputs == s.outputs && s'.initial == s.initial
      && (BeforeEffect(s'.pc) ==> BeforeEffect(s.pc))
      && (PastGate(s'.pc) ==> PastGate(s.pc) && s'.pc.i == s.pc.i)
  {
    hide G.Apply;
  }

  lemma QuietKeepsDiscipline(s: State, s': State)
    requires Disciplined(s) && s'.log == s.log && s'.outputs == s.outputs && s'.initial == s.initial
    requires BeforeEffect(s'.pc) ==> BeforeEffect(s.pc)
    requires PastGate(s'.pc) ==> PastGate(s.pc) && s'.pc.i == s.pc.i
    ensures Disciplined(s')
  {
    hide GatedLog, OnceEach, Fed, CompletedBelow;
    FedWider(s.log, s.initial, s.outputs, |s.outputs|);
  }

  lemma StepKeepsDiscipline(s: State, step: Step)
    requires Progress(s) && Disciplined(s) && Enabled(s, step)
    ensures Disciplined(Apply(s, step))
  {
    hide Disciplined, Apply, Enabled, Block, Input, PastGate, BeforeEffect;
    match step
    case PassGate => GateStep(s, step);
    case CallTool(_) => EffectStep(s, step);
    case ScheduleGuest => EffectStep(s, step);
    case CallProvider => EffectStep(s, step);
    case Conclude => ConcludeStep(s, step);
    case _ =>
      QuietStep(s, step);
      QuietKeepsDiscipline(s, Apply(s, step));
  }

  // ---- Capabilities -------------------------------------------------------------------------

  ghost predicate HoldsCap(pc: Pc, cap: Caps.Cap) {
    (pc.CapMinted? || pc.ToolReturned?) && pc.cap == cap
  }

  /** A capability of this run is in the registry only while its own step uses it, and
      stands for the caller. */
  ghost predicate CapsOk(s: State) {
    && (forall c <- s.minted :: c in s.caps ==> HoldsCap(s.pc, c) && s.caps[c].bound == s.caller)
    && (s.pc.CapMinted? || s.pc.ToolReturned? ==> s.pc.cap in s.minted && s.minted[s.pc.cap] == s.pc.i)
    && (forall c <- s.minted :: s.minted[c] <= |s.outputs|)
  }

  ghost predicate UsesCap(pc: Pc) {
    pc.CapMinted? || pc.ToolReturned?
  }

  /** The thread uses the same capability for the same step, or none, as before. */
  ghost predicate SameCap(pc: Pc, pc': Pc) {
    (UsesCap(pc) <==> UsesCap(pc')) && (UsesCap(pc) ==> pc.cap == pc'.cap && pc.i == pc'.i)
  }

  lemma CapsFramed(s: State, s': State)
    requires CapsOk(s) && SameCap(s.pc, s'.pc) && s'.caller == s.caller && |s'.outputs| >= |s.outputs|
    requires s'.minted == s.minted
    requires forall c <- s'.caps :: c in s.minted ==> c in s.caps && s'.caps[c] == s.caps[c]
    ensures CapsOk(s')
  {
  }

  lemma StepFramesCaps(s: State, step: Step)
    requires Sized(s) && Enabled(s, step) && !step.MintCap? && !step.RevokeCap?
    ensures var s' := Apply(s, step);
      && SameCap(s.pc, s'.pc) && s'.caller == s.caller && |s'.outputs| >= |s.outputs| && s'.minted == s.minted
      && forall c <- s'.caps :: c in s.minted ==> c in s.caps && s'.caps[c] == s.caps[c]
  {
    hide G.Authorize, G.Apply;
  }

  lemma MintKeepsCaps(s: State, step: Step)
    requires Progress(s) && CapsOk(s) && Enabled(s, step) && step.MintCap?
    ensures CapsOk(Apply(s, step))
  {
    hide Block, Input;
  }

  lemma RevokeKeepsCaps(s: State, step: Step)
    requires Progress(s) && CapsOk(s) && Enabled(s, step) && step.RevokeCap?
    ensures CapsOk(Apply(s, step))
  {
    hide Block, Input;
  }

  lemma StepKeepsCaps(s: State, step: Step)
    requires Progress(s) && CapsOk(s) && Enabled(s, step)
    ensures CapsOk(Apply(s, step))
  {
    hide CapsOk, Apply, Enabled, Block, Input, SameCap;
    if step.MintCap? {
      MintKeepsCaps(s, step);
    } else if step.RevokeCap? {
      RevokeKeepsCaps(s, step);
    } else {
      StepFramesCaps(s, step);
      CapsFramed(s, Apply(s, step));
    }
  }

  // ---- Every run ------------------------------------------------------------------------------

  ghost predicate Run(trace: seq<State>, steps: seq<Step>) {
    && |trace| == |steps| + 1 && Start(trace[0])
    && forall i :: 0 <= i < |steps| ==>
         Sized(trace[i]) && Enabled(trace[i], steps[i]) && trace[i + 1] == Apply(trace[i], steps[i])
  }

  ghost predicate Inv(s: State) {
    Progress(s) && Disciplined(s) && CapsOk(s) && H.Linked(s.db)
  }

  lemma StartInv(s: State)
    requires Start(s)
    ensures Inv(s)
  {
    hide H.Linked;
  }

  lemma StepKeepsInv(s: State, step: Step)
    requires Inv(s) && Enabled(s, step)
    ensures Inv(Apply(s, step)) && H.Evolves(s.db, Apply(s, step).db)
  {
    StepKeepsProgress(s, step);
    StepKeepsDiscipline(s, step);
    StepKeepsCaps(s, step);
    StepKeepsGrants(s, step);
  }

  lemma StepKeepsGrants(s: State, step: Step)
    requires H.Linked(s.db) && Sized(s) && Enabled(s, step)
    ensures H.Linked(Apply(s, step).db) && H.Evolves(s.db, Apply(s, step).db)
  {
    hide H.Linked, G.Apply, G.Authorize;
    if step.GrantCall? {
      H.CallKeepsLinked(s.db, step.call);
      H.CallEvolves(s.db, step.call);
    }
  }

  lemma {:induction false} RunKeepsInv(trace: seq<State>, steps: seq<Step>, i: nat)
    requires Run(trace, steps) && i < |trace|
    ensures Inv(trace[i])
    ensures trace[i].steps == trace[0].steps && trace[i].caller == trace[0].caller
    ensures trace[i].initial == trace[0].initial
  {
    hide Inv, G.Authorize, G.Apply;
    if i == 0 {
      StartInv(trace[0]);
    } else {
      RunKeepsInv(trace, steps, i - 1);
      StepKeepsInv(trace[i - 1], steps[i - 1]);
    }
  }

  /** At every moment the step outcomes are a block of completed steps, at most one
      step that is running or has stopped the run, and then only pending ones. */
  lemma OutcomesAreABlock(trace: seq<State>, steps: seq<Step>, i: nat)
    requires Run(trace, steps) && i < |trace|
    ensures Block(trace[i].outcomes, |trace[i].outputs|)
  {
    RunKeepsInv(trace, steps, i);
  }

  /** The run ends as a success exactly when every step completed, and its payload is
      then the last output of the pipeline. */
  lemma FinalStatus(trace: seq<State>, steps: seq<Step>, i: nat)
    requires Run(trace, steps) && i < |trace| && trace[i].pc.Finished?
    ensures var s := trace[i];
      && s.status != Ongoing
      && (s.status == Succeeded <==> forall j :: 0 <= j < |s.outcomes| ==> s.outcomes[j] == Completed)
      && (s.status == Succeeded ==> |s.outputs| == |s.steps| && s.payload == Input(s, |s.steps|))
  {
    RunKeepsInv(trace, steps, i);
  }

  /** Every tool call, guest schedule, provider call and completion follows a passed
      gate of its own step, happens at most once per step, and is given exactly what
      the step before put out. */
  lemma EffectsAreGated(trace: seq<State>, steps: seq<Step>, i: nat)
    requires Run(trace, steps) && i < |trace|
    ensures GatedLog(trace[i].log) && OnceEach(trace[i].log)
    ensures Fed(trace[i].log, trace[0].initial, trace[i].outputs, |trace[i].outputs| + 1)
  {
    RunKeepsInv(trace, steps, i);
  }

  lemma {:induction false} GrantsEvolve(trace: seq<State>, steps: seq<Step>, i: nat, j: nat)
    requires Run(trace, steps) && i <= j < |trace|
    ensures H.Evolves(trace[i].db, trace[j].db)
    decreases j
  {
    hide G.Authorize, G.Apply, Inv;
    if i < j {
      GrantsEvolve(trace, steps, i, j - 1);
      RunKeepsInv(trace, steps, j - 1);
      StepKeepsInv(trace[j - 1], steps[j - 1]);
    }
  }

  /** Whatever the grant calls in between, a gate on a scope that is no longer active
      never passes: the step is denied and the run stops there. */
  lemma GateOnRevokedScopeDenies(trace: seq<State>, steps: seq<Step>, i: nat, j: nat)
    requires Run(trace, steps) && i <= j < |steps| && steps[j].PassGate?
    requires var scope := trace[j].steps[trace[j].pc.i].scope;
      scope in trace[i].db.scopes && !trace[i].db.scopes[scope].status.Active?
    ensures trace[j + 1].pc.Stopping? && trace[j + 1].outcomes[trace[j].pc.i].Denied?
  {
    InactiveStays(trace, steps, i, j, trace[j].steps[trace[j].pc.i].scope);
  }

  // ---- What a gate in the log stood for -----------------------------------------------------

  ghost predicate GatePasses(s: State) {
    s.pc.Gating? && s.pc.i < |s.steps|
    && G.Authorize(s.db, s.caller, s.steps[s.pc.i].scope, s.steps[s.pc.i].skill, s.clock).Ok?
  }

  /** A step logs at most one event, of the step it is in, and a passed gate only where the
      grants allow it. */
  lemma StepLogs(s: State, step: Step)
    requires Sized(s) && Enabled(s, step)
    ensures var s' := Apply(s, step);
      || s'.log == s.log
      || exists e :: s'.log == s.log + [e] && (e == Gate(e.step, true) ==> GatePasses(s) && e.step == s.pc.i)
  {
    hide G.Authorize, G.Apply;
    if Apply(s, step).log != s.log {
      var e := Apply(s, step).log[|s.log|];
      assert Apply(s, step).log == s.log + [e];
    }
  }

  /** Event `m` of the log of state `i` was logged by step `at`. */
  ghost predicate LoggedAt(trace: seq<State>, i: nat, m: nat, at: nat)
    requires i < |trace| && m < |trace[i].log|
  {
    at < i && trace[at + 1].log == trace[at].log + [trace[i].log[m]] && |trace[at].log| == m
    && trace[at].log == trace[i].log[..m]
  }

  lemma {:induction false} LogOrigin(trace: seq<State>, steps: seq<Step>, i: nat, m: nat) returns (at: nat)
    requires Run(trace, steps) && i < |trace| && m < |trace[i].log|
    ensures LoggedAt(trace, i, m, at)
  {
    hide Apply, Enabled, GatePasses;
    assert i > 0;
    StepLogs(trace[i - 1], steps[i - 1]);
    if m < |trace[i - 1].log| {
      at := LogOrigin(trace, steps, i - 1, m);
    } else {
      at := i - 1;
    }
  }

  /** Behind every effect and every completion there is an earlier moment of the run at
      which the grants, as they were then, let the caller use that step's skill. */
  lemma EffectsWereAuthorized(trace: seq<State>, steps: seq<Step>, i: nat, m: nat) returns (gate: nat, at: nat)
    requires Run(trace, steps) && i < |trace| && m < |trace[i].log| && !trace[i].log[m].Gate?
    ensures gate < at && LoggedAt(trace, i, m, at)
    ensures GatePasses(trace[gate]) && trace[gate].pc.i == trace[i].log[m].step
    ensures trace[gate].steps == trace[0].steps && trace[gate].caller == trace[0].caller
  {
    hide Run, GatePasses, GatedLog, OnceEach, Fed;
    at := LogOrigin(trace, steps, i, m);
    EffectsAreGated(trace, steps, i);
    var k := GateOf(trace[i].log, m);
    gate := GateOrigin(trace, steps, i, k);
    OriginsInOrder(trace, steps, gate, at);
  }

  lemma GateOf(log: seq<Event>, m: nat) returns (k: nat)
    requires GatedLog(log) && m < |log| && !log[m].Gate?
    ensures k < m && log[k] == Gate(log[m].step, true)
  {
    assert GateIn(log, m, log[m].step);
    k :| 0 <= k < m && log[k] == Gate(log[m].step, true);
  }

  lemma GateOrigin(trace: seq<State>, steps: seq<Step>, i: nat, k: nat) returns (gate: nat)
    requires Run(trace, steps) && i < |trace| && k < |trace[i].log|
    requires trace[i].log[k] == Gate(trace[i].log[k].step, true)
    ensures LoggedAt(trace, i, k, gate) && GatePasses(trace[gate]) && trace[gate].pc.i == trace[i].log[k].step
    ensures trace[gate].steps == trace[0].steps && trace[gate].caller == trace[0].caller
  {
    hide Apply, Enabled, Inv, Start, GatePasses;
    gate := LogOrigin(trace, steps, i, k);
    StepLogs(trace[gate], steps[gate]);
    RunKeepsInv(trace, steps, gate);
  }

  lemma {:induction false} OriginsInOrder(trace: seq<State>, steps: seq<Step>, i: nat, j: nat)
    requires Run(trace, steps) && i < |trace| && j < |trace| && |trace[i].log| < |trace[j].log|
    ensures i < j
    decreases i
  {
    hide Apply, Enabled;
    if j <= i {
      assert i > 0;
      StepLogs(trace[i - 1], steps[i - 1]);
      if j < i {
        OriginsInOrder(trace, steps, i - 1, j);
      }
      assert false;
    }
  }

  /** So an effect on a scope that is no longer active had its gate before that. */
  lemma GateCameFirst(trace: seq<State>, steps: seq<Step>, revoked: nat, i: nat, m: nat) returns (gate: nat, at: nat)
    requires Run(trace, steps) && i < |trace| && revoked < |trace| && m < |trace[i].log| && !trace[i].log[m].Gate?
    requires trace[i].log[m].step < |trace[0].steps|
    requires var scope := trace[0].steps[trace[i].log[m].step].scope;
      scope in trace[revoked].db.scopes && !trace[revoked].db.scopes[scope].status.Active?
    ensures gate < revoked && gate < at && LoggedAt(trace, i, m, at)
    ensures GatePasses(trace[gate]) && trace[gate].pc.i == trace[i].log[m].step
  {
    hide Run;
    gate, at := EffectsWereAuthorized(trace, steps, i, m);
    if revoked <= gate {
      InactiveStays(trace, steps, revoked, gate, trace[0].steps[trace[i].log[m].step].scope);
    }
  }

  lemma InactiveStays(trace: seq<State>, steps: seq<Step>, i: nat, j: nat, scope: G.Id)
    requires Run(trace, steps) && i <= j < |trace|
    requires scope in trace[i].db.scopes && !trace[i].db.scopes[scope].status.Active?
    ensures scope in trace[j].db.scopes && !trace[j].db.scopes[scope].status.Active?
  {
    GrantsEvolve(trace, steps, i, j);
    RunKeepsInv(trace, steps, i);
    assert H.ScopeOk(trace[i].db, scope);
  }

  // ---- Capabilities over a run -----------------------------------------------------------------

  /** Once its step is over, no capability the run minted resolves, at any time. */
  lemma CapsDieWithTheirStep(trace: seq<State>, steps: seq<Step>, i: nat, cap: Caps.Cap, now: int)
    requires Run(trace, steps) && i < |trace| && cap in trace[i].minted && !HoldsCap(trace[i].pc, cap)
    ensures Caps.Resolve(trace[i].caps, cap, now).None?
  {
    RunKeepsInv(trace, steps, i);
  }

  /** And while it is in use it stands for nobody but the run's caller. */
  lemma CapsStandForTheCaller(trace: seq<State>, steps: seq<Step>, i: nat, cap: Caps.Cap, now: int)
    requires Run(trace, steps) && i < |trace| && cap in trace[i].minted
    requires Caps.Resolve(trace[i].caps, cap, now).Some?
    ensures Caps.Resolve(trace[i].caps, cap, now) == Some(trace[0].caller)
    ensures HoldsCap(trace[i].pc, cap) && trace[i].minted[cap] == |trace[i].outputs|
  {
    RunKeepsInv(trace, steps, i);
  }
}
