/** The in-process registry of loop runs, bounded with first-in first-out eviction,
    and the executor that walks a loop's steps and reports into it. */
module LoopRuns {
  import opened Wrappers
  import opened LoopEngine

  const MAX_RETAINED_RUNS: nat := 512

  datatype StepState = StepState(position: int, outcome: StepOutcome)
  datatype RunState = RunState(status: RunStatus, steps: seq<StepState>)

  /** The newest runs that fit. */
  ghost function Retained(order: seq<string>): seq<string> {
    if |order| <= MAX_RETAINED_RUNS then order else order[|order| - MAX_RETAINED_RUNS..]
  }

  /** The order after a run is inserted: a retained one keeps its place. */
  ghost function Inserted(order: seq<string>, id: string): seq<string> {
    if id in order then order else Retained(order + [id])
  }

  /** The first step at `position`, looking from `i` on; past the end if there is none. */
  ghost function FirstAt(steps: seq<StepState>, position: int, i: nat): nat
    requires i <= |steps|
    decreases |steps| - i
  {
    if i == |steps| || steps[i].position == position then i else FirstAt(steps, position, i + 1)
  }

  ghost function WithOutcome(steps: seq<StepState>, position: int, outcome: StepOutcome): seq<StepState> {
    var i := FirstAt(steps, position, 0);
    if i < |steps| then steps[i := steps[i].(outcome := outcome)] else steps
  }

  /** The runs after an outcome is reported, if the run is still retained. */
  ghost function Reported(runs: map<string, RunState>, id: string, position: int, outcome: StepOutcome)
    : map<string, RunState>
  {
    if id in runs then runs[id := runs[id].(steps := WithOutcome(runs[id].steps, position, outcome))] else runs
  }

  ghost predicate DistinctPositions(steps: seq<StepState>) {
    forall i, j :: 0 <= i < j < |steps| ==> steps[i].position != steps[j].position
  }

  lemma {:induction false} FirstAtHits(steps: seq<StepState>, i: nat, from: nat)
    requires DistinctPositions(steps) && from <= i < |steps|
    ensures FirstAt(steps, steps[i].position, from) == i
    decreases i - from
  {
    if from < i {
      FirstAtHits(steps, i, from + 1);
    }
  }

  /** With distinct positions, reporting on a step's position touches that step only. */
  lemma WithOutcomeHits(steps: seq<StepState>, i: nat, outcome: StepOutcome)
    requires DistinctPositions(steps) && i < |steps|
    ensures WithOutcome(steps, steps[i].position, outcome) == steps[i := steps[i].(outcome := outcome)]
  {
    FirstAtHits(steps, i, 0);
  }

  ghost function Restricted(runs: map<string, RunState>, order: seq<string>): map<string, RunState> {
    map id | id in order && id in runs :: runs[id]
  }

  lemma EvictOldest(runs: map<string, RunState>, order: seq<string>)
    requires Distinct(order) && order != []
    ensures Restricted(runs, order[1..]) == Restricted(runs, order) - {order[0]}
  {
  }

  lemma DistinctTail(order: seq<string>, n: nat)
    requires Distinct(order) && n <= |order|
    ensures Distinct(order[n..])
  {
  }

  lemma FitsWhole(order: seq<string>)
    requires |order| <= MAX_RETAINED_RUNS
    ensures Retained(order) == order
  {
  }

  lemma WithNewest(order: seq<string>, id: string)
    requires Distinct(order) && id !in order
    ensures Distinct(order + [id])
  {
  }

  /** What is left once only the newest places are kept. */
  lemma AfterEviction(runs: map<string, RunState>, all: seq<string>, id: string)
    requires Distinct(all) && (forall x :: x in all <==> x in runs)
    requires id in all && (|all| > MAX_RETAINED_RUNS ==> id == all[|all| - 1])
    ensures var order := Retained(all);
      && Distinct(order) && |order| <= MAX_RETAINED_RUNS && id in order
      && (forall x :: x in order <==> x in Restricted(runs, order))
      && (forall x <- Restricted(runs, order) :: x in runs && Restricted(runs, order)[x] == runs[x])
  {
    var order := Retained(all);
    assert |all| > MAX_RETAINED_RUNS ==> order[|order| - 1] == id;
  }

  class LoopRunRegistry {
    var runs: map<string, RunState>
    var order: seq<string>

    ghost predicate Valid()
      reads this
    {
      && Distinct(order) && |order| <= MAX_RETAINED_RUNS
      && (forall id :: id in order <==> id in runs)
    }

    constructor ()
      ensures Valid() && runs == map[]
    {
      runs, order := map[], [];
    }

    method Insert(id: string, run: RunState)
      requires Valid()
      modifies this
      ensures Valid()
      ensures order == Inserted(old(order), id)
      ensures id in runs && runs[id] == run
      ensures forall x <- runs :: x != id ==> x in old(runs) && runs[x] == old(runs)[x]
    {
      hide Distinct, Restricted, Retained;
      FitsWhole(order);
      if id !in runs {
        WithNewest(order, id);
        order := order + [id];
      }
      runs := runs[id := run];
      ghost var all, inserted := order, runs;
      EvictOldestRuns();
      AfterEviction(inserted, all, id);
    }

    /** The loop that ends an insert. */
    method EvictOldestRuns()
      requires Distinct(order) && forall id :: id in order <==> id in runs
      modifies this
      ensures order == Retained(old(order)) && runs == Restricted(old(runs), order)
    {
      ghost var n := 0;
      assert Restricted(runs, order) == runs;
      while |order| > MAX_RETAINED_RUNS
        invariant n <= |old(order)| && order == old(order)[n..] && (n > 0 ==> |order| >= MAX_RETAINED_RUNS)
        invariant runs == Restricted(old(runs), order)
        decreases |order|
      {
        DistinctTail(old(order), n);
        EvictOldest(old(runs), order);
        runs := runs - {order[0]};
        order := order[1..];
        n := n + 1;
      }
    }

    method SetStep(id: string, position: int, outcome: StepOutcome)
      modifies this`runs
      ensures runs == Reported(old(runs), id, position, outcome)
    {
      if id in runs {
        var steps := runs[id].steps;
        var i := 0;
        while i < |steps| && steps[i].position != position
          invariant 0 <= i <= |steps|
          invariant FirstAt(steps, position, i) == FirstAt(steps, position, 0)
        {
          i := i + 1;
        }
        if i < |steps| {
          steps := steps[i := steps[i].(outcome := outcome)];
        }
        runs := runs[id := runs[id].(steps := steps)];
      }
    }

    method SetRunStatus(id: string, status: RunStatus)
      modifies this`runs
      ensures runs == if id in old(runs) then old(runs)[id := old(runs)[id].(status := status)] else old(runs)
    {
      if id in runs {
        runs := runs[id := runs[id].(status := status)];
      }
    }
  }

  // ---- Retention ------------------------------------------------------------------------

  /** The order after inserting the runs `ids` one by one. */
  ghost function OrderAfter(ids: seq<string>): seq<string> {
    if ids == [] then [] else Inserted(OrderAfter(ids[..|ids| - 1]), ids[|ids| - 1])
  }

  /** The inserts that take a new place: all but those of an id among the newest places. */
  ghost function Placed(ids: seq<string>): seq<string> {
    if ids == [] then [] else
    var before, id := Placed(ids[..|ids| - 1]), ids[|ids| - 1];
    if id in Retained(before) then before else before + [id]
  }

  lemma RetainedNext(places: seq<string>, id: string)
    ensures Retained(Retained(places) + [id]) == Retained(places + [id])
  {
    if |places| >= MAX_RETAINED_RUNS {
      var n := |places| - MAX_RETAINED_RUNS;
      assert Retained(places) == places[n..];
      assert places[n..] + [id] == (places + [id])[n..];
      assert Retained(places[n..] + [id]) == (places[n..] + [id])[1..] == (places + [id])[n + 1..];
    }
  }

  lemma NextPlace(places: seq<string>, id: string)
    requires Distinct(Retained(places)) && id !in Retained(places)
    ensures Retained(Retained(places) + [id]) == Retained(places + [id])
    ensures Distinct(Retained(places + [id]))
  {
    hide Distinct;
    RetainedNext(places, id);
    var next := Retained(places) + [id];
    WithNewest(Retained(places), id);
    DistinctTail(next, |next| - |Retained(next)|);
  }

  /** After any inserts, repeated ids included, the registry holds exactly the newest
      places, each id once. */
  lemma {:induction false} KeepsTheNewest(ids: seq<string>)
    ensures OrderAfter(ids) == Retained(Placed(ids))
    ensures Distinct(OrderAfter(ids))
  {
    if ids != [] {
      hide Retained, Distinct;
      var before := ids[..|ids| - 1];
      KeepsTheNewest(before);
      if ids[|ids| - 1] !in Retained(Placed(before)) {
        NextPlace(Placed(before), ids[|ids| - 1]);
      }
    } else {
      assert Retained([]) == [];
    }
  }

  lemma NotRetained(places: seq<string>, id: string)
    requires id !in places
    ensures id !in Retained(places)
  {
  }

  lemma DistinctInit(ids: seq<string>)
    requires Distinct(ids) && ids != []
    ensures Distinct(ids[..|ids| - 1]) && ids[|ids| - 1] !in ids[..|ids| - 1]
    ensures ids[..|ids| - 1] + [ids[|ids| - 1]] == ids
  {
  }

  /** Distinct ids all take a place, so the newest of them are kept. */
  lemma {:induction false} DistinctKeepsTheNewest(ids: seq<string>)
    requires Distinct(ids)
    ensures Placed(ids) == ids && OrderAfter(ids) == Retained(ids)
  {
    hide Inserted, Retained, Distinct, OrderAfter;
    KeepsTheNewest(ids);
    if ids != [] {
      DistinctInit(ids);
      DistinctKeepsTheNewest(ids[..|ids| - 1]);
      NotRetained(ids[..|ids| - 1], ids[|ids| - 1]);
    }
  }

  // ---- The executor -----------------------------------------------------------------------

  /** What the executor finds at a step boundary: whether the run's budget is spent,
      and whether the gate lets the step through. */
  datatype Door = Door(expired: bool, open: bool)

  /** How step `i` runs on a payload. */
  type Runner = (nat, Payload) -> Conclusion

  /** The payload in front of step `k`: the fold of the outputs before it. */
  ghost function Piped(run: Runner, initial: Payload, k: nat): Payload {
    if k == 0 then initial else
    match run(k - 1, Piped(run, initial, k - 1))
    case Output(v) => v
    case Halt(_) => Piped(run, initial, k - 1)
  }

  ghost predicate Completes(doors: seq<Door>, run: Runner, initial: Payload, i: nat)
    requires i < |doors|
  {
    !doors[i].expired && doors[i].open && run(i, Piped(run, initial, i)).Output?
  }

  /** `k` is the first step that does not complete, or the number of steps. */
  ghost predicate StopsAt(doors: seq<Door>, run: Runner, initial: Payload, k: nat) {
    && k <= |doors|
    && (forall i: nat :: i < k ==> Completes(doors, run, initial, i))
    && (k < |doors| ==> !Completes(doors, run, initial, k))
  }

  ghost function StopOutcome(door: Door, result: Conclusion): StepOutcome
    requires door.expired || !door.open || result.Halt?
  {
    if door.expired then Failed else if !door.open then Denied else result.outcome
  }

  /** The steps of a run of which `k` completed and the next shows `current`. */
  ghost function View(positions: seq<int>, k: nat, current: StepOutcome): seq<StepState> {
    seq(|positions|, i requires 0 <= i < |positions| =>
      StepState(positions[i], if i < k then Completed else if i == k then current else Pending))
  }

  lemma ReportOn(positions: seq<int>, k: nat, was: StepOutcome, now: StepOutcome)
    requires forall i, j :: 0 <= i < j < |positions| ==> positions[i] != positions[j]
    requires k < |positions|
    ensures WithOutcome(View(positions, k, was), positions[k], now) == View(positions, k, now)
    ensures View(positions, k, Completed) == View(positions, k + 1, Pending)
  {
    WithOutcomeHits(View(positions, k, was), k, now);
  }

  /** What the registry shows of the run, if it still has it. */
  ghost predicate Shows(runs: map<string, RunState>, was: map<string, RunState>, id: string,
                        status: RunStatus, steps: seq<StepState>) {
    if id in was then runs == was[id := RunState(status, steps)] else runs == was
  }

  lemma ShowsReport(runs: map<string, RunState>, was: map<string, RunState>, id: string,
                    positions: seq<int>, i: nat, from: StepOutcome, to: StepOutcome)
    requires (forall j, k :: 0 <= j < k < |positions| ==> positions[j] != positions[k]) && i < |positions|
    requires Shows(runs, was, id, Ongoing, View(positions, i, from))
    ensures Shows(Reported(runs, id, positions[i], to), was, id, Ongoing, View(positions, i, to))
    ensures to == Completed ==> View(positions, i, to) == View(positions, i + 1, Pending)
  {
    ReportOn(positions, i, from, to);
    hide WithOutcome, View;
  }

  /** Walk the steps in order. The registry is only written through its own methods;
      an evicted run is reported nowhere but runs all the same. */
  method ExecuteLoop(registry: LoopRunRegistry, id: string, positions: seq<int>, doors: seq<Door>,
                     run: Runner, initial: Payload) returns (payload: Payload, failed: bool, ghost k: nat)
    requires |doors| == |positions|
    requires forall i, j :: 0 <= i < j < |positions| ==> positions[i] != positions[j]
    requires id in registry.runs ==> registry.runs[id] == RunState(Ongoing, View(positions, 0, Pending))
    modifies registry`runs
    ensures StopsAt(doors, run, initial, k) && failed == (k < |doors|)
    ensures payload == Piped(run, initial, k)
    ensures failed ==> Shows(registry.runs, old(registry.runs), id, Stopped,
              View(positions, k, StopOutcome(doors[k], run(k, payload))))
    ensures !failed ==> Shows(registry.runs, old(registry.runs), id, Succeeded, View(positions, k, Pending))
  {
    hide Reported, View;
    payload := initial;
    failed := false;
    k := 0;
    var i := 0;
    ghost var was := registry.runs;
    while i < |positions|
      invariant 0 <= i <= |positions| && k == i && !failed
      invariant payload == Piped(run, initial, i)
      invariant forall j: nat :: j < i ==> Completes(doors, run, initial, j)
      invariant Shows(registry.runs, was, id, Ongoing, View(positions, i, Pending))
    {
      if doors[i].expired {
        ShowsReport(registry.runs, was, id, positions, i, Pending, Failed);
        registry.SetStep(id, positions[i], Failed);
        failed := true;
        break;
      }
      ShowsReport(registry.runs, was, id, positions, i, Pending, Running);
      registry.SetStep(id, positions[i], Running);
      if !doors[i].open {
        ShowsReport(registry.runs, was, id, positions, i, Running, Denied);
        registry.SetStep(id, positions[i], Denied);
        failed := true;
        break;
      }
      var result := run(i, payload);
      match result {
        case Halt(outcome) =>
          ShowsReport(registry.runs, was, id, positions, i, Running, outcome);
          registry.SetStep(id, positions[i], outcome);
          failed := true;
          break;
        case Output(value) =>
          payload := value;
          ShowsReport(registry.runs, was, id, positions, i, Running, Completed);
          registry.SetStep(id, positions[i], Completed);
      }
      i := i + 1;
      k := k + 1;
    }
    registry.SetRunStatus(id, if failed then Stopped else Succeeded);
  }
}
