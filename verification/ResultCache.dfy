/** The discovery result cache: a table of answers with a time to live and a generation,
    shared by lookups that compute outside its lock. */
module ResultCache {
  import opened Wrappers

  // ---- The table --------------------------------------------------------------------------

  /** What computing the call named by `key` gives on a snapshot of the firm graph. Any
      computation is a function of the two, so they stand for its value. */
  datatype Answer = Answer(key: string, graph: nat)

  datatype Entry = Entry(answer: Answer, inserted: nat, ttl: nat, generation: nat)

  predicate IsLive(e: Entry, generation: nat, now: nat) {
    e.generation == generation && now - e.inserted <= e.ttl
  }

  datatype Table = Table(generation: nat, entries: map<string, Entry>, hits: nat, misses: nat)

  const EMPTY := Table(0, map[], 0, 0)

  predicate Hits(t: Table, key: string, now: nat) {
    key in t.entries && IsLive(t.entries[key], t.generation, now)
  }

  function Found(t: Table, key: string, now: nat): Option<Answer> {
    if Hits(t, key, now) then Some(t.entries[key].answer) else None
  }

  function LookedUp(t: Table, key: string, now: nat): Table {
    if Hits(t, key, now) then t.(hits := t.hits + 1) else t.(entries := t.entries - {key}, misses := t.misses + 1)
  }

  function Stored(t: Table, answer: Answer, ttl: nat, now: nat): Table {
    t.(entries := t.entries[answer.key := Entry(answer, now, ttl, t.generation)])
  }

  function Invalidated(t: Table): Table {
    t.(generation := if t.generation < U64_MAX then t.generation + 1 else t.generation, entries := map[])
  }

  function Pruned(t: Table, now: nat): Table {
    t.(entries := map key | key in t.entries && IsLive(t.entries[key], t.generation, now) :: t.entries[key])
  }

  class DiscoveryCache {
    var generation: nat
    var entries: map<string, Entry>
    var hits: nat
    var misses: nat

    ghost function Contents(): Table reads this {
      Table(generation, entries, hits, misses)
    }

    constructor ()
      ensures Contents() == EMPTY
    {
      generation, entries, hits, misses := 0, map[], 0, 0;
    }

    /** The section under the first lock. */
    method Lookup(key: string, now: nat) returns (found: Option<Answer>)
      modifies this
      ensures found == Found(old(Contents()), key, now)
      ensures Contents() == LookedUp(old(Contents()), key, now)
      ensures hits + misses == old(hits) + old(misses) + 1 && (hits > old(hits) <==> found.Some?)
      ensures found.None? ==> forall t :: Found(Contents(), key, t).None?
      ensures forall k, t :: found.Some? || k != key ==> Found(Contents(), k, t) == Found(old(Contents()), k, t)
    {
      if key in entries && IsLive(entries[key], generation, now) {
        hits := hits + 1;
        return Some(entries[key].answer);
      }
      entries := entries - {key};
      misses := misses + 1;
      return None;
    }

    /** A whole lookup that nothing interrupts: `computed` is what its computation gives,
        none when it fails. */
    method GetOrCompute(key: string, ttl: nat, now: nat, computed: Option<Answer>) returns (r: Option<Answer>)
      requires computed.Some? ==> computed.value.key == key
      modifies this
      ensures r == if Hits(old(Contents()), key, now) then Some(old(entries)[key].answer) else computed
      ensures Contents() ==
              if Hits(old(Contents()), key, now) || computed.None? then LookedUp(old(Contents()), key, now)
              else Stored(LookedUp(old(Contents()), key, now), computed.value, ttl, now)
    {
      var found := Lookup(key, now);
      if found.Some? {
        return found;
      }
      if computed.Some? {
        entries := entries[key := Entry(computed.value, now, ttl, generation)];
      }
      return computed;
    }

    method InvalidateAll()
      modifies this`generation, this`entries
      ensures Contents() == Invalidated(old(Contents()))
      ensures forall key, t :: Found(Contents(), key, t).None?
      ensures generation >= old(generation) && (generation == old(generation) ==> generation >= U64_MAX)
    {
      if generation < U64_MAX {
        generation := generation + 1;
      }
      entries := map[];
    }

    method PruneExpired(now: nat) returns (removed: nat)
      modifies this`entries
      ensures Contents() == Pruned(old(Contents()), now)
      ensures removed == |old(entries)| - |entries|
    {
      var kept := map key | key in entries && IsLive(entries[key], generation, now) :: entries[key];
      FewerKeys(kept, entries);
      removed := |entries| - |kept|;
      entries := kept;
    }
  }

  lemma FewerKeys(a: map<string, Entry>, b: map<string, Entry>)
    requires a.Keys <= b.Keys
    ensures |a| <= |b|
  {
    SubsetSize(a.Keys, b.Keys);
  }

  /** Pruning never shows: whatever is asked later, once or often, is answered the same. */
  lemma PruneIsInvisible(t: Table, now: nat, key: string, later: nat)
    requires now <= later
    ensures Found(Pruned(t, now), key, later) == Found(t, key, later)
    ensures Pruned(LookedUp(Pruned(t, now), key, later), later) == Pruned(LookedUp(t, key, later), later)
  {
    var a, b := LookedUp(Pruned(t, now), key, later), LookedUp(t, key, later);
    assert Pruned(a, later).entries == Pruned(b, later).entries;
  }

  // ---- Lookups, graph changes and invalidations interleaved -----------------------------------

  /** A lookup that has missed and not yet stored. */
  datatype Pending = Missed(key: string, ttl: nat) | Computed(answer: Answer, ttl: nat)

  /** `dirty`: the graph has changed since the last invalidation. */
  datatype State = State(table: Table, graph: nat, dirty: bool, now: nat, pending: map<nat, Pending>)

  const INITIAL := State(EMPTY, 0, false, 0, map[])

  datatype Step =
    | Change
    | Invalidate
    | Prune
    | Tick(elapsed: nat)
    | Lookup(id: nat, key: string, ttl: nat)
    | Compute(id: nat)
    | Fail(id: nat)
    | Insert(id: nat)

  ghost predicate Enabled(s: State, step: Step) {
    match step
    case Lookup(id, _, _) => id !in s.pending
    case Compute(id) => id in s.pending && s.pending[id].Missed?
    case Fail(id) => id in s.pending
    case Insert(id) => id in s.pending && s.pending[id].Computed?
    case _ => true
  }

  ghost function Apply(s: State, step: Step): State
    requires Enabled(s, step)
  {
    match step
    case Change => s.(graph := s.graph + 1, dirty := true)
    case Invalidate => s.(table := Invalidated(s.table), dirty := false)
    case Prune => s.(table := Pruned(s.table, s.now))
    case Tick(elapsed) => s.(now := s.now + elapsed)
    case Lookup(id, key, ttl) =>
      s.(table := LookedUp(s.table, key, s.now),
         pending := if Hits(s.table, key, s.now) then s.pending else s.pending[id := Missed(key, ttl)])
    case Compute(id) =>
      s.(pending := s.pending[id := Computed(Answer(s.pending[id].key, s.graph), s.pending[id].ttl)])
    case Fail(id) => s.(pending := s.pending - {id})
    case Insert(id) =>
      s.(table := Stored(s.table, s.pending[id].answer, s.pending[id].ttl, s.now), pending := s.pending - {id})
  }

  ghost predicate Run(trace: seq<State>, steps: seq<Step>) {
    && |trace| == |steps| + 1 && trace[0] == INITIAL
    && forall i :: 0 <= i < |steps| ==> Enabled(trace[i], steps[i]) && trace[i + 1] == Apply(trace[i], steps[i])
  }

  // ---- Every lookup is accounted for -------------------------------------------------------------

  ghost function Lookups(steps: seq<Step>): nat {
    if steps == [] then 0
    else Lookups(steps[..|steps| - 1]) + if steps[|steps| - 1].Lookup? then 1 else 0
  }

  ghost function Endings(steps: seq<Step>): nat {
    if steps == [] then 0
    else Endings(steps[..|steps| - 1]) + if steps[|steps| - 1].Insert? || steps[|steps| - 1].Fail? then 1 else 0
  }

  /** Hits and misses add up to the lookups made, and misses to those stored, failed and
      still pending. */
  lemma {:induction false} LookupsAreCounted(trace: seq<State>, steps: seq<Step>)
    requires Run(trace, steps)
    ensures var s := trace[|steps|]; s.table.hits + s.table.misses == Lookups(steps)
    ensures var s := trace[|steps|]; s.table.misses == Endings(steps) + |s.pending|
  {
    if steps != [] {
      var n := |steps| - 1;
      hide Apply, Enabled;
      LookupsAreCounted(trace[..n + 1], steps[..n]);
      assert trace[..n + 1][n] == trace[n];
      CountStep(trace[n], steps[n]);
    }
  }

  lemma CountStep(s: State, step: Step)
    requires Enabled(s, step)
    ensures var s' := Apply(s, step);
      && s'.table.hits + s'.table.misses == s.table.hits + s.table.misses + (if step.Lookup? then 1 else 0)
      && s'.table.misses - |s'.pending| == s.table.misses - |s.pending| + (if step.Insert? || step.Fail? then 1 else 0)
  {
    PendingSize(s, step);
  }

  lemma PendingSize(s: State, step: Step)
    requires Enabled(s, step)
    ensures |Apply(s, step).pending| - |s.pending| ==
            match step
            case Lookup(_, key, _) => if Hits(s.table, key, s.now) then 0 else 1
            case Insert(_) => -1
            case Fail(_) => -1
            case _ => 0
  {
  }

  // ---- When a hit is fresh -------------------------------------------------------------------------

  /** Entry `e` under `key` at state `n` was stored by step `j` and has stayed since. */
  ghost predicate StoredBy(trace: seq<State>, steps: seq<Step>, j: nat, n: nat, key: string, e: Entry) {
    && j < n <= |steps| < |trace|
    && steps[j].Insert? && Enabled(trace[j], steps[j])
    && e.answer == trace[j].pending[steps[j].id].answer && e.answer.key == key
    && e.inserted == trace[j].now
    && (forall k :: j < k < n ==> steps[k] != Invalidate)
    && forall k :: j < k <= n ==> key in trace[k].table.entries && trace[k].table.entries[key] == e
  }

  /** Every entry was stored by an insertion since the last invalidation, so carries the
      current generation: the generation check of a lookup never refuses one, even once
      the counter has reached its largest value. */
  lemma {:induction false} EntriesAreStored(trace: seq<State>, steps: seq<Step>, n: nat, key: string) returns (j: nat)
    requires Run(trace, steps) && n <= |steps| && key in trace[n].table.entries
    ensures StoredBy(trace, steps, j, n, key, trace[n].table.entries[key])
    ensures trace[n].table.entries[key].generation == trace[n].table.generation
  {
    var e := trace[n].table.entries[key];
    var s, step := trace[n - 1], steps[n - 1];
    if step.Insert? && s.pending[step.id].answer.key == key {
      j := n - 1;
    } else {
      j := EntriesAreStored(trace, steps, n - 1, key);
    }
  }

  /** The graph's version counts the changes, so it stands still exactly between them. */
  lemma {:induction false} GraphMoves(trace: seq<State>, steps: seq<Step>, i: nat, j: nat)
    requires Run(trace, steps) && i <= j <= |steps|
    ensures trace[i].graph <= trace[j].graph
    ensures trace[i].graph == trace[j].graph <==> forall k :: i <= k < j ==> steps[k] != Change
    decreases j - i
  {
    if i < j {
      GraphMoves(trace, steps, i, j - 1);
      assert Enabled(trace[j - 1], steps[j - 1]) && trace[j - 1 + 1] == Apply(trace[j - 1], steps[j - 1]);
    }
  }

  /** Without an invalidation, a change leaves the state dirty. */
  lemma {:induction false} CleanMeansNoChange(trace: seq<State>, steps: seq<Step>, i: nat, j: nat)
    requires Run(trace, steps) && i <= j <= |steps| && !trace[j].dirty
    requires forall k :: i <= k < j ==> steps[k] != Invalidate
    ensures !trace[i].dirty && trace[i].graph == trace[j].graph
    decreases j - i
  {
    if i < j {
      CleanMeansNoChange(trace, steps, i + 1, j);
    }
  }

  /** The lookup pending at `n` with an answer got it from step `i`. */
  ghost predicate ComputedBy(trace: seq<State>, steps: seq<Step>, i: nat, n: nat, id: nat) {
    && i < n < |trace| && i < |steps| && steps[i] == Compute(id)
    && id in trace[n].pending && trace[n].pending[id].Computed?
    && trace[n].pending[id].answer.graph == trace[i].graph
    && forall k :: i < k < n && k < |steps| ==> steps[k] != Compute(id)
  }

  lemma {:induction false} AnswersAreComputed(trace: seq<State>, steps: seq<Step>, n: nat, id: nat) returns (i: nat)
    requires Run(trace, steps) && n <= |steps| && id in trace[n].pending && trace[n].pending[id].Computed?
    ensures ComputedBy(trace, steps, i, n, id)
  {
    if steps[n - 1] == Compute(id) {
      i := n - 1;
    } else {
      i := AnswersAreComputed(trace, steps, n - 1, id);
    }
  }

  /** A change of the graph and its invalidation both fell between computing at `i` and
      storing at `j`. */
  ghost predicate Overtaken(steps: seq<Step>, i: nat, j: nat) {
    exists k, l :: i < k < l < j && j <= |steps| && steps[k] == Change && steps[l] == Invalidate
  }

  lemma ChangedUnderway(trace: seq<State>, steps: seq<Step>, i: nat, j: nat)
    requires Run(trace, steps) && i < j <= |steps| && !trace[j].dirty && steps[i].Compute?
    requires trace[i].graph != trace[j].graph
    ensures Overtaken(steps, i, j)
  {
    GraphMoves(trace, steps, i, j);
    var k :| i <= k < j && steps[k] == Change;
    assert trace[k + 1] == Apply(trace[k], steps[k]);
    if forall l :: k + 1 <= l < j ==> steps[l] != Invalidate {
      CleanMeansNoChange(trace, steps, k + 1, j);
      assert false;
    }
  }

  /** In every run, a lookup made when each change has been invalidated and found in the
      table is within its time to live, is for the key asked, and is what computing now
      would give, if and only if the insertion that stored it was not overtaken. */
  lemma FreshExactlyUnlessOvertaken(trace: seq<State>, steps: seq<Step>, n: nat, key: string) returns (i: nat, j: nat)
    requires Run(trace, steps) && n <= |steps| && !trace[n].dirty
    requires Hits(trace[n].table, key, trace[n].now)
    ensures i < j && StoredBy(trace, steps, j, n, key, trace[n].table.entries[key])
    ensures ComputedBy(trace, steps, i, j, steps[j].id)
    ensures trace[n].now - trace[j].now <= trace[n].table.entries[key].ttl
    ensures Found(trace[n].table, key, trace[n].now) == Some(Answer(key, trace[n].graph)) <==> !Overtaken(steps, i, j)
  {
    hide Run;
    j := EntriesAreStored(trace, steps, n, key);
    i := AnswersAreComputed(trace, steps, j, steps[j].id);
    CleanMeansNoChange(trace, steps, j, n);
    GraphMoves(trace, steps, i, j);
    if Overtaken(steps, i, j) {
      assert trace[i].graph != trace[n].graph;
    } else if trace[i].graph != trace[n].graph {
      ChangedUnderway(trace, steps, i, j);
    }
  }

  /** It does happen: the generation is read when the answer is stored, not when it is
      computed, so an answer from before the change is stored as current. */
  lemma OvertakenAnswerIsServed() returns (trace: seq<State>, steps: seq<Step>)
    ensures Run(trace, steps) && !trace[|steps|].dirty && trace[|steps|].pending == map[]
    ensures Found(trace[|steps|].table, "k", trace[|steps|].now) == Some(Answer("k", 0))
    ensures trace[|steps|].graph == 1
  {
    steps := [Lookup(0, "k", 60), Compute(0), Change, Invalidate, Insert(0)];
    var s1 := Apply(INITIAL, steps[0]);
    var s2 := Apply(s1, steps[1]);
    var s3 := Apply(s2, steps[2]);
    var s4 := Apply(s3, steps[3]);
    trace := [INITIAL, s1, s2, s3, s4, Apply(s4, steps[4])];
  }

  // ---- How long an answer is found ------------------------------------------------------------

  /** Step `j` stores an answer under `key`, and nothing since has stored another or
      invalidated the cache. */
  ghost predicate LastStored(trace: seq<State>, steps: seq<Step>, j: nat, n: nat, key: string) {
    && j < n < |trace| && |trace| == |steps| + 1 && Stores(trace[j], steps[j], key)
    && forall k :: j < k < n ==> steps[k] != Invalidate && !Stores(trace[k], steps[k], key)
  }

  ghost predicate Stores(s: State, step: Step, key: string) {
    step.Insert? && Enabled(s, step) && s.pending[step.id].answer.key == key
  }

  /** The entry is there, or it is gone and its time is over. */
  ghost predicate HeldFor(s: State, key: string, answer: Answer, stored: nat, ttl: nat) {
    && stored <= s.now
    && (key in s.table.entries ==> s.table.entries[key] == Entry(answer, stored, ttl, s.table.generation))
    && (key !in s.table.entries ==> s.now - stored > ttl)
  }

  lemma StoreHolds(s: State, step: Step, key: string)
    requires Stores(s, step, key)
    ensures HeldFor(Apply(s, step), key, s.pending[step.id].answer, s.now, s.pending[step.id].ttl)
  {
  }

  lemma StepHolds(s: State, step: Step, key: string, answer: Answer, stored: nat, ttl: nat)
    requires Enabled(s, step) && HeldFor(s, key, answer, stored, ttl) && step != Invalidate && !Stores(s, step, key)
    ensures HeldFor(Apply(s, step), key, answer, stored, ttl)
  {
  }

  lemma {:induction false} StaysHeld(trace: seq<State>, steps: seq<Step>, j: nat, n: nat, key: string)
    requires Run(trace, steps) && LastStored(trace, steps, j, n, key)
    ensures var p := trace[j].pending[steps[j].id]; HeldFor(trace[n], key, p.answer, trace[j].now, p.ttl)
    decreases n
  {
    hide Apply, HeldFor;
    if n == j + 1 {
      StoreHolds(trace[j], steps[j], key);
    } else {
      StaysHeld(trace, steps, j, n - 1, key);
      var p := trace[j].pending[steps[j].id];
      StepHolds(trace[n - 1], steps[n - 1], key, p.answer, trace[j].now, p.ttl);
    }
  }

  /** In every interleaving, what was last stored under a key, with no invalidation since, is
      found if and only if its age is at most its time to live, and otherwise nothing is. */
  lemma FoundExactlyWhileLive(trace: seq<State>, steps: seq<Step>, j: nat, n: nat, key: string)
    requires Run(trace, steps) && LastStored(trace, steps, j, n, key)
    ensures var p := trace[j].pending[steps[j].id];
      Found(trace[n].table, key, trace[n].now) ==
      if trace[n].now - trace[j].now <= p.ttl then Some(p.answer) else None
  {
    hide Apply, Run;
    StaysHeld(trace, steps, j, n, key);
  }
}
