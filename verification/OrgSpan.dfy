/** Span of control: counting everyone below a person with a queue and no visited
    set. The count ends exactly when the person is not on a management cycle. */
module OrgSpan {
  import opened Wrappers
  import opened OrgChart
  import opened OrgSearch

  datatype SpanMetrics = SpanMetrics(person: Email, directReports: nat, indirectReports: nat, maxDepth: nat)

  /** Everyone whose manager chain passes through `p`. */
  ghost function Below(c: Chart, p: Email): set<Email> {
    set x | x in c.persons && StrictlyManages(c, p, x)
  }

  /** The longest chain of reports under `p` has `d` links. */
  ghost predicate LongestChainBelow(c: Chart, p: Email, d: nat) {
    && (exists x :: Climb(c, x, d) == Some(p))
    && (forall x, k: nat :: Climb(c, x, k) == Some(p) ==> k <= d)
  }

  // ---- The queue ---------------------------------------------------------------

  function Tagged(reports: seq<Email>, d: nat): (q: seq<(Email, nat)>)
    ensures |q| == |reports| && forall i :: 0 <= i < |q| ==> q[i] == (reports[i], d)
  {
    seq(|reports|, i requires 0 <= i < |reports| => (reports[i], d))
  }

  ghost function Step(c: Chart, q: seq<(Email, nat)>): seq<(Email, nat)>
    requires q != []
  {
    q[1..] + Tagged(c.DirectReports(q[0].0), q[0].1 + 1)
  }

  /** The queue after `n` rounds. */
  ghost function QueueAfter(c: Chart, p: Email, n: nat): seq<(Email, nat)> {
    if n == 0 then Tagged(c.DirectReports(p), 1) else
    var q := QueueAfter(c, p, n - 1);
    if q == [] then [] else Step(c, q)
  }

  // ---- Off a cycle: everyone below is queued once --------------------------------

  ghost predicate Queued(q: seq<(Email, nat)>, x: Email) {
    exists i :: 0 <= i < |q| && q[i].0 == x
  }

  /** `counted` are the people taken off the queue. A person is counted or queued
      exactly when their manager is `p` or has been counted. */
  ghost predicate Counting(c: Chart, p: Email, counted: set<Email>, q: seq<(Email, nat)>) {
    && counted <= Below(c, p)
    && (forall e <- q :: Entry(c, p, counted, e))
    && NoRepeats(q)
    && (forall x :: x in counted || Queued(q, x) <==>
          x in c.managerOf && (c.managerOf[x] == p || c.managerOf[x] in counted))
  }

  /** A queued person sits at the depth it is tagged with and is not counted yet. */
  ghost predicate Entry(c: Chart, p: Email, counted: set<Email>, e: (Email, nat)) {
    e.1 >= 1 && Climb(c, e.0, e.1) == Some(p) && e.0 !in counted
  }

  ghost predicate NoRepeats(q: seq<(Email, nat)>) {
    forall i, j :: 0 <= i < j < |q| ==> q[i].0 != q[j].0
  }

  lemma ReportsTo(c: Chart, m: Email, x: Email)
    requires c.Valid()
    ensures x in c.DirectReports(m) <==> c.Manager(x) == Some(m)
    ensures c.Manager(x) == Some(m) ==> Climb(c, x, 1) == Some(m)
  {
    assert Climb(c, x, 0) == Some(x);
  }

  lemma TaggedQueues(reports: seq<Email>, d: nat, x: Email)
    ensures Queued(Tagged(reports, d), x) <==> x in reports
  {
  }

  lemma CountingStarts(c: Chart, p: Email)
    requires c.Valid()
    ensures Counting(c, p, {}, QueueAfter(c, p, 0))
  {
    var reports := c.DirectReports(p);
    var q := Tagged(reports, 1);
    forall i | 0 <= i < |q| ensures Climb(c, q[i].0, 1) == Some(p) {
      ReportsTo(c, p, reports[i]);
    }
    forall x ensures Queued(q, x) <==> x in c.managerOf && c.managerOf[x] == p {
      TaggedQueues(reports, 1, x);
      ReportsTo(c, p, x);
    }
  }

  lemma JoinQueues(q: seq<(Email, nat)>, r: seq<(Email, nat)>, x: Email)
    ensures Queued(q + r, x) <==> Queued(q, x) || Queued(r, x)
  {
    if Queued(q, x) {
      var i :| 0 <= i < |q| && q[i].0 == x;
      assert (q + r)[i].0 == x;
    }
    if Queued(r, x) {
      var i :| 0 <= i < |r| && r[i].0 == x;
      assert (q + r)[|q| + i].0 == x;
    }
  }

  lemma StepQueues(c: Chart, q: seq<(Email, nat)>, x: Email)
    requires c.Valid() && q != []
    ensures Queued(Step(c, q), x) <==> Queued(q[1..], x) || c.Manager(x) == Some(q[0].0)
  {
    var reports := c.DirectReports(q[0].0);
    JoinQueues(q[1..], Tagged(reports, q[0].1 + 1), x);
    TaggedQueues(reports, q[0].1 + 1, x);
    ReportsTo(c, q[0].0, x);
  }

  lemma NeverItself(c: Chart, p: Email, counted: set<Email>, e: (Email, nat))
    requires !OnCycle(c, p) && Entry(c, p, counted, e)
    ensures e.0 != p
  {
  }

  /** A report of the person taken off the queue is new, and one link deeper. */
  lemma ReportIsNew(c: Chart, p: Email, counted: set<Email>, q: seq<(Email, nat)>, x: Email)
    requires c.Valid() && !OnCycle(c, p) && Counting(c, p, counted, q) && q != []
    requires x in c.DirectReports(q[0].0)
    ensures Entry(c, p, counted, (x, q[0].1 + 1)) && !Queued(q, x)
  {
    hide c.Valid, OnCycle, Climb, Below;
    var node, depth := q[0].0, q[0].1;
    assert q[0] in q;
    ReportsTo(c, node, x);
    NeverItself(c, p, counted, q[0]);
    ClimbCompose(c, x, 1, depth);
    assert Queued(q, node);
  }

  lemma StepEntries(c: Chart, p: Email, counted: set<Email>, q: seq<(Email, nat)>)
    requires c.Valid() && !OnCycle(c, p) && Counting(c, p, counted, q) && q != []
    ensures NoRepeats(Step(c, q))
    ensures forall e <- Step(c, q) :: Entry(c, p, counted + {q[0].0}, e)
  {
    var node, rest, reports := q[0].0, q[1..], c.DirectReports(q[0].0);
    var q' := Step(c, q);
    assert Distinct(reports);
    forall x <- reports ensures Entry(c, p, counted, (x, q[0].1 + 1)) && !Queued(q, x) {
      ReportIsNew(c, p, counted, q, x);
    }
    assert NoRepeats(q) && forall e <- q :: Entry(c, p, counted, e);
    hide c.Valid, OnCycle, Climb, Counting;
    assert Queued(q, node);
    forall i | 0 <= i < |q'|
      ensures Entry(c, p, counted + {node}, q'[i])
      ensures i < |rest| ==> q'[i] == q[i + 1] && Queued(q, q'[i].0)
      ensures i >= |rest| ==> q'[i].0 == reports[i - |rest|] && !Queued(q, q'[i].0)
    {
      if i >= |rest| {
        assert reports[i - |rest|] in reports;
      } else {
        assert q[i + 1] in q;
      }
    }
  }

  lemma CountedStep(c: Chart, p: Email, counted: set<Email>, q: seq<(Email, nat)>)
    requires c.Valid() && !OnCycle(c, p) && Counting(c, p, counted, q) && q != []
    ensures Counting(c, p, counted + {q[0].0}, Step(c, q))
    ensures q[0].0 !in counted && q[0].0 in c.persons
  {
    var node, depth := q[0].0, q[0].1;
    assert q[0] in q;
    StepEntries(c, p, counted, q);
    ClimbStaysLoaded(c, node, depth);
    assert node in Below(c, p);
    forall x ensures x in counted + {node} || Queued(Step(c, q), x) <==>
        x in c.managerOf && (c.managerOf[x] == p || c.managerOf[x] in counted + {node})
    {
      StepQueues(c, q, x);
      QueueSplit(q, x);
      hide c.Valid, Step, Climb, OnCycle;
    }
  }

  lemma QueueSplit(q: seq<(Email, nat)>, x: Email)
    requires q != []
    ensures Queued(q, x) <==> x == q[0].0 || Queued(q[1..], x)
  {
  }

  /** With nothing queued, everyone below has been counted. */
  lemma {:induction false} AllCounted(c: Chart, p: Email, counted: set<Email>, x: Email, k: nat)
    requires Counting(c, p, counted, []) && k >= 1 && Climb(c, x, k) == Some(p)
    ensures x in counted
    decreases k
  {
    ClimbFromManager(c, x, k);
    if k > 1 {
      AllCounted(c, p, counted, c.managerOf[x], k - 1);
    }
    assert x in counted || Queued([], x);
  }

  /** Off a cycle the height of a person under `p` is unique. */
  lemma HeightIsUnique(c: Chart, p: Email, x: Email, j: nat, k: nat)
    requires !OnCycle(c, p) && Climb(c, x, j) == Some(p) == Climb(c, x, k)
    ensures j == k
    decreases j
  {
    if j < k {
      ClimbCompose(c, x, j, k - j);
      assert false;
    } else if k < j {
      HeightIsUnique(c, p, x, k, j);
    }
  }

  /** The depths seen so far. */
  ghost predicate DeepestSoFar(c: Chart, p: Email, counted: set<Email>, d: nat) {
    && (exists x :: Climb(c, x, d) == Some(p))
    && (forall x, k: nat :: x in counted && Climb(c, x, k) == Some(p) ==> k <= d)
  }

  lemma Deeper(c: Chart, p: Email, counted: set<Email>, d: nat, node: Email, depth: nat)
    requires !OnCycle(c, p) && DeepestSoFar(c, p, counted, d) && Climb(c, node, depth) == Some(p)
    ensures DeepestSoFar(c, p, counted + {node}, if d < depth then depth else d)
  {
    forall k: nat | Climb(c, node, k) == Some(p) ensures k == depth {
      HeightIsUnique(c, p, node, k, depth);
    }
  }

  lemma SpanIsComplete(c: Chart, p: Email, counted: set<Email>, d: nat)
    requires c.Valid() && !OnCycle(c, p) && Counting(c, p, counted, []) && DeepestSoFar(c, p, counted, d)
    ensures counted == Below(c, p) && LongestChainBelow(c, p, d)
  {
    forall x, k: nat | Climb(c, x, k) == Some(p) ensures k == 0 || x in counted {
      if k >= 1 {
        AllCounted(c, p, counted, x, k);
      }
    }
    forall x | x in Below(c, p) ensures x in counted {
      var k: nat :| k >= 1 && Climb(c, x, k) == Some(p);
    }
  }

  method SpanOfControl(c: Chart, person: Email) returns (r: Result<SpanMetrics>)
    requires c.Valid() && !OnCycle(c, person)
    ensures person !in c.persons ==> r == NotFound(person)
    ensures person in c.persons ==>
      && r.Ok? && r.value.person == person
      && r.value.directReports == |c.DirectReports(person)|
      && r.value.indirectReports == |Below(c, person)|
      && LongestChainBelow(c, person, r.value.maxDepth)
  {
    hide Counting, c.Valid, LongestChainBelow, DeepestSoFar, OnCycle;
    if person !in c.persons { return NotFound(person); }
    var direct := |c.DirectReports(person)|;
    var indirect := 0;
    var maxDepth := 0;
    var queue := Tagged(c.DirectReports(person), 1);
    ghost var counted: set<Email> := {};
    CountingStarts(c, person);
    NothingCounted(c, person);
    while queue != []
      invariant Counting(c, person, counted, queue)
      invariant counted <= c.persons && |counted| == indirect
      invariant DeepestSoFar(c, person, counted, maxDepth)
      decreases c.persons - counted
    {
      var (node, depth) := queue[0];
      CountedStep(c, person, counted, queue);
      EntryHeight(c, person, counted, queue);
      Deeper(c, person, counted, maxDepth, node, depth);
      ghost var next := Step(c, queue);
      queue := queue[1..];
      indirect := indirect + 1;
      maxDepth := if maxDepth < depth then depth else maxDepth;
      var reports := c.DirectReports(node);
      ghost var rest := queue;
      var i := 0;
      while i < |reports|
        invariant 0 <= i <= |reports|
        invariant queue == rest + Tagged(reports[..i], depth + 1)
      {
        queue := queue + [(reports[i], depth + 1)];
        i := i + 1;
      }
      assert reports[..i] == reports;
      assert queue == next;
      counted := counted + {node};
    }
    SpanIsComplete(c, person, counted, maxDepth);
    return Ok(SpanMetrics(person, direct, indirect, maxDepth));
  }

  lemma NothingCounted(c: Chart, p: Email)
    ensures DeepestSoFar(c, p, {}, 0)
  {
    assert Climb(c, p, 0) == Some(p);
  }

  lemma EntryHeight(c: Chart, p: Email, counted: set<Email>, q: seq<(Email, nat)>)
    requires Counting(c, p, counted, q) && q != []
    ensures Climb(c, q[0].0, q[0].1) == Some(p)
  {
    assert q[0] in q;
  }

  // ---- On a cycle: the queue never empties ----------------------------------------

  /** The person below `e` on the cycle through `p` is a direct report of `e`. */
  lemma CyclePredecessor(c: Chart, p: Email, i: nat, k: nat) returns (j: nat)
    requires c.Valid() && k >= 1 && Climb(c, p, k) == Some(p) && Climb(c, p, i).Some?
    ensures Climb(c, p, j).Some? && c.Manager(Climb(c, p, j).value) == Climb(c, p, i)
  {
    j := if i == 0 then k - 1 else i - 1;
    ClimbPrefix(c, p, j, if i == 0 then k else i);
  }

  lemma CycleStartsQueued(c: Chart, p: Email, k: nat) returns (i: nat)
    requires c.Valid() && k >= 1 && Climb(c, p, k) == Some(p)
    ensures Climb(c, p, i).Some? && Queued(QueueAfter(c, p, 0), Climb(c, p, i).value)
  {
    hide c.Valid, Queued;
    assert Climb(c, p, 0) == Some(p);
    i := CyclePredecessor(c, p, 0, k);
    ReportsTo(c, p, Climb(c, p, i).value);
    TaggedQueues(c.DirectReports(p), 1, Climb(c, p, i).value);
  }

  lemma QueuedIsSome(q: seq<(Email, nat)>, x: Email)
    requires Queued(q, x)
    ensures q != []
  {
  }

  lemma {:induction false} QueueKeepsCycle(c: Chart, p: Email, k: nat, n: nat) returns (i: nat)
    requires c.Valid() && k >= 1 && Climb(c, p, k) == Some(p)
    ensures Climb(c, p, i).Some? && Queued(QueueAfter(c, p, n), Climb(c, p, i).value)
  {
    hide c.Valid, Queued, Step, Climb;
    if n == 0 {
      i := CycleStartsQueued(c, p, k);
    } else {
      var q := QueueAfter(c, p, n - 1);
      i := QueueKeepsCycle(c, p, k, n - 1);
      var x := Climb(c, p, i).value;
      QueuedIsSome(q, x);
      QueueSplit(q, x);
      if x == q[0].0 {
        i := CyclePredecessor(c, p, i, k);
      }
      StepQueues(c, q, Climb(c, p, i).value);
    }
  }

  lemma {:induction false} QueueEmpties(c: Chart, p: Email, counted: set<Email>, n: nat) returns (end: nat)
    requires c.Valid() && !OnCycle(c, p) && Counting(c, p, counted, QueueAfter(c, p, n)) && counted <= c.persons
    ensures QueueAfter(c, p, end) == []
    decreases c.persons - counted
  {
    hide c.Valid, OnCycle, Counting;
    var q := QueueAfter(c, p, n);
    end := n;
    if q != [] {
      CountedStep(c, p, counted, q);
      assert QueueAfter(c, p, n + 1) == Step(c, q);
      end := QueueEmpties(c, p, counted + {q[0].0}, n + 1);
    }
  }

  /** The count ends exactly for people who are not on a management cycle. */
  lemma SpanEndsExactlyOffCycles(c: Chart, p: Email)
    requires c.Valid()
    ensures (exists n: nat :: QueueAfter(c, p, n) == []) <==> !OnCycle(c, p)
  {
    if OnCycle(c, p) {
      var k: nat :| k >= 1 && Climb(c, p, k) == Some(p);
      forall n: nat ensures QueueAfter(c, p, n) != [] {
        var i := QueueKeepsCycle(c, p, k, n);
        QueuedIsSome(QueueAfter(c, p, n), Climb(c, p, i).value);
      }
    } else {
      CountingStarts(c, p);
      var n := QueueEmpties(c, p, {}, 0);
    }
  }
}
