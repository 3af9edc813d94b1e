/** The `REPORTS_TO` chart that discovery derives from the store, and the two
    relations every org-chart algorithm is specified against: climbing the
    manager chain, and walking along reporting links in either direction. */
module OrgChart {
  import opened Wrappers

  type Email = string

  /** `managerOf` is the manager index, `directReportsOf` its inverse, both as
      loaded from the store; `persons` are the loaded people. */
  datatype Chart = Chart(
    persons: set<Email>,
    managerOf: map<Email, Email>,
    directReportsOf: map<Email, seq<Email>>)
  {
    function Manager(e: Email): Option<Email> {
      if e in managerOf then Some(managerOf[e]) else None
    }

    function DirectReports(e: Email): seq<Email> {
      if e in directReportsOf then directReportsOf[e] else []
    }

    /** What loading establishes: the two indices are inverse to each other, a
        report list names nobody twice, and both indices speak of loaded people. */
    ghost predicate Valid() {
      && (forall e <- managerOf :: e in persons && managerOf[e] in persons)
      && (forall m, r :: r in DirectReports(m) <==> Manager(r) == Some(m))
      && (forall m: Email, i, j :: 0 <= i < j < |DirectReports(m)| ==> DirectReports(m)[i] != DirectReports(m)[j])
    }
  }

  // ---- Building the indices --------------------------------------------------

  /** The people of `people` who report to `m`, in the order `people` lists them. */
  ghost function ReportsAmong(people: seq<Email>, reportsTo: map<Email, Email>, m: Email): seq<Email> {
    if people == [] then [] else
    var rest, last := ReportsAmong(people[..|people| - 1], reportsTo, m), people[|people| - 1];
    if last in reportsTo && reportsTo[last] == m then rest + [last] else rest
  }

  lemma {:induction false} ReportsAmongMembers(people: seq<Email>, reportsTo: map<Email, Email>, m: Email)
    ensures forall r :: r in ReportsAmong(people, reportsTo, m) <==> r in people && r in reportsTo && reportsTo[r] == m
  {
    if people != [] {
      var init, last := people[..|people| - 1], people[|people| - 1];
      ReportsAmongMembers(init, reportsTo, m);
      assert people == init + [last];
    }
  }

  lemma {:induction false} ReportsAmongSorted(people: seq<Email>, reportsTo: map<Email, Email>, m: Email,
                                              less: (Email, Email) -> bool)
    requires SortedBy(people, less)
    ensures SortedBy(ReportsAmong(people, reportsTo, m), less)
  {
    if people != [] {
      var init, last := people[..|people| - 1], people[|people| - 1];
      ReportsAmongSorted(init, reportsTo, m, less);
      ReportsAmongMembers(init, reportsTo, m);
      var rest := ReportsAmong(init, reportsTo, m);
      forall i | 0 <= i < |rest| ensures less(rest[i], last) {
        assert rest[i] in rest;
        var k :| 0 <= k < |init| && init[k] == rest[i];
        assert people[k] == init[k];
      }
    }
  }

  /** A report list names exactly the reporting people, nobody twice, and keeps any order
      the people were listed in. Being distinct is being sorted by difference. */
  lemma ReportsAmongSpec(people: seq<Email>, reportsTo: map<Email, Email>, m: Email, less: (Email, Email) -> bool)
    ensures var out := ReportsAmong(people, reportsTo, m);
      && (forall r :: r in out <==> r in people && r in reportsTo && reportsTo[r] == m)
      && (Distinct(people) ==> Distinct(out))
      && (SortedBy(people, less) ==> SortedBy(out, less))
  {
    hide ReportsAmong;
    ReportsAmongMembers(people, reportsTo, m);
    if SortedBy(people, less) {
      ReportsAmongSorted(people, reportsTo, m, less);
    }
    if Distinct(people) {
      ReportsAmongSorted(people, reportsTo, m, (x, y) => x != y);
    }
  }

  ghost predicate SortedBy(s: seq<Email>, less: (Email, Email) -> bool) {
    forall i, j :: 0 <= i < j < |s| ==> less(s[i], s[j])
  }

  /** `c` indexes exactly the manager rows of the first people read. */
  ghost predicate IndexesOf(c: Chart, done: seq<Email>, reportsTo: map<Email, Email>) {
    && (forall e :: c.Manager(e) == if e in done && e in reportsTo then Some(reportsTo[e]) else None)
    && (forall m :: c.DirectReports(m) == ReportsAmong(done, reportsTo, m))
  }

  lemma IndexesGrow(c: Chart, done: seq<Email>, reportsTo: map<Email, Email>, email: Email)
    requires IndexesOf(c, done, reportsTo)
    ensures email !in reportsTo ==> IndexesOf(c, done + [email], reportsTo)
    ensures email in reportsTo ==>
      var mgr := reportsTo[email];
      IndexesOf(Chart(c.persons, c.managerOf[email := mgr],
                      c.directReportsOf[mgr := c.DirectReports(mgr) + [email]]), done + [email], reportsTo)
  {
    forall m ensures ReportsAmong(done + [email], reportsTo, m) ==
        ReportsAmong(done, reportsTo, m) + (if email in reportsTo && reportsTo[email] == m then [email] else [])
    {
      assert (done + [email])[..|done|] == done;
    }
    hide ReportsAmong;
    if email in reportsTo {
      var mgr := reportsTo[email];
      var c' := Chart(c.persons, c.managerOf[email := mgr], c.directReportsOf[mgr := c.DirectReports(mgr) + [email]]);
      forall m ensures c'.DirectReports(m) == ReportsAmong(done + [email], reportsTo, m) {
        assert c'.DirectReports(m) == c.DirectReports(m) + if m == mgr then [email] else [];
      }
      assert forall e :: c'.Manager(e) == if e == email then Some(mgr) else c.Manager(e);
    }
  }

  lemma LoadedReports(c: Chart, people: seq<Email>, reportsTo: map<Email, Email>, m: Email,
                      less: (Email, Email) -> bool)
    requires Distinct(people) && IndexesOf(c, people, reportsTo)
    ensures Distinct(c.DirectReports(m)) && (SortedBy(people, less) ==> SortedBy(c.DirectReports(m), less))
    ensures forall r :: r in c.DirectReports(m) <==> c.Manager(r) == Some(m)
  {
    ReportsAmongSpec(people, reportsTo, m, less);
    hide ReportsAmong, SortedBy, Distinct;
  }

  lemma LoadedIndexes(c: Chart, people: seq<Email>, reportsTo: map<Email, Email>)
    requires Distinct(people) && c.persons == set e | e in people
    requires forall e <- people | e in reportsTo :: reportsTo[e] in people
    requires IndexesOf(c, people, reportsTo)
    ensures c.Valid()
    ensures forall less, m :: SortedBy(people, less) ==> SortedBy(c.DirectReports(m), less)
  {
    forall less, m ensures SortedBy(people, less) ==> SortedBy(c.DirectReports(m), less) {
      LoadedReports(c, people, reportsTo, m, less);
    }
    LoadedIsValid(c, people, reportsTo);
  }

  lemma LoadedIsValid(c: Chart, people: seq<Email>, reportsTo: map<Email, Email>)
    requires Distinct(people) && c.persons == set e | e in people
    requires forall e <- people | e in reportsTo :: reportsTo[e] in people
    requires IndexesOf(c, people, reportsTo)
    ensures c.Valid()
  {
    hide SortedBy, ReportsAmong;
    forall m
      ensures Distinct(c.DirectReports(m)) && forall r :: r in c.DirectReports(m) <==> c.Manager(r) == Some(m)
    {
      LoadedReports(c, people, reportsTo, m, (x, y) => true);
    }
    forall e <- c.managerOf ensures e in c.persons && c.managerOf[e] in c.persons {
      assert c.Manager(e) == Some(c.managerOf[e]);
    }
  }

  /** Load the reporting indices. `people` are the persons in the sorted map's
      iteration order, `reportsTo` the first manager row of each person who has
      one. Report lists keep that order, so the sort that follows in the source
      leaves them as they are. */
  method FromStore(people: seq<Email>, reportsTo: map<Email, Email>) returns (c: Chart)
    requires Distinct(people)
    requires forall e <- people | e in reportsTo :: reportsTo[e] in people
    ensures c.Valid()
    ensures c.persons == set e | e in people
    ensures forall e :: c.Manager(e) == if e in people && e in reportsTo then Some(reportsTo[e]) else None
    ensures forall less, m :: SortedBy(people, less) ==> SortedBy(c.DirectReports(m), less)
  {
    var managerOf: map<Email, Email> := map[];
    var directReportsOf: map<Email, seq<Email>> := map[];
    c := Chart((set e | e in people), managerOf, directReportsOf);
    var n := 0;
    while n < |people|
      invariant 0 <= n <= |people|
      invariant c == Chart((set e | e in people), managerOf, directReportsOf)
      invariant IndexesOf(c, people[..n], reportsTo)
    {
      var email := people[n];
      assert people[..n + 1] == people[..n] + [email];
      IndexesGrow(c, people[..n], reportsTo, email);
      hide IndexesOf;
      if email in reportsTo {
        var mgr := reportsTo[email];
        directReportsOf := directReportsOf[mgr := c.DirectReports(mgr) + [email]];
        managerOf := managerOf[email := mgr];
        c := Chart(c.persons, managerOf, directReportsOf);
      }
      n := n + 1;
    }
    assert people[..n] == people;
    LoadedIndexes(c, people, reportsTo);
  }

  // ---- Climbing --------------------------------------------------------------

  /** The person `k` managers above `e`. */
  ghost function Climb(c: Chart, e: Email, k: nat): Option<Email> {
    if k == 0 then Some(e) else
    match Climb(c, e, k - 1)
    case None => None
    case Some(m) => c.Manager(m)
  }

  /** `m` is somewhere strictly above `e`. */
  ghost predicate StrictlyManages(c: Chart, m: Email, e: Email) {
    exists k: nat :: k >= 1 && Climb(c, e, k) == Some(m)
  }

  ghost predicate OnCycle(c: Chart, e: Email) {
    StrictlyManages(c, e, e)
  }

  ghost predicate Acyclic(c: Chart) {
    forall e :: !OnCycle(c, e)
  }

  lemma {:induction false} ClimbCompose(c: Chart, e: Email, j: nat, k: nat)
    requires Climb(c, e, j).Some?
    ensures Climb(c, e, j + k) == Climb(c, Climb(c, e, j).value, k)
  {
    if k > 0 {
      ClimbCompose(c, e, j, k - 1);
      assert Climb(c, e, j + k) ==
        match Climb(c, e, j + k - 1) { case None => None case Some(m) => c.Manager(m) };
    }
  }

  lemma {:induction false} ClimbPrefix(c: Chart, e: Email, j: nat, k: nat)
    requires j <= k && Climb(c, e, k).Some?
    ensures Climb(c, e, j).Some?
  {
    if j < k {
      ClimbPrefix(c, e, j, k - 1);
    }
  }

  /** The first step of a climb, taken apart from the bottom. */
  lemma ClimbFromManager(c: Chart, e: Email, k: nat)
    requires k >= 1 && Climb(c, e, k).Some?
    ensures e in c.managerOf && Climb(c, c.managerOf[e], k - 1) == Climb(c, e, k)
  {
    ClimbPrefix(c, e, 1, k);
    assert Climb(c, e, 1) == c.Manager(e);
    ClimbCompose(c, e, 1, k - 1);
  }

  lemma {:induction false} ClimbStaysLoaded(c: Chart, e: Email, k: nat)
    requires c.Valid() && k >= 1 && Climb(c, e, k).Some?
    ensures e in c.persons && Climb(c, e, k).value in c.persons
    decreases k
  {
    ClimbFromManager(c, e, k);
    if k > 1 {
      ClimbStaysLoaded(c, c.managerOf[e], k - 1);
    }
  }

  // ---- Walking ---------------------------------------------------------------

  /** One reporting link, in either direction. */
  ghost predicate Linked(c: Chart, a: Email, b: Email) {
    c.Manager(a) == Some(b) || c.Manager(b) == Some(a)
  }

  /** A walk along reporting links, listing the people on it. */
  ghost predicate IsWalk(c: Chart, p: seq<Email>, from: Email, to: Email) {
    && |p| > 0 && p[0] == from && p[|p| - 1] == to
    && forall i :: 0 < i < |p| ==> Linked(c, p[i - 1], p[i])
  }

  ghost predicate Connected(c: Chart, from: Email, to: Email) {
    exists p :: IsWalk(c, p, from, to)
  }

  /** Every walk between the two takes at least `hops` links. */
  ghost predicate AtLeast(c: Chart, from: Email, to: Email, hops: nat) {
    forall p :: IsWalk(c, p, from, to) ==> |p| > hops
  }

  ghost predicate Shortest(c: Chart, p: seq<Email>, from: Email, to: Email) {
    IsWalk(c, p, from, to) && AtLeast(c, from, to, |p| - 1)
  }

  function Neighbors(c: Chart, e: Email): (out: seq<Email>)
    requires c.Valid()
    ensures forall x :: x in out <==> Linked(c, e, x)
  {
    (match c.Manager(e) case Some(m) => [m] case None => []) + c.DirectReports(e)
  }

  function Reversed<T>(s: seq<T>): (r: seq<T>)
    ensures |r| == |s| && forall i :: 0 <= i < |s| ==> r[i] == s[|s| - 1 - i]
  {
    seq(|s|, i requires 0 <= i < |s| => s[|s| - 1 - i])
  }

  lemma WalkReversed(c: Chart, p: seq<Email>, from: Email, to: Email)
    requires IsWalk(c, p, from, to)
    ensures IsWalk(c, Reversed(p), to, from)
  {
  }
}
