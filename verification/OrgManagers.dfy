/** Manager chains: the cycle-guarded chain above a person, the lowest common manager of
    two people, and when its answer does not depend on their order. */
module OrgManagers {
  import opened Wrappers
  import opened OrgChart
  import opened OrgSearch

  // ---- The chain above -----------------------------------------------------------

  /** `chain` lists the managers above `e`, nearest first. */
  ghost predicate ClimbsAlong(c: Chart, e: Email, chain: seq<Email>) {
    forall i: nat {:trigger chain[i]} :: i < |chain| ==> Climb(c, e, i + 1) == Some(chain[i])
  }

  ghost predicate IsAncestorChain(c: Chart, e: Email, chain: seq<Email>) {
    && ClimbsAlong(c, e, chain)
    && Distinct(chain)
    && (forall m :: m in chain <==> StrictlyManages(c, m, e))
  }

  /** Once the climb revisits the chain it never leaves it. */
  lemma {:induction false} CycleStaysInChain(c: Chart, e: Email, chain: seq<Email>, k: nat)
    requires ClimbsAlong(c, e, chain) && k >= 1
    requires Climb(c, e, |chain| + 1).Some? ==> Climb(c, e, |chain| + 1).value in chain
    requires Climb(c, e, k).Some?
    ensures Climb(c, e, k).value in chain
  {
    if k > 1 {
      ClimbPrefix(c, e, k - 1, k);
      CycleStaysInChain(c, e, chain, k - 1);
      var i: nat :| i < |chain| && chain[i] == Climb(c, e, k - 1).value;
      assert Climb(c, e, k) == c.Manager(chain[i]) == Climb(c, e, i + 2);
      if i + 1 < |chain| {
        assert chain[i + 1] in chain;
      }
    } else if |chain| > 0 {
      assert chain[0] in chain;
    }
  }

  method Ancestors(c: Chart, e: Email) returns (chain: seq<Email>)
    requires c.Valid()
    ensures IsAncestorChain(c, e, chain)
  {
    chain := [];
    var current := e;
    ghost var left := c.persons;
    while current in c.managerOf
      invariant ClimbsAlong(c, e, chain) && Distinct(chain)
      invariant Climb(c, e, |chain|) == Some(current)
      invariant left == set m | m in c.persons && m !in chain
      decreases left
    {
      var mgr := c.managerOf[current];
      if mgr in chain {
        break;
      }
      assert mgr in left;
      left := left - {mgr};
      chain := chain + [mgr];
      current := mgr;
    }
    ChainIsComplete(c, e, chain);
  }

  lemma ChainIsComplete(c: Chart, e: Email, chain: seq<Email>)
    requires ClimbsAlong(c, e, chain)
    requires Climb(c, e, |chain| + 1).Some? ==> Climb(c, e, |chain| + 1).value in chain
    ensures forall m :: m in chain <==> StrictlyManages(c, m, e)
  {
    forall m ensures m in chain <==> StrictlyManages(c, m, e) {
      if m in chain {
        var i: nat :| i < |chain| && chain[i] == m;
        assert Climb(c, e, i + 1) == Some(m);
      }
      if StrictlyManages(c, m, e) {
        var k: nat :| k >= 1 && Climb(c, e, k) == Some(m);
        CycleStaysInChain(c, e, chain, k);
      }
    }
  }

  // ---- The lowest common manager ---------------------------------------------------

  ghost predicate CommonManagerOf(c: Chart, m: Email, a: Email, b: Email) {
    StrictlyManages(c, m, a) && StrictlyManages(c, m, b)
  }

  /** `m`, `k` steps above `a`, is the first person up there who also manages `b`. */
  ghost predicate FirstCommonAt(c: Chart, a: Email, b: Email, m: Email, k: nat) {
    && k >= 1 && Climb(c, a, k) == Some(m) && StrictlyManages(c, m, b)
    && forall j: nat, x :: 1 <= j < k && Climb(c, a, j) == Some(x) ==> !StrictlyManages(c, x, b)
  }

  ghost predicate FirstCommonAbove(c: Chart, a: Email, b: Email, m: Email) {
    exists k: nat :: FirstCommonAt(c, a, b, m, k)
  }

  ghost predicate CommonManagerAnswer(c: Chart, a: Email, b: Email, r: Result<Option<Email>>) {
    if a !in c.persons then r == NotFound(a)
    else if b !in c.persons then r == NotFound(b)
    else
      && r.Ok?
      && (r.value.Some? ==> FirstCommonAbove(c, a, b, r.value.value))
      && (r.value.None? ==> forall m :: !CommonManagerOf(c, m, a, b))
  }

  method CommonManager(c: Chart, a: Email, b: Email) returns (r: Result<Option<Email>>)
    requires c.Valid()
    ensures CommonManagerAnswer(c, a, b, r)
  {
    if a !in c.persons { return NotFound(a); }
    if b !in c.persons { return NotFound(b); }
    var above := Ancestors(c, b);
    var ancestorsB := set m | m in above;
    var chain := Ancestors(c, a);
    var i := 0;
    while i < |chain|
      invariant 0 <= i <= |chain|
      invariant forall j :: 0 <= j < i ==> chain[j] !in ancestorsB
    {
      if chain[i] in ancestorsB {
        forall j: nat, x | 1 <= j < i + 1 && Climb(c, a, j) == Some(x) ensures !StrictlyManages(c, x, b) {
          assert x == chain[j - 1];
        }
        assert FirstCommonAt(c, a, b, chain[i], i + 1);
        return Ok(Some(chain[i]));
      }
      i := i + 1;
    }
    return Ok(None);
  }

  /** Two people on one chain are ordered by it. */
  lemma SameChain(c: Chart, e: Email, i: nat, j: nat, x: Email, y: Email)
    requires i < j && Climb(c, e, i) == Some(x) && Climb(c, e, j) == Some(y)
    ensures StrictlyManages(c, y, x)
  {
    ClimbCompose(c, e, i, j - i);
  }

  lemma ManagesTransitive(c: Chart, x: Email, y: Email, z: Email)
    requires StrictlyManages(c, x, y) && StrictlyManages(c, y, z)
    ensures StrictlyManages(c, x, z)
  {
    var j: nat :| j >= 1 && Climb(c, z, j) == Some(y);
    var k: nat :| k >= 1 && Climb(c, y, k) == Some(x);
    ClimbCompose(c, z, j, k);
    assert Climb(c, z, j + k) == Some(x);
  }

  /** The answer is the lowest: every other common manager is above it. */
  lemma FirstCommonIsLowest(c: Chart, a: Email, b: Email, m: Email, other: Email)
    requires FirstCommonAbove(c, a, b, m) && CommonManagerOf(c, other, a, b) && other != m
    ensures StrictlyManages(c, other, m)
  {
    var k: nat :| FirstCommonAt(c, a, b, m, k);
    var i: nat :| i >= 1 && Climb(c, a, i) == Some(other);
    SameChain(c, a, k, i, m, other);
  }

  /** On a chart without cycles both orders of asking give the same manager, and
      nobody below that manager manages both. */
  lemma CommonManagerSymmetric(c: Chart, a: Email, b: Email, ab: Result<Option<Email>>, ba: Result<Option<Email>>)
    requires Acyclic(c) && a in c.persons && b in c.persons
    requires CommonManagerAnswer(c, a, b, ab) && CommonManagerAnswer(c, b, a, ba)
    ensures ab == ba
    ensures ab.value.Some? <==> exists m :: CommonManagerOf(c, m, a, b)
    ensures ab.value.Some? ==> forall m :: CommonManagerOf(c, m, a, b) ==> !StrictlyManages(c, ab.value.value, m)
  {
    assert forall m :: CommonManagerOf(c, m, a, b) <==> CommonManagerOf(c, m, b, a);
    if ab.value.Some? {
      var m := ab.value.value;
      assert CommonManagerOf(c, m, a, b) && !OnCycle(c, m);
      var m' := ba.value.value;
      assert CommonManagerOf(c, m', b, a);
      if m != m' {
        FirstCommonIsLowest(c, a, b, m, m');
        FirstCommonIsLowest(c, b, a, m', m);
        ManagesTransitive(c, m, m', m);
        assert false;
      }
      forall o | CommonManagerOf(c, o, a, b) ensures !StrictlyManages(c, m, o) {
        if StrictlyManages(c, m, o) && o != m {
          FirstCommonIsLowest(c, a, b, m, o);
          ManagesTransitive(c, m, o, m);
          assert false;
        }
      }
    } else if ba.value.Some? {
      assert CommonManagerOf(c, ba.value.value, b, a);
      assert false;
    }
  }

  // ---- On charts with cycles -------------------------------------------------------------

  /** Whoever is above a person on a cycle is on that cycle. */
  lemma {:induction false} StaysOnCycle(c: Chart, y: Email, k: nat, x: Email)
    requires OnCycle(c, y) && Climb(c, y, k) == Some(x)
    ensures StrictlyManages(c, y, x) && OnCycle(c, x)
  {
    if k > 0 {
      ClimbPrefix(c, y, k - 1, k);
      var below := Climb(c, y, k - 1).value;
      StaysOnCycle(c, y, k - 1, below);
      var j: nat :| j >= 1 && Climb(c, below, j) == Some(y);
      ClimbFromManager(c, below, j);
      assert j == 1 ==> x == y;
      ManagesTransitive(c, x, y, x);
    }
  }

  /** `x`, `k` steps above `e`, is the first person up there on a cycle. */
  ghost predicate EntersAt(c: Chart, e: Email, x: Email, k: nat) {
    && k >= 1 && Climb(c, e, k) == Some(x) && OnCycle(c, x)
    && forall j: nat, y :: 1 <= j < k && Climb(c, e, j) == Some(y) ==> !OnCycle(c, y)
  }

  ghost predicate Enters(c: Chart, e: Email, x: Email) {
    exists k: nat :: EntersAt(c, e, x, k)
  }

  lemma EntryIsUnique(c: Chart, e: Email, x: Email, y: Email)
    requires Enters(c, e, x) && Enters(c, e, y)
    ensures x == y
  {
    var i: nat :| EntersAt(c, e, x, i);
    var j: nat :| EntersAt(c, e, y, j);
    assert i == j;
  }

  /** Where all common managers are on cycles, the answer is where the climb meets one. */
  lemma FirstCommonIsEntry(c: Chart, a: Email, b: Email, m: Email)
    requires FirstCommonAbove(c, a, b, m)
    requires forall o :: CommonManagerOf(c, o, a, b) ==> OnCycle(c, o)
    ensures Enters(c, a, m)
  {
    var k: nat :| FirstCommonAt(c, a, b, m, k);
    assert CommonManagerOf(c, m, a, b);
    forall j: nat, y | 1 <= j < k && Climb(c, a, j) == Some(y) ensures !OnCycle(c, y) {
      if OnCycle(c, y) {
        ClimbCompose(c, a, j, k - j);
        StaysOnCycle(c, y, k - j, m);
        ManagesTransitive(c, y, m, b);
        assert false;
      }
    }
    assert EntersAt(c, a, m, k);
  }

  /** A common manager off every cycle makes the answer the same both ways. */
  lemma OffCycleDecides(c: Chart, a: Email, b: Email, m: Email, m': Email, o: Email)
    requires FirstCommonAbove(c, a, b, m) && FirstCommonAbove(c, b, a, m')
    requires CommonManagerOf(c, o, a, b) && !OnCycle(c, o)
    ensures m == m'
  {
    if m != m' {
      FirstCommonIsLowest(c, a, b, m, m');
      FirstCommonIsLowest(c, b, a, m', m);
      ManagesTransitive(c, m, m', m);
      FirstCommonIsLowest(c, a, b, m, o);
      var k: nat :| k >= 1 && Climb(c, m, k) == Some(o);
      StaysOnCycle(c, m, k, o);
    }
  }

  /** On every chart: asking in either order gives one answer if and only if the two have
      no common manager, or one that is off every cycle, or their climbs first meet a
      cycle at the same person. */
  lemma SymmetricExactly(c: Chart, a: Email, b: Email, ab: Result<Option<Email>>, ba: Result<Option<Email>>)
    requires a in c.persons && b in c.persons
    requires CommonManagerAnswer(c, a, b, ab) && CommonManagerAnswer(c, b, a, ba)
    ensures ab == ba <==>
      || (forall m :: !CommonManagerOf(c, m, a, b))
      || (exists m :: CommonManagerOf(c, m, a, b) && !OnCycle(c, m))
      || (exists x :: Enters(c, a, x) && Enters(c, b, x))
  {
    assert forall m :: CommonManagerOf(c, m, a, b) <==> CommonManagerOf(c, m, b, a);
    if o :| CommonManagerOf(c, o, a, b) {
      assert ab.value.Some? && ba.value.Some?;
      var m, m' := ab.value.value, ba.value.value;
      if off :| CommonManagerOf(c, off, a, b) && !OnCycle(c, off) {
        OffCycleDecides(c, a, b, m, m', off);
      } else {
        FirstCommonIsEntry(c, a, b, m);
        FirstCommonIsEntry(c, b, a, m');
        if x :| Enters(c, a, x) && Enters(c, b, x) {
          EntryIsUnique(c, a, x, m);
          EntryIsUnique(c, b, x, m');
        }
      }
    } else {
      NoneIsNone(c, a, b, ab);
      NoneIsNone(c, b, a, ba);
    }
  }

  lemma NoneIsNone(c: Chart, a: Email, b: Email, r: Result<Option<Email>>)
    requires a in c.persons && b in c.persons && CommonManagerAnswer(c, a, b, r)
    ensures r.value.Some? ==> CommonManagerOf(c, r.value.value, a, b)
  {
  }

  /** On a cyclic chart the two orders can disagree. */
  lemma CommonManagerAsymmetricOnCycle(ab: Result<Option<Email>>, ba: Result<Option<Email>>)
    requires var c := CrossedChart(); CommonManagerAnswer(c, "a", "b", ab) && CommonManagerAnswer(c, "b", "a", ba)
    ensures ab == Ok(Some("x")) && ba == Ok(Some("y"))
  {
    var c := CrossedChart();
    assert Climb(c, "a", 1) == Some("x") && Climb(c, "b", 1) == Some("y");
    assert Climb(c, "b", 2) == Some("x");
    assert Climb(c, "a", 2) == Some("y");
    assert CommonManagerOf(c, "x", "a", "b") && CommonManagerOf(c, "y", "b", "a");
    var k: nat :| FirstCommonAt(c, "a", "b", ab.value.value, k);
    var l: nat :| FirstCommonAt(c, "b", "a", ba.value.value, l);
    assert k == 1 && l == 1;
  }

  /** `a` and `b` report to `x` and `y`, who report to each other. */
  function CrossedChart(): Chart {
    Chart({"a", "b", "x", "y"},
          map["a" := "x", "b" := "y", "x" := "y", "y" := "x"],
          map["x" := ["a", "y"], "y" := ["b", "x"]])
  }
}
