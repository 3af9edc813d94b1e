/** How the org-chart answers agree with each other: a shortest reporting path
    climbs to one peak and descends, on a chart without cycles it is the only
    shortest one, and its peak is the lowest common manager. */
module OrgPaths {
  import opened Wrappers
  import opened OrgChart
  import opened OrgSearch
  import opened OrgManagers

  /** `p` climbs `i` managers above `a`, then descends to `b`. */
  ghost predicate Mountain(c: Chart, p: seq<Email>, a: Email, b: Email, i: nat) {
    && i < |p|
    && (forall k: nat {:trigger Climb(c, a, k)} :: k <= i ==> Climb(c, a, k) == Some(p[k]))
    && (forall k: nat {:trigger Climb(c, b, k)} :: k < |p| - i ==> Climb(c, b, k) == Some(p[|p| - 1 - k]))
  }

  lemma PrefixIsShortest(c: Chart, p: seq<Email>, a: Email, b: Email)
    requires Shortest(c, p, a, b) && |p| >= 2
    ensures Shortest(c, p[..|p| - 1], a, p[|p| - 2]) && Linked(c, p[|p| - 2], b)
  {
    var u, init := p[|p| - 2], p[..|p| - 1];
    assert IsWalk(c, init, a, u);
    assert Linked(c, p[|p| - 1 - 1], p[|p| - 1]);
    forall q | IsWalk(c, q, a, u) ensures |q| >= |init| {
      WalkExtended(c, q, a, u, b);
    }
  }

  /** A peak stays the peak when the path goes one report further down. */
  lemma DescendOne(c: Chart, p: seq<Email>, a: Email, b: Email, i: nat)
    requires |p| >= 2 && p[|p| - 1] == b && c.Manager(b) == Some(p[|p| - 2])
    requires Mountain(c, p[..|p| - 1], a, p[|p| - 2], i)
    ensures Mountain(c, p, a, b, i)
  {
    var init, u := p[..|p| - 1], p[|p| - 2];
    forall k: nat | k < |p| - i ensures Climb(c, b, k) == Some(p[|p| - 1 - k]) {
      if k > 0 {
        assert Climb(c, b, 0) == Some(b) && Climb(c, b, 1) == Some(u);
        ClimbCompose(c, b, 1, k - 1);
        assert Climb(c, u, k - 1) == Some(init[|init| - 1 - (k - 1)]);
      }
    }
    forall k: nat | k <= i ensures Climb(c, a, k) == Some(p[k]) {
      assert Climb(c, a, k) == Some(init[k]);
    }
  }

  /** A path that only climbed so far may climb on. */
  lemma ClimbOne(c: Chart, p: seq<Email>, a: Email, b: Email)
    requires |p| >= 2 && p[|p| - 1] == b && c.Manager(p[|p| - 2]) == Some(b)
    requires Mountain(c, p[..|p| - 1], a, p[|p| - 2], |p| - 2)
    ensures Mountain(c, p, a, b, |p| - 1)
  {
    var init := p[..|p| - 1];
    assert Climb(c, a, |p| - 2) == Some(init[|p| - 2]);
    forall k: nat | k <= |p| - 1 ensures Climb(c, a, k) == Some(p[k]) {
      if k < |p| - 1 {
        assert Climb(c, a, k) == Some(init[k]);
      }
    }
  }

  /** A shortest path never descends and then climbs again. */
  lemma {:induction false} ShortestIsMountain(c: Chart, p: seq<Email>, a: Email, b: Email) returns (i: nat)
    requires Shortest(c, p, a, b)
    ensures Mountain(c, p, a, b, i)
    decreases |p|
  {
    i := 0;
    if |p| > 1 {
      var u, init := p[|p| - 2], p[..|p| - 1];
      PrefixIsShortest(c, p, a, b);
      i := ShortestIsMountain(c, init, a, u);
      if c.Manager(b) == Some(u) {
        DescendOne(c, p, a, b, i);
      } else if i == |p| - 2 {
        ClimbOne(c, p, a, b);
        i := |p| - 1;
      } else {
        assert Climb(c, u, 0) == Some(u) && Climb(c, u, 1) == Some(init[|init| - 2]);
        assert b == p[|p| - 3];
        WalkTaken(c, p, a, b, |p| - 3);
        assert false;
      }
    }
  }

  /** Climbing `i` from one side and `j` from the other to one person is a walk. */
  lemma MountainWalk(c: Chart, a: Email, b: Email, i: nat, j: nat, peak: Email) returns (p: seq<Email>)
    requires Climb(c, a, i) == Some(peak) == Climb(c, b, j)
    ensures IsWalk(c, p, a, b) && |p| == i + j + 1
  {
    var up := ClimbWalk(c, a, i, peak);
    var down := ClimbWalk(c, b, j, peak);
    WalkReversed(c, down, b, peak);
    var back := Reversed(down);
    p := up + back[1..];
    forall k | 0 < k < |p| ensures Linked(c, p[k - 1], p[k]) {
      if k >= |up| {
        assert p[k] == back[k - |up| + 1];
        assert p[k - 1] == back[k - |up|];
      }
    }
    assert p[|p| - 1] == b;
  }

  lemma {:induction false} ClimbWalk(c: Chart, a: Email, i: nat, peak: Email) returns (p: seq<Email>)
    requires Climb(c, a, i) == Some(peak)
    ensures IsWalk(c, p, a, peak) && |p| == i + 1
  {
    if i == 0 {
      p := [a];
    } else {
      var below := Climb(c, a, i - 1).value;
      p := ClimbWalk(c, a, i - 1, below);
      WalkExtended(c, p, a, below, peak);
      p := p + [peak];
    }
  }

  /** Two equally long mountains between the same people have the same peak height. */
  lemma SamePeak(c: Chart, p: seq<Email>, q: seq<Email>, a: Email, b: Email, i: nat, j: nat)
    requires Acyclic(c) && |p| == |q| && i <= j
    requires Mountain(c, p, a, b, i) && Mountain(c, q, a, b, j)
    ensures i == j
  {
    if i < j {
      var x, y := p[i], q[j];
      assert Climb(c, a, i) == Some(x) && Climb(c, a, j) == Some(y);
      assert Climb(c, b, |p| - 1 - i) == Some(x) && Climb(c, b, |p| - 1 - j) == Some(y);
      SameChain(c, a, i, j, x, y);
      SameChain(c, b, |p| - 1 - j, |p| - 1 - i, y, x);
      assert !OnCycle(c, x);
      ManagesTransitive(c, x, y, x);
      assert false;
    }
  }

  lemma EqualMountains(c: Chart, p: seq<Email>, q: seq<Email>, a: Email, b: Email, i: nat)
    requires |p| == |q| && Mountain(c, p, a, b, i) && Mountain(c, q, a, b, i)
    ensures p == q
  {
    forall k | 0 <= k < |p| ensures p[k] == q[k] {
      if k <= i {
        assert Climb(c, a, k) == Some(p[k]);
      } else {
        assert Climb(c, b, |p| - 1 - k) == Some(p[k]);
        assert Climb(c, b, |q| - 1 - k) == Some(q[k]);
      }
    }
  }

  /** Without cycles there is one shortest path, so any two answers coincide. */
  lemma ShortestIsUnique(c: Chart, p: seq<Email>, q: seq<Email>, a: Email, b: Email)
    requires Acyclic(c) && Shortest(c, p, a, b) && Shortest(c, q, a, b)
    ensures p == q
  {
    var i := ShortestIsMountain(c, p, a, b);
    var j := ShortestIsMountain(c, q, a, b);
    if i <= j {
      SamePeak(c, p, q, a, b, i, j);
    } else {
      SamePeak(c, q, p, a, b, j, i);
    }
    EqualMountains(c, p, q, a, b, i);
  }

  /** Asking in the other direction gives the same people in reverse. */
  lemma ReversedPath(c: Chart, a: Email, b: Email,
                     there: Result<Option<seq<Email>>>, back: Result<Option<seq<Email>>>)
    requires Acyclic(c) && a in c.persons && b in c.persons
    requires PathAnswer(c, a, b, there) && PathAnswer(c, b, a, back)
    ensures there.value.Some? <==> back.value.Some?
    ensures there.value.Some? ==> back.value.value == Reversed(there.value.value)
  {
    PathLengthIsSymmetric(c, a, b, there, back);
    if there.value.Some? {
      var p, q := there.value.value, back.value.value;
      WalkReversed(c, p, a, b);
      assert Shortest(c, Reversed(p), b, a);
      ShortestIsUnique(c, Reversed(p), q, b, a);
    }
  }

  ghost predicate TurnsAt(c: Chart, p: seq<Email>, a: Email, b: Email, m: Email) {
    exists i: nat :: 0 < i < |p| - 1 && Mountain(c, p, a, b, i) && p[i] == m
  }

  /** Where the shortest path turns, it turns at the lowest common manager: either
      one of the two is above the other and the path only climbs or only descends,
      or its one peak is what the common-manager query answers. */
  lemma PathTurnsAtCommonManager(c: Chart, a: Email, b: Email,
                                 path: Result<Option<seq<Email>>>, mgr: Result<Option<Email>>)
    requires Acyclic(c) && a in c.persons && b in c.persons && a != b
    requires PathAnswer(c, a, b, path) && path.value.Some?
    requires CommonManagerAnswer(c, a, b, mgr)
    ensures StrictlyManages(c, a, b) || StrictlyManages(c, b, a)
         || (mgr.value.Some? && TurnsAt(c, path.value.value, a, b, mgr.value.value))
  {
    var p := path.value.value;
    var i := ShortestIsMountain(c, p, a, b);
    var j := |p| - 1 - i;
    var peak := p[i];
    assert Climb(c, a, i) == Some(peak) && Climb(c, b, j) == Some(peak);
    if i > 0 && j > 0 {
      PeakIsFirst(c, p, a, b, i);
      assert CommonManagerOf(c, peak, a, b);
      var m := mgr.value.value;
      var k: nat :| FirstCommonAt(c, a, b, m, k);
      assert k == i;
    }
  }

  lemma PeakIsFirst(c: Chart, p: seq<Email>, a: Email, b: Email, i: nat)
    requires Acyclic(c) && Shortest(c, p, a, b) && Mountain(c, p, a, b, i) && 0 < i < |p| - 1
    ensures FirstCommonAt(c, a, b, p[i], i)
  {
    var j, peak := |p| - 1 - i, p[i];
    assert Climb(c, a, i) == Some(peak) && Climb(c, b, j) == Some(peak);
    forall k: nat, x | 1 <= k < i && Climb(c, a, k) == Some(x) ensures !StrictlyManages(c, x, b) {
      if StrictlyManages(c, x, b) {
        var l: nat :| l >= 1 && Climb(c, b, l) == Some(x);
        if l < j {
          var q := MountainWalk(c, a, b, k, l, x);
          assert false;
        } else {
          SameChain(c, a, k, i, x, peak);
          assert !OnCycle(c, x);
          if l > j {
            SameChain(c, b, j, l, peak, x);
            ManagesTransitive(c, x, peak, x);
          }
          assert false;
        }
      }
    }
  }
}
