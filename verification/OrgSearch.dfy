/** The two breadth-first searches over reporting links: the shortest reporting
    path between two people, and everyone within a number of hops. */
module OrgSearch {
  import opened Wrappers
  import opened OrgChart

  /** `NotFound` names an unknown person; `Internal` is the "broken reporting
      path reconstruction" failure. */
  datatype Result<+T> = Ok(value: T) | NotFound(who: Email) | Internal

  // ---- Distances -------------------------------------------------------------

  /** The shortest walk from `from` to `v` takes exactly `hops` links. */
  ghost predicate IsDistance(c: Chart, from: Email, v: Email, hops: nat) {
    && (exists p :: IsWalk(c, p, from, v) && |p| == hops + 1)
    && AtLeast(c, from, v, hops)
  }

  lemma WalkExtended(c: Chart, p: seq<Email>, from: Email, u: Email, x: Email)
    requires IsWalk(c, p, from, u) && Linked(c, u, x)
    ensures IsWalk(c, p + [x], from, x)
  {
  }

  lemma WalkTaken(c: Chart, p: seq<Email>, from: Email, to: Email, n: nat)
    requires IsWalk(c, p, from, to) && n < |p|
    ensures IsWalk(c, p[..n + 1], from, p[n])
  {
  }

  // ---- The search invariant ----------------------------------------------------

  predicate Within(hops: nat, limit: Option<nat>) {
    limit.None? || hops < limit.value
  }

  /** `dist` holds the true distance of everyone reached so far, `done` the people
      already taken off the queue, `frontier` those still on it, nearest first and
      at most one hop apart. People within the limit are only done once all their
      links have been followed. */
  ghost predicate Searching(c: Chart, from: Email, limit: Option<nat>,
                            dist: map<Email, nat>, done: set<Email>, frontier: seq<Email>) {
    && from in dist && dist.Keys <= c.persons && done <= dist.Keys
    && (forall v <- dist :: IsDistance(c, from, v, dist[v]))
    && (forall v, x :: v in done && Within(dist[v], limit) && Linked(c, v, x) ==> x in dist)
    && Distinct(frontier)
    && (forall v :: v in frontier <==> v in dist && v !in done)
    && NearestFirst(dist, frontier)
  }

  ghost predicate NearestFirst(dist: map<Email, nat>, frontier: seq<Email>)
    requires forall v <- frontier :: v in dist
  {
    forall i, j :: 0 <= i <= j < |frontier| ==> dist[frontier[i]] <= dist[frontier[j]] <= dist[frontier[0]] + 1
  }

  lemma SearchStarts(c: Chart, from: Email, limit: Option<nat>)
    requires from in c.persons
    ensures Searching(c, from, limit, map[from := 0], {}, [from])
  {
    assert IsWalk(c, [from], from, from);
  }

  /** A walk from someone reached to someone not reached leaves the reached people
      through a link that has not been followed yet. */
  lemma {:induction false} FirstEscape(c: Chart, p: seq<Email>, from: Email, to: Email, reached: set<Email>)
    returns (i: nat)
    requires IsWalk(c, p, from, to) && from in reached && to !in reached
    ensures i + 1 < |p| && p[i] in reached && p[i + 1] !in reached
    decreases |p|
  {
    var n := |p| - 2;
    assert |p| > 1;
    if p[n] in reached {
      i := n;
    } else {
      WalkTaken(c, p, from, to, n);
      i := FirstEscape(c, p[..n + 1], from, p[n], reached);
    }
  }

  /** So nobody unreached can be nearer than the person at the head of the queue. */
  lemma EscapeIsFar(c: Chart, from: Email, limit: Option<nat>, dist: map<Email, nat>, done: set<Email>,
                    frontier: seq<Email>, p: seq<Email>, to: Email, hops: nat)
    requires Searching(c, from, limit, dist, done, frontier)
    requires IsWalk(c, p, from, to) && to !in dist
    requires frontier != [] ==> hops <= dist[frontier[0]]
    requires limit.Some? ==> hops <= limit.value
    requires limit.Some? || frontier != []
    ensures |p| > hops + 1
  {
    var i := FirstEscape(c, p, from, to, dist.Keys);
    var u := p[i];
    assert Linked(c, p[i], p[i + 1]);
    WalkTaken(c, p, from, to, i);
    assert |p[..i + 1]| > dist[u];
    if u !in done {
      var k :| 0 <= k < |frontier| && frontier[k] == u;
      assert dist[frontier[0]] <= dist[frontier[k]];
    }
  }

  lemma NewDistance(c: Chart, from: Email, limit: Option<nat>, dist: map<Email, nat>, done: set<Email>,
                    frontier: seq<Email>, x: Email)
    requires Searching(c, from, limit, dist, done, frontier)
    requires frontier != [] && frontier[0] in dist && Within(dist[frontier[0]], limit)
    requires x !in dist && Linked(c, frontier[0], x)
    ensures IsDistance(c, from, x, dist[frontier[0]] + 1)
  {
    var u := frontier[0];
    var p :| IsWalk(c, p, from, u) && |p| == dist[u] + 1;
    WalkExtended(c, p, from, u, x);
    forall q | IsWalk(c, q, from, x) ensures |q| > dist[u] + 1 {
      EscapeIsFar(c, from, limit, dist, done, frontier, q, x, dist[u]);
    }
  }

  lemma Discovered(c: Chart, from: Email, limit: Option<nat>, dist: map<Email, nat>, done: set<Email>,
                   frontier: seq<Email>, x: Email)
    requires Searching(c, from, limit, dist, done, frontier)
    requires frontier != [] && frontier[0] in dist && Within(dist[frontier[0]], limit)
    requires x !in dist && x in c.persons && Linked(c, frontier[0], x)
    ensures Searching(c, from, limit, dist[x := dist[frontier[0]] + 1], done, frontier + [x])
  {
    NewDistance(c, from, limit, dist, done, frontier, x);
    hide IsDistance, Linked;
    var u, grown := frontier[0], frontier + [x];
    var dist' := dist[x := dist[u] + 1];
    assert u in dist;
    forall v ensures v in grown <==> v in dist' && v !in done {
      assert v in grown <==> v in frontier || v == x;
    }
    forall i, j | 0 <= i <= j < |grown|
      ensures dist'[grown[i]] <= dist'[grown[j]] <= dist'[grown[0]] + 1
    {
      assert i < |frontier| ==> grown[i] == frontier[i] && grown[i] in frontier;
      assert j < |frontier| ==> grown[j] == frontier[j] && grown[j] in frontier;
    }
  }

  lemma HeadIsReached(c: Chart, from: Email, limit: Option<nat>, dist: map<Email, nat>, done: set<Email>,
                      frontier: seq<Email>)
    requires Searching(c, from, limit, dist, done, frontier) && frontier != []
    ensures frontier[0] in dist && frontier[0] in c.persons
  {
    assert frontier[0] in frontier;
  }

  lemma Finished(c: Chart, from: Email, limit: Option<nat>, dist: map<Email, nat>, done: set<Email>,
                 frontier: seq<Email>)
    requires Searching(c, from, limit, dist, done, frontier) && frontier != [] && frontier[0] in dist
    requires Within(dist[frontier[0]], limit) ==> forall x :: Linked(c, frontier[0], x) ==> x in dist
    ensures frontier[0] !in done
    ensures Searching(c, from, limit, dist, done + {frontier[0]}, frontier[1..])
  {
    hide IsDistance, Linked;
    assert frontier == [frontier[0]] + frontier[1..];
  }

  lemma NeighborsLoaded(c: Chart, e: Email)
    requires c.Valid() && e in c.persons
    ensures forall x <- Neighbors(c, e) :: x in c.persons
  {
  }

  // ---- The shortest reporting path ---------------------------------------------

  /** Each predecessor is one link nearer to `from`. */
  ghost predicate Predecessors(c: Chart, from: Email, dist: map<Email, nat>, prev: map<Email, Email>) {
    && prev.Keys == dist.Keys - {from}
    && forall v <- prev :: prev[v] in dist && dist[v] == dist[prev[v]] + 1 && Linked(c, prev[v], v)
  }

  lemma NoPredecessors(c: Chart, from: Email)
    ensures Predecessors(c, from, map[from := 0], map[])
  {
  }

  lemma PredecessorsGrow(c: Chart, from: Email, dist: map<Email, nat>, prev: map<Email, Email>, u: Email, x: Email)
    requires Predecessors(c, from, dist, prev) && from in dist && u in dist && x !in dist && Linked(c, u, x)
    ensures Predecessors(c, from, dist[x := dist[u] + 1], prev[x := u])
  {
  }

  /** What following predecessors needs of them. */
  lemma PredecessorsDescend(c: Chart, from: Email, dist: map<Email, nat>, prev: map<Email, Email>)
    requires Predecessors(c, from, dist, prev)
    ensures forall v <- dist :: v == from || v in prev
    ensures forall v <- prev :: v in dist && prev[v] in dist && dist[prev[v]] < dist[v]
  {
  }

  /** Follow predecessors back from `to`. `rank` only serves termination. */
  method ReconstructPath(prev: map<Email, Email>, from: Email, to: Email, ghost rank: map<Email, nat>)
    returns (r: Result<seq<Email>>)
    requires to in rank
    requires forall v <- prev :: v in rank && prev[v] in rank && rank[prev[v]] < rank[v]
    ensures !r.NotFound?
    ensures r.Internal? ==> exists v :: v in rank && v != from && v !in prev
    ensures r.Ok? ==> |r.value| > 0 && r.value[0] == from && r.value[|r.value| - 1] == to
    ensures r.Ok? ==> forall i :: 0 < i < |r.value| ==> r.value[i] in prev && prev[r.value[i]] == r.value[i - 1]
  {
    var chain := [to];
    var cursor := to;
    while cursor != from
      invariant cursor in rank && |chain| > 0 && chain[0] == to && chain[|chain| - 1] == cursor
      invariant forall i {:trigger chain[i]} :: 0 <= i < |chain| - 1 ==>
                  chain[i] in prev && prev[chain[i]] == chain[i + 1]
      decreases rank[cursor]
    {
      ghost var was := chain;
      if cursor !in prev {
        return Internal;
      }
      chain := chain + [prev[cursor]];
      cursor := prev[cursor];
      assert forall i :: 0 <= i < |was| ==> chain[i] == was[i];
    }
    var steps := Reversed(chain);
    forall i | 0 < i < |steps| ensures steps[i] in prev && prev[steps[i]] == steps[i - 1] {
      assert steps[i] == chain[|chain| - i - 1] && steps[i - 1] == chain[|chain| - i];
    }
    return Ok(steps);
  }

  /** A chain of predecessors is a walk as long as its end is far. */
  lemma {:induction false} ChainIsWalk(c: Chart, from: Email, dist: map<Email, nat>, prev: map<Email, Email>,
                                       p: seq<Email>, n: nat)
    requires Predecessors(c, from, dist, prev) && from in dist && dist[from] == 0
    requires n < |p| && p[0] == from
    requires forall i :: 0 < i < |p| ==> p[i] in prev && prev[p[i]] == p[i - 1]
    ensures p[n] in dist && dist[p[n]] == n
    ensures forall i :: 0 < i <= n ==> Linked(c, p[i - 1], p[i])
  {
    if n > 0 {
      ChainIsWalk(c, from, dist, prev, p, n - 1);
    }
  }

  /** What a caller of the reporting path may rely on. */
  ghost predicate PathAnswer(c: Chart, from: Email, to: Email, r: Result<Option<seq<Email>>>) {
    if from !in c.persons then r == NotFound(from)
    else if to !in c.persons then r == NotFound(to)
    else
      && r.Ok?
      && (r.value.Some? ==> Shortest(c, r.value.value, from, to))
      && (r.value.None? ==> !Connected(c, from, to))
  }

  lemma TrivialPath(c: Chart, from: Email)
    ensures Shortest(c, [from], from, from)
  {
  }

  lemma NobodyBeyond(c: Chart, from: Email, dist: map<Email, nat>, done: set<Email>, to: Email)
    requires Searching(c, from, None, dist, done, []) && to !in dist
    ensures !Connected(c, from, to)
  {
    if p :| IsWalk(c, p, from, to) {
      var i := FirstEscape(c, p, from, to, dist.Keys);
      assert false;
    }
  }

  lemma FoundPath(c: Chart, from: Email, to: Email, dist: map<Email, nat>, done: set<Email>,
                  frontier: seq<Email>, prev: map<Email, Email>, p: seq<Email>)
    requires Searching(c, from, None, dist, done, frontier) && to in dist
    requires Predecessors(c, from, dist, prev)
    requires |p| > 0 && p[0] == from && p[|p| - 1] == to
    requires forall i :: 0 < i < |p| ==> p[i] in prev && prev[p[i]] == p[i - 1]
    ensures Shortest(c, p, from, to)
  {
    assert IsWalk(c, [from], from, from);
    assert dist[from] == 0;
    ChainIsWalk(c, from, dist, prev, p, |p| - 1);
  }

  method ReportingPath(c: Chart, from: Email, to: Email) returns (r: Result<Option<seq<Email>>>)
    requires c.Valid()
    ensures PathAnswer(c, from, to, r)
  {
    hide Searching, IsWalk, c.Valid, Predecessors;
    if from !in c.persons { return NotFound(from); }
    if to !in c.persons { return NotFound(to); }
    if from == to {
      TrivialPath(c, from);
      return Ok(Some([from]));
    }
    var prev: map<Email, Email> := map[];
    var visited := {from};
    var queue := [from];
    ghost var dist: map<Email, nat> := map[from := 0];
    ghost var done: set<Email> := {};
    SearchStarts(c, from, None);
    NoPredecessors(c, from);
    while queue != []
      invariant Searching(c, from, None, dist, done, queue)
      invariant Predecessors(c, from, dist, prev)
      invariant visited == dist.Keys && to !in visited && from in visited
      decreases c.persons - done
    {
      var current := queue[0];
      var rest := queue[1..];
      HeadIsReached(c, from, None, dist, done, queue);
      var neighbors := Neighbors(c, current);
      NeighborsLoaded(c, current);
      var j := 0;
      assert [current] + rest == queue;
      while j < |neighbors|
        invariant 0 <= j <= |neighbors|
        invariant Searching(c, from, None, dist, done, [current] + rest)
        invariant Predecessors(c, from, dist, prev)
        invariant visited == dist.Keys && to !in visited && {from, current} <= visited
        invariant forall i :: 0 <= i < j ==> neighbors[i] in dist
      {
        var next := neighbors[j];
        assert next in neighbors;
        if next !in visited {
          Discovered(c, from, None, dist, done, [current] + rest, next);
          PredecessorsGrow(c, from, dist, prev, current, next);
          visited := visited + {next};
          prev := prev[next := current];
          dist := dist[next := dist[current] + 1];
          assert [current] + (rest + [next]) == [current] + rest + [next];
          rest := rest + [next];
          if next == to {
            PredecessorsDescend(c, from, dist, prev);
            var path := ReconstructPath(prev, from, to, dist);
            if path.Ok? {
              FoundPath(c, from, to, dist, done, [current] + rest, prev, path.value);
            }
            return match path case Ok(p) => Ok(Some(p)) case NotFound(w) => NotFound(w) case Internal => Internal;
          }
        }
        j := j + 1;
      }
      Finished(c, from, None, dist, done, [current] + rest);
      assert ([current] + rest)[1..] == rest;
      queue := rest;
      done := done + {current};
    }
    NobodyBeyond(c, from, dist, done, to);
    return Ok(None);
  }

  /** The answer does not depend on which end is asked from, up to direction. */
  lemma PathLengthIsSymmetric(c: Chart, a: Email, b: Email,
                              up: Result<Option<seq<Email>>>, down: Result<Option<seq<Email>>>)
    requires a in c.persons && b in c.persons
    requires PathAnswer(c, a, b, up) && PathAnswer(c, b, a, down)
    ensures up.value.Some? <==> down.value.Some?
    ensures up.value.Some? ==> |up.value.value| == |down.value.value|
  {
    if up.value.Some? {
      WalkReversed(c, up.value.value, a, b);
    }
    if down.value.Some? {
      WalkReversed(c, down.value.value, b, a);
    }
  }

  // ---- Everyone within some hops ------------------------------------------------

  datatype Neighborhood = Neighborhood(center: Email, depth: nat, members: set<Email>, edges: set<(Email, Email)>)

  ghost predicate Reachable(c: Chart, from: Email, x: Email, depth: nat) {
    exists p :: IsWalk(c, p, from, x) && |p| <= depth + 1
  }

  ghost predicate NeighborhoodAnswer(c: Chart, center: Email, depth: nat, r: Result<Neighborhood>) {
    if center !in c.persons then r == NotFound(center)
    else
      && r.Ok? && r.value.center == center && r.value.depth == depth
      && (forall x :: x in r.value.members <==> Reachable(c, center, x, depth))
      && (forall a, b :: (a, b) in r.value.edges <==>
            c.Manager(a) == Some(b) && Reachable(c, center, a, depth) && Reachable(c, center, b, depth))
  }

  /** Reached within the limit, and only so. */
  lemma BallIsExact(c: Chart, from: Email, depth: nat, dist: map<Email, nat>, done: set<Email>, x: Email)
    requires Searching(c, from, Some(depth), dist, done, [])
    requires forall v <- dist :: dist[v] <= depth
    ensures x in dist <==> Reachable(c, from, x, depth)
  {
    if x in dist {
      var p :| IsWalk(c, p, from, x) && |p| == dist[x] + 1;
    } else {
      forall p | IsWalk(c, p, from, x) ensures |p| > depth + 1 {
        EscapeIsFar(c, from, Some(depth), dist, done, [], p, x, depth);
      }
    }
  }

  method OrgNeighborhood(c: Chart, center: Email, depth: nat) returns (r: Result<Neighborhood>)
    requires c.Valid()
    ensures NeighborhoodAnswer(c, center, depth, r)
  {
    hide Searching, IsWalk, c.Valid, Reachable;
    if center !in c.persons { return NotFound(center); }
    var dist: map<Email, nat> := map[center := 0];
    var queue := [(center, 0)];
    ghost var frontier := [center];
    ghost var done: set<Email> := {};
    SearchStarts(c, center, Some(depth));
    while queue != []
      invariant |queue| == |frontier|
      invariant forall i :: 0 <= i < |queue| ==>
                  queue[i].0 == frontier[i] && frontier[i] in dist && queue[i].1 == dist[frontier[i]]
      invariant Searching(c, center, Some(depth), dist, done, frontier)
      invariant forall v <- dist :: dist[v] <= depth
      decreases c.persons - done
    {
      var (node, d) := queue[0];
      HeadIsReached(c, center, Some(depth), dist, done, frontier);
      queue := queue[1..];
      ghost var rest := frontier[1..];
      assert [node] + rest == frontier;
      if d != depth {
        var neighbors := Neighbors(c, node);
        NeighborsLoaded(c, node);
        var j := 0;
        while j < |neighbors|
          invariant 0 <= j <= |neighbors|
          invariant |queue| == |rest|
          invariant forall i :: 0 <= i < |queue| ==>
                      queue[i].0 == rest[i] && rest[i] in dist && queue[i].1 == dist[rest[i]]
          invariant node in dist && dist[node] == d
          invariant Searching(c, center, Some(depth), dist, done, [node] + rest)
          invariant forall v <- dist :: dist[v] <= depth
          invariant forall i :: 0 <= i < j ==> neighbors[i] in dist
        {
          var next := neighbors[j];
          assert next in neighbors;
          if next !in dist {
            Discovered(c, center, Some(depth), dist, done, [node] + rest, next);
            dist := dist[next := d + 1];
            queue := queue + [(next, d + 1)];
            assert [node] + (rest + [next]) == [node] + rest + [next];
            rest := rest + [next];
          }
          j := j + 1;
        }
      }
      Finished(c, center, Some(depth), dist, done, [node] + rest);
      assert ([node] + rest)[1..] == rest;
      frontier := rest;
      done := done + {node};
    }
    forall x ensures x in dist <==> Reachable(c, center, x, depth) {
      BallIsExact(c, center, depth, dist, done, x);
    }
    var edges := set e | e in dist && e in c.managerOf && c.managerOf[e] in dist :: (e, c.managerOf[e]);
    return Ok(Neighborhood(center, depth, dist.Keys, edges));
  }

  /** The two searches agree: the ball of radius `depth` holds exactly the people
      whose reporting path exists and has at most `depth` hops. */
  lemma NeighborhoodAgreesWithPaths(c: Chart, center: Email, depth: nat, x: Email,
                                    hood: Result<Neighborhood>, path: Result<Option<seq<Email>>>)
    requires center in c.persons && x in c.persons
    requires NeighborhoodAnswer(c, center, depth, hood) && PathAnswer(c, center, x, path)
    ensures x in hood.value.members <==> path.value.Some? && |path.value.value| - 1 <= depth
  {
  }
}
