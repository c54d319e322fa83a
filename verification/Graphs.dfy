// Paths in a dependency graph, given as each step's list of dependencies.
module Graphs {
  import opened Seqs
  import opened Workflows

  type Edges = map<string, seq<string>>

  function Deps(edges: Edges, s: string): seq<string> {
    if s in edges then edges[s] else []
  }

  ghost predicate IsPath(edges: Edges, p: seq<string>) {
    |p| >= 1 && forall i :: 0 <= i < |p| - 1 ==> Hop(edges, p, i)
  }

  predicate Hop(edges: Edges, p: seq<string>, i: int)
    requires 0 <= i < |p| - 1
  {
    p[i + 1] in Deps(edges, p[i])
  }

  ghost predicate PathBetween(edges: Edges, p: seq<string>, a: string, b: string) {
    IsPath(edges, p) && |p| >= 2 && p[0] == a && Last(p) == b
  }

  // b is a direct or transitive dependency of a.
  ghost predicate Reaches(edges: Edges, a: string, b: string) {
    exists p :: PathBetween(edges, p, a, b)
  }

  // The same, every step after the first staying inside `within`.
  ghost predicate ReachesIn(edges: Edges, within: set<string>, a: string, b: string) {
    exists p :: PathBetween(edges, p, a, b) && forall i :: 1 <= i < |p| ==> p[i] in within
  }

  ghost predicate HasCycle(edges: Edges, nodes: seq<string>) {
    exists s :: s in nodes && Reaches(edges, s, s)
  }

  lemma ReachesDep(edges: Edges, a: string, b: string)
    requires b in Deps(edges, a)
    ensures Reaches(edges, a, b)
  {
    assert PathBetween(edges, [a, b], a, b);
  }

  lemma ReachesVia(edges: Edges, a: string, d: string, b: string)
    requires d in Deps(edges, a) && Reaches(edges, d, b)
    ensures Reaches(edges, a, b)
  {
    var p :| PathBetween(edges, p, d, b);
    var q := [a] + p;
    forall i | 0 <= i < |q| - 1
      ensures Hop(edges, q, i)
    {
      if i > 0 {
        assert Hop(edges, p, i - 1);
      }
    }
    assert PathBetween(edges, q, a, b);
  }

  lemma FirstHop(edges: Edges, a: string, b: string)
    requires Reaches(edges, a, b)
    ensures exists d :: d in Deps(edges, a) && (d == b || Reaches(edges, d, b))
  {
    var p :| PathBetween(edges, p, a, b);
    assert Hop(edges, p, 0);
    if |p| > 2 {
      PathSuffix(edges, p, 1);
      assert PathBetween(edges, p[1..], p[1], b);
    }
  }

  lemma {:induction false} DistinctFits(p: seq<string>, within: set<string>)
    requires Distinct(p) && forall x :: x in p ==> x in within
    ensures |p| <= |within|
    decreases |p|
  {
    if p != [] {
      DistinctFits(p[1..], within - {p[0]});
    }
  }

  ghost predicate BlockedIn(edges: Edges, within: set<string>, x: string) {
    exists d :: d in Deps(edges, x) && d in within
  }

  ghost predicate AllBlocked(edges: Edges, within: set<string>) {
    forall x :: x in within ==> BlockedIn(edges, within, x)
  }

  lemma PickDep(edges: Edges, within: set<string>, x: string) returns (d: string)
    requires BlockedIn(edges, within, x)
    ensures d in Deps(edges, x) && d in within
  {
    d :| d in Deps(edges, x) && d in within;
  }

  // Pigeonhole: when every step of a finite set depends on another of the set, some step of
  // it lies on a cycle inside the set.
  lemma {:induction false} WalkFindsCycle(edges: Edges, within: set<string>, p: seq<string>) returns (s: string)
    requires AllBlocked(edges, within)
    requires IsPath(edges, p) && Distinct(p) && forall x :: x in p ==> x in within
    ensures s in within && ReachesIn(edges, within, s, s)
    decreases |within| - |p|
  {
    hide IsPath, ReachesIn, BlockedIn;
    DistinctFits(p, within);
    PathNotEmpty(edges, p);
    var d := PickDep(edges, within, Last(p));
    if d in p {
      s := CloseLoop(edges, within, p, d);
    } else {
      ExtendPath(edges, p, d);
      DistinctFits(p + [d], within);
      s := WalkFindsCycle(edges, within, p + [d]);
    }
  }

  lemma PathNotEmpty(edges: Edges, p: seq<string>)
    requires IsPath(edges, p)
    ensures p != []
  {}

  lemma ExtendPath(edges: Edges, p: seq<string>, d: string)
    requires IsPath(edges, p) && d in Deps(edges, Last(p))
    ensures IsPath(edges, p + [d])
  {
    forall i | 0 <= i < |p|
      ensures Hop(edges, p + [d], i)
    {
      assert i < |p| - 1 ==> Hop(edges, p, i);
    }
  }

  lemma CloseLoop(edges: Edges, within: set<string>, p: seq<string>, d: string) returns (s: string)
    requires IsPath(edges, p) && d in p && d in Deps(edges, Last(p))
    requires forall x :: x in p ==> x in within
    ensures s in within && ReachesIn(edges, within, s, s)
  {
    hide IsPath;
    var i :| 0 <= i < |p| && p[i] == d;
    PathSuffix(edges, p, i);
    ExtendPath(edges, p[i..], d);
    var loop := p[i..] + [d];
    assert PathBetween(edges, loop, d, d);
    forall k | 1 <= k < |loop|
      ensures loop[k] in within
    {
      if k < |p| - i {
        assert loop[k] == p[i + k];
      }
    }
    s := d;
  }

  lemma PathSuffix(edges: Edges, p: seq<string>, i: nat)
    requires IsPath(edges, p) && i < |p|
    ensures IsPath(edges, p[i..])
  {
    forall k | 0 <= k < |p| - i - 1
      ensures Hop(edges, p[i..], k)
    {
      assert Hop(edges, p, i + k);
    }
  }

  lemma ReachesInDep(edges: Edges, within: set<string>, a: string, d: string)
    requires d in Deps(edges, a) && d in within
    ensures ReachesIn(edges, within, a, d)
  {
    assert PathBetween(edges, [a, d], a, d);
  }

  lemma ReachesInSnoc(edges: Edges, within: set<string>, a: string, x: string, d: string)
    requires ReachesIn(edges, within, a, x) && d in Deps(edges, x) && d in within
    ensures ReachesIn(edges, within, a, d)
  {
    hide IsPath;
    var p :| PathBetween(edges, p, a, x) && forall i :: 1 <= i < |p| ==> p[i] in within;
    ExtendPath(edges, p, d);
    assert PathBetween(edges, p + [d], a, d);
  }

  // A path that starts in a set closed under the dependencies inside `within` stays there.
  lemma {:induction false} ClosedKeeps(edges: Edges, within: set<string>, closed: set<string>, p: seq<string>)
    requires IsPath(edges, p) && p[0] in closed && forall i :: 1 <= i < |p| ==> p[i] in within
    requires forall x, d :: x in closed && d in Deps(edges, x) && d in within ==> d in closed
    ensures Last(p) in closed
    decreases |p|
  {
    if |p| > 1 {
      assert Hop(edges, p, 0);
      PathSuffix(edges, p, 1);
      ClosedKeeps(edges, within, closed, p[1..]);
    }
  }

  // If all dependencies of a inside `within` lie in a closed set without b, then a never reaches b.
  lemma ClosedAvoids(edges: Edges, within: set<string>, closed: set<string>, a: string, b: string)
    requires forall d :: d in Deps(edges, a) && d in within ==> d in closed
    requires forall x, d :: x in closed && d in Deps(edges, x) && d in within ==> d in closed
    requires b !in closed
    ensures !ReachesIn(edges, within, a, b)
  {
    forall p | PathBetween(edges, p, a, b) && forall i :: 1 <= i < |p| ==> p[i] in within
      ensures false
    {
      assert Hop(edges, p, 0);
      PathSuffix(edges, p, 1);
      ClosedKeeps(edges, within, closed, p[1..]);
    }
  }
}
