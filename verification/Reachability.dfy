/** Paths in a directed graph given by the successors of each vertex. */
module Reachability {

  type Graph = map<string, set<string>>

  /** Reading a missing key of a Go map yields the empty map. */
  function Succ(adj: Graph, v: string): set<string> {
    if v in adj then adj[v] else {}
  }

  ghost predicate Edge(adj: Graph, p: seq<string>, i: nat)
    requires i + 1 < |p|
  {
    p[i + 1] in Succ(adj, p[i])
  }

  ghost predicate IsPath(adj: Graph, p: seq<string>) {
    |p| > 0 && forall i :: 0 <= i < |p| - 1 ==> Edge(adj, p, i)
  }

  ghost predicate PathBetween(adj: Graph, p: seq<string>, x: string, y: string) {
    IsPath(adj, p) && p[0] == x && p[|p| - 1] == y
  }

  /** y can be reached from x by zero or more edges. */
  ghost predicate Reach(adj: Graph, x: string, y: string) {
    exists p :: PathBetween(adj, p, x, y)
  }

  ghost predicate Closed(adj: Graph, s: set<string>) {
    forall x, y :: x in s && y in Succ(adj, x) ==> y in s
  }

  lemma ReachSelf(adj: Graph, x: string)
    ensures Reach(adj, x, x)
  {
    assert PathBetween(adj, [x], x, x);
  }

  lemma ReachEdge(adj: Graph, x: string, y: string)
    requires y in Succ(adj, x)
    ensures Reach(adj, x, y)
  {
    assert PathBetween(adj, [x, y], x, y);
  }

  lemma ReachTransitive(adj: Graph, x: string, y: string, z: string)
    requires Reach(adj, x, y) && Reach(adj, y, z)
    ensures Reach(adj, x, z)
  {
    var p :| PathBetween(adj, p, x, y);
    var q :| PathBetween(adj, q, y, z);
    var r := p + q[1..];
    forall i | 0 <= i < |r| - 1 ensures Edge(adj, r, i) {
      if i >= |p| - 1 {
        assert Edge(adj, q, i - |p| + 1);
      } else {
        assert Edge(adj, p, i);
      }
    }
    assert PathBetween(adj, r, x, z);
  }

  /** A set closed under successors keeps every path that starts in it. */
  lemma ClosedKeepsReach(adj: Graph, s: set<string>, x: string, y: string)
    requires Closed(adj, s) && x in s && Reach(adj, x, y)
    ensures y in s
  {
    var p :| PathBetween(adj, p, x, y);
    ClosedKeepsPath(adj, s, p, |p| - 1);
  }

  lemma {:induction false} ClosedKeepsPath(adj: Graph, s: set<string>, p: seq<string>, i: nat)
    requires Closed(adj, s) && IsPath(adj, p) && p[0] in s && i < |p|
    ensures p[i] in s
  {
    if i > 0 {
      ClosedKeepsPath(adj, s, p, i - 1);
      assert Edge(adj, p, i - 1);
    }
  }
}
