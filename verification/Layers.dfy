/** The layering of `ArchitectureReport`: longest dependency chains over the condensation. */
module Layers {
  import opened Reachability
  import opened Components

  /** Component i depends directly on the different component j. */
  ghost predicate DependsOn(adj: Graph, comps: seq<seq<string>>, i: nat, j: nat) {
    && i < |comps| && j < |comps| && i != j
    && exists m, dep :: m in comps[i] && dep in Succ(adj, m) && dep in comps[j]
  }

  ghost predicate Linked(adj: Graph, comps: seq<seq<string>>, c: seq<nat>, k: nat)
    requires k + 1 < |c|
  {
    DependsOn(adj, comps, c[k], c[k + 1])
  }

  /** A chain of components, each depending directly on the next. */
  ghost predicate IsChain(adj: Graph, comps: seq<seq<string>>, c: seq<nat>) {
    && |c| > 0 && c[0] < |comps|
    && forall k :: 0 <= k < |c| - 1 ==> Linked(adj, comps, c, k)
  }

  /** n is the number of dependency steps on the longest chain below component i. */
  ghost predicate LongestBelow(adj: Graph, comps: seq<seq<string>>, i: nat, n: nat) {
    && (exists c :: IsChain(adj, comps, c) && c[0] == i && |c| == n + 1)
    && (forall c :: IsChain(adj, comps, c) && c[0] == i ==> |c| <= n + 1)
  }

  /** The condensation is acyclic: dependencies point to earlier components. */
  lemma DependsOnEarlier(adj: Graph, comps: seq<seq<string>>, i: nat, j: nat)
    requires Emitted(adj, comps) && DependsOn(adj, comps, i, j)
    ensures j < i
  {
    var m, dep :| m in comps[i] && dep in Succ(adj, m) && dep in comps[j];
    assert InSome(comps, i + 1, dep);
    var k :| 0 <= k < i + 1 && k < |comps| && dep in comps[k];
    assert k == j;
  }

  lemma ChainTail(adj: Graph, comps: seq<seq<string>>, c: seq<nat>)
    requires IsChain(adj, comps, c) && |c| > 1
    ensures DependsOn(adj, comps, c[0], c[1]) && IsChain(adj, comps, c[1..])
  {
    assert Linked(adj, comps, c, 0);
    forall k | 0 <= k < |c[1..]| - 1 ensures Linked(adj, comps, c[1..], k) {
      assert Linked(adj, comps, c, k + 1);
    }
  }

  lemma ChainCons(adj: Graph, comps: seq<seq<string>>, i: nat, c: seq<nat>)
    requires IsChain(adj, comps, c) && DependsOn(adj, comps, i, c[0])
    ensures IsChain(adj, comps, [i] + c)
  {
    var d := [i] + c;
    forall k | 0 <= k < |d| - 1 ensures Linked(adj, comps, d, k) {
      if k > 0 {
        assert Linked(adj, comps, c, k - 1);
      }
    }
  }

  lemma LongestUnique(adj: Graph, comps: seq<seq<string>>, i: nat, n: nat, m: nat)
    requires LongestBelow(adj, comps, i, n) && LongestBelow(adj, comps, i, m)
    ensures n == m
  {
  }

  /** What `best` knows in `resolve(i)` once the dependencies in `seen` were folded in. */
  ghost predicate BestSoFar(adj: Graph, comps: seq<seq<string>>, i: nat, seen: set<nat>, best: nat) {
    && (exists c :: IsChain(adj, comps, c) && c[0] == i && |c| == best + 1)
    && (forall c :: IsChain(adj, comps, c) && c[0] == i && |c| > 1 && c[1] in seen ==> |c| <= best + 1)
  }

  lemma BestStart(adj: Graph, comps: seq<seq<string>>, i: nat)
    requires i < |comps|
    ensures BestSoFar(adj, comps, i, {}, 0)
  {
    assert IsChain(adj, comps, [i]);
  }

  /** `best = max(best, resolve(j)+1)` */
  lemma BestStep(adj: Graph, comps: seq<seq<string>>, i: nat, seen: set<nat>, best: nat, j: nat, n: nat)
    requires BestSoFar(adj, comps, i, seen, best) && DependsOn(adj, comps, i, j) && LongestBelow(adj, comps, j, n)
    ensures BestSoFar(adj, comps, i, seen + {j}, if n + 1 > best then n + 1 else best)
  {
    var c :| IsChain(adj, comps, c) && c[0] == j && |c| == n + 1;
    ChainCons(adj, comps, i, c);
    assert ([i] + c)[0] == i;
    var best' := if n + 1 > best then n + 1 else best;
    forall d | IsChain(adj, comps, d) && d[0] == i && |d| > 1 && d[1] in seen + {j} ensures |d| <= best' + 1 {
      ChainTail(adj, comps, d);
    }
  }

  ghost predicate AllSeen(adj: Graph, comps: seq<seq<string>>, i: nat, seen: set<nat>) {
    forall j: nat :: DependsOn(adj, comps, i, j) ==> j in seen
  }

  lemma BestFinal(adj: Graph, comps: seq<seq<string>>, i: nat, seen: set<nat>, best: nat)
    requires BestSoFar(adj, comps, i, seen, best) && AllSeen(adj, comps, i, seen)
    ensures LongestBelow(adj, comps, i, best)
  {
    forall c | IsChain(adj, comps, c) && c[0] == i ensures |c| <= best + 1 {
      if |c| > 1 {
        ChainTail(adj, comps, c);
      }
    }
  }

  ghost predicate Folded(compOf: map<string, nat>, i: nat, deps: set<string>, seen: set<nat>) {
    forall d :: d in deps ==> d in compOf && (compOf[d] == i || compOf[d] in seen)
  }

  lemma FoldedIsAll(adj: Graph, comps: seq<seq<string>>, compOf: map<string, nat>, i: nat, seen: set<nat>)
    requires i < |comps| && Indexes(comps, compOf)
    requires Folded(compOf, i, SuccOfAll(adj, comps[i]), seen)
    ensures AllSeen(adj, comps, i, seen)
  {
    forall j: nat | DependsOn(adj, comps, i, j) ensures j in seen {
      var m, dep :| m in comps[i] && dep in Succ(adj, m) && dep in comps[j];
      assert dep in SuccOfAll(adj, comps[i]);
    }
  }

  ghost function SuccOfAll(adj: Graph, ms: seq<string>): set<string> {
    set m, d | m in ms && d in Succ(adj, m) :: d
  }

  /** `compOf` names the component of every member. */
  ghost predicate Indexes(comps: seq<seq<string>>, compOf: map<string, nat>) {
    forall i, m :: 0 <= i < |comps| && m in comps[i] ==> m in compOf && compOf[m] == i
  }

  class Layering {
    const adj: Graph
    const comps: seq<seq<string>>
    const compOf: map<string, nat>
    var memo: map<nat, nat>

    constructor (adj: Graph, comps: seq<seq<string>>, compOf: map<string, nat>)
      ensures this.adj == adj && this.comps == comps && this.compOf == compOf && memo == map[]
    {
      this.adj, this.comps, this.compOf, memo := adj, comps, compOf, map[];
    }

    ghost predicate Valid()
      reads this
    {
      && Emitted(adj, comps)
      && Closed(adj, Members(comps))
      && Indexes(comps, compOf)
      && (forall i :: i in memo ==> i < |comps| && LongestBelow(adj, comps, i, memo[i]))
    }

    lemma CompOfDependency(i: nat, m: string, dep: string)
      requires Valid() && i < |comps| && m in comps[i] && dep in Succ(adj, m)
      ensures dep in compOf && compOf[dep] < |comps| && dep in comps[compOf[dep]]
      ensures compOf[dep] != i ==> DependsOn(adj, comps, i, compOf[dep])
    {
      assert InSome(comps, i + 1, dep);
    }

    /** The inner loop of `resolve`: folds in what module m of component i depends on. */
    method FoldDependencies(i: nat, m: string, start: nat, ghost seen0: set<nat>)
      returns (best: nat, ghost seen: set<nat>)
      requires Valid() && i < |comps| && m in comps[i] && BestSoFar(adj, comps, i, seen0, start)
      modifies `memo
      decreases i, 0
      ensures Valid() && old(memo.Keys) <= memo.Keys
      ensures BestSoFar(adj, comps, i, seen, best) && seen0 <= seen && Folded(compOf, i, Succ(adj, m), seen)
    {
      hide Emitted, Closed, Indexes, LongestBelow, BestSoFar, AllSeen, DependsOn;
      best, seen := start, seen0;
      var todo := Succ(adj, m);
      while todo != {}
        invariant todo <= Succ(adj, m) && Valid() && old(memo.Keys) <= memo.Keys
        invariant BestSoFar(adj, comps, i, seen, best) && seen0 <= seen
        invariant Folded(compOf, i, Succ(adj, m) - todo, seen)
        decreases |todo|
      {
        var dep :| dep in todo;
        todo := todo - {dep};
        CompOfDependency(i, m, dep);
        var j := compOf[dep];
        if j != i {
          DependsOnEarlier(adj, comps, i, j);
          var below := Resolve(j);
          BestStep(adj, comps, i, seen, best, j, below);
          best := if below + 1 > best then below + 1 else best;
          seen := seen + {j};
        }
      }
    }

    method Resolve(i: nat) returns (best: nat)
      requires Valid() && i < |comps|
      modifies `memo
      decreases i, 1
      ensures Valid() && LongestBelow(adj, comps, i, best)
      ensures i in memo && old(memo.Keys) <= memo.Keys
    {
      if i in memo {
        return memo[i];
      }
      hide Emitted, Closed, Indexes, LongestBelow, BestSoFar, AllSeen, DependsOn;
      best := 0;
      BestStart(adj, comps, i);
      ghost var seen: set<nat> := {};
      for k := 0 to |comps[i]|
        invariant Valid() && old(memo.Keys) <= memo.Keys
        invariant BestSoFar(adj, comps, i, seen, best)
        invariant Folded(compOf, i, SuccOfAll(adj, comps[i][..k]), seen)
      {
        assert comps[i][..k + 1] == comps[i][..k] + [comps[i][k]];
        best, seen := FoldDependencies(i, comps[i][k], best, seen);
      }
      assert comps[i][..|comps[i]|] == comps[i];
      FoldedIsAll(adj, comps, compOf, i, seen);
      BestFinal(adj, comps, i, seen, best);
      memo := memo[i := best];
    }
  }

  /** `compOf`: the position of the component each module is listed in. */
  method CompOf(comps: seq<seq<string>>) returns (compOf: map<string, nat>)
    requires Disjoint(comps)
    ensures Indexes(comps, compOf)
  {
    compOf := map[];
    for i := 0 to |comps|
      invariant forall k, m :: 0 <= k < i && m in comps[k] ==> m in compOf && compOf[m] == k
    {
      for l := 0 to |comps[i]|
        invariant forall k, m :: 0 <= k < i && m in comps[k] ==> m in compOf && compOf[m] == k
        invariant forall m :: m in comps[i][..l] ==> m in compOf && compOf[m] == i
      {
        compOf := compOf[comps[i][l] := i];
      }
      assert comps[i][..|comps[i]|] == comps[i];
    }
  }

  /** Every component gets the length of the longest dependency chain below it. */
  ghost predicate Layered(adj: Graph, comps: seq<seq<string>>, level: seq<nat>) {
    |level| == |comps| && forall i :: 0 <= i < |comps| ==> LongestBelow(adj, comps, i, level[i])
  }

  lemma CondensationClosed(adj: Graph, comps: seq<seq<string>>)
    requires Emitted(adj, comps)
    ensures Closed(adj, Members(comps))
  {
    assert comps[..|comps|] == comps;
    UptoClosed(adj, comps, |comps|);
  }

  method LayersOf(nodes: seq<string>, adj: Graph) returns (comps: seq<seq<string>>, level: seq<nat>)
    ensures Condensation(adj, nodes, comps) && Layered(adj, comps, level)
  {
    comps := Sccs(nodes, adj);
    CondensationClosed(adj, comps);
    var compOf := CompOf(comps);
    hide Emitted, Closed, Indexes, LongestBelow;
    var layering := new Layering(adj, comps, compOf);
    level := [];
    for i := 0 to |comps|
      invariant layering.adj == adj && layering.comps == comps && layering.Valid()
      invariant |level| == i && forall k :: 0 <= k < i ==> LongestBelow(adj, comps, k, level[k])
    {
      var l := layering.Resolve(i);
      level := level + [l];
    }
  }

  ghost predicate Above(adj: Graph, comps: seq<seq<string>>, level: seq<nat>)
    requires |level| == |comps|
  {
    forall i: nat, j: nat :: DependsOn(adj, comps, i, j) ==> level[j] < level[i]
  }

  ghost predicate JustAbove(adj: Graph, comps: seq<seq<string>>, level: seq<nat>, i: nat)
    requires |level| == |comps| && i < |level|
  {
    exists j: nat :: DependsOn(adj, comps, i, j) && level[i] == level[j] + 1
  }

  /** Foundations are at 0 and every other component is just above one it depends on. */
  ghost predicate Tight(adj: Graph, comps: seq<seq<string>>, level: seq<nat>)
    requires |level| == |comps|
  {
    forall i :: 0 <= i < |comps| && level[i] != 0 ==> JustAbove(adj, comps, level, i)
  }

  /** A layer is strictly above every layer it depends on. */
  lemma LayersAbove(adj: Graph, comps: seq<seq<string>>, level: seq<nat>)
    requires Layered(adj, comps, level)
    ensures Above(adj, comps, level)
  {
    forall i: nat, j: nat | DependsOn(adj, comps, i, j) ensures level[j] < level[i] {
      assert LongestBelow(adj, comps, j, level[j]);
      var c :| IsChain(adj, comps, c) && c[0] == j && |c| == level[j] + 1;
      ChainCons(adj, comps, i, c);
      assert ([i] + c)[0] == i;
      assert LongestBelow(adj, comps, i, level[i]);
    }
  }

  lemma LayersTight(adj: Graph, comps: seq<seq<string>>, level: seq<nat>)
    requires Layered(adj, comps, level)
    ensures Tight(adj, comps, level)
  {
    forall i | 0 <= i < |comps| && level[i] != 0 ensures JustAbove(adj, comps, level, i) {
      assert LongestBelow(adj, comps, i, level[i]);
      var c :| IsChain(adj, comps, c) && c[0] == i && |c| == level[i] + 1;
      ChainTail(adj, comps, c);
      var j := c[1];
      assert LongestBelow(adj, comps, j, level[j]);
      assert c[1..][0] == j;
      LayersAbove(adj, comps, level);
    }
  }

  /** The two properties above determine the layer numbers. */
  lemma {:induction false} LayerNumbersUnique(adj: Graph, comps: seq<seq<string>>, a: seq<nat>, b: seq<nat>, i: nat)
    requires Emitted(adj, comps) && |a| == |b| == |comps| && i < |comps|
    requires Above(adj, comps, a) && Tight(adj, comps, a) && Above(adj, comps, b) && Tight(adj, comps, b)
    ensures a[i] == b[i]
    decreases i
  {
    hide Emitted;
    if a[i] != 0 {
      assert JustAbove(adj, comps, a, i);
      var j: nat :| DependsOn(adj, comps, i, j) && a[i] == a[j] + 1;
      DependsOnEarlier(adj, comps, i, j);
      LayerNumbersUnique(adj, comps, a, b, j);
    }
    if b[i] != 0 {
      assert JustAbove(adj, comps, b, i);
      var j: nat :| DependsOn(adj, comps, i, j) && b[i] == b[j] + 1;
      DependsOnEarlier(adj, comps, i, j);
      LayerNumbersUnique(adj, comps, a, b, j);
    }
  }
}
