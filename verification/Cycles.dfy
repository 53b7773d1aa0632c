/** `CircularDependencies`: depth-first search for import cycles. */
module Cycles {
  import opened Order
  import opened Reachability

  type Id = string

  ghost predicate Acyclic(g: Graph) {
    forall x, y :: y in Succ(g, x) ==> !Reach(g, y, x)
  }

  /** Consecutive members are edges, and so is the way from the last back to the first. */
  ghost predicate IsCycle(g: Graph, c: seq<Id>) {
    IsPath(g, c) && c[0] in Succ(g, c[|c| - 1])
  }

  lemma CycleIsCyclic(g: Graph, c: seq<Id>)
    requires IsCycle(g, c)
    ensures !Acyclic(g)
  {
    assert PathBetween(g, c, c[0], c[|c| - 1]);
  }

  lemma CyclicHasCycle(g: Graph, x: Id, y: Id)
    requires y in Succ(g, x) && Reach(g, y, x)
    ensures exists c :: IsCycle(g, c)
  {
    var p :| PathBetween(g, p, y, x);
    assert IsCycle(g, p);
  }

  lemma AcyclicIff(g: Graph)
    ensures Acyclic(g) <==> forall c :: !IsCycle(g, c)
  {
    hide IsCycle, Reach, Succ;
    forall c | IsCycle(g, c) ensures !Acyclic(g) {
      CycleIsCyclic(g, c);
    }
    forall x, y | y in Succ(g, x) && Reach(g, y, x) ensures exists c :: IsCycle(g, c) {
      CyclicHasCycle(g, x, y);
    }
  }

  ghost predicate NamesCycle(g: Graph, name: Id -> string, names: seq<string>) {
    exists c :: IsCycle(g, c) && Distinct(c) && names == Names(name, c)
  }

  function Names(name: Id -> string, c: seq<Id>): seq<string> {
    seq(|c|, i requires 0 <= i < |c| => name(c[i]))
  }

  /** Lists of names, each of a real cycle that repeats no file, none listed twice. */
  ghost predicate RealCycles(g: Graph, name: Id -> string, cycles: seq<seq<string>>) {
    Distinct(cycles) && forall k :: 0 <= k < |cycles| ==> NamesCycle(g, name, cycles[k])
  }

  /** A reported cycle is closed by the edge from u to v. */
  ghost predicate Known(name: Id -> string, cycles: seq<seq<string>>, u: Id, v: Id) {
    exists k :: 0 <= k < |cycles| && Closes(name, cycles[k], u, v)
  }

  predicate Closes(name: Id -> string, names: seq<string>, u: Id, v: Id) {
    names != [] && names[0] == name(v) && names[|names| - 1] == name(u)
  }

  lemma KnownGrows(name: Id -> string, a: seq<seq<string>>, b: seq<seq<string>>)
    requires a <= b
    ensures forall u, v :: Known(name, a, u, v) ==> Known(name, b, u, v)
  {
    hide Closes;
    forall u, v | Known(name, a, u, v) ensures Known(name, b, u, v) {
      var k :| 0 <= k < |a| && Closes(name, a[k], u, v);
      assert b[k] == a[k];
    }
  }

  ghost predicate CoversCycle(name: Id -> string, cycles: seq<seq<string>>, c: seq<Id>) {
    exists i :: 0 <= i < |c| && Known(name, cycles, c[i], c[if i == |c| - 1 then 0 else i + 1])
  }

  /** Every cycle of the graph contains the closing edge of a reported one. */
  ghost predicate CoversAll(g: Graph, name: Id -> string, cycles: seq<seq<string>>) {
    forall c :: IsCycle(g, c) ==> CoversCycle(name, cycles, c)
  }

  /** Nothing is reported exactly for acyclic graphs. */
  lemma NothingIffAcyclic(g: Graph, name: Id -> string, cycles: seq<seq<string>>)
    requires RealCycles(g, name, cycles) && (cycles == [] ==> CoversAll(g, name, cycles))
    ensures cycles == [] <==> Acyclic(g)
  {
    if cycles == [] {
      forall x, y | y in Succ(g, x) ensures !Reach(g, y, x) {
        if Reach(g, y, x) {
          CyclicHasCycle(g, x, y);
          assert false;
        }
      }
    } else {
      assert NamesCycle(g, name, cycles[0]);
      var c :| IsCycle(g, c) && Distinct(c) && cycles[0] == Names(name, c);
      CycleIsCyclic(g, c);
    }
  }

  // ----- finishing order

  /** Every successor of a finished vertex was finished before it, unless the edge closes a reported cycle. */
  ghost predicate PostOrder(g: Graph, name: Id -> string, cycles: seq<seq<string>>, done: seq<Id>) {
    forall i, y :: 0 <= i < |done| && y in Succ(g, done[i]) ==> y in done[..i] || Known(name, cycles, done[i], y)
  }

  ghost function Rank(done: seq<Id>, x: Id): (r: nat)
    requires x in done
    ensures r < |done| && done[r] == x && forall j :: 0 <= j < r ==> done[j] != x
  {
    if x in done[..|done| - 1] then
      assert done == done[..|done| - 1] + [done[|done| - 1]];
      Rank(done[..|done| - 1], x)
    else |done| - 1
  }

  lemma EdgeLowersRank(g: Graph, name: Id -> string, cycles: seq<seq<string>>, done: seq<Id>, x: Id, y: Id)
    requires PostOrder(g, name, cycles, done) && x in done && y in Succ(g, x) && !Known(name, cycles, x, y)
    ensures y in done && Rank(done, y) < Rank(done, x)
  {
    hide Known;
    var r := Rank(done, x);
    assert y in done[..r];
  }

  lemma {:induction false} PathLowersRank(g: Graph, name: Id -> string, cycles: seq<seq<string>>, done: seq<Id>,
                                          c: seq<Id>, k: nat)
    requires PostOrder(g, name, cycles, done) && IsCycle(g, c) && !CoversCycle(name, cycles, c) && c[0] in done
             && k < |c|
    ensures c[k] in done && Rank(done, c[k]) <= Rank(done, c[0])
  {
    hide PostOrder;
    if k > 0 {
      PathLowersRank(g, name, cycles, done, c, k - 1);
      assert Edge(g, c, k - 1);
      EdgeLowersRank(g, name, cycles, done, c[k - 1], c[k]);
    }
  }

  /** Once all vertices are finished every cycle contains an edge that closes a reported one. */
  lemma PostOrderCovers(g: Graph, name: Id -> string, cycles: seq<seq<string>>, done: seq<Id>)
    requires PostOrder(g, name, cycles, done) && forall x :: x in g ==> x in done
    ensures CoversAll(g, name, cycles)
  {
    hide PostOrder;
    forall c | IsCycle(g, c) ensures CoversCycle(name, cycles, c) {
      assert |c| > 1 ==> Edge(g, c, 0);
      assert c[0] in g;
      if !CoversCycle(name, cycles, c) {
        PathLowersRank(g, name, cycles, done, c, |c| - 1);
        EdgeLowersRank(g, name, cycles, done, c[|c| - 1], c[0]);
        assert false;
      }
    }
  }

  // ----- the search

  function IndexIn(xs: seq<Id>, x: Id): (i: int)
    ensures -1 <= i < |xs| && (i >= 0 <==> x in xs) && (i >= 0 ==> xs[i] == x)
  {
    if xs == [] then -1
    else if xs[0] == x then 0
    else var i := IndexIn(xs[1..], x); if i < 0 then -1 else i + 1
  }

  class CycleSearch {
    const adj: map<Id, seq<Id>>
    const name: Id -> string
    const limit: int
    var cycles: seq<seq<string>>
    var visited: set<Id>
    var stack: seq<Id>
    var onStack: set<Id>
    ghost var done: seq<Id>

    constructor (adj: map<Id, seq<Id>>, name: Id -> string, limit: int)
      requires forall n, y :: n in adj && y in adj[n] ==> y in adj
      ensures Valid() && stack == [] && this.adj == adj && this.name == name && this.limit == limit
    {
      this.adj, this.name, this.limit := adj, name, limit;
      cycles, visited, stack, onStack, done := [], {}, [], {}, [];
    }

    ghost function G(): Graph {
      map n | n in adj :: Elements(adj[n])
    }

    ghost predicate StackIsPath()
      reads this
    {
      Distinct(stack) && Elements(stack) == onStack && (stack != [] ==> IsPath(G(), stack))
    }

    /** Below the limit nothing is skipped: what is finished is in finishing order. */
    ghost predicate NothingSkipped()
      reads this
    {
      |cycles| < limit ==> PostOrder(G(), name, cycles, done) && visited == Elements(done) + onStack
    }

    ghost predicate Valid()
      reads this
    {
      && (forall n, y :: n in adj && y in adj[n] ==> y in adj)
      && onStack <= visited <= adj.Keys
      && StackIsPath() && NothingSkipped()
      && RealCycles(G(), name, cycles) && (cycles == [] || |cycles| <= limit)
    }

    /** The vertex is the next one on the way the search takes. */
    ghost predicate Next(node: Id)
      reads this
    {
      node in adj && (stack != [] ==> node in Succ(G(), stack[|stack| - 1]))
    }

    /** The vertex is on the stack: the stack from there on is a cycle. */
    method Report(node: Id)
      requires Valid() && node in onStack && |cycles| < limit && Next(node) && stack != []
      modifies this`cycles
      ensures Valid() && old(cycles) <= cycles && Known(name, cycles, stack[|stack| - 1], node)
    {
      var idx := IndexIn(stack, node);
      assert node in Elements(stack);
      if idx >= 0 {
        var cycle := stack[idx..];
        SuffixIsCycle(G(), stack, idx, node);
        var names := Names(name, cycle);
        assert NamesCycle(G(), name, names);
        assert Closes(name, names, stack[|stack| - 1], node);
        if names !in cycles {
          AddCycle(G(), name, cycles, names, done);
          hide PostOrder, RealCycles, IsPath, Closes;
          assert (cycles + [names])[|cycles|] == names;
          cycles := cycles + [names];
        }
      }
    }

    /** The vertex is entered: marked, and pushed on the stack. */
    method Enter(node: Id)
      requires Valid() && node !in visited && Next(node)
      modifies this`visited, this`stack, this`onStack
      ensures Valid() && visited == old(visited) + {node}
      ensures stack == old(stack) + [node] && onStack == old(onStack) + {node}
    {
      assert forall x :: x in stack ==> x in Elements(stack);
      if stack != [] {
        LongerPath(G(), stack, node);
      }
      visited := visited + {node};
      onStack := onStack + {node};
      stack := stack + [node];
      hide PostOrder, RealCycles, IsPath;
    }

    /** The edge to y was followed: y is finished, or the edge closes a reported cycle. */
    ghost predicate Handled(x: Id, y: Id)
      reads this
    {
      y in done || Known(name, cycles, x, y)
    }

    ghost predicate HandledUpto(x: Id, i: nat)
      requires x in adj && i <= |adj[x]|
      reads this
    {
      forall k :: 0 <= k < i ==> Handled(x, adj[x][k])
    }

    /** The top of the stack is finished. */
    method Leave()
      requires Valid() && stack != []
      requires stack[|stack| - 1] in adj
      requires |cycles| < limit ==> HandledUpto(stack[|stack| - 1], |adj[stack[|stack| - 1]]|)
      modifies this`stack, this`onStack, this`done
      ensures Valid() && stack == old(stack)[..|old(stack)| - 1] && onStack == Elements(stack)
      ensures onStack == old(onStack) - {old(stack)[|old(stack)| - 1]}
      ensures done == old(done) + [old(stack)[|old(stack)| - 1]]
    {
      var node := stack[|stack| - 1];
      TopOff(G(), stack, visited, done);
      if |cycles| < limit {
        PostOrderGrows(G(), name, cycles, done, node);
      }
      hide PostOrder, RealCycles, IsPath, Distinct, Elements;
      stack := stack[..|stack| - 1];
      onStack := onStack - {node};
      done := done + [node];
    }

    method Visit(node: Id)
      requires Valid() && Next(node)
      modifies this
      ensures Valid() && stack == old(stack) && onStack == old(onStack)
      ensures old(visited) <= visited && old(cycles) <= cycles && old(done) <= done
      ensures |cycles| < limit ==> node in done || (stack != [] && Handled(stack[|stack| - 1], node))
      decreases adj.Keys - visited, 0
    {
      hide PostOrder, RealCycles, IsPath, Known, StackIsPath, NothingSkipped, G, Succ;
      if |cycles| >= limit {
        return;
      }
      if node in onStack {
        OnStackStarts(node);
        Report(node);
        return;
      }
      if node in visited {
        SeenIsDone(node);
        return;
      }
      PushedPopped(stack, onStack, node);
      Enter(node);
      VisitNeighbours(node);
      Leave();
    }

    lemma OnStackStarts(node: Id)
      requires Valid() && node in onStack
      ensures stack != []
    {
    }

    lemma SeenIsDone(node: Id)
      requires Valid() && node in visited && node !in onStack
      ensures |cycles| < limit ==> node in done
    {
    }

    /** The loop over the neighbours of the entered vertex. */
    method VisitNeighbours(node: Id)
      requires Valid() && node in adj && stack != [] && stack[|stack| - 1] == node
      modifies this
      ensures Valid() && stack == old(stack) && onStack == old(onStack)
      ensures old(visited) <= visited && old(cycles) <= cycles && old(done) <= done
      ensures |cycles| < limit ==> HandledUpto(node, |adj[node]|)
      decreases adj.Keys - visited, 1
    {
      hide PostOrder, RealCycles, IsPath, Known, StackIsPath, NothingSkipped;
      for i := 0 to |adj[node]|
        invariant Valid() && stack == old(stack) && onStack == old(onStack)
        invariant old(visited) <= visited && old(cycles) <= cycles && old(done) <= done
        invariant |cycles| < limit ==> HandledUpto(node, i)
      {
        ghost var before := cycles;
        assert adj.Keys - visited <= adj.Keys - old(visited);
        Visit(adj[node][i]);
        KnownGrows(name, before, cycles);
      }
    }

    /** The search is started at every vertex, in any order. */
    method Run()
      requires Valid() && stack == []
      modifies this
      ensures Valid() && (|cycles| < limit ==> CoversAll(G(), name, cycles))
    {
      hide PostOrder, RealCycles, IsPath, Known, StackIsPath, CoversAll;
      var todo := adj.Keys;
      while todo != {}
        invariant Valid() && stack == [] && todo <= adj.Keys
        invariant |cycles| < limit ==> forall x :: x in adj && x !in todo ==> x in done
        decreases |todo|
      {
        var node :| node in todo;
        todo := todo - {node};
        Visit(node);
      }
      if |cycles| < limit {
        PostOrderCovers(G(), name, cycles, done);
      }
    }
  }

  lemma AddCycle(g: Graph, name: Id -> string, cycles: seq<seq<string>>, names: seq<string>, done: seq<Id>)
    requires RealCycles(g, name, cycles) && names !in cycles && NamesCycle(g, name, names)
    ensures RealCycles(g, name, cycles + [names])
    ensures PostOrder(g, name, cycles, done) ==> PostOrder(g, name, cycles + [names], done)
  {
    KnownGrows(name, cycles, cycles + [names]);
    hide NamesCycle, Known;
  }

  lemma PushedPopped<T>(s: seq<T>, on: set<T>, x: T)
    requires x !in on
    ensures (s + [x])[..|s + [x]| - 1] == s && (on + {x}) - {x} == on
  {
  }

  lemma LongerPath(g: Graph, p: seq<Id>, x: Id)
    requires IsPath(g, p) && x in Succ(g, p[|p| - 1])
    ensures IsPath(g, p + [x])
  {
    forall i | 0 <= i < |p| ensures Edge(g, p + [x], i) {
      assert i < |p| - 1 ==> Edge(g, p, i);
    }
  }

  /** What is left of the stack when its top is finished. */
  lemma TopOff(g: Graph, stack: seq<Id>, visited: set<Id>, done: seq<Id>)
    requires stack != [] && Distinct(stack) && IsPath(g, stack)
    ensures var rest, node := stack[..|stack| - 1], stack[|stack| - 1];
            && Distinct(rest) && Elements(rest) == Elements(stack) - {node} && (rest != [] ==> IsPath(g, rest))
            && (visited == Elements(done) + Elements(stack) ==> visited == Elements(done + [node]) + Elements(rest))
  {
    var rest, node := stack[..|stack| - 1], stack[|stack| - 1];
    ShorterPath(g, stack);
    assert stack == rest + [node];
    hide IsPath;
    assert Elements(stack) == Elements(rest) + {node} && node !in Elements(rest);
    assert Elements(done + [node]) == Elements(done) + {node};
  }

  lemma ShorterPath(g: Graph, p: seq<Id>)
    ensures |p| > 1 && IsPath(g, p) ==> IsPath(g, p[..|p| - 1])
  {
    if |p| > 1 && IsPath(g, p) {
      var q := p[..|p| - 1];
      forall i | 0 <= i < |q| - 1 ensures Edge(g, q, i) {
        assert Edge(g, p, i);
      }
    }
  }

  lemma PostOrderGrows(g: Graph, name: Id -> string, cycles: seq<seq<string>>, done: seq<Id>, x: Id)
    requires PostOrder(g, name, cycles, done) && forall y :: y in Succ(g, x) ==> y in done || Known(name, cycles, x, y)
    ensures PostOrder(g, name, cycles, done + [x])
  {
    hide Known;
    var more := done + [x];
    forall i, y | 0 <= i < |more| && y in Succ(g, more[i]) ensures y in more[..i] || Known(name, cycles, more[i], y) {
      assert more[..i] == if i < |done| then done[..i] else done;
    }
  }

  lemma SuffixIsCycle(g: Graph, stack: seq<Id>, idx: nat, node: Id)
    requires stack != [] && IsPath(g, stack) && idx < |stack| && stack[idx] == node
             && node in Succ(g, stack[|stack| - 1])
    ensures IsCycle(g, stack[idx..])
  {
    var c := stack[idx..];
    forall i | 0 <= i < |c| - 1 ensures Edge(g, c, i) {
      assert Edge(g, stack, idx + i);
    }
  }
}
