/** `HotPaths`: transitive callers counted by breadth-first search, then sorted by exchanges. */
module CallerRanking {
  import opened Order
  import opened Store
  import opened Memory
  import R = Reachability

  predicate CallEdge(e: Edge, from: Id, to: Id) {
    e.kind == "CALLS" && e.from == from && e.to == to
  }

  ghost predicate CalledBy(c: State, x: Id, y: Id) {
    exists e :: e in c.edges && CallEdge(c.edges[e], y, x)
  }

  /** Each node with the nodes that call it. */
  ghost function CallerGraph(c: State): R.Graph {
    map x | x in c.nodes :: set y | y in c.nodes && CalledBy(c, x, y)
  }

  /** The other nodes that reach x through CALLS edges. */
  ghost function TransitiveCallers(c: State, x: Id): set<Id> {
    set y | y in c.nodes && y != x && R.Reach(CallerGraph(c), x, y)
  }

  /** Nodes from x back to y, each called by the next. */
  ghost predicate CallChain(c: State, p: seq<Id>, x: Id, y: Id) {
    && p != [] && p[0] == x && p[|p| - 1] == y && (forall i :: 0 <= i < |p| ==> p[i] in c.nodes)
    && forall i :: 0 <= i < |p| - 1 ==> Calls(c, p[i + 1], p[i])
  }

  ghost predicate Calls(c: State, from: Id, to: Id) {
    exists e :: e in c.edges && c.edges[e].kind == "CALLS" && c.edges[e].from == from && c.edges[e].to == to
  }

  /** The other nodes from which a chain of calls leads to x. */
  ghost function Callers(c: State, x: Id): set<Id> {
    set y | y in c.nodes && y != x && exists p :: CallChain(c, p, x, y)
  }

  lemma ChainIffPath(c: State, p: seq<Id>, x: Id, y: Id)
    requires x in c.nodes
    ensures CallChain(c, p, x, y) <==> R.PathBetween(CallerGraph(c), p, x, y)
  {
    var g := CallerGraph(c);
    forall a, b ensures b in R.Succ(g, a) <==> a in c.nodes && b in c.nodes && Calls(c, b, a) {
    }
    hide CallerGraph, Calls, R.Succ;
    if CallChain(c, p, x, y) {
      forall i | 0 <= i < |p| - 1 ensures R.Edge(g, p, i) {
        assert Calls(c, p[i + 1], p[i]);
      }
    }
    if R.PathBetween(g, p, x, y) {
      forall i | 0 <= i < |p| - 1 ensures Calls(c, p[i + 1], p[i]) {
        assert R.Edge(g, p, i);
      }
      forall i | 0 <= i < |p| ensures p[i] in c.nodes {
        assert i > 0 ==> R.Edge(g, p, i - 1);
      }
    }
  }

  lemma CallersAre(c: State, x: Id)
    requires x in c.nodes
    ensures Callers(c, x) == TransitiveCallers(c, x)
  {
    forall p, y ensures CallChain(c, p, x, y) <==> R.PathBetween(CallerGraph(c), p, x, y) {
      ChainIffPath(c, p, x, y);
    }
    hide CallChain, R.PathBetween, CallerGraph;
  }

  lemma HitsAreCallers(c: State, x: Id, hits: seq<EdgeNode>)
    requires Keyed(c) && forall h :: multiset(hits)[h] == Times(c, x, "CALLS", In, h)
    ensures x in c.nodes ==> forall y :: y in R.Succ(CallerGraph(c), x)
                                         <==> exists k :: 0 <= k < |hits| && hits[k].id == y
  {
    forall k | 0 <= k < |hits| ensures hits[k].id in c.nodes && CalledBy(c, x, hits[k].id) {
      assert hits[k] in multiset(hits);
      assert InHit(c, x, "CALLS", hits[k]);
      assert CallEdge(c.edges[hits[k].edge.id], hits[k].id, x);
    }
    forall y | y in c.nodes && CalledBy(c, x, y) ensures exists k :: 0 <= k < |hits| && hits[k].id == y {
      var e :| e in c.edges && CallEdge(c.edges[e], y, x);
      var h := EdgeNode(c.edges[e], y, c.nodes[y]);
      assert InHit(c, x, "CALLS", h) && multiset(hits)[h] == 1;
      assert h in hits;
    }
  }

  function Count(counts: map<Id, nat>, x: Id): nat {
    if x in counts then counts[x] else 0
  }

  // ----- breadth-first search

  /** All visited nodes are reached, and the callers of those not queued are visited. */
  ghost predicate Searching(c: State, x: Id, visited: set<Id>, queue: seq<Id>) {
    && x in visited && visited <= c.nodes.Keys
    && (forall y :: y in visited ==> R.Reach(CallerGraph(c), x, y))
    && (forall y :: y in queue ==> y in visited)
    && (forall y, z :: y in visited && y !in queue && z in R.Succ(CallerGraph(c), y) ==> z in visited)
  }

  lemma SearchStart(c: State, x: Id)
    requires x in c.nodes
    ensures Searching(c, x, {x}, [x])
  {
    R.ReachSelf(CallerGraph(c), x);
  }

  lemma SearchEnd(c: State, x: Id, visited: set<Id>)
    requires Searching(c, x, visited, [])
    ensures visited - {x} == TransitiveCallers(c, x) && |visited| == |TransitiveCallers(c, x)| + 1
  {
    forall y | y in c.nodes && R.Reach(CallerGraph(c), x, y) ensures y in visited {
      R.ClosedKeepsReach(CallerGraph(c), visited, x, y);
    }
    assert visited == TransitiveCallers(c, x) + {x};
  }

  /** The hits of the current node, the first i of them visited. */
  ghost predicate Expanding(c: State, x: Id, current: Id, hits: seq<EdgeNode>, i: nat, visited: set<Id>, queue: seq<Id>)
  {
    && Searching(c, x, visited, [current] + queue)
    && current in c.nodes && i <= |hits|
    && (forall y :: y in R.Succ(CallerGraph(c), current) <==> exists k :: 0 <= k < |hits| && hits[k].id == y)
    && (forall k :: 0 <= k < i ==> hits[k].id in visited)
  }

  lemma ExpandOne(c: State, x: Id, current: Id, hits: seq<EdgeNode>, i: nat, visited: set<Id>, queue: seq<Id>)
    requires Expanding(c, x, current, hits, i, visited, queue) && i < |hits| && hits[i].id !in visited
    ensures Expanding(c, x, current, hits, i + 1, visited + {hits[i].id}, queue + [hits[i].id])
    ensures hits[i].id in c.nodes
  {
    var y := hits[i].id;
    assert y in R.Succ(CallerGraph(c), current);
    R.ReachEdge(CallerGraph(c), current, y);
    R.ReachTransitive(CallerGraph(c), x, current, y);
    hide R.Reach, CalledBy;
    assert forall z :: z in [current] + (queue + [y]) <==> z in [current] + queue || z == y;
  }

  lemma ExpandStart(c: State, x: Id, current: Id, hits: seq<EdgeNode>, visited: set<Id>, queue: seq<Id>)
    requires Searching(c, x, visited, [current] + queue)
    requires current in c.nodes ==> forall y :: y in R.Succ(CallerGraph(c), current)
                                                <==> exists k :: 0 <= k < |hits| && hits[k].id == y
    ensures Expanding(c, x, current, hits, 0, visited, queue)
  {
    assert current in [current] + queue;
    hide R.Reach, R.Succ, CallerGraph;
  }

  lemma ExpandSeen(c: State, x: Id, current: Id, hits: seq<EdgeNode>, i: nat, visited: set<Id>, queue: seq<Id>)
    requires Expanding(c, x, current, hits, i, visited, queue) && i < |hits| && hits[i].id in visited
    ensures Expanding(c, x, current, hits, i + 1, visited, queue)
  {
    hide Searching;
  }

  lemma ExpandAll(c: State, x: Id, current: Id, hits: seq<EdgeNode>, visited: set<Id>, queue: seq<Id>)
    requires Expanding(c, x, current, hits, |hits|, visited, queue)
    ensures Searching(c, x, visited, queue)
  {
    hide R.Reach, CalledBy, R.Succ, CallerGraph;
    assert forall y :: y in [current] + queue <==> y == current || y in queue;
  }

  /** The entry of a function with all visited nodes but itself counted. */
  ghost function Counted(counts: map<Id, nat>, fn: Id, visited: set<Id>): map<Id, nat> {
    if |visited| <= 1 then counts else counts[fn := |visited| - 1]
  }

  lemma CountOne(counts: map<Id, nat>, fn: Id, visited: set<Id>, y: Id)
    requires fn !in counts && fn in visited && y !in visited
    ensures var r := Counted(counts, fn, visited); r[fn := Count(r, fn) + 1] == Counted(counts, fn, visited + {y})
  {
    assert |visited + {y}| == |visited| + 1;
  }

  /** Visits, counts and queues the callers that were not visited yet. */
  method Expand(hits: seq<EdgeNode>, fn: Id, current: Id, seen: set<Id>, waiting: seq<Id>, r0: map<Id, nat>,
                ghost c: State, ghost counts: map<Id, nat>)
    returns (visited: set<Id>, queue: seq<Id>, r: map<Id, nat>)
    requires Expanding(c, fn, current, hits, 0, seen, waiting) && r0 == Counted(counts, fn, seen) && fn !in counts
             && fn in seen
    ensures Expanding(c, fn, current, hits, |hits|, visited, queue) && r == Counted(counts, fn, visited)
    ensures seen <= visited && (visited == seen ==> queue == waiting)
  {
    visited, queue, r := seen, waiting, r0;
    hide Counted, Expanding;
    for i := 0 to |hits|
      invariant Expanding(c, fn, current, hits, i, visited, queue) && r == Counted(counts, fn, visited)
      invariant seen <= visited && (visited == seen ==> queue == waiting)
    {
      var y := hits[i].id;
      if y !in visited {
        ExpandOne(c, fn, current, hits, i, visited, queue);
        CountOne(counts, fn, visited, y);
        visited := visited + {y};
        r := r[fn := Count(r, fn) + 1];
        queue := queue + [y];
      } else {
        ExpandSeen(c, fn, current, hits, i, visited, queue);
      }
    }
  }

  /** Counts every other node that reaches the function; a count of zero leaves no entry. */
  method CountCallers(repo: MemoryRepository, fn: Id, counts: map<Id, nat>) returns (r: map<Id, nat>)
    requires Keyed(repo.Contents()) && fn in repo.nodes && fn !in counts
    ensures var n := |TransitiveCallers(repo.Contents(), fn)|; r == if n == 0 then counts else counts[fn := n]
  {
    ghost var c := repo.Contents();
    var visited, queue := {fn}, [fn];
    r := counts;
    SearchStart(c, fn);
    hide Expanding, Times, TransitiveCallers, CallerGraph, R.Reach, R.Succ;
    while |queue| > 0
      invariant Searching(c, fn, visited, queue) && r == Counted(counts, fn, visited)
      decreases c.nodes.Keys - visited, |queue|
    {
      var current := queue[0];
      assert queue == [current] + queue[1..];
      queue := queue[1..];
      var hits := repo.Neighbors(current, "CALLS", In);
      HitsAreCallers(c, current, hits);
      ExpandStart(c, fn, current, hits, visited, queue);
      hide Searching, Counted;
      visited, queue, r := Expand(hits, fn, current, visited, queue, r, c, counts);
      ExpandAll(c, fn, current, hits, visited, queue);
    }
    assert queue == [];
    SearchEnd(c, fn, visited);
  }

  // ----- the sort

  datatype Entry = Entry(id: Id, count: nat)

  /** The first i entries are in descending order and no later one is larger. */
  predicate DescendingUpto(a: seq<Entry>, i: nat) {
    forall p, q :: 0 <= p < i && p < q < |a| ==> a[p].count >= a[q].count
  }

  /** Entry i is at least as large as those between i and j. */
  predicate LargestUpto(a: seq<Entry>, i: nat, j: nat)
    requires i < |a| && j <= |a|
  {
    forall k :: i < k < j ==> a[i].count >= a[k].count
  }

  function Swapped(a: seq<Entry>, i: nat, j: nat): seq<Entry>
    requires i < j < |a|
  {
    a[i := a[j]][j := a[i]]
  }

  lemma SwapLarger(a: seq<Entry>, i: nat, j: nat)
    requires i < j < |a| && DescendingUpto(a, i) && LargestUpto(a, i, j) && a[j].count > a[i].count
    ensures DescendingUpto(Swapped(a, i, j), i) && LargestUpto(Swapped(a, i, j), i, j + 1)
    ensures multiset(Swapped(a, i, j)) == multiset(a)
  {
    var b := Swapped(a, i, j);
    assert a == a[..i] + [a[i]] + a[i + 1..j] + [a[j]] + a[j + 1..];
    assert b == a[..i] + [a[j]] + a[i + 1..j] + [a[i]] + a[j + 1..];
  }

  lemma LargestNext(a: seq<Entry>, i: nat, j: nat)
    requires i < j < |a| && LargestUpto(a, i, j) && a[j].count <= a[i].count
    ensures LargestUpto(a, i, j + 1)
  {
  }

  /** One round of the outer loop: entry i gets the largest of the rest. */
  method BringLargest(sorted: array<Entry>, i: nat)
    requires i < sorted.Length && DescendingUpto(sorted[..], i)
    modifies sorted
    ensures DescendingUpto(sorted[..], i) && LargestUpto(sorted[..], i, sorted.Length)
    ensures multiset(sorted[..]) == multiset(old(sorted[..]))
  {
    hide DescendingUpto;
    assert LargestUpto(sorted[..], i, i + 1);
    hide LargestUpto;
    for j := i + 1 to sorted.Length
      invariant DescendingUpto(sorted[..], i) && LargestUpto(sorted[..], i, j)
      invariant multiset(sorted[..]) == multiset(old(sorted[..]))
    {
      ghost var a := sorted[..];
      if sorted[j].count > sorted[i].count {
        SwapLarger(a, i, j);
        sorted[i], sorted[j] := sorted[j], sorted[i];
        assert sorted[..] == Swapped(a, i, j);
      } else {
        LargestNext(a, i, j);
      }
    }
  }

  lemma DescendingNext(a: seq<Entry>, i: nat)
    requires i < |a| && DescendingUpto(a, i) && LargestUpto(a, i, |a|)
    ensures DescendingUpto(a, i + 1)
  {
  }

  method SortDescending(sorted: array<Entry>)
    modifies sorted
    ensures DescendingUpto(sorted[..], sorted.Length) && multiset(sorted[..]) == multiset(old(sorted[..]))
  {
    assert DescendingUpto(sorted[..], 0);
    hide DescendingUpto, LargestUpto;
    for i := 0 to sorted.Length
      invariant DescendingUpto(sorted[..], i) && multiset(sorted[..]) == multiset(old(sorted[..]))
    {
      BringLargest(sorted, i);
      DescendingNext(sorted[..], i);
    }
  }

  // ----- the report

  ghost function Functions(c: State, projectId: Value): set<Id> {
    Matching(c, "Function", map["project_id" := projectId])
  }

  /** An entry for every function that has callers. */
  ghost predicate CountsOf(c: State, fns: set<Id>, counts: map<Id, nat>) {
    && (forall x :: x in counts <==> x in fns && TransitiveCallers(c, x) != {})
    && (forall x :: x in counts ==> counts[x] == |TransitiveCallers(c, x)|)
  }

  lemma CountFunction(c: State, fns: set<Id>, counts: map<Id, nat>, x: Id, r: map<Id, nat>)
    requires CountsOf(c, fns, counts) && r == var n := |TransitiveCallers(c, x)|;
             if n == 0 then counts else counts[x := n]
    ensures CountsOf(c, fns + {x}, r)
  {
    hide TransitiveCallers;
  }

  method CountAll(repo: MemoryRepository, projectId: Value) returns (counts: map<Id, nat>)
    requires Keyed(repo.Contents())
    ensures CountsOf(repo.Contents(), Functions(repo.Contents(), projectId), counts)
  {
    ghost var c := repo.Contents();
    var fns := repo.FindNodes("Function", map["project_id" := projectId]);
    ListingMembers(Functions(c, projectId));
    counts := map[];
    hide TransitiveCallers;
    assert CountsOf(c, Elements(fns[..0]), counts);
    for i := 0 to |fns|
      invariant CountsOf(c, Elements(fns[..i]), counts)
    {
      var fn := fns[i];
      assert fn in fns;
      assert forall k :: 0 <= k < i ==> fns[k] != fn;
      assert fn !in Elements(fns[..i]);
      var r := CountCallers(repo, fn, counts);
      CountFunction(c, Elements(fns[..i]), counts, fn, r);
      assert Elements(fns[..i + 1]) == Elements(fns[..i]) + {fn} by {
        assert fns[..i + 1] == fns[..i] + [fn];
      }
      counts := r;
    }
    assert fns[..|fns|] == fns;
  }

  /** The entries of a map, in any order. */
  method Collect(counts: map<Id, nat>) returns (es: seq<Entry>)
    ensures Listed(counts, counts.Keys, es)
  {
    es := [];
    var todo := counts.Keys;
    while todo != {}
      invariant todo <= counts.Keys && Listed(counts, counts.Keys - todo, es)
      decreases |todo|
    {
      var k :| k in todo;
      todo := todo - {k};
      es := es + [Entry(k, counts[k])];
    }
  }

  /** Each of the keys is listed once, with its count. */
  ghost predicate Listed(counts: map<Id, nat>, keys: set<Id>, es: seq<Entry>) {
    && (forall e :: e in es ==> e.id in keys && e.id in counts && counts[e.id] == e.count)
    && (forall k :: k in keys && k in counts ==> Entry(k, counts[k]) in es)
    && Distinct(es)
  }

  lemma ListedReordered(counts: map<Id, nat>, a: seq<Entry>, b: seq<Entry>)
    requires Listed(counts, counts.Keys, a) && multiset(b) == multiset(a)
    ensures Listed(counts, counts.Keys, b)
  {
    SameMultiset(a, b);
    DistinctFromMultiset(a, b);
  }

  /** The functions with most transitive callers: no omitted one has more than a listed one. */
  ghost predicate TopCallers(c: State, fns: set<Id>, limit: int, top: seq<Entry>) {
    && (|top| <= limit || top == []) && Distinct(top) && DescendingUpto(top, |top|)
    && (forall e :: e in top ==> e.id in fns && e.count == |TransitiveCallers(c, e.id)| > 0)
    && (forall x :: x in fns && TransitiveCallers(c, x) != {} && Entry(x, |TransitiveCallers(c, x)|) !in top
                    ==> |top| >= limit && forall e :: e in top ==> e.count >= |TransitiveCallers(c, x)|)
  }

  ghost predicate IsFunction(c: State, projectId: Value, x: Id) {
    && x in c.nodes && c.nodes[x].kind == "Function"
    && (if "project_id" in c.nodes[x].props then c.nodes[x].props["project_id"] else Nil) == projectId
  }

  /** The same, read off nodes and edges. */
  ghost predicate Hottest(c: State, projectId: Value, limit: int, top: seq<Entry>) {
    && (|top| <= limit || top == []) && Distinct(top)
    && (forall i, j :: 0 <= i < j < |top| ==> top[i].count >= top[j].count)
    && (forall e :: e in top ==> IsFunction(c, projectId, e.id) && e.count == |Callers(c, e.id)| > 0)
    && (forall x :: IsFunction(c, projectId, x) && Callers(c, x) != {} && Entry(x, |Callers(c, x)|) !in top
                    ==> |top| >= limit && forall e :: e in top ==> e.count >= |Callers(c, x)|)
  }

  lemma IsFunctionIff(c: State, projectId: Value)
    ensures forall x :: x in Functions(c, projectId) <==> IsFunction(c, projectId, x)
  {
    var filter: Props := map["project_id" := projectId];
    assert filter["project_id"] == projectId;
    forall n: Node
      ensures Matches(n, "Function", filter) <==> n.kind == "Function" && Get(n.props, "project_id") == projectId
    {
    }
    hide Matches;
  }

  lemma TopIsHottest(c: State, projectId: Value, limit: int, top: seq<Entry>)
    requires TopCallers(c, Functions(c, projectId), limit, top)
    ensures Hottest(c, projectId, limit, top)
  {
    IsFunctionIff(c, projectId);
    hide Functions, TransitiveCallers, Callers;
    assert forall x :: IsFunction(c, projectId, x) ==> x in c.nodes;
    hide IsFunction;
    forall x | x in c.nodes ensures Callers(c, x) == TransitiveCallers(c, x) {
      CallersAre(c, x);
    }
  }

  lemma TopOfListed(c: State, fns: set<Id>, counts: map<Id, nat>, es: seq<Entry>, limit: int, n: nat)
    requires CountsOf(c, fns, counts) && Listed(counts, counts.Keys, es) && DescendingUpto(es, |es|)
    requires n == if limit < 0 then 0 else if limit < |es| then limit else |es|
    ensures TopCallers(c, fns, limit, es[..n])
  {
    hide TransitiveCallers;
    var top := es[..n];
    assert forall e :: e in top ==> e in es;
    forall x | x in fns && TransitiveCallers(c, x) != {} && Entry(x, |TransitiveCallers(c, x)|) !in top
      ensures n >= limit && forall e :: e in top ==> e.count >= |TransitiveCallers(c, x)|
    {
      var q :| 0 <= q < |es| && es[q] == Entry(x, counts[x]);
      assert q >= n;
    }
  }

  /** `HotPaths`: the functions with the most transitive callers first. */
  method HotPaths(repo: MemoryRepository, projectId: Value, limit: int) returns (top: seq<Entry>)
    requires Keyed(repo.Contents())
    ensures TopCallers(repo.Contents(), Functions(repo.Contents(), projectId), limit, top)
    ensures Hottest(repo.Contents(), projectId, limit, top)
  {
    hide Hottest;
    var counts := CountAll(repo, projectId);
    var es := Collect(counts);
    hide TransitiveCallers, Matching, CountsOf, Listed, DescendingUpto, TopCallers;
    var sorted := new Entry[|es|](i requires 0 <= i < |es| => es[i]);
    assert sorted[..] == es;
    SortDescending(sorted);
    ListedReordered(counts, es, sorted[..]);
    var n := if limit < 0 then 0 else if limit < sorted.Length then limit else sorted.Length;
    top := [];
    for i := 0 to n
      invariant top == sorted[..i]
    {
      top := top + [sorted[i]];
    }
    TopOfListed(repo.Contents(), Functions(repo.Contents(), projectId), counts, sorted[..], limit, n);
    assert sorted[..][..n] == sorted[..n];
    TopIsHottest(repo.Contents(), projectId, limit, top);
  }
}
