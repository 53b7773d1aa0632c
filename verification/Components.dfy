/** `sccs`: Tarjan's strongly connected components of the module graph. */
module Components {
  import opened Order
  import opened Reachability

  // ----- what a list of components must be

  ghost function Members(out: seq<seq<string>>): set<string> {
    set c, x | c in out && x in c :: x
  }

  /** No vertex is listed twice, neither inside a component nor in two components. */
  ghost predicate Disjoint(out: seq<seq<string>>) {
    && (forall i :: 0 <= i < |out| ==> Distinct(out[i]) && out[i] != [])
    && (forall i, j, x :: 0 <= i < j < |out| && x in out[i] ==> x !in out[j])
  }

  ghost predicate StronglyConnected(adj: Graph, out: seq<seq<string>>) {
    forall i, x, y :: 0 <= i < |out| && x in out[i] && y in out[i] ==> Reach(adj, x, y)
  }

  ghost predicate InSome(out: seq<seq<string>>, n: int, y: string) {
    exists j :: 0 <= j < n && j < |out| && y in out[j]
  }

  /** Every edge leads to the same or an earlier component. */
  ghost predicate ReverseTopological(adj: Graph, out: seq<seq<string>>) {
    forall i, x, y :: 0 <= i < |out| && x in out[i] && y in Succ(adj, x) ==> InSome(out, i + 1, y)
  }

  ghost predicate Together(out: seq<seq<string>>, x: string, y: string) {
    exists i :: 0 <= i < |out| && x in out[i] && y in out[i]
  }

  ghost predicate ReachedFrom(adj: Graph, nodes: seq<string>, x: string) {
    exists n :: n in nodes && Reach(adj, n, x)
  }

  ghost predicate Emitted(adj: Graph, out: seq<seq<string>>) {
    Disjoint(out) && StronglyConnected(adj, out) && ReverseTopological(adj, out)
  }

  /** With components emitted in reverse topological order, mutual reachability and
      sharing a component are the same thing. */
  lemma TogetherIffMutual(adj: Graph, out: seq<seq<string>>, x: string, y: string)
    requires Emitted(adj, out) && x in Members(out) && y in Members(out)
    ensures Together(out, x, y) <==> Reach(adj, x, y) && Reach(adj, y, x)
  {
    if Reach(adj, x, y) && Reach(adj, y, x) {
      var i :| 0 <= i < |out| && x in out[i];
      var j :| 0 <= j < |out| && y in out[j];
      ReachGoesBack(adj, out, i, x, y);
      ReachGoesBack(adj, out, j, y, x);
    }
  }

  ghost function Upto(out: seq<seq<string>>, i: nat): set<string>
    requires i <= |out|
  {
    Members(out[..i])
  }

  lemma UptoClosed(adj: Graph, out: seq<seq<string>>, i: nat)
    requires i <= |out| && ReverseTopological(adj, out)
    ensures Closed(adj, Upto(out, i))
  {
    forall x, y | x in Upto(out, i) && y in Succ(adj, x) ensures y in Upto(out, i) {
      var c :| c in out[..i] && x in c;
      var k :| 0 <= k < i && out[k] == c;
      assert InSome(out, k + 1, y);
      var j :| 0 <= j < k + 1 && j < |out| && y in out[j];
      assert out[..i][j] == out[j];
    }
  }

  lemma ReachGoesBack(adj: Graph, out: seq<seq<string>>, i: nat, x: string, y: string)
    requires Emitted(adj, out) && i < |out| && x in out[i] && Reach(adj, x, y)
    ensures InSome(out, i + 1, y)
  {
    UptoClosed(adj, out, i + 1);
    assert out[..i + 1][i] == out[i];
    ClosedKeepsReach(adj, Upto(out, i + 1), x, y);
    var c :| c in out[..i + 1] && y in c;
    var k :| 0 <= k < i + 1 && out[k] == c;
  }

  // ----- the invariant of the depth-first search

  /** `index`, `stack` and `out` of the running search; `gray` are the vertices
      whose call to `visit` is still open. */
  datatype Search = Search(index: map<string, nat>, stack: seq<string>, out: seq<seq<string>>, next: nat)

  ghost predicate Numbered(s: Search) {
    && (forall x :: x in s.index ==> s.index[x] < s.next)
    && (forall x, y :: x in s.index && y in s.index && s.index[x] == s.index[y] ==> x == y)
    && (forall i :: 0 <= i < |s.stack| ==> s.stack[i] in s.index)
    && (forall i, j :: 0 <= i < j < |s.stack| ==> s.index[s.stack[i]] < s.index[s.stack[j]])
  }

  ghost predicate Partitioned(s: Search) {
    && s.index.Keys == Members(s.out) + Elements(s.stack)
    && Members(s.out) !! Elements(s.stack)
  }

  ghost predicate StackReaches(adj: Graph, stack: seq<string>) {
    forall i, j :: 0 <= i <= j < |stack| ==> Reach(adj, stack[i], stack[j])
  }

  ghost predicate HasGray(adj: Graph, s: Search, gray: set<string>, y: string)
    requires Numbered(s) && y in s.index
  {
    exists g :: g in gray && g in s.index && s.index[g] <= s.index[y] && Reach(adj, y, g)
  }

  /** Everything on the stack leads back to an open call. */
  ghost predicate Grays(adj: Graph, s: Search, gray: set<string>)
    requires Numbered(s)
  {
    && (forall g :: g in gray ==> g in s.stack)
    && (forall i :: 0 <= i < |s.stack| ==> HasGray(adj, s, gray, s.stack[i]))
  }

  /** The successors of a finished vertex have all been visited. */
  ghost predicate Blacks(adj: Graph, s: Search, gray: set<string>) {
    forall x, w :: x in s.stack && x !in gray && w in Succ(adj, x) ==> w in s.index
  }

  ghost predicate Inv(adj: Graph, s: Search, gray: set<string>) {
    && Numbered(s)
    && Partitioned(s)
    && Emitted(adj, s.out)
    && StackReaches(adj, s.stack)
    && Grays(adj, s, gray)
    && Blacks(adj, s, gray)
  }

  /** What `low[v]` knows once the successors in `done` have been handled; `h` is the
      height of the stack below v. */
  ghost predicate LowKnows(adj: Graph, s: Search, h: nat, done: set<string>, low: nat)
    requires Numbered(s)
  {
    && h < |s.stack|
    && low <= s.index[s.stack[h]]
    && LowReached(adj, s, h, low)
    && (forall k :: 0 <= k < h && s.stack[k] in done ==> low <= s.index[s.stack[k]])
    && LowBelow(adj, s, h + 1, h, low)
  }

  ghost predicate LowReached(adj: Graph, s: Search, h: nat, low: nat)
    requires Numbered(s) && h < |s.stack|
  {
    exists k :: 0 <= k <= h && s.index[s.stack[k]] == low && Reach(adj, s.stack[h], s.stack[k])
  }

  /** No edge from the stack at `from` or above enters the stack below h under `low`. */
  ghost predicate LowBelow(adj: Graph, s: Search, from: nat, h: nat, low: nat)
    requires Numbered(s) && h <= |s.stack|
  {
    forall i, k :: from <= i < |s.stack| && 0 <= k < h && s.stack[k] in Succ(adj, s.stack[i])
                   ==> low <= s.index[s.stack[k]]
  }

  function Push(s: Search, v: string): Search {
    Search(s.index[v := s.next], s.stack + [v], s.out, s.next + 1)
  }

  lemma PushNumbered(s: Search, v: string)
    requires Numbered(s) && v !in s.index
    ensures Numbered(Push(s, v))
  {
  }

  lemma PushReaches(adj: Graph, s: Search, gray: set<string>, v: string)
    requires Numbered(s) && StackReaches(adj, s.stack) && Grays(adj, s, gray) && v !in s.index
    requires forall g :: g in gray ==> Reach(adj, g, v)
    ensures StackReaches(adj, s.stack + [v])
  {
    ReachSelf(adj, v);
    forall i | 0 <= i < |s.stack| ensures Reach(adj, s.stack[i], v) {
      var y := s.stack[i];
      assert HasGray(adj, s, gray, y);
      var g :| g in gray && g in s.index && s.index[g] <= s.index[y] && Reach(adj, y, g);
      ReachTransitive(adj, y, g, v);
    }
  }

  lemma PushGrays(adj: Graph, s: Search, gray: set<string>, v: string)
    requires Numbered(s) && Numbered(Push(s, v)) && Grays(adj, s, gray) && v !in s.index
    ensures Grays(adj, Push(s, v), gray + {v})
  {
    var t := Push(s, v);
    ReachSelf(adj, v);
    assert t.stack[|s.stack|] == v;
    hide Reach;
    assert forall g :: g in gray + {v} ==> g in t.stack by {
      assert forall g :: g in s.stack ==> g in t.stack;
    }
    forall i | 0 <= i < |t.stack| ensures HasGray(adj, t, gray + {v}, t.stack[i]) {
      var y := t.stack[i];
      if i < |s.stack| {
        assert HasGray(adj, s, gray, y);
        var g :| g in gray && g in s.index && s.index[g] <= s.index[y] && Reach(adj, y, g);
        assert g in gray + {v} && t.index[g] <= t.index[y];
      }
    }
  }

  lemma PushKeepsInv(adj: Graph, s: Search, gray: set<string>, v: string)
    requires Inv(adj, s, gray) && v !in s.index
    requires forall g :: g in gray ==> Reach(adj, g, v)
    ensures Inv(adj, Push(s, v), gray + {v})
    ensures LowKnows(adj, Push(s, v), |s.stack|, {}, s.next)
  {
    var t := Push(s, v);
    PushNumbered(s, v);
    PushReaches(adj, s, gray, v);
    PushGrays(adj, s, gray, v);
    assert Elements(t.stack) == Elements(s.stack) + {v};
    assert t.stack[|s.stack|] == v;
    ReachSelf(adj, v);
    assert LowReached(adj, t, |s.stack|, s.next);
  }

  // ----- one call of `visit`

  ghost predicate Extends(s: Search, t: Search) {
    && s.stack <= t.stack
    && s.out <= t.out
    && s.next <= t.next
    && (forall x :: x in s.index ==> x in t.index && t.index[x] == s.index[x])
    && (forall x :: x in t.index && x !in s.index ==> s.next <= t.index[x])
  }

  ghost predicate NewReachedFrom(adj: Graph, s: Search, t: Search, v: string) {
    forall x :: x in t.index && x !in s.index ==> Reach(adj, v, x)
  }

  /** v either closed its own component, or leads to a lower vertex still on the stack. */
  ghost predicate LowMeans(adj: Graph, s: Search, t: Search, v: string, low: nat)
    requires Numbered(t) && Extends(s, t)
  {
    && v in t.index
    && ((t.stack == s.stack && low == t.index[v])
        || exists k :: 0 <= k < |s.stack| && t.index[s.stack[k]] == low && Reach(adj, v, s.stack[k]))
    && LowBelow(adj, t, |s.stack|, |s.stack|, low)
  }

  ghost predicate Visited(adj: Graph, s: Search, t: Search, gray: set<string>, v: string, low: nat) {
    && Inv(adj, t, gray)
    && Extends(s, t)
    && NewReachedFrom(adj, s, t, v)
    && LowMeans(adj, s, t, v, low)
  }

  /** `low[v] = min(low[v], low[w])` after a recursive call on the successor w. */
  lemma LowAfterCall(adj: Graph, t: Search, u: Search, h: nat, done: set<string>, low: nat, w: string, lowW: nat)
    requires Numbered(t) && Numbered(u) && Extends(t, u) && LowKnows(adj, t, h, done, low)
    requires w !in t.index && w in Succ(adj, t.stack[h]) && LowMeans(adj, t, u, w, lowW)
    ensures LowKnows(adj, u, h, done + {w}, Min(low, lowW))
  {
    LowReachedAfterCall(adj, t, u, h, low, w, lowW);
    LowBelowGrows(adj, t, u, h, low, lowW);
    hide LowReached, LowBelow, Reach;
    assert u.stack[h] == t.stack[h] && t.stack[h] in t.index;
    assert forall k :: 0 <= k < h ==> u.stack[k] == t.stack[k] && u.stack[k] in t.index;
  }

  lemma LowReachedAfterCall(adj: Graph, t: Search, u: Search, h: nat, low: nat, w: string, lowW: nat)
    requires Numbered(t) && Numbered(u) && Extends(t, u) && h < |t.stack|
    requires low <= t.index[t.stack[h]] && LowReached(adj, t, h, low)
    requires w !in t.index && w in Succ(adj, t.stack[h]) && LowMeans(adj, t, u, w, lowW)
    ensures LowReached(adj, u, h, Min(low, lowW))
  {
    var v := t.stack[h];
    assert u.stack[h] == v;
    if lowW < low {
      var k :| 0 <= k < |t.stack| && u.index[t.stack[k]] == lowW && Reach(adj, w, t.stack[k]);
      ReachEdge(adj, v, w);
      ReachTransitive(adj, v, w, t.stack[k]);
      assert u.stack[k] == t.stack[k] && k <= h;
    } else {
      var k :| 0 <= k <= h && t.index[t.stack[k]] == low && Reach(adj, v, t.stack[k]);
      assert u.stack[k] == t.stack[k];
    }
  }

  lemma LowBelowGrows(adj: Graph, t: Search, u: Search, h: nat, low: nat, lowW: nat)
    requires Numbered(t) && Numbered(u) && Extends(t, u) && h < |t.stack|
    requires LowBelow(adj, t, h + 1, h, low) && LowBelow(adj, u, |t.stack|, |t.stack|, lowW)
    ensures LowBelow(adj, u, h + 1, h, Min(low, lowW))
  {
    forall i, k | h + 1 <= i < |u.stack| && 0 <= k < h && u.stack[k] in Succ(adj, u.stack[i])
      ensures Min(low, lowW) <= u.index[u.stack[k]]
    {
      assert u.stack[k] == t.stack[k];
      if i < |t.stack| {
        assert u.stack[i] == t.stack[i];
      }
    }
  }

  /** `low[v] = min(low[v], index[w])` for a successor still on the stack. */
  lemma LowAfterBackEdge(adj: Graph, t: Search, h: nat, done: set<string>, low: nat, w: string)
    requires Numbered(t) && LowKnows(adj, t, h, done, low)
    requires w in t.stack && w in Succ(adj, t.stack[h])
    ensures LowKnows(adj, t, h, done + {w}, Min(low, t.index[w]))
  {
    var k :| 0 <= k < |t.stack| && t.stack[k] == w;
    if t.index[w] < low {
      ReachEdge(adj, t.stack[h], w);
      assert k <= h;
      assert LowReached(adj, t, h, t.index[w]);
    }
  }

  lemma LowAfterOldEdge(adj: Graph, t: Search, h: nat, done: set<string>, low: nat, w: string)
    requires Numbered(t) && LowKnows(adj, t, h, done, low) && w !in t.stack
    ensures LowKnows(adj, t, h, done + {w}, low)
  {
  }

  /** v leads below itself: it stays on the stack, now finished. */
  lemma FinishKeeping(adj: Graph, s: Search, t: Search, gray: set<string>, v: string, low: nat)
    requires Inv(adj, s, gray) && v !in s.index && Inv(adj, t, gray + {v})
    requires Extends(Push(s, v), t) && Extends(s, t) && NewReachedFrom(adj, s, t, v)
    requires LowKnows(adj, t, |s.stack|, Succ(adj, v), low) && low < t.index[v]
    requires forall w :: w in Succ(adj, v) ==> w in t.index
    ensures Visited(adj, s, t, gray, v, low)
  {
    assert t.stack[|s.stack|] == v;
    FinishKeepingLow(adj, s, t, v, low);
    FinishKeepingGrays(adj, s, t, gray, v, low);
    FinishKeepingBlacks(adj, t, gray, v);
  }

  lemma FinishKeepingLow(adj: Graph, s: Search, t: Search, v: string, low: nat)
    requires Numbered(s) && Numbered(t) && v !in s.index && Extends(Push(s, v), t) && Extends(s, t)
    requires LowKnows(adj, t, |s.stack|, Succ(adj, v), low) && low < t.index[v]
    ensures LowMeans(adj, s, t, v, low)
  {
    var h := |s.stack|;
    assert t.stack[h] == v;
    assert LowReached(adj, t, h, low);
    var k :| 0 <= k <= h && t.index[t.stack[k]] == low && Reach(adj, v, t.stack[k]);
    assert k < h && t.stack[k] == s.stack[k];
    LowBelowFrom(adj, t, h, low);
  }

  /** Below v there is an open call that v leads to. */
  lemma LowLeadsToGray(adj: Graph, s: Search, t: Search, gray: set<string>, v: string, low: nat) returns (g: string)
    requires Numbered(s) && Numbered(t) && Extends(s, t) && Grays(adj, s, gray)
    requires LowMeans(adj, s, t, v, low) && low < t.index[v]
    ensures g in gray && g in t.index && t.index[g] < t.index[v] && Reach(adj, v, g)
  {
    var k :| 0 <= k < |s.stack| && t.index[s.stack[k]] == low && Reach(adj, v, s.stack[k]);
    var y := s.stack[k];
    assert HasGray(adj, s, gray, y);
    g :| g in gray && g in s.index && s.index[g] <= s.index[y] && Reach(adj, y, g);
    ReachTransitive(adj, v, y, g);
  }

  lemma GraySwitch(adj: Graph, t: Search, gray: set<string>, v: string, g: string, z: string)
    requires Numbered(t) && z in t.index && v in t.index && HasGray(adj, t, gray + {v}, z)
    requires g in gray && g in t.index && t.index[g] < t.index[v] && Reach(adj, v, g)
    ensures HasGray(adj, t, gray, z)
  {
    var f :| f in gray + {v} && f in t.index && t.index[f] <= t.index[z] && Reach(adj, z, f);
    if f == v {
      ReachTransitive(adj, z, v, g);
    }
  }

  lemma FinishKeepingGrays(adj: Graph, s: Search, t: Search, gray: set<string>, v: string, low: nat)
    requires Numbered(s) && Numbered(t) && Extends(s, t)
    requires Grays(adj, s, gray) && Grays(adj, t, gray + {v})
    requires LowMeans(adj, s, t, v, low) && low < t.index[v]
    ensures Grays(adj, t, gray)
  {
    var g := LowLeadsToGray(adj, s, t, gray, v, low);
    forall i | 0 <= i < |t.stack| ensures HasGray(adj, t, gray, t.stack[i]) {
      assert HasGray(adj, t, gray + {v}, t.stack[i]);
      GraySwitch(adj, t, gray, v, g, t.stack[i]);
    }
  }

  lemma FinishKeepingBlacks(adj: Graph, t: Search, gray: set<string>, v: string)
    requires Blacks(adj, t, gray + {v}) && forall w :: w in Succ(adj, v) ==> w in t.index
    ensures Blacks(adj, t, gray)
  {
  }

  lemma LowBelowFrom(adj: Graph, t: Search, h: nat, low: nat)
    requires Numbered(t) && h < |t.stack| && LowKnows(adj, t, h, Succ(adj, t.stack[h]), low)
    ensures LowBelow(adj, t, h, h, low)
  {
  }

  // ----- closing a component

  ghost predicate CompOf(stack: seq<string>, h: nat, comp: seq<string>)
    requires h <= |stack|
  {
    comp != [] && Distinct(comp) && forall x :: x in comp <==> x in stack[h..]
  }

  function Pop(t: Search, h: nat, comp: seq<string>): Search
    requires h <= |t.stack|
  {
    Search(t.index, t.stack[..h], t.out + [comp], t.next)
  }

  /** The edges seen when v is about to be popped: nothing from v upwards leads below v. */
  ghost predicate NothingLeadsBelow(adj: Graph, t: Search, gray: set<string>, h: nat, v: string) {
    && Numbered(t)
    && Partitioned(t)
    && Blacks(adj, t, gray + {v})
    && h < |t.stack| && t.stack[h] == v
    && (forall g :: g in gray ==> g in t.stack[..h])
    && LowBelow(adj, t, h, h, t.index[v])
    && (forall w :: w in Succ(adj, v) ==> w in t.index)
  }

  ghost predicate StaysAbove(adj: Graph, t: Search, h: nat)
    requires h <= |t.stack|
  {
    forall i, y :: h <= i < |t.stack| && y in Succ(adj, t.stack[i]) ==> y in Members(t.out) || y in t.stack[h..]
  }

  lemma AboveVertexNotGray(t: Search, gray: set<string>, h: nat, i: nat)
    requires Numbered(t) && h <= i < |t.stack| && forall g :: g in gray ==> g in t.stack[..h]
    ensures t.stack[i] !in gray
  {
    assert forall k :: 0 <= k < h ==> t.stack[..h][k] == t.stack[k] && t.index[t.stack[k]] < t.index[t.stack[i]];
  }

  lemma SuccessorVisited(adj: Graph, t: Search, gray: set<string>, h: nat, v: string, i: nat, y: string)
    requires NothingLeadsBelow(adj, t, gray, h, v) && h <= i < |t.stack| && y in Succ(adj, t.stack[i])
    ensures y in t.index
  {
    AboveVertexNotGray(t, gray, h, i);
    if t.stack[i] != v {
      assert t.stack[i] in t.stack && t.stack[i] !in gray + {v};
    }
  }

  lemma SuccessorsStayAbove(adj: Graph, t: Search, gray: set<string>, h: nat, v: string)
    requires NothingLeadsBelow(adj, t, gray, h, v)
    ensures StaysAbove(adj, t, h)
  {
    assert forall k :: 0 <= k < h ==> t.index[t.stack[k]] < t.index[t.stack[h]];
    forall i, y | h <= i < |t.stack| && y in Succ(adj, t.stack[i])
      ensures y in Members(t.out) || y in t.stack[h..]
    {
      SuccessorVisited(adj, t, gray, h, v, i, y);
      if y !in Members(t.out) {
        assert y in Elements(t.stack);
        var k :| 0 <= k < |t.stack| && t.stack[k] == y;
        assert k >= h;
        assert t.stack[h..][k - h] == y;
      }
    }
  }

  lemma PoppedClosed(adj: Graph, t: Search, h: nat)
    requires h <= |t.stack| && StaysAbove(adj, t, h) && ReverseTopological(adj, t.out)
    ensures Closed(adj, Members(t.out) + Elements(t.stack[h..]))
  {
    var all := Members(t.out) + Elements(t.stack[h..]);
    assert t.out[..|t.out|] == t.out;
    UptoClosed(adj, t.out, |t.out|);
    forall x, y | x in all && y in Succ(adj, x) ensures y in all {
      if x in Elements(t.stack[h..]) {
        var i :| 0 <= i < |t.stack[h..]| && t.stack[h..][i] == x;
        assert t.stack[h + i] == x;
      }
    }
  }

  lemma GrayAbove(t: Search, gray: set<string>, h: nat, v: string, f: string)
    requires Numbered(t) && Partitioned(t) && h < |t.stack| && forall g :: g in gray ==> g in t.stack[..h]
    requires f in gray + {v} && f in t.stack && f in Members(t.out) + Elements(t.stack[h..])
    ensures f == v
  {
    assert f in Elements(t.stack);
    assert f in t.stack[h..];
    var k :| 0 <= k < |t.stack[h..]| && t.stack[h..][k] == f;
    AboveVertexNotGray(t, gray, h, h + k);
  }

  lemma PoppedLeadsBack(adj: Graph, t: Search, gray: set<string>, h: nat, v: string, i: nat)
    requires Numbered(t) && Partitioned(t) && h <= i < |t.stack| && t.stack[h] == v
    requires forall g :: g in gray ==> g in t.stack[..h]
    requires HasGray(adj, t, gray + {v}, t.stack[i])
    requires Closed(adj, Members(t.out) + Elements(t.stack[h..]))
    ensures Reach(adj, t.stack[i], v)
  {
    var z := t.stack[i];
    var f :| f in gray + {v} && f in t.index && t.index[f] <= t.index[z] && Reach(adj, z, f);
    assert t.stack[h..][i - h] == z;
    ClosedKeepsReach(adj, Members(t.out) + Elements(t.stack[h..]), z, f);
    if f in gray {
      assert f in t.stack[..h];
      GrayAbove(t, gray, h, v, f);
    }
  }

  lemma PoppedAllLeadBack(adj: Graph, t: Search, gray: set<string>, h: nat, v: string)
    requires Inv(adj, t, gray + {v}) && NothingLeadsBelow(adj, t, gray, h, v)
    ensures forall i :: h <= i < |t.stack| ==> Reach(adj, t.stack[i], v)
  {
    SuccessorsStayAbove(adj, t, gray, h, v);
    PoppedClosed(adj, t, h);
    forall i | h <= i < |t.stack| ensures Reach(adj, t.stack[i], v) {
      assert HasGray(adj, t, gray + {v}, t.stack[i]);
      PoppedLeadsBack(adj, t, gray, h, v, i);
    }
  }

  lemma PoppedStronglyConnected(adj: Graph, stack: seq<string>, h: nat, comp: seq<string>)
    requires StackReaches(adj, stack) && h < |stack| && CompOf(stack, h, comp)
    requires forall i :: h <= i < |stack| ==> Reach(adj, stack[i], stack[h])
    ensures forall x, y :: x in comp && y in comp ==> Reach(adj, x, y)
  {
    forall x, y | x in comp && y in comp ensures Reach(adj, x, y) {
      var i :| 0 <= i < |stack[h..]| && stack[h..][i] == x;
      var j :| 0 <= j < |stack[h..]| && stack[h..][j] == y;
      assert Reach(adj, stack[h + i], stack[h]) && Reach(adj, stack[h], stack[h + j]);
      ReachTransitive(adj, x, stack[h], y);
    }
  }

  lemma PoppedDisjoint(t: Search, h: nat, comp: seq<string>)
    requires Partitioned(t) && Disjoint(t.out) && h <= |t.stack| && CompOf(t.stack, h, comp)
    ensures Disjoint(t.out + [comp])
  {
    var out := t.out + [comp];
    assert forall x :: x in comp ==> x in Elements(t.stack);
    assert forall i, x :: 0 <= i < |t.out| && x in t.out[i] ==> t.out[i] in t.out && x in Members(t.out);
  }

  lemma PoppedOrder(adj: Graph, t: Search, h: nat, comp: seq<string>)
    requires h <= |t.stack| && StaysAbove(adj, t, h) && ReverseTopological(adj, t.out) && CompOf(t.stack, h, comp)
    ensures ReverseTopological(adj, t.out + [comp])
  {
    var out := t.out + [comp];
    forall i, x, y | 0 <= i < |out| && x in out[i] && y in Succ(adj, x) ensures InSome(out, i + 1, y) {
      if i < |t.out| {
        assert InSome(t.out, i + 1, y);
        var j :| 0 <= j < i + 1 && j < |t.out| && y in t.out[j];
        assert out[j] == t.out[j];
      } else {
        assert out[i] == comp;
        var k :| 0 <= k < |t.stack[h..]| && t.stack[h..][k] == x;
        assert t.stack[h + k] == x;
        if y in Members(t.out) {
          var c :| c in t.out && y in c;
          var j :| 0 <= j < |t.out| && t.out[j] == c;
          assert out[j] == c;
        }
      }
    }
  }

  lemma StronglyConnectedGrows(adj: Graph, out: seq<seq<string>>, comp: seq<string>)
    requires StronglyConnected(adj, out) && forall x, y :: x in comp && y in comp ==> Reach(adj, x, y)
    ensures StronglyConnected(adj, out + [comp])
  {
  }

  lemma PoppedEmitted(adj: Graph, t: Search, gray: set<string>, h: nat, v: string, comp: seq<string>)
    requires Inv(adj, t, gray + {v}) && NothingLeadsBelow(adj, t, gray, h, v) && CompOf(t.stack, h, comp)
    ensures Emitted(adj, t.out + [comp])
  {
    PoppedDisjoint(t, h, comp);
    SuccessorsStayAbove(adj, t, gray, h, v);
    PoppedOrder(adj, t, h, comp);
    PoppedAllLeadBack(adj, t, gray, h, v);
    PoppedStronglyConnected(adj, t.stack, h, comp);
    StronglyConnectedGrows(adj, t.out, comp);
  }

  lemma PoppedPartitioned(t: Search, h: nat, comp: seq<string>)
    requires Numbered(t) && Partitioned(t) && h <= |t.stack| && CompOf(t.stack, h, comp)
    ensures Partitioned(Pop(t, h, comp))
  {
    var u := Pop(t, h, comp);
    assert t.stack == t.stack[..h] + t.stack[h..];
    assert Elements(t.stack) == Elements(u.stack) + Elements(comp);
    assert Members(u.out) == Members(t.out) + Elements(comp);
    forall x | x in t.stack[..h] ensures x !in comp {
      var i :| 0 <= i < h && t.stack[i] == x;
      assert forall k :: h <= k < |t.stack| ==> t.index[t.stack[i]] < t.index[t.stack[k]];
    }
  }

  lemma GrayBelow(adj: Graph, t: Search, gray: set<string>, v: string, y: string)
    requires Numbered(t) && v in t.index && y in t.index && t.index[y] < t.index[v]
    requires HasGray(adj, t, gray + {v}, y)
    ensures HasGray(adj, t, gray, y)
  {
    var f :| f in gray + {v} && f in t.index && t.index[f] <= t.index[y] && Reach(adj, y, f);
    assert f in gray;
  }

  lemma PopNumbered(t: Search, h: nat, comp: seq<string>)
    requires Numbered(t) && h <= |t.stack|
    ensures Numbered(Pop(t, h, comp))
  {
  }

  lemma PoppedGrays(adj: Graph, t: Search, u: Search, gray: set<string>, h: nat, v: string)
    requires Numbered(t) && Numbered(u) && t.index == u.index && h < |t.stack| && u.stack == t.stack[..h]
    requires Grays(adj, t, gray + {v}) && t.stack[h] == v
    requires forall g :: g in gray ==> g in u.stack
    ensures Grays(adj, u, gray)
  {
    forall i | 0 <= i < h ensures HasGray(adj, u, gray, u.stack[i]) {
      var y := u.stack[i];
      assert y == t.stack[i];
      GrayBelow(adj, t, gray, v, y);
      GraySameIndex(adj, t, u, gray, y);
    }
  }

  lemma GraySameIndex(adj: Graph, t: Search, u: Search, gray: set<string>, y: string)
    requires Numbered(t) && Numbered(u) && t.index == u.index && y in t.index && HasGray(adj, t, gray, y)
    ensures HasGray(adj, u, gray, y)
  {
  }

  lemma PoppedBlacks(adj: Graph, t: Search, gray: set<string>, h: nat, v: string, comp: seq<string>)
    requires Numbered(t) && Blacks(adj, t, gray + {v}) && h < |t.stack| && t.stack[h] == v
    ensures Blacks(adj, Pop(t, h, comp), gray)
  {
    forall x, w | x in t.stack[..h] && x !in gray && w in Succ(adj, x) ensures w in t.index {
      var i :| 0 <= i < h && t.stack[i] == x;
      assert t.index[t.stack[i]] < t.index[t.stack[h]];
      assert x in t.stack && x !in gray + {v};
    }
  }

  lemma PoppedReaches(adj: Graph, stack: seq<string>, h: nat)
    requires h <= |stack| && StackReaches(adj, stack)
    ensures StackReaches(adj, stack[..h])
  {
    assert forall i :: 0 <= i < h ==> stack[..h][i] == stack[i];
  }

  lemma PopKeepsInv(adj: Graph, t: Search, gray: set<string>, h: nat, v: string, comp: seq<string>)
    requires Inv(adj, t, gray + {v}) && NothingLeadsBelow(adj, t, gray, h, v) && CompOf(t.stack, h, comp)
    ensures Inv(adj, Pop(t, h, comp), gray)
  {
    hide Emitted, Partitioned, StackReaches, Grays, Blacks, LowBelow, CompOf, Numbered;
    PoppedReaches(adj, t.stack, h);
    PoppedEmitted(adj, t, gray, h, v, comp);
    PoppedPartitioned(t, h, comp);
    PopNumbered(t, h, comp);
    PoppedGrays(adj, t, Pop(t, h, comp), gray, h, v);
    PoppedBlacks(adj, t, gray, h, v, comp);
  }

  // ----- the search itself

  ghost predicate InTheLoop(adj: Graph, s: Search, t: Search, gray: set<string>, v: string,
                            done: set<string>, low: nat) {
    && Inv(adj, t, gray + {v})
    && Extends(Push(s, v), t)
    && NewReachedFrom(adj, s, t, v)
    && LowKnows(adj, t, |s.stack|, done, low)
    && (forall w :: w in done ==> w in t.index)
  }

  lemma LoopFacts(adj: Graph, s: Search, t: Search, gray: set<string>, v: string, done: set<string>, low: nat)
    requires v !in s.index && InTheLoop(adj, s, t, gray, v, done, low)
    ensures Inv(adj, t, gray + {v}) && Extends(s, t) && v in t.index && low <= t.index[v]
    ensures |s.stack| < |t.stack| && t.stack[|s.stack|] == v && Distinct(t.stack)
    ensures s.index.Keys < t.index.Keys && done <= t.index.Keys
  {
    hide Emitted, Partitioned, StackReaches, Grays, Blacks, LowReached, LowBelow, NewReachedFrom;
    assert v in Push(s, v).index;
    assert t.stack[|s.stack|] == v;
  }

  lemma LoopGrayReach(adj: Graph, s: Search, t: Search, gray: set<string>, v: string, done: set<string>, low: nat,
                      w: string)
    requires v !in s.index && InTheLoop(adj, s, t, gray, v, done, low) && w in Succ(adj, v)
    requires Inv(adj, s, gray)
    ensures forall g :: g in gray + {v} ==> Reach(adj, g, w)
  {
    hide Emitted, Partitioned, HasGray, Blacks, LowReached, LowBelow, NewReachedFrom, Numbered, Reach;
    assert t.stack[|s.stack|] == v;
    assert t.stack[..|s.stack|] == s.stack;
    ReachEdge(adj, v, w);
    forall g | g in gray ensures Reach(adj, g, w) {
      var k :| 0 <= k < |s.stack| && s.stack[k] == g;
      assert Reach(adj, t.stack[k], t.stack[|s.stack|]);
      ReachTransitive(adj, g, v, w);
    }
  }

  lemma LoopAfterCall(adj: Graph, s: Search, t: Search, u: Search, gray: set<string>, v: string,
                      done: set<string>, low: nat, w: string, lowW: nat)
    requires v !in s.index && InTheLoop(adj, s, t, gray, v, done, low)
    requires w in Succ(adj, v) && w !in t.index && Visited(adj, t, u, gray + {v}, w, lowW)
    ensures InTheLoop(adj, s, u, gray, v, done + {w}, Min(low, lowW))
  {
    hide Emitted, Partitioned, StackReaches, Grays, Blacks, LowReached, LowBelow, NewReachedFrom, Numbered;
    assert w in u.index && t.stack[|s.stack|] == v;
    hide LowMeans;
    hide LowKnows;
    LowAfterCall(adj, t, u, |s.stack|, done, low, w, lowW);
    NewReachedAfterCall(adj, s, t, u, v, w);
    ExtendsTransitive(Push(s, v), t, u);
  }

  lemma ExtendsTransitive(s: Search, t: Search, u: Search)
    requires Extends(s, t) && Extends(t, u)
    ensures Extends(s, u)
  {
  }

  lemma LoopAfterVisited(adj: Graph, s: Search, t: Search, gray: set<string>, v: string,
                         done: set<string>, low: nat, w: string)
    requires v !in s.index && InTheLoop(adj, s, t, gray, v, done, low)
    requires w in Succ(adj, v) && w in t.index
    ensures InTheLoop(adj, s, t, gray, v, done + {w}, if w in t.stack then Min(low, t.index[w]) else low)
  {
    assert t.stack[|s.stack|] == v;
    if w in t.stack {
      LowAfterBackEdge(adj, t, |s.stack|, done, low, w);
    } else {
      LowAfterOldEdge(adj, t, |s.stack|, done, low, w);
    }
  }

  lemma NewReachedAfterCall(adj: Graph, s: Search, t: Search, u: Search, v: string, w: string)
    requires Extends(t, u) && NewReachedFrom(adj, s, t, v) && NewReachedFrom(adj, t, u, w) && w in Succ(adj, v)
    ensures NewReachedFrom(adj, s, u, v)
  {
    ReachEdge(adj, v, w);
    forall x | x in u.index && x !in s.index ensures Reach(adj, v, x) {
      if x !in t.index {
        ReachTransitive(adj, v, w, x);
      }
    }
  }

  lemma LoopEntry(adj: Graph, s: Search, gray: set<string>, v: string)
    requires Inv(adj, s, gray) && v !in s.index
    requires forall g :: g in gray ==> Reach(adj, g, v)
    ensures InTheLoop(adj, s, Push(s, v), gray, v, {}, s.next)
  {
    PushKeepsInv(adj, s, gray, v);
    ReachSelf(adj, v);
  }

  lemma ReadyToPop(adj: Graph, s: Search, t: Search, gray: set<string>, v: string)
    requires Inv(adj, s, gray) && v !in s.index && v in t.index
    requires InTheLoop(adj, s, t, gray, v, Succ(adj, v), t.index[v])
    ensures NothingLeadsBelow(adj, t, gray, |s.stack|, v) && t.stack[..|s.stack|] == s.stack
  {
    hide Emitted, StackReaches, LowReached, NewReachedFrom, Partitioned, HasGray, Blacks;
    var h := |s.stack|;
    assert t.stack[h] == v && t.stack[..h] == s.stack;
    LowBelowFrom(adj, t, h, t.index[v]);
    hide LowBelow, LowKnows, Numbered;
    assert Blacks(adj, t, gray + {v});
  }

  lemma LowMeansClosed(adj: Graph, s: Search, u: Search, v: string)
    requires Numbered(u) && Extends(s, u) && u.stack == s.stack && v in u.index
    ensures LowMeans(adj, s, u, v, u.index[v])
  {
  }

  /** The loop over the successors is over and `low[v] == index[v]`: pop v's component. */
  lemma LoopExitPopping(adj: Graph, s: Search, t: Search, gray: set<string>, v: string, comp: seq<string>)
    requires Inv(adj, s, gray) && v !in s.index && v in t.index
    requires InTheLoop(adj, s, t, gray, v, Succ(adj, v), t.index[v])
    requires CompOf(t.stack, |s.stack|, comp)
    ensures Visited(adj, s, Pop(t, |s.stack|, comp), gray, v, t.index[v])
  {
    hide Emitted, Partitioned, StackReaches, Grays, Blacks, LowKnows, LowBelow, LowReached, LowMeans, NothingLeadsBelow;
    ReadyToPop(adj, s, t, gray, v);
    PopKeepsInv(adj, t, gray, |s.stack|, v, comp);
    var u := Pop(t, |s.stack|, comp);
    assert Numbered(u) && Extends(s, u) && u.stack == s.stack && v in u.index;
    hide Numbered, Inv;
    LowMeansClosed(adj, s, u, v);
  }

  lemma LoopExitKeeping(adj: Graph, s: Search, t: Search, gray: set<string>, v: string, low: nat)
    requires Inv(adj, s, gray) && v !in s.index && v in t.index && low < t.index[v]
    requires InTheLoop(adj, s, t, gray, v, Succ(adj, v), low)
    ensures Visited(adj, s, t, gray, v, low)
  {
    hide Emitted, Partitioned, StackReaches, Grays, Blacks, LowReached, LowBelow, NewReachedFrom, Numbered, LowMeans;
    FinishKeeping(adj, s, t, gray, v, low);
  }

  class Tarjan {
    const adj: Graph
    var index: map<string, nat>
    var low: map<string, nat>
    var on: map<string, bool>
    var stack: seq<string>
    var out: seq<seq<string>>
    var next: nat

    constructor (adj: Graph)
      ensures Inv(adj, State(), {}) && Tidy() && this.adj == adj && index == map[] && out == []
    {
      this.adj := adj;
      index, low, on, stack, out, next := map[], map[], map[], [], [], 0;
    }

    ghost function State(): Search
      reads this
    {
      Search(index, stack, out, next)
    }

    /** `low` covers the visited vertices, `on` mirrors the stack, components are sorted. */
    ghost predicate Tidy()
      reads this
    {
      && low.Keys == index.Keys
      && (forall x :: x in on && on[x] <==> x in stack)
      && (forall c :: c in out ==> Sorted(c))
    }

    /** The opening lines of `visit`: number v and put it on the stack. */
    method Open(v: string)
      requires Tidy() && v !in index
      modifies this
      ensures Tidy() && State() == Push(old(State()), v) && low == old(low)[v := old(next)]
    {
      index, low := index[v := next], low[v := next];
      next := next + 1;
      stack := stack + [v];
      on := on[v := true];
    }

    /** The loop of `visit` that pops the stack down to v and emits what it popped. */
    method CloseComponent(v: string, ghost h: nat) returns (comp: seq<string>)
      requires h < |stack| && stack[h] == v && Distinct(stack)
      requires forall x :: x in on && on[x] <==> x in stack
      modifies `stack, `on, `out
      ensures stack == old(stack)[..h] && CompOf(old(stack), h, comp) && Sorted(comp)
      ensures out == old(out) + [comp]
      ensures forall x :: x in on && on[x] <==> x in stack
    {
      ghost var was := stack;
      comp := [];
      while true
        invariant h < |stack| <= |was| && stack == was[..|stack|]
        invariant multiset(comp) == multiset(was[|stack|..]) && out == old(out)
        invariant forall x :: x in on && on[x] <==> x in stack
        decreases |stack|
      {
        var w := stack[|stack| - 1];
        assert was[|stack| - 1..] == [w] + was[|stack|..];
        stack := stack[..|stack| - 1];
        on := on[w := false];
        comp := comp + [w];
        if w == v {
          break;
        }
      }
      assert stack == was[..h];
      assert Distinct(was[h..]);
      DistinctFromMultiset(was[h..], Sort(comp));
      SameMultiset(was[h..], Sort(comp));
      comp := Sort(comp);
      out := out + [comp];
    }

    /** Handles one successor w of v: the body of the loop in `visit`. */
    method HandleSuccessor(v: string, w: string, ghost s: Search, ghost gray: set<string>,
                           ghost done: set<string>, ghost all: set<string>)
      requires Tidy() && v in low && v !in s.index && w in Succ(adj, v)
      requires Inv(adj, s, gray) && InTheLoop(adj, s, State(), gray, v, done, low[v])
      requires Closed(adj, all) && v in all && index.Keys <= all
      modifies this
      decreases |all - index.Keys|, 1
      ensures Tidy() && index.Keys <= all && v in low
      ensures InTheLoop(adj, s, State(), gray, v, done + {w}, low[v])
      ensures forall x :: x in old(low) && x != v ==> x in low && low[x] == old(low[x])
      ensures old(index.Keys) <= index.Keys
    {
      hide Inv, InTheLoop, Visited, Numbered, Grays;
      ghost var t, lowV := State(), low[v];
      LoopFacts(adj, s, t, gray, v, done, lowV);
      if w !in index {
        LoopGrayReach(adj, s, t, gray, v, done, lowV, w);
        Visit(w, gray + {v}, all);
        LoopAfterCall(adj, s, t, State(), gray, v, done, lowV, w, low[w]);
        low := low[v := Min(low[v], low[w])];
      } else {
        LoopAfterVisited(adj, s, t, gray, v, done, lowV, w);
        if w in on && on[w] {
          low := low[v := Min(low[v], index[w])];
        }
      }
    }

    method Visit(v: string, ghost gray: set<string>, ghost all: set<string>)
      requires Inv(adj, State(), gray) && Tidy() && v !in index
      requires forall g :: g in gray ==> Reach(adj, g, v)
      requires Closed(adj, all) && v in all && index.Keys <= all
      modifies this
      decreases |all - index.Keys|, 0
      ensures Tidy() && index.Keys <= all && old(index.Keys) <= index.Keys
      ensures v in low && Visited(adj, old(State()), State(), gray, v, low[v])
      ensures forall x :: x in old(low) ==> x in low && low[x] == old(low[x])
    {
      hide Inv, InTheLoop, Visited, Numbered, Grays;
      ghost var s := State();
      LoopEntry(adj, s, gray, v);
      Open(v);
      var succ := SortedKeys(Succ(adj, v));
      var i := 0;
      assert Elements(succ[..0]) == {};
      while i < |succ|
        invariant 0 <= i <= |succ|
        invariant Tidy() && index.Keys <= all && v in low && s.index.Keys + {v} <= index.Keys
        invariant InTheLoop(adj, s, State(), gray, v, Elements(succ[..i]), low[v])
        invariant forall x :: x in old(low) ==> x in low && low[x] == old(low[x])
      {
        assert succ[i] in Elements(succ);
        assert Elements(succ[..i + 1]) == Elements(succ[..i]) + {succ[i]};
        SmallerSet(all - index.Keys, all - s.index.Keys);
        HandleSuccessor(v, succ[i], s, gray, Elements(succ[..i]), all);
        i := i + 1;
      }
      assert succ[..|succ|] == succ;
      ghost var t := State();
      LoopFacts(adj, s, t, gray, v, Succ(adj, v), low[v]);
      if low[v] == index[v] {
        ghost var comp := CloseComponent(v, |s.stack|);
        LoopExitPopping(adj, s, t, gray, v, comp);
      } else {
        LoopExitKeeping(adj, s, t, gray, v, low[v]);
      }
    }
  }

  /** What `sccs` promises about its result. */
  ghost predicate Condensation(adj: Graph, nodes: seq<string>, out: seq<seq<string>>) {
    && Emitted(adj, out)
    && (forall c :: c in out ==> Sorted(c))
    && (forall x :: x in Members(out) <==> ReachedFrom(adj, nodes, x))
  }

  ghost function Universe(nodes: seq<string>, adj: Graph): set<string> {
    Elements(nodes) + adj.Keys + set v, w | v in adj && w in adj[v] :: w
  }

  lemma UniverseClosed(nodes: seq<string>, adj: Graph)
    ensures Closed(adj, Universe(nodes, adj))
  {
  }

  lemma VisitedExtendsReached(adj: Graph, nodes: seq<string>, i: nat, s: Search, t: Search, low: nat)
    requires i < |nodes| && Visited(adj, s, t, {}, nodes[i], low)
    requires forall x :: x in s.index ==> ReachedFrom(adj, nodes, x)
    requires forall k :: 0 <= k < i ==> nodes[k] in s.index
    ensures forall x :: x in t.index ==> ReachedFrom(adj, nodes, x)
    ensures forall k :: 0 <= k < i + 1 ==> nodes[k] in t.index
    ensures Inv(adj, t, {})
  {
    VisitedReaches(adj, s, t, nodes[i], low);
    hide Visited, Inv, Reach;
    assert nodes[i] in nodes;
  }

  lemma VisitedReaches(adj: Graph, s: Search, t: Search, v: string, low: nat)
    requires Visited(adj, s, t, {}, v, low)
    ensures Inv(adj, t, {}) && s.index.Keys <= t.index.Keys && v in t.index
    ensures forall x :: x in t.index && x !in s.index ==> Reach(adj, v, x)
  {
    hide Inv, Reach;
  }

  /** With no call open the stack is empty, so everything visited has been emitted. */
  lemma NothingLeftOnStack(adj: Graph, nodes: seq<string>, t: Search)
    requires Inv(adj, t, {}) && forall n :: n in nodes ==> n in t.index
    requires forall x :: x in t.index ==> ReachedFrom(adj, nodes, x)
    ensures forall x :: x in Members(t.out) <==> ReachedFrom(adj, nodes, x)
  {
    hide Inv, Reach, Closed, Members;
    EmittedClosed(adj, t);
    forall x | ReachedFrom(adj, nodes, x) ensures x in Members(t.out) {
      var n :| n in nodes && Reach(adj, n, x);
      ClosedKeepsReach(adj, Members(t.out), n, x);
    }
  }

  lemma NoGray(adj: Graph, t: Search, y: string)
    requires Numbered(t) && y in t.index
    ensures !HasGray(adj, t, {}, y)
  {
  }

  lemma EmptyStack(adj: Graph, t: Search)
    requires Numbered(t) && Grays(adj, t, {})
    ensures t.stack == []
  {
    if t.stack != [] {
      NoGray(adj, t, t.stack[0]);
    }
  }

  lemma EmittedClosed(adj: Graph, t: Search)
    requires Inv(adj, t, {})
    ensures t.index.Keys == Members(t.out) && Closed(adj, Members(t.out))
  {
    hide Disjoint, StronglyConnected, StackReaches, Blacks, Reach;
    EmptyStack(adj, t);
    assert t.out[..|t.out|] == t.out;
    UptoClosed(adj, t.out, |t.out|);
  }

  method Sccs(nodes: seq<string>, adj: Graph) returns (out: seq<seq<string>>)
    ensures Condensation(adj, nodes, out)
  {
    hide Inv, Visited, ReachedFrom, Universe, Emitted;
    var search := new Tarjan(adj);
    UniverseClosed(nodes, adj);
    for i := 0 to |nodes|
      invariant search.adj == adj && search.Tidy() && Inv(adj, search.State(), {})
      invariant search.index.Keys <= Universe(nodes, adj)
      invariant forall x :: x in search.index ==> ReachedFrom(adj, nodes, x)
      invariant forall k :: 0 <= k < i ==> nodes[k] in search.index
    {
      if nodes[i] !in search.index {
        ghost var s := search.State();
        InUniverse(nodes, adj, i);
        search.Visit(nodes[i], {}, Universe(nodes, adj));
        VisitedExtendsReached(adj, nodes, i, s, search.State(), search.low[nodes[i]]);
      }
    }
    NothingLeftOnStack(adj, nodes, search.State());
    out := search.out;
    InvEmitted(adj, search.State());
  }

  lemma InUniverse(nodes: seq<string>, adj: Graph, i: nat)
    requires i < |nodes|
    ensures nodes[i] in Universe(nodes, adj)
  {
  }

  lemma InvEmitted(adj: Graph, t: Search)
    requires Inv(adj, t, {})
    ensures Emitted(adj, t.out)
  {
  }

  /** Two modules share a component exactly when each depends on the other, directly or not. */
  lemma SameComponentIffMutual(adj: Graph, nodes: seq<string>, out: seq<seq<string>>, x: string, y: string)
    requires Condensation(adj, nodes, out) && x in nodes && y in nodes
    ensures x in Members(out) && y in Members(out)
    ensures Together(out, x, y) <==> Reach(adj, x, y) && Reach(adj, y, x)
  {
    ReachSelf(adj, x);
    ReachSelf(adj, y);
    TogetherIffMutual(adj, out, x, y);
  }

  /** When every successor is a listed node, the components partition the nodes. */
  lemma ComponentsPartitionNodes(adj: Graph, nodes: seq<string>, out: seq<seq<string>>)
    requires Condensation(adj, nodes, out) && Closed(adj, Elements(nodes))
    ensures Members(out) == Elements(nodes)
    ensures forall x :: x in nodes ==> exists i :: 0 <= i < |out| && x in out[i]
    ensures forall i, j, x :: 0 <= i < |out| && 0 <= j < |out| && x in out[i] && x in out[j] ==> i == j
  {
    forall x ensures x in Members(out) <==> x in Elements(nodes) {
      if x in nodes {
        ReachSelf(adj, x);
      } else if ReachedFrom(adj, nodes, x) {
        var n :| n in nodes && Reach(adj, n, x);
        ClosedKeepsReach(adj, Elements(nodes), n, x);
      }
    }
    forall x | x in nodes ensures exists i :: 0 <= i < |out| && x in out[i] {
      assert x in Members(out);
    }
  }

  lemma SmallerSet(a: set<string>, b: set<string>)
    requires a < b
    ensures |a| < |b|
  {
    assert b == a + (b - a);
  }
}
