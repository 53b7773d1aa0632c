/** Journal absorption: reading through a state the journal was already merged into. */
module Absorption {
  import opened Order
  import opened Store
  import opened Identity

  /** A sound state and a journal that does not reuse the id of a stored edge. */
  ghost predicate Fits(s: State, j: Journal) {
    Sound(s) && JournalKeyed(j) && s.edges.Keys !! j.newEdges.Keys
  }

  function Snapshots(j: Journal): map<Id, Node> {
    map x | x in j.dirty :: Snapshot(x, j.dirty[x])
  }

  /** The new edges added in the order of their ids, none of them redirected. */
  ghost function PlainEdges(edges: map<Id, Edge>, j: Journal, nodes: set<Id>): map<Id, Edge> {
    ListingMembers(j.newEdges.Keys);
    AddAll(edges, Listing(j.newEdges.Keys), j.newEdges, nodes, map[])
  }

  /** The state with the journal: deletions gone, every pending node under its own id. */
  ghost function Plain(s: State, j: Journal): State {
    var nodes := DeleteFrom(s, j).nodes + Snapshots(j);
    State(nodes, PlainEdges(DeleteFrom(s, j).edges, j, nodes.Keys))
  }

  lemma {:induction false} AddAllUnmoved(edges: map<Id, Edge>, order: seq<Id>, news: map<Id, Edge>, nodes: set<Id>,
                                         tgt: map<Id, Id>)
    requires (forall e :: e in order ==> e in news) && forall x :: x in tgt ==> tgt[x] == x
    ensures AddAll(edges, order, news, nodes, tgt) == AddAll(edges, order, news, nodes, map[])
  {
    if order != [] {
      AddAllUnmoved(edges, order[..|order| - 1], news, nodes, tgt);
      var e := news[order[|order| - 1]];
      assert Redirected(tgt, e) == e && Redirected(map[], e) == e;
    }
  }

  /** A merge that moves no snapshot is the state with the journal. */
  lemma UnmovedIsPlain(s: State, j: Journal, tgt: map<Id, Id>)
    requires tgt.Keys == j.dirty.Keys && forall x :: x in j.dirty ==> tgt[x] == x
    ensures MergeWith(s, j, tgt) == Plain(s, j)
  {
    ListingMembers(j.dirty.Keys);
    ListingMembers(j.newEdges.Keys);
    WriteAllUnmoved(DeleteFrom(s, j).nodes, Listing(j.dirty.Keys), j.dirty, tgt);
    assert Snapshots(j) == SnapshotsOf(Listing(j.dirty.Keys), j.dirty);
    AddAllUnmoved(DeleteFrom(s, j).edges, Listing(j.newEdges.Keys), j.newEdges, MergedNodes(s, j, tgt).Keys, tgt);
  }

  lemma StaysIsPlain(s: State, j: Journal, tgt: map<Id, Id>)
    requires Stays(s, j) && Resolves(s, j, tgt)
    ensures MergeWith(s, j, tgt) == Plain(s, j)
  {
    StaysOwn(s, j, tgt);
    hide Stays;
    assert tgt.Keys == j.dirty.Keys;
    UnmovedIsPlain(s, j, tgt);
  }

  lemma PlainSound(s: State, j: Journal)
    requires Sound(s) && JournalKeyed(j)
    ensures Sound(Plain(s, j))
  {
    var tgt := map x | x in j.dirty :: x;
    UnmovedIsPlain(s, j, tgt);
    MergeKeepsSound(s, j, tgt);
  }

  /** What a read may yield: a merge of the journal for some resolution. */
  ghost predicate MayRead(s: State, j: Journal, st: State) {
    exists tgt :: Resolves(s, j, tgt) && st == MergeWith(s, j, tgt)
  }

  /** Every pending node is there under its own id, as it was written. */
  ghost predicate ShowsPending(st: State, j: Journal) {
    forall x :: x in j.dirty ==> x in st.nodes && st.nodes[x] == Snapshot(x, j.dirty[x])
  }

  lemma PlainShowsPending(s: State, j: Journal)
    ensures ShowsPending(Plain(s, j), j)
  {
  }

  lemma ReadIsPlain(s: State, j: Journal, st: State)
    requires Stays(s, j) && MayRead(s, j, st)
    ensures st == Plain(s, j)
  {
    hide Stays, ResolvedAt, MergeWith;
    var tgt :| Resolves(s, j, tgt) && st == MergeWith(s, j, tgt);
    StaysIsPlain(s, j, tgt);
  }

  /** With a rival some read hides a pending node. */
  lemma RivalHides(s: State, j: Journal) returns (st: State, x: Id)
    requires !Stays(s, j)
    ensures MayRead(s, j, st) && x in j.dirty && x !in st.nodes
  {
    var tgt := SomeResolution(s, j);
    hide Stays;
    assert tgt.Keys == j.dirty.Keys;
    x :| x in j.dirty && tgt[x] != x;
    MovedIsGone(s, j, tgt, x);
    st := MergeWith(s, j, tgt);
  }

  /** As long as no node has the empty id, a rival hides a pending node from every read. */
  lemma RivalAlwaysHides(s: State, j: Journal, st: State) returns (x: Id)
    requires MayRead(s, j, st) && !Stays(s, j) && "" !in s.nodes && "" !in j.dirty
    ensures x in j.dirty && x !in st.nodes
  {
    hide Stays, MergeWith, ResolvedAt;
    var tgt :| Resolves(s, j, tgt) && st == MergeWith(s, j, tgt);
    RivalMoves(s, j, tgt);
    x :| x in j.dirty && tgt[x] != x;
    MovedIsGone(s, j, tgt, x);
    MergedNodesOf(s, j, tgt);
  }

  lemma StoredAreRead(s: State, j: Journal, st: State)
    requires MayRead(s, j, st)
    ensures DeleteFrom(s, j).nodes.Keys <= st.nodes.Keys
  {
    hide ResolvedAt, DeleteFrom;
    var tgt :| Resolves(s, j, tgt) && st == MergeWith(s, j, tgt);
    MergedNodesOf(s, j, tgt);
    WriteAllKeys(DeleteFrom(s, j).nodes, Listing(j.dirty.Keys), j.dirty, tgt);
  }

  lemma MergedNodesOf(s: State, j: Journal, tgt: map<Id, Id>)
    requires tgt.Keys == j.dirty.Keys
    ensures MergeWith(s, j, tgt).nodes == MergedNodes(s, j, tgt)
  {
  }

  lemma SomeRead(s: State, j: Journal) returns (st: State)
    ensures MayRead(s, j, st)
  {
    var tgt := SomeResolution(s, j);
    st := MergeWith(s, j, tgt);
  }

  /** All reads are the state with the journal exactly when no snapshot has a rival. */
  lemma ReadsArePlainIff(s: State, j: Journal)
    ensures Stays(s, j) <==> forall st :: MayRead(s, j, st) ==> st == Plain(s, j)
  {
    PlainShowsPending(s, j);
    hide Stays, MayRead, Plain;
    if Stays(s, j) {
      forall st | MayRead(s, j, st) ensures st == Plain(s, j) {
        ReadIsPlain(s, j, st);
      }
    } else {
      var st, x := RivalHides(s, j);
    }
  }

  // ----- adding the same edges twice

  /** `kept` is what an earlier pass over `news` may have left besides `edges`: each kept edge
      is a new edge, is attached, equals nothing in `edges` and comes before its equals in `news`. */
  ghost predicate KeptBefore(edges: map<Id, Edge>, kept: map<Id, Edge>, news: map<Id, Edge>, nodes: set<Id>) {
    edges.Keys !! kept.Keys && forall k :: k in kept ==> KeptRightly(edges, kept[k], news, nodes, k)
  }

  ghost predicate KeptRightly(edges: map<Id, Edge>, e: Edge, news: map<Id, Edge>, nodes: set<Id>, k: Id) {
    && k in news && e == news[k] && e.id == k && Attached(nodes, e) && !Duplicated(edges, e)
    && forall f :: f in news && f != k && SameEdge(news[f], e) ==> Leq(k, f)
  }

  /** Everything known after the new edges in `order` were added to `edges` (once) and to
      `edges + kept` (twice). */
  ghost predicate InStep(edges: map<Id, Edge>, kept: map<Id, Edge>, news: map<Id, Edge>, order: seq<Id>,
                         once: map<Id, Edge>, twice: map<Id, Edge>) {
    && twice == once + kept
    && (forall k :: k in kept && k in order ==> k in once)
    && (forall o :: o in edges ==> o in once && once[o] == edges[o])
    && (forall o :: o in once && o !in edges ==> o in order && o in news && once[o] == news[o])
  }

  lemma AppendedMembers(order: seq<Id>, last: Id)
    ensures forall x :: x in order + [last] <==> x in order || x == last
  {
  }

  lemma UpdateMiddle<A, B>(m: map<A, B>, n: map<A, B>, x: A, v: B)
    requires x in n ==> n[x] == v
    ensures m[x := v] + n == (m + n)[x := v]
  {
  }

  /** The last edge is added to the first pass, and to the second unless it holds it already. */
  lemma StepAdds(edges: map<Id, Edge>, kept: map<Id, Edge>, news: map<Id, Edge>, order: seq<Id>, last: Id,
                 once: map<Id, Edge>, twice: map<Id, Edge>)
    requires InStep(edges, kept, news, order, once, twice) && last in news && last !in edges
    requires last in kept ==> kept[last] == news[last]
    ensures InStep(edges, kept, news, order + [last], once[last := news[last]], twice[last := news[last]])
    ensures last in kept ==> twice[last := news[last]] == twice
  {
    AppendedMembers(order, last);
    UpdateMiddle(once, kept, last, news[last]);
  }

  lemma StepSkips(edges: map<Id, Edge>, kept: map<Id, Edge>, news: map<Id, Edge>, order: seq<Id>, last: Id,
                  once: map<Id, Edge>, twice: map<Id, Edge>)
    requires InStep(edges, kept, news, order, once, twice) && last !in kept
    ensures InStep(edges, kept, news, order + [last], once, twice)
  {
    AppendedMembers(order, last);
  }

  lemma StepKept(edges: map<Id, Edge>, kept: map<Id, Edge>, news: map<Id, Edge>, nodes: set<Id>, order: seq<Id>,
                 last: Id, once: map<Id, Edge>, twice: map<Id, Edge>)
    requires last in kept && KeptRightly(edges, kept[last], news, nodes, last) && last !in order && last !in edges
    requires forall e :: e in order ==> !Leq(last, e)
    requires InStep(edges, kept, news, order, once, twice)
    ensures InStep(edges, kept, news, order + [last], AddEdge(once, nodes, news[last]),
                   AddEdge(twice, nodes, news[last]))
  {
    var e := news[last];
    assert twice[last] == kept[last] && SameEdge(twice[last], e);
    assert !Duplicated(once, e);
    StepAdds(edges, kept, news, order, last, once, twice);
  }

  lemma StepOther(edges: map<Id, Edge>, kept: map<Id, Edge>, news: map<Id, Edge>, nodes: set<Id>, order: seq<Id>,
                  last: Id, once: map<Id, Edge>, twice: map<Id, Edge>)
    requires KeptBefore(edges, kept, news, nodes) && last !in kept
    requires last in news && news[last].id == last && last !in edges
    requires forall k :: k in kept && Leq(k, last) ==> k in order
    requires InStep(edges, kept, news, order, once, twice)
    ensures InStep(edges, kept, news, order + [last], AddEdge(once, nodes, news[last]),
                   AddEdge(twice, nodes, news[last]))
  {
    SameDuplicates(edges, kept, news, nodes, order, last, once, twice);
    hide Duplicated, KeptBefore, Attached, SameEdge, InStep;
    StepAdds(edges, kept, news, order, last, once, twice);
    StepSkips(edges, kept, news, order, last, once, twice);
  }

  lemma SameDuplicates(edges: map<Id, Edge>, kept: map<Id, Edge>, news: map<Id, Edge>, nodes: set<Id>, order: seq<Id>,
                       last: Id, once: map<Id, Edge>, twice: map<Id, Edge>)
    requires KeptBefore(edges, kept, news, nodes) && last in news && last !in kept
    requires forall k :: k in kept && Leq(k, last) ==> k in order
    requires InStep(edges, kept, news, order, once, twice)
    ensures Duplicated(once, news[last]) <==> Duplicated(twice, news[last])
  {
    var e := news[last];
    if Duplicated(once, e) {
      var o :| o in once && SameEdge(once[o], e);
      assert o in twice && twice[o] == once[o];
    }
    if Duplicated(twice, e) {
      var o :| o in twice && SameEdge(twice[o], e);
      if o in kept {
        assert Leq(o, last);
        assert o in once && once[o] == kept[o];
      }
    }
  }

  /** Adding the new edges to a state that still holds some of them gives the same result. */
  lemma {:induction false} AddAllTwice(edges: map<Id, Edge>, kept: map<Id, Edge>, news: map<Id, Edge>, nodes: set<Id>,
                                       order: seq<Id>)
    requires KeptBefore(edges, kept, news, nodes) && edges.Keys !! news.Keys
             && (forall e :: e in news ==> news[e].id == e)
    requires (forall e :: e in order ==> e in news) && Sorted(order) && Distinct(order)
    requires forall e, f :: e in order && f in news && Leq(f, e) ==> f in order
    ensures InStep(edges, kept, news, order, AddAll(edges, order, news, nodes, map[]),
                   AddAll(edges + kept, order, news, nodes, map[]))
  {
    if order != [] {
      var n := |order| - 1;
      var rest, last := order[..n], order[n];
      assert order == rest + [last];
      forall e | e in rest ensures !Leq(last, e) {
        var i :| 0 <= i < n && order[i] == e;
        assert Leq(order[i], order[n]);
        if Leq(last, e) {
          LeqAntisymmetric(last, e);
        }
      }
      forall e, f | e in rest && f in news && Leq(f, e) ensures f in rest {
        assert e in order && f in order;
      }
      AddAllTwice(edges, kept, news, nodes, rest);
      assert Redirected(map[], news[last]) == news[last];
      var once, twice := AddAll(edges, rest, news, nodes, map[]), AddAll(edges + kept, rest, news, nodes, map[]);
      if last in kept {
        assert KeptRightly(edges, kept[last], news, nodes, last);
        StepKept(edges, kept, news, nodes, rest, last, once, twice);
      } else {
        StepOther(edges, kept, news, nodes, rest, last, once, twice);
      }
    }
  }

  // ----- what a first pass leaves behind

  /** A new edge is added only if nothing stored equals it, and before all new edges equal to it. */
  lemma {:induction false} AddedFirst(edges: map<Id, Edge>, news: map<Id, Edge>, nodes: set<Id>, order: seq<Id>, e: Id)
    requires edges.Keys !! news.Keys && (forall f :: f in news ==> news[f].id == f)
    requires (forall f :: f in order ==> f in news) && Sorted(order) && Distinct(order)
    requires e in AddAll(edges, order, news, nodes, map[]) && e !in edges
    ensures e in order && AddAll(edges, order, news, nodes, map[])[e] == news[e]
    ensures Attached(nodes, news[e]) && !Duplicated(edges, news[e])
    ensures forall f :: f in order && SameEdge(news[f], news[e]) ==> Leq(e, f)
  {
    var n := |order| - 1;
    var rest, last := AddAllLast(edges, order, news, nodes, e);
    var before := AddAll(edges, rest, news, nodes, map[]);
    hide AddAll, Duplicated, SameEdge, Leq;
    if e in before {
      assert Sorted(rest) && Distinct(rest) && forall f :: f in rest ==> f in news;
      AddedFirst(edges, news, nodes, rest, e);
      LastComesAfter(order, e);
    } else {
      LeqReflexive(last);
      NoEqualBefore(edges, news, nodes, rest, news[e]);
    }
  }

  /** The last new edge is added, or not; the others are as before. */
  lemma AddAllLast(edges: map<Id, Edge>, order: seq<Id>, news: map<Id, Edge>, nodes: set<Id>, e: Id)
    returns (rest: seq<Id>, last: Id)
    requires (forall f :: f in news ==> news[f].id == f) && (forall f :: f in order ==> f in news)
    requires e in AddAll(edges, order, news, nodes, map[]) && e !in edges
    ensures order != [] && rest == order[..|order| - 1] && last == order[|order| - 1] && order == rest + [last]
            && last in news
    ensures var before, after := AddAll(edges, rest, news, nodes, map[]), AddAll(edges, order, news, nodes, map[]);
            && (e in before && e != last ==> after[e] == before[e])
            && (e !in before
                ==> e == last && after[e] == news[e] && Attached(nodes, news[e]) && !Duplicated(before, news[e]))
  {
    assert order != [];
    rest, last := order[..|order| - 1], order[|order| - 1];
    assert order == rest + [last] && last in order;
    assert Redirected(map[], news[last]) == news[last];
  }

  lemma LastComesAfter(order: seq<Id>, e: Id)
    requires order != [] && Sorted(order) && Distinct(order) && e in order[..|order| - 1]
    ensures Leq(e, order[|order| - 1]) && e != order[|order| - 1]
  {
    var n := |order| - 1;
    var i :| 0 <= i < n && order[i] == e;
    hide Leq;
    assert Leq(order[i], order[n]) && order[i] != order[n];
  }

  lemma NoEqualBefore(edges: map<Id, Edge>, news: map<Id, Edge>, nodes: set<Id>, rest: seq<Id>, e: Edge)
    requires edges.Keys !! news.Keys && (forall f :: f in news ==> news[f].id == f)
    requires (forall f :: f in rest ==> f in news) && Distinct(rest)
    requires Attached(nodes, e) && !Duplicated(AddAll(edges, rest, news, nodes, map[]), e)
    ensures !Duplicated(edges, e) && forall f :: f in rest ==> !SameEdge(news[f], e)
  {
    var before := AddAll(edges, rest, news, nodes, map[]);
    AddAllGrows(edges, rest, news, nodes, map[]);
    assert forall o :: o in edges ==> o in before && before[o] == edges[o];
    forall f | f in rest ensures !SameEdge(news[f], e) {
      AddAllSettles(edges, rest, news, nodes, map[], f);
      assert Redirected(map[], news[f]) == news[f];
    }
  }

  lemma ListingDownward(s: set<string>)
    ensures forall x :: x in Listing(s) <==> x in s
    ensures forall e, f :: e in Listing(s) && f in s && Leq(f, e) ==> f in Listing(s)
  {
    ListingMembers(s);
  }

  // ----- how a journal grows while the file stays the same

  /** j1 is what local operations made of j0 since `j0` was merged into the file's state s. */
  ghost predicate Grown(s: State, j0: Journal, j1: Journal) {
    && Fits(s, j1)
    && j0.deletedNodes <= j1.deletedNodes && j0.deletedEdges <= j1.deletedEdges
    && (forall x :: x in j0.dirty && x !in j1.dirty ==> x in j1.deletedNodes)
    && (forall e :: e in j0.newEdges && e in j1.newEdges ==> j1.newEdges[e] == j0.newEdges[e])
    && (forall e :: e in j0.newEdges && e !in j1.newEdges ==> Removed(j1, j0.newEdges[e]))
    && NewlyLinked(Plain(s, j0), j0, j1)
  }

  predicate Removed(j: Journal, e: Edge) {
    e.id in j.deletedEdges || e.from in j.deletedNodes || e.to in j.deletedNodes
  }

  /** Edges linked since j0 equal none of the merged edges still alive. */
  ghost predicate NewlyLinked(c: State, j0: Journal, j1: Journal) {
    forall e :: e in j1.newEdges && e !in j0.newEdges
                ==> e !in c.edges && forall f :: f in DeleteFrom(c, j1).edges ==> !SameEdge(c.edges[f], j1.newEdges[e])
  }

  /** The nodes of the merged state with the grown journal are those of the file with it. */
  lemma AbsorbedNodes(s: State, j0: Journal, j1: Journal)
    requires j0.deletedNodes <= j1.deletedNodes && forall x :: x in j0.dirty && x !in j1.dirty ==> x in j1.deletedNodes
    ensures Plain(Plain(s, j0), j1).nodes == Plain(s, j1).nodes
    ensures DeleteFrom(Plain(s, j0), j1).nodes.Keys <= Plain(s, j1).nodes.Keys
  {
    LaidOver(s.nodes, j0.deletedNodes, Snapshots(j0), j1.deletedNodes, Snapshots(j1));
  }

  /** Removing more and laying newer nodes over makes what was laid over before irrelevant. */
  lemma LaidOver<A, B>(m: map<A, B>, few: set<A>, first: map<A, B>, more: set<A>, last: map<A, B>)
    requires few <= more && forall x :: x in first && x !in last ==> x in more
    ensures (((m - few) + first) - more) + last == (m - more) + last
    ensures (((m - few) + first) - more).Keys <= ((m - more) + last).Keys
  {
    var a, b := (((m - few) + first) - more) + last, (m - more) + last;
    forall x ensures (x in a <==> x in b) && (x in a ==> a[x] == b[x]) {
      assert x in first && x !in more ==> x in last;
    }
  }

  lemma PlainNodes(s: State, j: Journal)
    ensures Plain(s, j).nodes == DeleteFrom(s, j).nodes + Snapshots(j)
    ensures Plain(s, j).edges == PlainEdges(DeleteFrom(s, j).edges, j, Plain(s, j).nodes.Keys)
  {
  }

  /** The edges of the merged state that are alive but not in the file. */
  ghost function KeptEdges(c: State, s: State, j1: Journal): map<Id, Edge> {
    DeleteFrom(c, j1).edges - DeleteFrom(s, j1).edges.Keys
  }

  lemma MergedEdges(s: State, j0: Journal)
    requires Fits(s, j0)
    ensures var c, base := Plain(s, j0), DeleteFrom(s, j0).edges;
            && (forall e :: e in base ==> e in c.edges && c.edges[e] == s.edges[e])
            && (forall e :: e in c.edges && e !in base ==> e in j0.newEdges && c.edges[e] == j0.newEdges[e])
            && (forall e :: e in c.edges && e !in base ==> !Duplicated(base, c.edges[e]))
            && (forall e, f :: e in c.edges && e !in base && f in j0.newEdges && SameEdge(j0.newEdges[f], c.edges[e])
                               ==> Leq(e, f))
  {
    PlainNodes(s, j0);
    var c, base, order := Plain(s, j0), DeleteFrom(s, j0).edges, Listing(j0.newEdges.Keys);
    ListingMembers(j0.newEdges.Keys);
    AddAllGrows(base, order, j0.newEdges, c.nodes.Keys, map[]);
    forall e | e in c.edges && e !in base
      ensures e in j0.newEdges && c.edges[e] == j0.newEdges[e] && !Duplicated(base, c.edges[e])
      ensures forall f :: f in j0.newEdges && SameEdge(j0.newEdges[f], c.edges[e]) ==> Leq(e, f)
    {
      AddedFirst(base, j0.newEdges, c.nodes.Keys, order, e);
    }
  }

  lemma AliveEdges(s: State, c: State, j0: Journal, j1: Journal)
    requires forall e :: e in DeleteFrom(s, j0).edges ==> e in c.edges && c.edges[e] == s.edges[e]
    requires j0.deletedNodes <= j1.deletedNodes && j0.deletedEdges <= j1.deletedEdges
    ensures DeleteFrom(c, j1).edges == DeleteFrom(s, j1).edges + KeptEdges(c, s, j1)
    ensures forall k :: k in KeptEdges(c, s, j1) ==> k !in DeleteFrom(s, j0).edges
    ensures forall k :: k in KeptEdges(c, s, j1)
                        ==> k in c.edges && KeptEdges(c, s, j1)[k] == c.edges[k] && k in DeleteFrom(c, j1).edges
    ensures DeleteFrom(s, j1).edges.Keys <= DeleteFrom(s, j0).edges.Keys
  {
    var base, kept := DeleteFrom(s, j1).edges, KeptEdges(c, s, j1);
    forall e | e in base
      ensures e in DeleteFrom(s, j0).edges && e in DeleteFrom(c, j1).edges && c.edges[e] == s.edges[e]
    {
    }
  }

  lemma KeptOne(s: State, c: State, j0: Journal, j1: Journal, k: Id)
    requires c == Plain(s, j0) && Grown(s, j0, j1) && JournalKeyed(j0) && Sound(c)
    requires k in DeleteFrom(c, j1).edges && k in j0.newEdges && c.edges[k] == j0.newEdges[k]
    ensures k in j1.newEdges && c.edges[k] == j1.newEdges[k] && c.edges[k].id == k
    ensures Attached(DeleteFrom(c, j1).nodes.Keys, c.edges[k])
    ensures forall e :: e in j1.newEdges && e !in j0.newEdges ==> !SameEdge(j1.newEdges[e], c.edges[k])
  {
    hide Plain, Fits;
    assert !Removed(j1, c.edges[k]);
    forall e | e in j1.newEdges && e !in j0.newEdges ensures !SameEdge(j1.newEdges[e], c.edges[k]) {
      assert !SameEdge(c.edges[k], j1.newEdges[e]);
    }
  }

  lemma DuplicatedInPart(part: map<Id, Edge>, whole: map<Id, Edge>, e: Edge)
    requires !Duplicated(whole, e) && forall o :: o in part ==> o in whole && whole[o] == part[o]
    ensures !Duplicated(part, e)
  {
  }

  lemma KeptEach(s: State, j0: Journal, j1: Journal, k: Id)
    requires Fits(s, j0) && Grown(s, j0, j1)
    requires k in DeleteFrom(Plain(s, j0), j1).edges && k !in DeleteFrom(s, j0).edges
    ensures var c := Plain(s, j0);
            KeptRightly(DeleteFrom(s, j1).edges, c.edges[k], j1.newEdges, DeleteFrom(c, j1).nodes.Keys, k)
  {
    var c := Plain(s, j0);
    MergedEdges(s, j0);
    PlainSound(s, j0);
    hide Plain, Leq, SameEdge, Attached;
    assert forall o :: o in DeleteFrom(s, j1).edges ==> o in DeleteFrom(s, j0).edges;
    DuplicatedInPart(DeleteFrom(s, j1).edges, DeleteFrom(s, j0).edges, c.edges[k]);
    hide Plain, KeptEdges, Attached, Duplicated, SameEdge, Leq;
    KeptOne(s, c, j0, j1, k);
    forall e | e in j1.newEdges && SameEdge(j1.newEdges[e], c.edges[k]) ensures Leq(k, e) {
      assert e in j0.newEdges;
    }
  }

  lemma KeptAreKept(s: State, j0: Journal, j1: Journal)
    requires Fits(s, j0) && Grown(s, j0, j1)
    ensures var c := Plain(s, j0);
            && KeptBefore(DeleteFrom(s, j1).edges, KeptEdges(c, s, j1), j1.newEdges, DeleteFrom(c, j1).nodes.Keys)
            && DeleteFrom(c, j1).edges == DeleteFrom(s, j1).edges + KeptEdges(c, s, j1)
  {
    var c := Plain(s, j0);
    KeptMap(s, j0, j1);
    var kept := KeptEdges(c, s, j1);
    assert DeleteFrom(s, j1).edges.Keys !! kept.Keys;
    hide *;
    forall k | k in kept
      ensures KeptRightly(DeleteFrom(s, j1).edges, kept[k], j1.newEdges, DeleteFrom(c, j1).nodes.Keys, k)
    {
      KeptEach(s, j0, j1, k);
    }
    KeptAll(DeleteFrom(s, j1).edges, kept, j1.newEdges, DeleteFrom(c, j1).nodes.Keys);
  }

  lemma KeptAll(edges: map<Id, Edge>, kept: map<Id, Edge>, news: map<Id, Edge>, nodes: set<Id>)
    requires edges.Keys !! kept.Keys && forall k :: k in kept ==> KeptRightly(edges, kept[k], news, nodes, k)
    ensures KeptBefore(edges, kept, news, nodes)
  {
  }

  lemma KeptMap(s: State, j0: Journal, j1: Journal)
    requires Fits(s, j0) && Grown(s, j0, j1)
    ensures var c := Plain(s, j0);
            && DeleteFrom(c, j1).edges == DeleteFrom(s, j1).edges + KeptEdges(c, s, j1)
            && (forall k :: k in KeptEdges(c, s, j1)
                            ==> k in c.edges && KeptEdges(c, s, j1)[k] == c.edges[k]
                                && k in DeleteFrom(c, j1).edges && k !in DeleteFrom(s, j0).edges)
  {
    MergedEdges(s, j0);
    hide Plain, NewlyLinked, Fits;
    AliveEdges(s, Plain(s, j0), j0, j1);
  }

  lemma MoreNodesKept(edges: map<Id, Edge>, kept: map<Id, Edge>, news: map<Id, Edge>, some: set<Id>, all: set<Id>)
    requires KeptBefore(edges, kept, news, some) && some <= all
    ensures KeptBefore(edges, kept, news, all)
  {
  }

  lemma AbsorbedEdges(s: State, j0: Journal, j1: Journal)
    requires Fits(s, j0) && Grown(s, j0, j1)
    ensures var c, r := Plain(s, j0), Plain(s, j1);
            && Plain(c, j1).edges == r.edges
            && (forall f :: f in DeleteFrom(c, j1).edges ==> f in r.edges && r.edges[f] == c.edges[f])
  {
    var c, r := Plain(s, j0), Plain(s, j1);
    AbsorbedNodes(s, j0, j1);
    KeptAreKept(s, j0, j1);
    PlainNodes(s, j1);
    PlainNodes(c, j1);
    var base, kept, order := DeleteFrom(s, j1).edges, KeptEdges(c, s, j1), Listing(j1.newEdges.Keys);
    ListingDownward(j1.newEdges.Keys);
    assert forall f :: f in DeleteFrom(c, j1).edges ==> DeleteFrom(c, j1).edges[f] == c.edges[f];
    assert base.Keys !! j1.newEdges.Keys;
    assert forall e :: e in j1.newEdges ==> j1.newEdges[e].id == e;
    assert DeleteFrom(c, j1).nodes.Keys <= r.nodes.Keys;
    hide Plain, DeleteFrom, KeptEdges, KeptBefore, Grown, Fits, Leq;
    MoreNodesKept(base, kept, j1.newEdges, DeleteFrom(c, j1).nodes.Keys, r.nodes.Keys);
    AddAllTwice(base, kept, j1.newEdges, r.nodes.Keys, order);
    TwiceIsOnce(base, kept, j1.newEdges, order, r.edges, Plain(c, j1).edges, r.nodes.Keys);
  }

  lemma TwiceIsOnce(base: map<Id, Edge>, kept: map<Id, Edge>, news: map<Id, Edge>, order: seq<Id>,
                    once: map<Id, Edge>, twice: map<Id, Edge>, nodes: set<Id>)
    requires KeptBefore(base, kept, news, nodes) && InStep(base, kept, news, order, once, twice)
    requires forall e :: e in news ==> e in order
    ensures once == twice
    ensures forall f :: f in base + kept ==> f in once && once[f] == (base + kept)[f]
  {
  }

  /** Merging a grown journal into the already merged state is merging it into the file. */
  lemma MergeAbsorbs(s: State, j0: Journal, j1: Journal)
    requires Fits(s, j0) && Grown(s, j0, j1)
    ensures Plain(Plain(s, j0), j1) == Plain(s, j1)
  {
    AbsorbedNodes(s, j0, j1);
    AbsorbedEdges(s, j0, j1);
  }

  /** Without rivals a read through the merged cache is the file with the journal. */
  lemma GrownReadIsPlain(s: State, j0: Journal, j: Journal, b: State)
    requires Fits(s, j0) && Grown(s, j0, j) && Stays(Plain(s, j0), j) && MayRead(Plain(s, j0), j, b)
    ensures b == Plain(s, j)
  {
    ReadIsPlain(Plain(s, j0), j, b);
    MergeAbsorbs(s, j0, j);
  }
}
