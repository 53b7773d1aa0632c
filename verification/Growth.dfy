/** Every local operation lets the journal grow in the sense journal absorption needs. */
module Growth {
  import opened Store
  import opened Identity
  import opened Absorption
  import opened Operations

  ghost predicate Known(used: set<Id>, s: State, j0: Journal, j: Journal) {
    s.edges.Keys <= used && j0.newEdges.Keys <= used && j.newEdges.Keys <= used
  }

  lemma GrownRefl(s: State, j: Journal)
    requires Fits(s, j)
    ensures Grown(s, j, j)
  {
  }

  /** With the same deletions, the same stored nodes and edges stay alive. */
  lemma SameDeletions(s: State, j: Journal, r: Journal)
    requires r.deletedNodes == j.deletedNodes && r.deletedEdges == j.deletedEdges
    ensures DeleteFrom(s, r) == DeleteFrom(s, j)
  {
  }

  /** Changing or adding a snapshot leaves the rest of `Grown` alone. */
  lemma GrowUpsert(s: State, j0: Journal, j: Journal, r: Journal)
    requires Grown(s, j0, j) && j.dirty.Keys <= r.dirty.Keys && r == j.(dirty := r.dirty)
    ensures Grown(s, j0, r)
  {
    SameDeletions(Plain(s, j0), j, r);
    hide Plain, SameEdge, Removed, DeleteFrom, Sound;
  }

  lemma UnusedEdge(s: State, j0: Journal, e: Id, used: set<Id>)
    requires Fits(s, j0) && s.edges.Keys <= used && j0.newEdges.Keys <= used && e !in used
    ensures e !in Plain(s, j0).edges
  {
    MergedEdges(s, j0);
    hide Plain, Fits, Duplicated, SameEdge;
    assert e in Plain(s, j0).edges && e !in DeleteFrom(s, j0).edges ==> e in j0.newEdges;
  }

  lemma AliveNotEqual(s: State, j0: Journal, j: Journal, op: Op)
    requires Fits(s, j0) && Grown(s, j0, j) && op.Link?
    requires forall e :: e in Plain(s, j).edges ==> !LinkMatches(Plain(s, j).edges[e], op)
    ensures var c, e := Plain(s, j0), Edge(op.newId, op.kind, op.from, op.to, op.props);
            forall f :: f in DeleteFrom(c, j).edges ==> !SameEdge(c.edges[f], e)
  {
    var c, e := Plain(s, j0), Edge(op.newId, op.kind, op.from, op.to, op.props);
    AbsorbedEdges(s, j0, j);
    hide Plain, Fits, Grown, DeleteFrom;
    forall f | f in DeleteFrom(c, j).edges ensures !SameEdge(c.edges[f], e) {
      assert !LinkMatches(Plain(s, j).edges[f], op);
    }
  }

  lemma LinkedNewly(c: State, j0: Journal, j: Journal, op: Op)
    requires NewlyLinked(c, j0, j) && op.Link? && op.newId !in c.edges
    requires forall f :: f in DeleteFrom(c, j).edges
                         ==> !SameEdge(c.edges[f], Edge(op.newId, op.kind, op.from, op.to, op.props))
    ensures NewlyLinked(c, j0, Linked(j, op))
  {
    SameDeletions(c, j, Linked(j, op));
    hide DeleteFrom, SameEdge;
  }

  lemma GrowLink(s: State, j0: Journal, j: Journal, op: Op, used: set<Id>)
    requires Fits(s, j0) && Grown(s, j0, j) && Known(used, s, j0, j) && op.Link? && op.newId !in used
    requires forall e :: e in Plain(s, j).edges ==> !LinkMatches(Plain(s, j).edges[e], op)
    ensures Grown(s, j0, Linked(j, op))
  {
    AliveNotEqual(s, j0, j, op);
    UnusedEdge(s, j0, op.newId, used);
    hide Plain, LinkMatches, DeleteFrom, SameEdge, NewlyLinked, Sound;
    LinkedNewly(Plain(s, j0), j0, j, op);
  }

  lemma NewlyFewer(c: State, j0: Journal, j: Journal, r: Journal)
    requires NewlyLinked(c, j0, j) && j.deletedNodes <= r.deletedNodes && j.deletedEdges <= r.deletedEdges
    requires forall e :: e in r.newEdges ==> e in j.newEdges && r.newEdges[e] == j.newEdges[e]
    ensures NewlyLinked(c, j0, r)
  {
    assert forall f :: f in DeleteFrom(c, r).edges ==> f in DeleteFrom(c, j).edges;
    hide DeleteFrom, SameEdge;
  }

  lemma GrowDropNodes(s: State, j0: Journal, j: Journal, ids: set<Id>)
    requires Grown(s, j0, j)
    ensures Grown(s, j0, DropNodes(j, ids))
  {
    hide Plain, NewlyLinked, Sound;
    NewlyFewer(Plain(s, j0), j0, j, DropNodes(j, ids));
  }

  lemma GrowDropEdges(s: State, j0: Journal, j: Journal, ids: set<Id>)
    requires Grown(s, j0, j) && JournalKeyed(j0)
    ensures Grown(s, j0, DropEdges(j, ids))
  {
    hide Plain, NewlyLinked, Sound;
    NewlyFewer(Plain(s, j0), j0, j, DropEdges(j, ids));
  }

  /** Removals keep the journal absorbable; they read nothing. */
  lemma RemovalKeepsGrown(s: State, j0: Journal, j: Journal, op: Op, r: Journal, st: State)
    requires Fits(s, j0) && Grown(s, j0, j) && (op.RemoveNodes? || op.RemoveEdges?) && Applies(st, j, op, r)
    ensures Grown(s, j0, r)
  {
    hide Plain, Grown;
    match op
    case RemoveNodes(ids) =>
      GrowDropNodes(s, j0, j, ids);
    case RemoveEdges(ids) =>
      GrowDropEdges(s, j0, j, ids);
  }

  /** Any operation that reads the file with the journal keeps the journal absorbable. */
  lemma OpKeepsGrown(s: State, j0: Journal, j: Journal, op: Op, r: Journal, used: set<Id>)
    requires Fits(s, j0) && Grown(s, j0, j) && Known(used, s, j0, j)
    requires Applies(Plain(s, j), j, op, r) && used !! Uses(op)
    ensures Grown(s, j0, r) && Known(used + Uses(op), s, j0, r)
  {
    var st := Plain(s, j);
    hide Plain, Grown, Carries, Fits, LinkMatches;
    match op
    case Upsert(_, _, _, _, _) =>
      var id :| UpsertsAt(st, j, op, r, id);
      GrowUpsert(s, j0, j, r);
    case Link(_, _, _, _, newId) =>
      assert newId in Uses(op);
      if !exists e :: e in st.edges && LinkMatches(st.edges[e], op) {
        GrowLink(s, j0, j, op, used);
      }
    case _ =>
      RemovalKeepsGrown(s, j0, j, op, r, st);
  }

  // ----- which operations bring in a rival

  /** The upserted node takes no identity of another pending node, and a node created here takes
      no identity that a stored node had before it was changed here. */
  ghost predicate TakesNoOther(s: State, j: Journal, op: Op, r: Journal, id: Id)
    requires op.Upsert? && id in r.dirty
  {
    var base := DeleteFrom(s, j).nodes;
    && (forall x :: LookedUp(base, j.dirty, x) && x != id
                    ==> !Carries(Snapshot(id, r.dirty[id]), j.dirty[x].kind, j.dirty[x].identity))
    && (LookedUp(base, r.dirty, id) && Creates(Plain(s, j), op) ==> NotBefore(base, j, op))
  }

  ghost predicate Creates(st: State, op: Op)
    requires op.Upsert?
  {
    forall c :: c in st.nodes ==> !Carries(st.nodes[c], op.kind, op.identity)
  }

  /** No stored node with a pending change carries the identity as it is stored. */
  ghost predicate NotBefore(base: map<Id, Node>, j: Journal, op: Op)
    requires op.Upsert?
  {
    forall c :: c in base && c in j.dirty ==> !Carries(base[c], op.kind, op.identity)
  }

  lemma OthersAlone(base: map<Id, Node>, dirty: map<Id, Snap>, id: Id, snap: Snap, x: Id)
    requires x != id && x in dirty && Alone(base, dirty, x)
    ensures Alone(base, dirty[id := snap], x) <==> !Carries(Snapshot(id, snap), dirty[x].kind, dirty[x].identity)
  {
    hide Carries, Snapshot;
    var now := dirty[id := snap];
    assert now[x] == dirty[x] && now[id] == snap && id in now;
    forall y | y in now && y != id ensures y in dirty && now[y] == dirty[y] {
    }
  }

  lemma UpdatedAlone(base: map<Id, Node>, dirty: map<Id, Snap>, id: Id, snap: Snap)
    requires id in dirty && Alone(base, dirty, id) && snap.kind == dirty[id].kind && snap.identity == dirty[id].identity
    ensures Alone(base, dirty[id := snap], id)
  {
    hide Carries;
  }

  lemma CreatedAlone(s: State, j: Journal, op: Op)
    requires op.Upsert? && NewId(op) !in DeleteFrom(s, j).nodes
    requires Creates(Plain(s, j), op)
    ensures var base := DeleteFrom(s, j).nodes;
            Alone(base, UpsertNew(j, op).dirty, NewId(op)) <==> NotBefore(base, j, op)
  {
    var base, st, id := DeleteFrom(s, j).nodes, Plain(s, j), NewId(op);
    PlainNodes(s, j);
    hide Carries, Plain, NewId, NewProps, DeleteFrom;
    forall c | c in base && c !in j.dirty ensures !Carries(base[c], op.kind, op.identity) {
      assert c in st.nodes && st.nodes[c] == base[c];
    }
    forall y | y in j.dirty ensures !Carries(Snapshot(y, j.dirty[y]), op.kind, op.identity) {
      assert y in st.nodes && st.nodes[y] == Snapshots(j)[y];
    }
  }

  /** An upsert leaves everything without a rival exactly when its node takes no other's identity. */
  lemma UpsertUnrivalledIff(s: State, j: Journal, op: Op, r: Journal, id: Id)
    requires Unrivalled(s, j) && op.Upsert? && UpsertsAt(Plain(s, j), j, op, r, id)
    ensures id in r.dirty
    ensures Unrivalled(s, r) <==> TakesNoOther(s, j, op, r, id)
  {
    var base, snap := DeleteFrom(s, j).nodes, r.dirty[id];
    SameDeletions(s, j, r);
    UpsertedAlone(s, j, op, r, id);
    assert r.dirty == j.dirty[id := snap];
    hide Alone, DeleteFrom, Plain, Carries, UpsertsAt, Creates, NotBefore, LookedUp;
    OthersAfterUpsert(s, j, id, snap);
  }

  lemma OthersAfterUpsert(s: State, j: Journal, id: Id, snap: Snap)
    requires Unrivalled(s, j)
    ensures var base, now := DeleteFrom(s, j).nodes, j.dirty[id := snap];
            && (forall x :: x != id ==> (LookedUp(base, now, x) <==> LookedUp(base, j.dirty, x)))
            && (forall x :: LookedUp(base, j.dirty, x) && x != id
                            ==> (Alone(base, now, x)
                                 <==> !Carries(Snapshot(id, snap), j.dirty[x].kind, j.dirty[x].identity)))
  {
    hide Alone, DeleteFrom, Carries;
    forall x | LookedUp(DeleteFrom(s, j).nodes, j.dirty, x) && x != id
      ensures Alone(DeleteFrom(s, j).nodes, j.dirty[id := snap], x)
              <==> !Carries(Snapshot(id, snap), j.dirty[x].kind, j.dirty[x].identity)
    {
      OthersAlone(DeleteFrom(s, j).nodes, j.dirty, id, snap, x);
    }
  }

  lemma UpsertedAlone(s: State, j: Journal, op: Op, r: Journal, id: Id)
    requires Unrivalled(s, j) && op.Upsert? && UpsertsAt(Plain(s, j), j, op, r, id)
    ensures id in r.dirty && r == j.(dirty := j.dirty[id := r.dirty[id]])
    ensures var base := DeleteFrom(s, j).nodes;
            LookedUp(base, r.dirty, id)
            ==> (Alone(base, r.dirty, id) <==> (Creates(Plain(s, j), op) ==> NotBefore(base, j, op)))
  {
    var base, st := DeleteFrom(s, j).nodes, Plain(s, j);
    PlainNodes(s, j);
    if Creates(st, op) {
      hide Plain, Carries, NewProps, Alone, DeleteFrom;
      if id !in base {
        CreatedAlone(s, j, op);
      }
    } else {
      assert st.nodes[id].kind == op.kind;
      hide Plain, Carries, Alone, DeleteFrom;
      if LookedUp(base, r.dirty, id) {
        assert id in j.dirty && st.nodes[id] == Snapshots(j)[id];
        assert LookedUp(base, j.dirty, id);
        UpdatedAlone(base, j.dirty, id, r.dirty[id]);
      }
    }
  }

  /** A removal never brings in a rival. */
  lemma RemovalKeepsUnrivalled(s: State, j: Journal, ids: set<Id>)
    requires Unrivalled(s, j)
    ensures Unrivalled(s, DropNodes(j, ids))
  {
    var r := DropNodes(j, ids);
    var base, left := DeleteFrom(s, j).nodes, DeleteFrom(s, r).nodes;
    assert forall c :: c in left <==> c in base && c !in ids;
    assert forall c :: c in left ==> left[c] == base[c];
    hide Carries, DeleteFrom;
    forall x | LookedUp(left, r.dirty, x) ensures Alone(left, r.dirty, x) {
      assert Alone(base, j.dirty, x);
    }
  }
}
