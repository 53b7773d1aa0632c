/** What merging a journal leaves, told by the state before and the journal, field by field. */
module Outcome {
  import opened Order
  import opened Store
  import opened Identity
  import opened Absorption

  /** Deleted nodes are gone, other nodes stay, and a snapshot that shares its target with no other
      is stored there; a node it replaces leaves its creation time. */
  ghost predicate NodesAfter(s: State, j: Journal, tgt: map<Id, Id>, nodes: map<Id, Node>)
    requires tgt.Keys == j.dirty.Keys
  {
    && (forall n :: n in nodes <==> (n in s.nodes && n !in j.deletedNodes) || exists x :: x in tgt && tgt[x] == n)
    && (forall n :: n in nodes && (forall x :: x in tgt ==> tgt[x] != n) ==> nodes[n] == s.nodes[n])
    && forall x :: x in j.dirty && (forall y :: y in j.dirty && y != x ==> tgt[y] != tgt[x])
                   ==> tgt[x] in nodes && StoredAs(s, j, x, tgt[x], nodes[tgt[x]])
  }

  ghost predicate StoredAs(s: State, j: Journal, x: Id, t: Id, n: Node)
    requires x in j.dirty
  {
    var keeps := t != x && t in s.nodes && t !in j.deletedNodes && "created_at" in s.nodes[t].props;
    && n.kind == j.dirty[x].kind
    && (forall k :: k in n.props <==> k in j.dirty[x].props || k == "id" || (k == "created_at" && keeps))
    && n.props["id"] == Text(t) && (keeps ==> n.props["created_at"] == s.nodes[t].props["created_at"])
    && forall k :: k in j.dirty[x].props && k != "id" && !(k == "created_at" && keeps)
                   ==> n.props[k] == j.dirty[x].props[k]
  }

  /** A stored edge goes exactly if it or one of its ends is deleted; each new edge, with its ends
      where their snapshots landed, is stored, equal to a stored edge, or lacks an end. */
  ghost predicate EdgesAfter(s: State, j: Journal, tgt: map<Id, Id>, d: State) {
    && (forall e :: e in s.edges && e !in j.deletedEdges
                    && s.edges[e].from !in j.deletedNodes && s.edges[e].to !in j.deletedNodes
                    ==> e in d.edges && d.edges[e] == s.edges[e])
    && (forall e :: e in d.edges
                    ==> || (&& e in s.edges && e !in j.deletedEdges && d.edges[e] == s.edges[e]
                            && s.edges[e].from !in j.deletedNodes && s.edges[e].to !in j.deletedNodes)
                        || (e in j.newEdges && d.edges[e].id == e && LinksAs(tgt, j.newEdges[e], d.edges[e])))
    && (forall e :: e in j.newEdges
                    ==> || (exists o :: o in d.edges && LinksAs(tgt, j.newEdges[e], d.edges[o]))
                        || Landed(tgt, j.newEdges[e].from) !in d.nodes || Landed(tgt, j.newEdges[e].to) !in d.nodes)
  }

  function Landed(tgt: map<Id, Id>, x: Id): Id {
    if x in tgt then tgt[x] else x
  }

  /** The kind and properties of the new edge, between the nodes its ends landed on. */
  predicate LinksAs(tgt: map<Id, Id>, e: Edge, stored: Edge) {
    && stored.kind == e.kind && stored.props == e.props
    && stored.from == Landed(tgt, e.from) && stored.to == Landed(tgt, e.to)
  }

  ghost predicate MergeOutcome(s: State, j: Journal, tgt: map<Id, Id>, d: State)
    requires tgt.Keys == j.dirty.Keys
  {
    NodesAfter(s, j, tgt, d.nodes) && EdgesAfter(s, j, tgt, d)
  }

  lemma NodesAfterMerge(s: State, j: Journal, tgt: map<Id, Id>)
    requires tgt.Keys == j.dirty.Keys
    ensures NodesAfter(s, j, tgt, MergedNodes(s, j, tgt))
  {
    hide DeleteFrom, MergedNodes, StoredAs;
    MergedKeys(s, j, tgt);
    forall x | x in j.dirty && forall y :: y in j.dirty && y != x ==> tgt[y] != tgt[x]
      ensures tgt[x] in MergedNodes(s, j, tgt) && StoredAs(s, j, x, tgt[x], MergedNodes(s, j, tgt)[tgt[x]])
    {
      SnapshotLands(s, j, tgt, x);
    }
  }

  lemma MergedKeys(s: State, j: Journal, tgt: map<Id, Id>)
    requires tgt.Keys == j.dirty.Keys
    ensures var nodes := MergedNodes(s, j, tgt);
            && (forall n :: n in nodes
                            <==> (n in s.nodes && n !in j.deletedNodes) || exists x :: x in tgt && tgt[x] == n)
            && (forall n :: n in nodes && (forall x :: x in tgt ==> tgt[x] != n) ==> nodes[n] == s.nodes[n])
  {
    hide DeleteFrom, WriteAll;
    var base, order := DeleteFrom(s, j).nodes, Listing(j.dirty.Keys);
    var nodes := MergedNodes(s, j, tgt);
    DeletionsLeave(s, j);
    ListingMembers(j.dirty.Keys);
    WriteAllKeys(base, order, j.dirty, tgt);
    forall n | n in nodes && forall x :: x in tgt ==> tgt[x] != n ensures nodes[n] == s.nodes[n] {
      WriteAllUntouched(base, order, j.dirty, tgt, n);
    }
    forall n ensures n in nodes <==> n in base || exists x :: x in tgt && tgt[x] == n {
    }
  }

  lemma SnapshotLands(s: State, j: Journal, tgt: map<Id, Id>, x: Id)
    requires tgt.Keys == j.dirty.Keys && x in j.dirty && forall y :: y in j.dirty && y != x ==> tgt[y] != tgt[x]
    ensures tgt[x] in MergedNodes(s, j, tgt) && StoredAs(s, j, x, tgt[x], MergedNodes(s, j, tgt)[tgt[x]])
  {
    hide DeleteFrom, WriteAll, Written, StoredAs;
    ListingMembers(j.dirty.Keys);
    WriteAllWritten(DeleteFrom(s, j).nodes, Listing(j.dirty.Keys), j.dirty, tgt, x);
    WrittenStored(s, j, x, tgt[x]);
  }

  lemma WrittenStored(s: State, j: Journal, x: Id, t: Id)
    requires x in j.dirty
    ensures StoredAs(s, j, x, t, Written(DeleteFrom(s, j).nodes, j.dirty[x], x, t))
  {
    hide DeleteFrom, Written;
    DeletionsLeave(s, j);
    WrittenIs(DeleteFrom(s, j).nodes, j.dirty[x], x, t);
  }

  lemma EdgesAfterMerge(s: State, j: Journal, tgt: map<Id, Id>)
    requires tgt.Keys == j.dirty.Keys && JournalKeyed(j) && NoClash(DeleteFrom(s, j).edges, j.newEdges, tgt)
    ensures EdgesAfter(s, j, tgt, MergeWith(s, j, tgt))
  {
    hide *;
    var kept, d := DeleteFrom(s, j).edges, MergeWith(s, j, tgt);
    DeletionsLeave(s, j);
    MergeSettlesEdges(s, j, tgt);
    forall e | e in j.newEdges ensures EdgeSettled(d, tgt, j.newEdges[e]) {
      SettledLinks(d, tgt, j.newEdges[e]);
    }
    forall e | e in d.edges && e !in kept
      ensures e in j.newEdges && d.edges[e].id == e && LinksAs(tgt, j.newEdges[e], d.edges[e])
    {
      KeyedAs(j, e);
      RedirectedLinks(tgt, j.newEdges[e]);
    }
    EdgesAre(s, j, tgt, d, kept);
  }

  ghost predicate EdgeSettled(d: State, tgt: map<Id, Id>, e: Edge) {
    || (exists o :: o in d.edges && LinksAs(tgt, e, d.edges[o]))
    || Landed(tgt, e.from) !in d.nodes || Landed(tgt, e.to) !in d.nodes
  }

  lemma EdgesAre(s: State, j: Journal, tgt: map<Id, Id>, d: State, kept: map<Id, Edge>)
    requires forall e :: e in kept <==> && e in s.edges && e !in j.deletedEdges
                                        && s.edges[e].from !in j.deletedNodes && s.edges[e].to !in j.deletedNodes
    requires forall e :: e in kept ==> e in d.edges && d.edges[e] == s.edges[e]
    requires forall e :: e in d.edges && e !in kept
                         ==> e in j.newEdges && d.edges[e].id == e && LinksAs(tgt, j.newEdges[e], d.edges[e])
    requires forall e :: e in j.newEdges ==> EdgeSettled(d, tgt, j.newEdges[e])
    ensures EdgesAfter(s, j, tgt, d)
  {
    hide LinksAs, Landed;
  }

  lemma KeyedAs(j: Journal, e: Id)
    requires JournalKeyed(j) && e in j.newEdges
    ensures j.newEdges[e].id == e
  {
  }

  lemma RedirectedLinks(tgt: map<Id, Id>, e: Edge)
    ensures Redirected(tgt, e).id == e.id && LinksAs(tgt, e, Redirected(tgt, e))
  {
  }

  lemma SettledLinks(d: State, tgt: map<Id, Id>, e: Edge)
    requires Settled(d.edges, d.nodes.Keys, Redirected(tgt, e))
    ensures EdgeSettled(d, tgt, e)
  {
  }

  /** Whatever the targets: merging does exactly this. */
  lemma MergeDoes(s: State, j: Journal, tgt: map<Id, Id>)
    requires tgt.Keys == j.dirty.Keys && JournalKeyed(j) && NoClash(DeleteFrom(s, j).edges, j.newEdges, tgt)
    ensures MergeOutcome(s, j, tgt, MergeWith(s, j, tgt))
  {
    hide *;
    NodesAfterMerge(s, j, tgt);
    EdgesAfterMerge(s, j, tgt);
    MergedNodesOf(s, j, tgt);
    BothAfter(s, j, tgt, MergeWith(s, j, tgt));
  }

  lemma BothAfter(s: State, j: Journal, tgt: map<Id, Id>, d: State)
    requires tgt.Keys == j.dirty.Keys && NodesAfter(s, j, tgt, d.nodes) && EdgesAfter(s, j, tgt, d)
    ensures MergeOutcome(s, j, tgt, d)
  {
  }

  // ----- where a snapshot lands

  /** A snapshot whose id is stored, or that has no identity, stays under its id. */
  lemma StoredStays(s: State, j: Journal, tgt: map<Id, Id>, x: Id)
    requires Resolves(s, j, tgt) && x in j.dirty
    requires (x in s.nodes && x !in j.deletedNodes) || j.dirty[x].identity == map[]
    ensures tgt[x] == x
  {
    hide DeleteFrom, BuiltAt, PickedFrom;
    DeletionsLeave(s, j);
    ListingMembers(j.dirty.Keys);
    var k :| 0 <= k < |Listing(j.dirty.Keys)| && Listing(j.dirty.Keys)[k] == x;
    assert ResolvedAt(DeleteFrom(s, j).nodes, Listing(j.dirty.Keys), j.dirty, tgt, k);
  }

  predicate HasIdentity(n: Node, kind: string, identity: Props) {
    n.kind == kind && forall k :: k in identity ==> k in n.props && n.props[k] == identity[k]
  }

  lemma CarriesHas(n: Node, kind: string, identity: Props)
    ensures Carries(n, kind, identity) <==> HasIdentity(n, kind, identity)
  {
  }

  /** The stored, undeleted nodes of the kind with the identity. */
  ghost function Carriers(s: State, j: Journal, kind: string, identity: Props): set<Id> {
    set c | c in s.nodes && c !in j.deletedNodes && HasIdentity(s.nodes[c], kind, identity)
  }

  /** The only snapshot of a journal, new and with an identity: it lands on a stored node that has the
      identity if there is one, else it stays. */
  lemma LoneLands(s: State, j: Journal, tgt: map<Id, Id>, x: Id)
    requires Resolves(s, j, tgt) && j.dirty.Keys == {x} && (x in s.nodes ==> x in j.deletedNodes)
    requires j.dirty[x].identity != map[] && "" !in s.nodes
    ensures var there := Carriers(s, j, j.dirty[x].kind, j.dirty[x].identity);
            if there == {} then tgt[x] == x else tgt[x] in there
  {
    hide DeleteFrom, PickedFrom, Carries, HasIdentity;
    var base, order, snap := DeleteFrom(s, j).nodes, Listing(j.dirty.Keys), j.dirty[x];
    DeletionsLeave(s, j);
    ListingUnique([x], j.dirty.Keys);
    assert ResolvedAt(base, order, j.dirty, tgt, 0) && order[..0] == [];
    assert PickedFrom(base, snap, x, tgt[x]);
    forall c ensures c in Carriers(s, j, snap.kind, snap.identity)
                     <==> c in base && Carries(base[c], snap.kind, snap.identity) {
      if c in base {
        CarriesHas(base[c], snap.kind, snap.identity);
      }
    }
    PickedOne(base, snap, x, tgt[x]);
  }

  lemma PickedOne(nodes: map<Id, Node>, snap: Snap, x: Id, t: Id)
    requires PickedFrom(nodes, snap, x, t) && "" !in nodes
    ensures if exists c :: c in nodes && Carries(nodes[c], snap.kind, snap.identity)
            then t in nodes && Carries(nodes[t], snap.kind, snap.identity) else t == x
  {
    hide Carries;
  }

  /** Every snapshot under its own id. */
  function InPlace(j: Journal): map<Id, Id> {
    map x | x in j.dirty :: x
  }

  /** A read that meets no rival: the file with the journal, every pending node under its own id. */
  ghost predicate ReadOutcome(s: State, j: Journal, st: State) {
    MergeOutcome(s, j, InPlace(j), st)
  }

  lemma PlainDoes(s: State, j: Journal)
    requires Fits(s, j)
    ensures ReadOutcome(s, j, Plain(s, j))
  {
    assert NoClash(DeleteFrom(s, j).edges, j.newEdges, InPlace(j)) && JournalKeyed(j);
    hide Plain, MergeOutcome, NoClash, DeleteFrom;
    UnmovedIsPlain(s, j, InPlace(j));
    MergeDoes(s, j, InPlace(j));
  }
}
