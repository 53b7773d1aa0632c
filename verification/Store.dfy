/** The on-disk graph and the journal of one process: what merging a journal does. */
module Store {
  import opened Order

  type Id = string

  datatype Value = Nil | Text(s: string) | Number(n: int) | Real(r: real) | Flag(b: bool) | Texts(items: seq<string>)

  type Props = map<string, Value>

  datatype Node = Node(kind: string, props: Props)

  datatype Edge = Edge(id: Id, kind: string, from: Id, to: Id, props: Props)

  datatype State = State(nodes: map<Id, Node>, edges: map<Id, Edge>)

  /** A dirty node; its id is its key in the journal. */
  datatype Snap = Snap(kind: string, props: Props, identity: Props)

  datatype Journal = Journal(dirty: map<Id, Snap>, newEdges: map<Id, Edge>,
                             deletedNodes: set<Id>, deletedEdges: set<Id>)

  const EMPTY_JOURNAL := Journal(map[], map[], {}, {})

  /** `^[A-Za-z][A-Za-z0-9_]*$` */
  predicate ValidKind(kind: string) {
    && kind != [] && Letter(kind[0])
    && forall i :: 0 <= i < |kind| ==> Letter(kind[i]) || '0' <= kind[i] <= '9' || kind[i] == '_'
  }

  predicate Letter(c: char) {
    'a' <= c <= 'z' || 'A' <= c <= 'Z'
  }

  // ----- reading properties

  /** Reading a missing key of a Go map yields nil. */
  function Get(p: Props, k: string): Value {
    if k in p then p[k] else Nil
  }

  function StrProp(n: Node, k: string): string {
    if Get(n.props, k).Text? then Get(n.props, k).s else ""
  }

  /** The text of a property; without one, or with another value, the empty text. */
  predicate HasText(n: Node, key: string, text: string) {
    text == if key in n.props && n.props[key].Text? then n.props[key].s else ""
  }

  predicate Matches(n: Node, kind: string, filters: Props) {
    (kind == "" || n.kind == kind) && forall k :: k in filters ==> Get(n.props, k) == filters[k]
  }

  /** Reading a missing key of a Go map of lists yields the empty list. */
  function At<K, V>(m: map<K, seq<V>>, k: K): seq<V> {
    if k in m then m[k] else []
  }

  /** The properties of an updated node: given ones as given, the time of the update, the others as
      they were. */
  ghost predicate UpdatedWith(before: Props, given: Props, now: Value, after: Props) {
    && (forall k :: k in after <==> k in before || k in given || k == "updated_at")
    && (forall k :: k in given && k != "updated_at" ==> after[k] == given[k])
    && (forall k :: k in before && k !in given && k != "updated_at" ==> after[k] == before[k])
    && after["updated_at"] == now
  }

  // ----- the three phases of a merge

  function DeleteFrom(s: State, j: Journal): State {
    State(s.nodes - j.deletedNodes,
          map e | e in s.edges && e !in j.deletedEdges
                  && s.edges[e].from !in j.deletedNodes && s.edges[e].to !in j.deletedNodes :: s.edges[e])
  }

  /** The node written for snapshot x at target t; a node written over keeps its creation time. */
  function Written(nodes: map<Id, Node>, snap: Snap, x: Id, t: Id): Node {
    var props := if t != x && t in nodes && "created_at" in nodes[t].props
                 then snap.props["created_at" := nodes[t].props["created_at"]] else snap.props;
    Node(snap.kind, props["id" := Text(t)])
  }

  /** Writes the snapshots in the given order, each at the target `tgt` names for it. */
  function WriteAll(nodes: map<Id, Node>, order: seq<Id>, dirty: map<Id, Snap>, tgt: map<Id, Id>): map<Id, Node>
    requires forall x :: x in order ==> x in dirty && x in tgt
  {
    if order == [] then nodes
    else
      var before := WriteAll(nodes, order[..|order| - 1], dirty, tgt);
      var x := order[|order| - 1];
      before[tgt[x] := Written(before, dirty[x], x, tgt[x])]
  }

  function Redirect(tgt: map<Id, Id>, x: Id): Id {
    if x in tgt then tgt[x] else x
  }

  function Redirected(tgt: map<Id, Id>, e: Edge): Edge {
    e.(from := Redirect(tgt, e.from), to := Redirect(tgt, e.to))
  }

  predicate SameEdge(a: Edge, b: Edge) {
    a.kind == b.kind && a.from == b.from && a.to == b.to && a.props == b.props
  }

  predicate Duplicated(edges: map<Id, Edge>, e: Edge) {
    exists o :: o in edges && SameEdge(edges[o], e)
  }

  predicate Attached(nodes: set<Id>, e: Edge) {
    e.from in nodes && e.to in nodes
  }

  /** A new edge is dropped when an endpoint is missing or an equal edge exists. */
  function AddEdge(edges: map<Id, Edge>, nodes: set<Id>, e: Edge): map<Id, Edge> {
    if Attached(nodes, e) && !Duplicated(edges, e) then edges[e.id := e] else edges
  }

  function AddAll(edges: map<Id, Edge>, order: seq<Id>, news: map<Id, Edge>, nodes: set<Id>,
                  tgt: map<Id, Id>): map<Id, Edge>
    requires forall e :: e in order ==> e in news
  {
    if order == [] then edges
    else AddEdge(AddAll(edges, order[..|order| - 1], news, nodes, tgt), nodes,
                 Redirected(tgt, news[order[|order| - 1]]))
  }

  ghost function MergedNodes(s: State, j: Journal, tgt: map<Id, Id>): map<Id, Node>
    requires tgt.Keys == j.dirty.Keys
  {
    WriteAll(DeleteFrom(s, j).nodes, Listing(j.dirty.Keys), j.dirty, tgt)
  }

  /** The merge of journal j into state s, given the target of every snapshot. */
  ghost function MergeWith(s: State, j: Journal, tgt: map<Id, Id>): State
    requires tgt.Keys == j.dirty.Keys
  {
    var nodes := MergedNodes(s, j, tgt);
    State(nodes, AddAll(DeleteFrom(s, j).edges, Listing(j.newEdges.Keys), j.newEdges, nodes.Keys, tgt))
  }

  // ----- integrity, whatever the targets

  /** Every edge is stored under its own id and both its ends exist. */
  ghost predicate Sound(s: State) {
    SoundEdges(s.edges, s.nodes.Keys)
  }

  ghost predicate SoundEdges(edges: map<Id, Edge>, nodes: set<Id>) {
    forall e :: e in edges ==> edges[e].id == e && Attached(nodes, edges[e])
  }

  ghost predicate JournalKeyed(j: Journal) {
    forall e :: e in j.newEdges ==> j.newEdges[e].id == e
  }

  lemma {:induction false} WriteAllKeys(nodes: map<Id, Node>, order: seq<Id>, dirty: map<Id, Snap>, tgt: map<Id, Id>)
    requires forall x :: x in order ==> x in dirty && x in tgt
    ensures WriteAll(nodes, order, dirty, tgt).Keys == nodes.Keys + set x | x in order :: tgt[x]
  {
    if order != [] {
      var rest, x := order[..|order| - 1], order[|order| - 1];
      assert order == rest + [x];
      WriteAllKeys(nodes, rest, dirty, tgt);
      var all, some := set y | y in order :: tgt[y], set y | y in rest :: tgt[y];
      forall t ensures t in all <==> t in some + {tgt[x]} {
        if t in all {
          var y :| y in order && t == tgt[y];
          assert y in rest || y == x;
        }
      }
      assert all == some + {tgt[x]};
    }
  }

  lemma {:induction false} AddAllSound(edges: map<Id, Edge>, order: seq<Id>, news: map<Id, Edge>, nodes: set<Id>,
                                       tgt: map<Id, Id>)
    requires (forall e :: e in order ==> e in news) && (forall e :: e in news ==> news[e].id == e)
    requires SoundEdges(edges, nodes)
    ensures SoundEdges(AddAll(edges, order, news, nodes, tgt), nodes)
  {
    if order != [] {
      AddAllSound(edges, order[..|order| - 1], news, nodes, tgt);
    }
  }

  /** Merging keeps the stored graph sound, whichever node each snapshot lands on. */
  lemma MergeKeepsSound(s: State, j: Journal, tgt: map<Id, Id>)
    requires Sound(s) && JournalKeyed(j) && tgt.Keys == j.dirty.Keys
    ensures Sound(MergeWith(s, j, tgt))
  {
    var d := DeleteFrom(s, j);
    var order, edgeOrder := Listing(j.dirty.Keys), Listing(j.newEdges.Keys);
    assert forall x :: x in order ==> x in Elements(order);
    assert forall e :: e in edgeOrder ==> e in Elements(edgeOrder);
    WriteAllKeys(d.nodes, order, j.dirty, tgt);
    assert d.nodes.Keys <= MergedNodes(s, j, tgt).Keys;
    assert SoundEdges(d.edges, d.nodes.Keys);
    assert SoundEdges(d.edges, MergedNodes(s, j, tgt).Keys);
    AddAllSound(d.edges, edgeOrder, j.newEdges, MergedNodes(s, j, tgt).Keys, tgt);
  }

  // ----- what a merge does to each node and edge, whatever the targets

  lemma {:induction false} WriteAllUntouched(nodes: map<Id, Node>, order: seq<Id>, dirty: map<Id, Snap>,
                                             tgt: map<Id, Id>, n: Id)
    requires forall x :: x in order ==> x in dirty && x in tgt
    requires forall x :: x in order ==> tgt[x] != n
    ensures var r := WriteAll(nodes, order, dirty, tgt); n in r <==> n in nodes
    ensures n in nodes ==> WriteAll(nodes, order, dirty, tgt)[n] == nodes[n]
  {
    if order != [] {
      var rest, x := order[..|order| - 1], order[|order| - 1];
      assert order == rest + [x];
      WriteAllUntouched(nodes, rest, dirty, tgt, n);
    }
  }

  lemma {:induction false} WriteAllWritten(nodes: map<Id, Node>, order: seq<Id>, dirty: map<Id, Snap>, tgt: map<Id, Id>,
                                           x: Id)
    requires forall y :: y in order ==> y in dirty && y in tgt
    requires Distinct(order) && x in order && forall y :: y in order && y != x ==> tgt[y] != tgt[x]
    ensures var r := WriteAll(nodes, order, dirty, tgt);
            tgt[x] in r && r[tgt[x]] == Written(nodes, dirty[x], x, tgt[x])
  {
    var rest, last := order[..|order| - 1], order[|order| - 1];
    assert order == rest + [last];
    if last == x {
      WriteAllUntouched(nodes, rest, dirty, tgt, tgt[x]);
    } else {
      WriteAllWritten(nodes, rest, dirty, tgt, x);
    }
  }

  lemma ListingMembers(s: set<string>)
    ensures forall x :: x in Listing(s) <==> x in s
  {
    forall x ensures x in Listing(s) <==> x in s {
      assert x in Listing(s) <==> x in Elements(Listing(s));
    }
  }

  /** A snapshot that shares its target with no other is written there. */
  lemma SnapshotIsWritten(s: State, j: Journal, tgt: map<Id, Id>, x: Id)
    requires tgt.Keys == j.dirty.Keys && x in j.dirty
    requires forall y :: y in j.dirty && y != x ==> tgt[y] != tgt[x]
    ensures tgt[x] in MergeWith(s, j, tgt).nodes
    ensures MergeWith(s, j, tgt).nodes[tgt[x]] == Written(DeleteFrom(s, j).nodes, j.dirty[x], x, tgt[x])
  {
    ListingMembers(j.dirty.Keys);
    WriteAllWritten(DeleteFrom(s, j).nodes, Listing(j.dirty.Keys), j.dirty, tgt, x);
  }

  /** A node that is no target is there exactly if it was and was not deleted, unchanged. */
  lemma OtherNodesUnchanged(s: State, j: Journal, tgt: map<Id, Id>, n: Id)
    requires tgt.Keys == j.dirty.Keys && forall x :: x in j.dirty ==> tgt[x] != n
    ensures n in MergeWith(s, j, tgt).nodes <==> n in s.nodes && n !in j.deletedNodes
    ensures n in MergeWith(s, j, tgt).nodes ==> MergeWith(s, j, tgt).nodes[n] == s.nodes[n]
  {
    ListingMembers(j.dirty.Keys);
    WriteAllUntouched(DeleteFrom(s, j).nodes, Listing(j.dirty.Keys), j.dirty, tgt, n);
  }

  /** Edges once added stay, and nothing but the new edges is added. */
  lemma {:induction false} AddAllGrows(edges: map<Id, Edge>, order: seq<Id>, news: map<Id, Edge>, nodes: set<Id>,
                                       tgt: map<Id, Id>)
    requires (forall e :: e in order ==> e in news) && (forall e :: e in news ==> news[e].id == e)
    ensures var r := AddAll(edges, order, news, nodes, tgt);
            && (forall e :: e in edges && e !in order ==> e in r && r[e] == edges[e])
            && (forall e :: e in edges ==> e in r)
            && (forall e :: e in r && e !in edges ==> e in order && r[e] == Redirected(tgt, news[e]))
  {
    if order != [] {
      var rest, last := order[..|order| - 1], order[|order| - 1];
      assert order == rest + [last];
      AddAllGrows(edges, rest, news, nodes, tgt);
    }
  }

  /** The fate of a new edge: stored, equal to a stored edge, or without an endpoint. */
  ghost predicate Settled(edges: map<Id, Edge>, nodes: set<Id>, e: Edge) {
    (e.id in edges && edges[e.id] == e) || Duplicated(edges, e) || !Attached(nodes, e)
  }

  /** A new edge whose id is already stored is that stored edge: ids are never reused. */
  ghost predicate NoClash(edges: map<Id, Edge>, news: map<Id, Edge>, tgt: map<Id, Id>) {
    forall e :: e in news && e in edges ==> SameEdge(edges[e], Redirected(tgt, news[e]))
  }

  lemma {:induction false} AddAllKeepsStored(edges: map<Id, Edge>, order: seq<Id>, news: map<Id, Edge>, nodes: set<Id>,
                                             tgt: map<Id, Id>)
    requires (forall e :: e in order ==> e in news) && (forall e :: e in news ==> news[e].id == e)
    requires NoClash(edges, news, tgt)
    ensures forall o :: o in edges ==> o in AddAll(edges, order, news, nodes, tgt)
                                       && AddAll(edges, order, news, nodes, tgt)[o] == edges[o]
  {
    if order != [] {
      AddAllKeepsStored(edges, order[..|order| - 1], news, nodes, tgt);
    }
  }

  lemma NoClashStays(edges: map<Id, Edge>, news: map<Id, Edge>, nodes: set<Id>, tgt: map<Id, Id>, ids: seq<Id>, k: nat)
    requires NoClash(edges, news, tgt) && (forall e :: e in news ==> news[e].id == e)
    requires Distinct(ids) && k < |ids| && forall e :: e in ids ==> e in news
    ensures var now := AddAll(edges, ids[..k], news, nodes, tgt);
            ids[k] in now ==> SameEdge(now[ids[k]], Redirected(tgt, news[ids[k]]))
  {
    AddAllKeepsStored(edges, ids[..k], news, nodes, tgt);
    AddAllGrows(edges, ids[..k], news, nodes, tgt);
    assert ids[k] !in ids[..k];
  }

  lemma {:induction false} AddAllSettles(edges: map<Id, Edge>, order: seq<Id>, news: map<Id, Edge>, nodes: set<Id>,
                                         tgt: map<Id, Id>, e: Id)
    requires (forall e :: e in order ==> e in news) && (forall e :: e in news ==> news[e].id == e)
    requires Distinct(order) && e in order && NoClash(edges, news, tgt)
    ensures Settled(AddAll(edges, order, news, nodes, tgt), nodes, Redirected(tgt, news[e]))
  {
    var n := |order| - 1;
    var rest, last := order[..n], order[n];
    assert order == rest + [last];
    var before := AddAll(edges, rest, news, nodes, tgt);
    NoClashStays(edges, news, nodes, tgt, order, n);
    if last == e {
      if Attached(nodes, Redirected(tgt, news[e])) && Duplicated(before, Redirected(tgt, news[e])) {
        assert AddAll(edges, order, news, nodes, tgt) == before;
      }
    } else {
      AddAllSettles(edges, rest, news, nodes, tgt, e);
      SettledStays(before, nodes, Redirected(tgt, news[e]), Redirected(tgt, news[last]));
    }
  }

  lemma SettledStays(edges: map<Id, Edge>, nodes: set<Id>, e: Edge, f: Edge)
    requires Settled(edges, nodes, e) && (f.id in edges ==> SameEdge(edges[f.id], f))
    ensures Settled(AddEdge(edges, nodes, f), nodes, e)
  {
    var r := AddEdge(edges, nodes, f);
    assert f.id in edges ==> r == edges;
    assert forall o :: o in edges ==> o in r && r[o] == edges[o];
  }

  // ----- the same, field by field

  /** What the deletions of a journal leave. */
  lemma DeletionsLeave(s: State, j: Journal)
    ensures forall n :: n in DeleteFrom(s, j).nodes <==> n in s.nodes && n !in j.deletedNodes
    ensures forall n :: n in DeleteFrom(s, j).nodes ==> DeleteFrom(s, j).nodes[n] == s.nodes[n]
    ensures forall e :: e in DeleteFrom(s, j).edges
                        <==> && e in s.edges && e !in j.deletedEdges
                             && s.edges[e].from !in j.deletedNodes && s.edges[e].to !in j.deletedNodes
    ensures forall e :: e in DeleteFrom(s, j).edges ==> DeleteFrom(s, j).edges[e] == s.edges[e]
  {
  }

  /** The snapshot's properties, with the id it is stored under; a node written over keeps its
      creation time. */
  lemma WrittenIs(nodes: map<Id, Node>, snap: Snap, x: Id, t: Id)
    ensures var n := Written(nodes, snap, x, t);
            var keeps := t != x && t in nodes && "created_at" in nodes[t].props;
            && n.kind == snap.kind
            && (forall k :: k in n.props <==> k in snap.props || k == "id" || (k == "created_at" && keeps))
            && n.props["id"] == Text(t) && (keeps ==> n.props["created_at"] == nodes[t].props["created_at"])
            && (forall k :: k in snap.props && k != "id" && !(k == "created_at" && keeps)
                            ==> n.props[k] == snap.props[k])
  {
  }

  /** After a merge every new edge is settled; stored edges that were not deleted stay. */
  lemma MergeSettlesEdges(s: State, j: Journal, tgt: map<Id, Id>)
    requires tgt.Keys == j.dirty.Keys && JournalKeyed(j) && NoClash(DeleteFrom(s, j).edges, j.newEdges, tgt)
    ensures var r := MergeWith(s, j, tgt);
            && (forall e :: e in j.newEdges ==> Settled(r.edges, r.nodes.Keys, Redirected(tgt, j.newEdges[e])))
            && (forall e :: e in DeleteFrom(s, j).edges ==> e in r.edges && r.edges[e] == s.edges[e])
            && (forall e :: e in r.edges && e !in DeleteFrom(s, j).edges
                            ==> e in j.newEdges && r.edges[e] == Redirected(tgt, j.newEdges[e]))
    ensures forall e :: e in s.edges && e !in j.deletedEdges
                        && s.edges[e].from !in j.deletedNodes && s.edges[e].to !in j.deletedNodes
                        ==> e in MergeWith(s, j, tgt).edges && MergeWith(s, j, tgt).edges[e] == s.edges[e]
    ensures forall e :: e in MergeWith(s, j, tgt).edges
                        ==> || (&& e in s.edges && e !in j.deletedEdges
                                && s.edges[e].from !in j.deletedNodes && s.edges[e].to !in j.deletedNodes)
                            || (e in j.newEdges && MergeWith(s, j, tgt).edges[e] == Redirected(tgt, j.newEdges[e]))
  {
    hide DeleteFrom;
    DeletionsLeave(s, j);
    var d, order := DeleteFrom(s, j), Listing(j.newEdges.Keys);
    var nodes := MergedNodes(s, j, tgt).Keys;
    ListingMembers(j.newEdges.Keys);
    AddAllGrows(d.edges, order, j.newEdges, nodes, tgt);
    AddAllKeepsStored(d.edges, order, j.newEdges, nodes, tgt);
    forall e | e in j.newEdges ensures Settled(MergeWith(s, j, tgt).edges, nodes, Redirected(tgt, j.newEdges[e])) {
      AddAllSettles(d.edges, order, j.newEdges, nodes, tgt, e);
    }
  }
}
