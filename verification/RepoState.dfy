/** The decoded graph state and the in-place merge of a journal into it. */
module RepoState {
  import opened Order
  import opened Store
  import opened Identity

  // ----- the identity index built lazily while snapshots are written

  function Restrict(p: Props, names: set<string>): Props {
    map k | k in names && k in p :: p[k]
  }

  predicate Complete(n: Node, kind: string, names: set<string>) {
    n.kind == kind && names <= n.props.Keys
  }

  type Index = map<(string, set<string>), map<Props, Id>>

  /** An index over the identifying values of all complete nodes of one kind. */
  ghost predicate BuiltFrom(nodes: map<Id, Node>, kind: string, names: set<string>, idx: map<Props, Id>) {
    && (forall v :: v in idx ==> idx[v] in nodes && Complete(nodes[idx[v]], kind, names)
                                 && Restrict(nodes[idx[v]].props, names) == v)
    && (forall c :: c in nodes && Complete(nodes[c], kind, names) ==> Restrict(nodes[c].props, names) in idx)
  }

  lemma CarriesIsComplete(n: Node, kind: string, identity: Props)
    ensures Carries(n, kind, identity)
       <==> Complete(n, kind, identity.Keys) && Restrict(n.props, identity.Keys) == identity
  {
    if Carries(n, kind, identity) {
      assert Restrict(n.props, identity.Keys) == identity;
    }
    if Complete(n, kind, identity.Keys) && Restrict(n.props, identity.Keys) == identity {
      forall k | k in identity ensures k in n.props && n.props[k] == identity[k] {
        assert Restrict(n.props, identity.Keys)[k] == n.props[k];
      }
    }
  }

  lemma IndexPicks(nodes: map<Id, Node>, snap: Snap, x: Id, idx: map<Props, Id>)
    requires BuiltFrom(nodes, snap.kind, snap.identity.Keys, idx)
    ensures PickedFrom(nodes, snap, x, if snap.identity in idx && idx[snap.identity] != "" then idx[snap.identity]
                                       else x)
  {
    forall c | c in nodes
      ensures Carries(nodes[c], snap.kind, snap.identity)
         <==> Complete(nodes[c], snap.kind, snap.identity.Keys)
              && Restrict(nodes[c].props, snap.identity.Keys) == snap.identity
    {
      CarriesIsComplete(nodes[c], snap.kind, snap.identity);
    }
  }

  /** The loop building one index, in any order of the nodes. */
  method BuildIndex(nodes: map<Id, Node>, kind: string, names: set<string>) returns (idx: map<Props, Id>)
    ensures BuiltFrom(nodes, kind, names, idx)
  {
    idx := map[];
    var todo := nodes.Keys;
    while todo != {}
      invariant todo <= nodes.Keys
      invariant forall v :: v in idx ==> idx[v] in nodes && Complete(nodes[idx[v]], kind, names)
                                         && Restrict(nodes[idx[v]].props, names) == v
      invariant forall c :: c in nodes && c !in todo && Complete(nodes[c], kind, names)
                            ==> Restrict(nodes[c].props, names) in idx
      decreases |todo|
    {
      var id :| id in todo;
      todo := todo - {id};
      if nodes[id].kind == kind && names <= nodes[id].props.Keys {
        idx := idx[Restrict(nodes[id].props, names) := id];
      }
    }
  }

  // ----- the history of a merge's node writes

  /** The nodes before and after each write, and the targets written to. */
  ghost predicate Writes(states: seq<map<Id, Node>>, ts: seq<Id>, order: seq<Id>, dirty: map<Id, Snap>) {
    && |states| == |ts| + 1 && |ts| <= |order| && (forall x :: x in order ==> x in dirty)
    && forall i :: 0 <= i < |ts|
                   ==> states[i + 1] == states[i][ts[i] := Written(states[i], dirty[order[i]], order[i], ts[i])]
  }

  function IndexKey(snap: Snap): (string, set<string>) {
    (snap.kind, snap.identity.Keys)
  }

  /** The i-th snapshot is looked up: its id is not stored when its turn comes. */
  ghost predicate Looks(states: seq<map<Id, Node>>, order: seq<Id>, dirty: map<Id, Snap>, i: nat)
    requires i < |states| && i < |order| && forall x :: x in order ==> x in dirty
  {
    order[i] !in states[i] && dirty[order[i]].identity != map[]
  }

  /** The index of this key is built for the m-th snapshot, the first looked up in it. */
  ghost predicate FirstUse(states: seq<map<Id, Node>>, order: seq<Id>, dirty: map<Id, Snap>, key: (string, set<string>),
                           m: nat)
    requires m < |states| && m < |order| && forall x :: x in order ==> x in dirty
  {
    && Looks(states, order, dirty, m) && IndexKey(dirty[order[m]]) == key
    && forall i :: 0 <= i < m ==> !(Looks(states, order, dirty, i) && IndexKey(dirty[order[i]]) == key)
  }

  ghost predicate ChosenAt(states: seq<map<Id, Node>>, order: seq<Id>, dirty: map<Id, Snap>, t: Id, i: nat)
    requires i < |states| && i < |order| && forall x :: x in order ==> x in dirty
  {
    var x := order[i];
    if Looks(states, order, dirty, i)
    then exists m :: 0 <= m <= i && FirstUse(states, order, dirty, IndexKey(dirty[x]), m)
                     && PickedFrom(states[m], dirty[x], x, t)
    else t == x
  }

  ghost predicate Chosen(states: seq<map<Id, Node>>, ts: seq<Id>, order: seq<Id>, dirty: map<Id, Snap>)
    requires Writes(states, ts, order, dirty)
  {
    forall i :: 0 <= i < |ts| ==> ChosenAt(states, order, dirty, ts[i], i)
  }

  ghost function TargetMap(order: seq<Id>, ts: seq<Id>): map<Id, Id>
    requires |order| == |ts|
  {
    if order == [] then map[]
    else TargetMap(order[..|order| - 1], ts[..|order| - 1])[order[|order| - 1] := ts[|order| - 1]]
  }

  lemma {:induction false} TargetMapAt(order: seq<Id>, ts: seq<Id>)
    requires |order| == |ts| && Distinct(order)
    ensures TargetMap(order, ts).Keys == Elements(order)
    ensures forall i :: 0 <= i < |order| ==> order[i] in TargetMap(order, ts) && TargetMap(order, ts)[order[i]] == ts[i]
  {
    if order != [] {
      var n := |order| - 1;
      assert order == order[..n] + [order[n]];
      TargetMapAt(order[..n], ts[..n]);
    }
  }

  lemma {:induction false} WritesAreWriteAll(states: seq<map<Id, Node>>, ts: seq<Id>, order: seq<Id>,
                                             dirty: map<Id, Snap>, tgt: map<Id, Id>, k: nat)
    requires Writes(states, ts, order, dirty) && |ts| == |order| && k <= |order|
    requires forall i :: 0 <= i < |order| ==> order[i] in tgt && tgt[order[i]] == ts[i]
    ensures states[k] == WriteAll(states[0], order[..k], dirty, tgt)
  {
    if k > 0 {
      WritesAreWriteAll(states, ts, order, dirty, tgt, k - 1);
      assert order[..k][..k - 1] == order[..k - 1];
    }
  }

  lemma {:induction false} WritesGrow(states: seq<map<Id, Node>>, ts: seq<Id>, order: seq<Id>, dirty: map<Id, Snap>,
                                      m: nat, i: nat)
    requires Writes(states, ts, order, dirty) && m <= i < |states|
    ensures states[m].Keys <= states[i].Keys
    decreases i
  {
    if m < i {
      WritesGrow(states, ts, order, dirty, m, i - 1);
    }
  }

  lemma ChosenStored(states: seq<map<Id, Node>>, order: seq<Id>, dirty: map<Id, Snap>, t: Id, i: nat) returns (m: nat)
    requires i < |states| && i < |order| && (forall x :: x in order ==> x in dirty)
    requires ChosenAt(states, order, dirty, t, i) && t != order[i]
    ensures m <= i && t in states[m]
  {
    hide FirstUse, Looks;
    m :| 0 <= m <= i && PickedFrom(states[m], dirty[order[i]], order[i], t);
    PickedStored(states[m], dirty[order[i]], order[i], t);
  }

  /** Writing stores nothing new but snapshots under their own ids. */
  lemma {:induction false} WritesAddOwn(states: seq<map<Id, Node>>, ts: seq<Id>, order: seq<Id>, dirty: map<Id, Snap>,
                                        i: nat)
    requires Writes(states, ts, order, dirty) && Chosen(states, ts, order, dirty) && i < |states|
    ensures forall n :: n in states[i] ==> n in states[0] || n in order[..i]
  {
    if i > 0 {
      assert i < |states| && i <= |order|;
      WrittenLast(states, ts, order, dirty, i);
      hide *;
      WritesAddOwn(states, ts, order, dirty, i - 1);
      OwnOneMore(states[0].Keys, states[i - 1].Keys, states[i].Keys, order, ts[i - 1], i);
    }
  }

  lemma WrittenLast(states: seq<map<Id, Node>>, ts: seq<Id>, order: seq<Id>, dirty: map<Id, Snap>, i: nat)
    requires Writes(states, ts, order, dirty) && Chosen(states, ts, order, dirty) && 0 < i < |states|
    ensures i <= |order| && i <= |ts| && states[i].Keys == states[i - 1].Keys + {ts[i - 1]}
    ensures ts[i - 1] in states[i - 1].Keys || ts[i - 1] == order[i - 1]
  {
    hide Written, ChosenAt, Chosen;
    TargetIsOwn(states, ts, order, dirty, i - 1);
    var k := i - 1;
    assert states[k + 1] == states[k][ts[k] := Written(states[k], dirty[order[k]], order[k], ts[k])];
  }

  lemma OwnOneMore(first: set<Id>, before: set<Id>, after: set<Id>, order: seq<Id>, t: Id, i: nat)
    requires 0 < i <= |order| && after == before + {t} && (t in before || t == order[i - 1])
    requires forall n :: n in before ==> n in first || n in order[..i - 1]
    ensures forall n :: n in after ==> n in first || n in order[..i]
  {
    assert order[..i] == order[..i - 1] + [order[i - 1]];
  }

  lemma TargetIsOwn(states: seq<map<Id, Node>>, ts: seq<Id>, order: seq<Id>, dirty: map<Id, Snap>, i: nat)
    requires Writes(states, ts, order, dirty) && Chosen(states, ts, order, dirty) && i < |ts|
    ensures ts[i] == order[i] || ts[i] in states[i]
  {
    assert ChosenAt(states, order, dirty, ts[i], i);
    hide ChosenAt;
    if ts[i] != order[i] {
      var m := ChosenStored(states, order, dirty, ts[i], i);
      WritesGrow(states, ts, order, dirty, m, i);
    }
  }

  lemma LooksIsLookedUp(states: seq<map<Id, Node>>, ts: seq<Id>, order: seq<Id>, dirty: map<Id, Snap>, i: nat)
    requires Writes(states, ts, order, dirty) && Chosen(states, ts, order, dirty) && Distinct(order) && i < |ts|
    ensures Looks(states, order, dirty, i) <==> LookedUp(states[0], dirty, order[i])
  {
    WritesGrow(states, ts, order, dirty, 0, i);
    WritesAddOwn(states, ts, order, dirty, i);
    hide Writes, Chosen;
    assert order[i] !in order[..i];
  }

  lemma FirstUseIsBuilt(states: seq<map<Id, Node>>, ts: seq<Id>, order: seq<Id>, dirty: map<Id, Snap>, x: Id, m: nat)
    requires Writes(states, ts, order, dirty) && Chosen(states, ts, order, dirty) && Distinct(order) && m < |ts|
    requires x in dirty && FirstUse(states, order, dirty, IndexKey(dirty[x]), m)
    ensures BuiltAt(states[0], order, dirty, x, m)
  {
    assert |states| == |ts| + 1 && |ts| <= |order| && forall y :: y in order ==> y in dirty;
    hide Writes, Chosen, Looks;
    forall i | 0 <= i <= m ensures Looks(states, order, dirty, i) <==> LookedUp(states[0], dirty, order[i]) {
      LooksIsLookedUp(states, ts, order, dirty, i);
    }
  }

  lemma ChosenIsResolved(states: seq<map<Id, Node>>, ts: seq<Id>, order: seq<Id>, dirty: map<Id, Snap>,
                         tgt: map<Id, Id>, k: nat)
    requires Writes(states, ts, order, dirty) && Chosen(states, ts, order, dirty) && |ts| == |order| && k < |order|
    requires Distinct(order) && forall i :: 0 <= i < |order| ==> order[i] in tgt && tgt[order[i]] == ts[i]
    ensures (forall x :: x in order ==> x in dirty && x in tgt) && ResolvedAt(states[0], order, dirty, tgt, k)
  {
    assert ChosenAt(states, order, dirty, ts[k], k);
    LooksIsLookedUp(states, ts, order, dirty, k);
    var x := order[k];
    hide PickedFrom, Looks, FirstUse, BuiltAt, LookedUp, WriteAll;
    if Looks(states, order, dirty, k) {
      var m :| 0 <= m <= k && FirstUse(states, order, dirty, IndexKey(dirty[x]), m)
               && PickedFrom(states[m], dirty[x], x, ts[k]);
      FirstUseIsBuilt(states, ts, order, dirty, x, m);
      WritesAreWriteAll(states, ts, order, dirty, tgt, m);
    }
  }

  /** The recorded writes are a resolution of the snapshots in the sense of `Resolves`. */
  lemma WritesResolve(s: State, j: Journal, states: seq<map<Id, Node>>, ts: seq<Id>)
    requires var order := Listing(j.dirty.Keys);
             Writes(states, ts, order, j.dirty) && |ts| == |order| && Chosen(states, ts, order, j.dirty)
             && states[0] == DeleteFrom(s, j).nodes
    ensures var order := Listing(j.dirty.Keys); var tgt := TargetMap(order, ts);
            Resolves(s, j, tgt) && states[|order|] == MergedNodes(s, j, tgt)
  {
    var order := Listing(j.dirty.Keys);
    var tgt := TargetMap(order, ts);
    TargetMapAt(order, ts);
    WritesAreWriteAll(states, ts, order, j.dirty, tgt, |order|);
    assert order[..|order|] == order;
    hide ResolvedAt, ChosenAt, DeleteFrom, TargetMap;
    forall k | 0 <= k < |order| ensures ResolvedAt(states[0], order, j.dirty, tgt, k) {
      ChosenIsResolved(states, ts, order, j.dirty, tgt, k);
    }
  }

  /** Each index is there from its first use on, built from the nodes as they were then. */
  ghost predicate IndexesOk(index: Index, states: seq<map<Id, Node>>, order: seq<Id>, dirty: map<Id, Snap>, k: nat)
    requires k <= |states| && k <= |order| && forall x :: x in order ==> x in dirty
  {
    && (forall key :: key in index ==> exists m :: 0 <= m < k && FirstUse(states, order, dirty, key, m)
                                                   && BuiltFrom(states[m], key.0, key.1, index[key]))
    && (forall i :: 0 <= i < k && Looks(states, order, dirty, i) ==> IndexKey(dirty[order[i]]) in index)
  }

  // ----- the merge in place

  type Triples = map<(string, Id, Id), seq<Id>>

  function Triple(e: Edge): (string, Id, Id) {
    (e.kind, e.from, e.to)
  }

  /** The groups hold ids of stored edges only. */
  ghost predicate OnlyStored(edges: map<Id, Edge>, byTriple: Triples) {
    forall t, o :: t in byTriple && o in byTriple[t] ==> o in edges
  }

  lemma AddAllNone(edges: map<Id, Edge>, news: map<Id, Edge>, nodes: set<Id>, tgt: map<Id, Id>)
    ensures AddAll(edges, [], news, nodes, tgt) == edges
  {
  }

  lemma AddAllOneMore(edges: map<Id, Edge>, ids: seq<Id>, news: map<Id, Edge>, nodes: set<Id>, tgt: map<Id, Id>, k: nat)
    requires k < |ids| && forall e :: e in ids ==> e in news
    ensures AddAll(edges, ids[..k + 1], news, nodes, tgt)
         == AddEdge(AddAll(edges, ids[..k], news, nodes, tgt), nodes, Redirected(tgt, news[ids[k]]))
  {
    hide AddEdge;
    assert ids[..k + 1][..k] == ids[..k];
  }

  ghost predicate Grouped(edges: map<Id, Edge>, byTriple: Triples) {
    && (forall t, o :: t in byTriple && o in byTriple[t] ==> o in edges && Triple(edges[o]) == t)
    && (forall o :: o in edges ==> Triple(edges[o]) in byTriple && o in byTriple[Triple(edges[o])])
  }

  /** The edges that touch none of the nodes. */
  function Clear(edges: map<Id, Edge>, gone: set<Id>): map<Id, Edge> {
    map e | e in edges && edges[e].from !in gone && edges[e].to !in gone :: edges[e]
  }

  lemma ClearedIsDeleted(s: State, j: Journal)
    ensures DeleteFrom(s, j) == State(s.nodes - j.deletedNodes, Clear(s.edges, j.deletedNodes) - j.deletedEdges)
  {
  }

  lemma ClearTwice(edges: map<Id, Edge>, gone: set<Id>, x: Id)
    ensures Clear(Clear(edges, gone), {x}) == Clear(edges, gone + {x})
  {
  }

  class RepoState {
    var nodes: map<Id, Node>
    var edges: map<Id, Edge>

    constructor (s: State)
      ensures View() == s
    {
      nodes, edges := s.nodes, s.edges;
    }

    ghost function View(): State
      reads this
    {
      State(nodes, edges)
    }

    /** Deletes the edges touching one deleted node. */
    method DeleteIncident(id: Id)
      modifies `edges
      ensures edges == Clear(old(edges), {id})
    {
      ghost var was := edges;
      var todo := edges.Keys;
      while todo != {}
        invariant todo <= was.Keys
        invariant forall e :: e in edges <==> e in was && (e in todo || (was[e].from != id && was[e].to != id))
        invariant forall e :: e in edges ==> edges[e] == was[e]
        decreases |todo|
      {
        var eid :| eid in todo;
        todo := todo - {eid};
        if edges[eid].from == id || edges[eid].to == id {
          edges := edges - {eid};
        }
      }
    }

    /** The deletions of the journal. */
    method MergeDeletions(deletedNodes: set<Id>, deletedEdges: set<Id>, ghost j: Journal)
      requires j.deletedNodes == deletedNodes && j.deletedEdges == deletedEdges
      modifies this
      ensures View() == DeleteFrom(old(View()), j)
      ensures forall n :: n in nodes <==> n in old(nodes) && n !in deletedNodes
      ensures forall n :: n in nodes ==> nodes[n] == old(nodes)[n]
      ensures forall e :: e in edges
                          <==> && e in old(edges) && e !in deletedEdges
                               && old(edges)[e].from !in deletedNodes && old(edges)[e].to !in deletedNodes
      ensures forall e :: e in edges ==> edges[e] == old(edges)[e]
    {
      ghost var was := View();
      var todo := deletedNodes;
      assert Clear(was.edges, {}) == was.edges && was.nodes - {} == was.nodes;
      hide Clear, DeleteFrom;
      while todo != {}
        invariant todo <= deletedNodes
        invariant nodes == was.nodes - (deletedNodes - todo)
        invariant edges == Clear(was.edges, deletedNodes - todo)
        decreases |todo|
      {
        var id :| id in todo;
        ClearTwice(was.edges, deletedNodes - todo, id);
        assert (deletedNodes - todo) + {id} == deletedNodes - (todo - {id});
        todo := todo - {id};
        nodes := nodes - {id};
        DeleteIncident(id);
        assert nodes == was.nodes - (deletedNodes - todo);
      }
      assert deletedNodes - todo == deletedNodes;
      ClearedIsDeleted(was, j);
      DeletionsLeave(was, j);
      edges := edges - deletedEdges;
    }

    /** The identity of the k-th snapshot looked up in an index built at the first use of its kind
        and property names; the index is never rebuilt. */
    method Lookup(index: Index, ghost states: seq<map<Id, Node>>, order: seq<Id>, dirty: map<Id, Snap>, k: nat)
      returns (found: Id, index': Index)
      requires |states| == k + 1 && states[k] == nodes && k < |order| && (forall x :: x in order ==> x in dirty)
      requires Looks(states, order, dirty, k) && IndexesOk(index, states, order, dirty, k)
      ensures IndexesOk(index', states, order, dirty, k + 1)
      ensures ChosenAt(states, order, dirty, if found != "" then found else order[k], k)
      ensures found != "" ==> exists m :: 0 <= m <= k && found in states[m]
    {
      var snap := dirty[order[k]];
      var key := IndexKey(snap);
      index' := index;
      if key !in index' {
        var idx := BuildIndex(nodes, snap.kind, snap.identity.Keys);
        index' := index'[key := idx];
        NewIndexOk(index, states, order, dirty, k, idx);
      } else {
        OldIndexOk(index, states, order, dirty, k);
      }
      hide FirstUse, Looks, BuiltFrom;
      ghost var m :| 0 <= m < k + 1 && FirstUse(states, order, dirty, key, m)
                     && BuiltFrom(states[m], key.0, key.1, index'[key]);
      IndexPicks(states[m], snap, order[k], index'[key]);
      found := if snap.identity in index'[key] then index'[key][snap.identity] else "";
      BuiltHolds(states[m], key.0, key.1, index'[key]);
    }

    /** Writes the k-th snapshot: at its own id, or over the node its identity is found on. */
    method WriteSnapshot(index: Index, remap: map<Id, Id>, ghost states: seq<map<Id, Node>>, order: seq<Id>,
                         dirty: map<Id, Snap>, k: nat)
      returns (index': Index, remap': map<Id, Id>, ghost t: Id)
      requires |states| == k + 1 && states[k] == nodes && k < |order| && (forall x :: x in order ==> x in dirty)
      requires IndexesOk(index, states, order, dirty, k)
      requires forall m :: 0 <= m < |states| ==> states[m].Keys <= nodes.Keys
      modifies `nodes
      ensures nodes == old(nodes)[t := Written(old(nodes), dirty[order[k]], order[k], t)]
      ensures ChosenAt(states, order, dirty, t, k)
      ensures IndexesOk(index', states, order, dirty, k + 1)
      ensures remap' == if t != order[k] then remap[order[k] := t] else remap
    {
      var x, snap := order[k], dirty[order[k]];
      var props := snap.props;
      var target := x;
      index', remap' := index, remap;
      if x !in nodes && |snap.identity| > 0 {
        assert Looks(states, order, dirty, k);
        hide FirstUse, IndexesOk, PickedFrom, Looks;
        var found;
        found, index' := Lookup(index, states, order, dirty, k);
        if found != "" {
          target := found;
          remap' := remap[x := found];
          if "created_at" in nodes[found].props {
            props := props["created_at" := nodes[found].props["created_at"]];
          }
        }
      } else {
        assert !Looks(states, order, dirty, k);
        OldIndexOk(index, states, order, dirty, k);
        hide FirstUse, IndexesOk, PickedFrom, Looks;
      }
      t := target;
      props := props["id" := Text(target)];
      nodes := nodes[target := Node(snap.kind, props)];
    }

    /** The snapshots, in the order of their ids. */
    method MergeDirty(dirty: map<Id, Snap>, ghost s: State, ghost j: Journal)
      returns (remap: map<Id, Id>, ghost tgt: map<Id, Id>)
      requires j.dirty == dirty && nodes == DeleteFrom(s, j).nodes
      modifies `nodes
      ensures Resolves(s, j, tgt) && nodes == MergedNodes(s, j, tgt)
      ensures forall y :: Redirect(remap, y) == Redirect(tgt, y)
    {
      remap := map[];
      var ids := SortedKeys(dirty.Keys);
      ListingUnique(ids, dirty.Keys);
      ListingMembers(dirty.Keys);
      var index: Index := map[];
      ghost var states, ts := [nodes], [];
      assert RemapIs(remap, ids, ts);
      hide Written, ChosenAt, DeleteFrom, IndexesOk, RemapIs;
      EmptyIndexOk(states, ids, dirty);
      for k := 0 to |ids|
        invariant Writes(states, ts, ids, dirty) && |ts| == k && Chosen(states, ts, ids, dirty)
        invariant states[0] == DeleteFrom(s, j).nodes && states[k] == nodes
        invariant IndexesOk(index, states, ids, dirty, k)
        invariant RemapIs(remap, ids, ts)
      {
        ghost var was := remap;
        forall m | 0 <= m < |states| ensures states[m].Keys <= nodes.Keys {
          WritesGrow(states, ts, ids, dirty, m, k);
        }
        ghost var t;
        index, remap, t := WriteSnapshot(index, remap, states, ids, dirty, k);
        ExtendWrites(states, ts, ids, dirty, nodes, t);
        ExtendIndexes(index, states, nodes, ids, dirty, k + 1);
        RemapNext(was, ids, ts, t);
        states, ts := states + [nodes], ts + [t];
      }
      WritesResolve(s, j, states, ts);
      tgt := TargetMap(ids, ts);
      TargetMapAt(ids, ts);
      forall y ensures Redirect(remap, y) == Redirect(tgt, y) {
        SameRedirect(remap, tgt, ids, ts, y);
      }
    }

    /** Edges grouped by kind and endpoints. */
    method GroupEdges() returns (byTriple: Triples)
      ensures Grouped(edges, byTriple) && OnlyStored(edges, byTriple)
    {
      byTriple := map[];
      var todo := edges.Keys;
      while todo != {}
        invariant todo <= edges.Keys
        invariant forall t, o :: t in byTriple && o in byTriple[t] ==> o in edges && o !in todo && Triple(edges[o]) == t
        invariant forall o :: o in edges && o !in todo
                              ==> Triple(edges[o]) in byTriple && o in byTriple[Triple(edges[o])]
        decreases |todo|
      {
        var eid :| eid in todo;
        todo := todo - {eid};
        var t := Triple(edges[eid]);
        byTriple := byTriple[t := (if t in byTriple then byTriple[t] else []) + [eid]];
      }
    }

    /** Whether an edge of the same group has the same properties. */
    method HasEqual(byTriple: Triples, e: Edge) returns (dup: bool)
      requires OnlyStored(edges, byTriple)
      ensures Grouped(edges, byTriple) ==> dup == Duplicated(edges, e)
    {
      var others := if Triple(e) in byTriple then byTriple[Triple(e)] else [];
      for i := 0 to |others|
        invariant forall k :: 0 <= k < i ==> edges[others[k]].props != e.props
      {
        if edges[others[i]].props == e.props {
          assert Grouped(edges, byTriple) ==> SameEdge(edges[others[i]], e);
          return true;
        }
      }
      return false;
    }

    /** One new edge, with its endpoints redirected to where their snapshots landed. */
    method AddNewEdge(e: Edge, byTriple: Triples) returns (byTriple': Triples)
      requires OnlyStored(edges, byTriple)
      modifies `edges
      ensures OnlyStored(edges, byTriple')
      ensures old(edges.Keys) <= edges.Keys
      ensures SoundEdges(old(edges), nodes.Keys) ==> SoundEdges(edges, nodes.Keys)
      ensures Grouped(old(edges), byTriple) && (e.id in old(edges) ==> SameEdge(old(edges)[e.id], e))
              ==> edges == AddEdge(old(edges), nodes.Keys, e) && Grouped(edges, byTriple')
    {
      byTriple' := byTriple;
      if e.from !in nodes {
        return;
      }
      if e.to !in nodes {
        return;
      }
      var dup := HasEqual(byTriple, e);
      if dup {
        return;
      }
      assert Grouped(edges, byTriple) && e.id in edges ==> !SameEdge(edges[e.id], e);
      edges := edges[e.id := e];
      var t := Triple(e);
      byTriple' := byTriple[t := (if t in byTriple then byTriple[t] else []) + [e.id]];
    }

    /** The new edges, in the order of their ids. */
    method MergeEdges(newEdges: map<Id, Edge>, remap: map<Id, Id>, ghost tgt: map<Id, Id>)
      requires forall y :: Redirect(remap, y) == Redirect(tgt, y)
      requires forall e :: e in newEdges ==> newEdges[e].id == e
      modifies `edges
      ensures SoundEdges(old(edges), nodes.Keys) ==> SoundEdges(edges, nodes.Keys)
      ensures NoClash(old(edges), newEdges, tgt) && (forall e :: e in Listing(newEdges.Keys) ==> e in newEdges)
              ==> edges == AddAll(old(edges), Listing(newEdges.Keys), newEdges, nodes.Keys, tgt)
    {
      hide SoundEdges, Attached, SameEdge, Duplicated, NoClash, AddAll, AddEdge, Grouped, OnlyStored;
      ghost var e0 := edges;
      var byTriple := GroupEdges();
      AddAllNone(e0, newEdges, nodes.Keys, tgt);
      var ids := SortedKeys(newEdges.Keys);
      ListingUnique(ids, newEdges.Keys);
      ListingMembers(newEdges.Keys);
      assert ids[..0] == [];
      for k := 0 to |ids|
        invariant OnlyStored(edges, byTriple)
        invariant SoundEdges(e0, nodes.Keys) ==> SoundEdges(edges, nodes.Keys)
        invariant NoClash(e0, newEdges, tgt) ==> Grouped(edges, byTriple)
                                                 && edges == AddAll(e0, ids[..k], newEdges, nodes.Keys, tgt)
      {
        var snap := newEdges[ids[k]];
        var e := snap.(from := Redirect(remap, snap.from), to := Redirect(remap, snap.to));
        assert e == Redirected(tgt, snap);
        if NoClash(e0, newEdges, tgt) {
          NoClashStays(e0, newEdges, nodes.Keys, tgt, ids, k);
        }
        AddAllOneMore(e0, ids, newEdges, nodes.Keys, tgt, k);
        byTriple := AddNewEdge(e, byTriple);
      }
      assert ids[..|ids|] == ids;
    }
  }

  lemma EmptyIndexOk(states: seq<map<Id, Node>>, order: seq<Id>, dirty: map<Id, Snap>)
    requires forall x :: x in order ==> x in dirty
    ensures IndexesOk(map[], states, order, dirty, 0)
  {
  }

  lemma NewIndexOk(index: Index, states: seq<map<Id, Node>>, order: seq<Id>, dirty: map<Id, Snap>, k: nat,
                   idx: map<Props, Id>)
    requires |states| == k + 1 && k < |order| && (forall x :: x in order ==> x in dirty)
    requires Looks(states, order, dirty, k) && IndexesOk(index, states, order, dirty, k)
    requires var key := IndexKey(dirty[order[k]]); key !in index && BuiltFrom(states[k], key.0, key.1, idx)
    ensures IndexesOk(index[IndexKey(dirty[order[k]]) := idx], states, order, dirty, k + 1)
  {
    hide BuiltFrom, Looks;
    assert FirstUse(states, order, dirty, IndexKey(dirty[order[k]]), k);
    hide FirstUse;
  }

  lemma OldIndexOk(index: Index, states: seq<map<Id, Node>>, order: seq<Id>, dirty: map<Id, Snap>, k: nat)
    requires |states| == k + 1 && k < |order| && (forall x :: x in order ==> x in dirty)
    requires IndexesOk(index, states, order, dirty, k)
    requires Looks(states, order, dirty, k) ==> IndexKey(dirty[order[k]]) in index
    ensures IndexesOk(index, states, order, dirty, k + 1)
  {
    hide BuiltFrom, FirstUse, Looks;
  }

  lemma BuiltHolds(nodes: map<Id, Node>, kind: string, names: set<string>, idx: map<Props, Id>)
    requires BuiltFrom(nodes, kind, names, idx)
    ensures forall v :: v in idx ==> idx[v] in nodes
  {
  }

  lemma SameLooks(states: seq<map<Id, Node>>, nodes: map<Id, Node>, order: seq<Id>, dirty: map<Id, Snap>, i: nat)
    requires i < |states| && i < |order| && (forall x :: x in order ==> x in dirty)
    ensures Looks(states + [nodes], order, dirty, i) <==> Looks(states, order, dirty, i)
  {
  }

  lemma SameFirstUse(states: seq<map<Id, Node>>, nodes: map<Id, Node>, order: seq<Id>, dirty: map<Id, Snap>,
                     key: (string, set<string>), m: nat)
    requires m < |states| && m < |order| && (forall x :: x in order ==> x in dirty)
    requires FirstUse(states, order, dirty, key, m)
    ensures FirstUse(states + [nodes], order, dirty, key, m)
  {
    hide Looks;
    forall i | 0 <= i <= m ensures Looks(states + [nodes], order, dirty, i) <==> Looks(states, order, dirty, i) {
      SameLooks(states, nodes, order, dirty, i);
    }
  }

  lemma SameChosen(states: seq<map<Id, Node>>, nodes: map<Id, Node>, order: seq<Id>, dirty: map<Id, Snap>, t: Id,
                   i: nat)
    requires i < |states| && i < |order|
             && (forall x :: x in order ==> x in dirty) && ChosenAt(states, order, dirty, t, i)
    ensures ChosenAt(states + [nodes], order, dirty, t, i)
  {
    SameLooks(states, nodes, order, dirty, i);
    hide Looks, FirstUse, PickedFrom;
    var x := order[i];
    if Looks(states, order, dirty, i) {
      var m :| 0 <= m <= i && FirstUse(states, order, dirty, IndexKey(dirty[x]), m)
               && PickedFrom(states[m], dirty[x], x, t);
      SameFirstUse(states, nodes, order, dirty, IndexKey(dirty[x]), m);
      assert (states + [nodes])[m] == states[m];
    }
  }

  lemma ExtendWrites(states: seq<map<Id, Node>>, ts: seq<Id>, order: seq<Id>, dirty: map<Id, Snap>,
                     nodes: map<Id, Node>, t: Id)
    requires Writes(states, ts, order, dirty) && Chosen(states, ts, order, dirty) && |ts| < |order|
    requires var x := order[|ts|];
             nodes == states[|ts|][t := Written(states[|ts|], dirty[x], x, t)]
             && ChosenAt(states, order, dirty, t, |ts|)
    ensures Writes(states + [nodes], ts + [t], order, dirty) && Chosen(states + [nodes], ts + [t], order, dirty)
  {
    hide Written, ChosenAt;
    forall i | 0 <= i <= |ts| ensures ChosenAt(states + [nodes], order, dirty, (ts + [t])[i], i) {
      SameChosen(states, nodes, order, dirty, (ts + [t])[i], i);
    }
  }

  lemma ExtendIndexes(index: Index, states: seq<map<Id, Node>>, nodes: map<Id, Node>, order: seq<Id>,
                      dirty: map<Id, Snap>, k: nat)
    requires k <= |states| && k <= |order|
             && (forall x :: x in order ==> x in dirty) && IndexesOk(index, states, order, dirty, k)
    ensures IndexesOk(index, states + [nodes], order, dirty, k)
  {
    hide BuiltFrom, FirstUse, Looks;
    var more := states + [nodes];
    forall key | key in index
      ensures exists m :: 0 <= m < k && FirstUse(more, order, dirty, key, m)
                          && BuiltFrom(more[m], key.0, key.1, index[key])
    {
      var m :| 0 <= m < k && FirstUse(states, order, dirty, key, m) && BuiltFrom(states[m], key.0, key.1, index[key]);
      SameFirstUse(states, nodes, order, dirty, key, m);
      assert more[m] == states[m];
    }
    forall i | 0 <= i < k && Looks(more, order, dirty, i) ensures IndexKey(dirty[order[i]]) in index {
      SameLooks(states, nodes, order, dirty, i);
    }
  }

  /** Exactly the snapshots that landed elsewhere are in the map. */
  ghost predicate RemapIs(remap: map<Id, Id>, ids: seq<Id>, ts: seq<Id>) {
    && |ts| <= |ids|
    && (forall i :: 0 <= i < |ts| && ts[i] != ids[i] ==> ids[i] in remap && remap[ids[i]] == ts[i])
    && (forall y :: y in remap ==> exists i :: 0 <= i < |ts| && ids[i] == y && remap[y] == ts[i])
  }

  lemma RemapNext(remap: map<Id, Id>, ids: seq<Id>, ts: seq<Id>, t: Id)
    requires RemapIs(remap, ids, ts) && |ts| < |ids| && Distinct(ids)
    ensures RemapIs(if t != ids[|ts|] then remap[ids[|ts|] := t] else remap, ids, ts + [t])
  {
    var next := if t != ids[|ts|] then remap[ids[|ts|] := t] else remap;
    forall y | y in next ensures exists i :: 0 <= i < |ts + [t]| && ids[i] == y && next[y] == (ts + [t])[i] {
      if y != ids[|ts|] {
        var i :| 0 <= i < |ts| && ids[i] == y && remap[y] == ts[i];
        assert (ts + [t])[i] == ts[i];
      }
    }
  }

  lemma SameRedirect(remap: map<Id, Id>, tgt: map<Id, Id>, ids: seq<Id>, ts: seq<Id>, y: Id)
    requires |ids| == |ts| && tgt.Keys == Elements(ids)
             && forall i :: 0 <= i < |ids| ==> ids[i] in tgt && tgt[ids[i]] == ts[i]
    requires RemapIs(remap, ids, ts)
    ensures Redirect(remap, y) == Redirect(tgt, y)
  {
    if y in tgt {
      var i :| 0 <= i < |ids| && ids[i] == y;
    }
  }
}
