/** `MemoryGraphRepository`: the simple in-memory store. */
module Memory {
  import opened Order
  import opened Store

  function Matching(c: State, kind: string, filters: Props): set<Id> {
    set x | x in c.nodes && Matches(c.nodes[x], kind, filters)
  }

  /** A hit of a neighbour query: the edge and the node at its other end. */
  datatype EdgeNode = EdgeNode(edge: Edge, id: Id, node: Node)

  datatype Direction = Out | In | Both | Other

  predicate KindOk(e: Edge, kind: string) {
    kind == "" || e.kind == kind
  }

  /** h is the hit of a stored edge leaving n. */
  predicate OutHit(c: State, n: Id, kind: string, h: EdgeNode) {
    && h.edge.id in c.edges && c.edges[h.edge.id] == h.edge && KindOk(h.edge, kind)
    && h.edge.from == n && h.edge.to == h.id && h.id in c.nodes && c.nodes[h.id] == h.node
  }

  predicate InHit(c: State, n: Id, kind: string, h: EdgeNode) {
    && h.edge.id in c.edges && c.edges[h.edge.id] == h.edge && KindOk(h.edge, kind)
    && h.edge.to == n && h.edge.from == h.id && h.id in c.nodes && c.nodes[h.id] == h.node
  }

  function One(b: bool): nat {
    if b then 1 else 0
  }

  /** How often a hit belongs to the answer: a self-loop counts twice for both directions. */
  function Times(c: State, n: Id, kind: string, dir: Direction, h: EdgeNode): nat {
    match dir
    case Out => One(OutHit(c, n, kind, h))
    case In => One(InHit(c, n, kind, h))
    case Both => One(OutHit(c, n, kind, h)) + One(InHit(c, n, kind, h))
    case Other => 0
  }

  ghost predicate Keyed(c: State) {
    forall e :: e in c.edges ==> c.edges[e].id == e
  }

  /** The node an upsert creates; only what is missing gets a default. */
  function NewNodeProps(identity: Props, properties: Props, newId: Id, now: Value): Props {
    var given := identity + properties;
    var withId := if "id" in given then given else given["id" := Text(newId)];
    var stamped := if "created_at" in withId then withId else withId["created_at" := now];
    if "project_id" in stamped then stamped else stamped["project_id" := Get(identity, "project_id")]
  }

  /** The contents after an upsert: the first matching node is updated, else one is created. */
  ghost function Upserted(c: State, kind: string, identity: Props, properties: Props, newId: Id, now: Value): State
    requires "id" in identity + properties ==> (identity + properties)["id"].Text?
  {
    var found := Listing(Matching(c, kind, identity));
    if found != [] then
      ListingMembers(Matching(c, kind, identity));
      assert found[0] in found;
      var x := found[0];
      State(c.nodes[x := c.nodes[x].(props := (c.nodes[x].props + properties)["updated_at" := now])], c.edges)
    else
      var props := NewNodeProps(identity, properties, newId, now);
      State(c.nodes[props["id"].s := Node(kind, props)], c.edges)
  }

  // ----- the same, field by field

  /** The node has the kind, any if it is empty, and the filtered values; a missing one is nil. */
  predicate Fits(n: Node, kind: string, filters: Props) {
    && (kind == "" || n.kind == kind)
    && forall k :: k in filters ==> (if k in n.props then n.props[k] else Nil) == filters[k]
  }

  /** The properties of a node the store creates: given ones win over the identity; id, creation time
      and project are filled only where neither gives them. */
  ghost predicate FilledWith(identity: Props, given: Props, newId: Id, now: Value, after: Props) {
    && (forall k :: k in after <==> k in identity || k in given || k in {"id", "created_at", "project_id"})
    && (forall k :: k in given ==> after[k] == given[k])
    && (forall k :: k in identity && k !in given ==> after[k] == identity[k])
    && ("id" !in identity && "id" !in given ==> after["id"] == Text(newId))
    && ("created_at" !in identity && "created_at" !in given ==> after["created_at"] == now)
    && ("project_id" !in identity && "project_id" !in given ==> after["project_id"] == Nil)
  }

  /** An upsert: the first node by id that has kind and identity is updated, else one is created; all
      other nodes and all edges stay. */
  ghost predicate UpsertDone(c: State, kind: string, identity: Props, given: Props, newId: Id, now: Value,
                             r: State, id: Id) {
    && r.edges == c.edges && (forall x :: x in r.nodes <==> x in c.nodes || x == id)
    && (forall x :: x in c.nodes && x != id ==> r.nodes[x] == c.nodes[x])
    && r.nodes[id].kind == kind
    && if exists x :: x in c.nodes && Fits(c.nodes[x], kind, identity)
       then && id in c.nodes && Fits(c.nodes[id], kind, identity)
            && (forall x :: x in c.nodes && Fits(c.nodes[x], kind, identity) ==> Leq(id, x))
            && UpdatedWith(c.nodes[id].props, given, now, r.nodes[id].props)
       else FilledWith(identity, given, newId, now, r.nodes[id].props) && r.nodes[id].props["id"] == Text(id)
  }

  lemma MatchesFits(n: Node, kind: string, filters: Props)
    ensures Matches(n, kind, filters) <==> Fits(n, kind, filters)
  {
  }

  lemma NewNodePropsAre(identity: Props, given: Props, newId: Id, now: Value)
    ensures FilledWith(identity, given, newId, now, NewNodeProps(identity, given, newId, now))
  {
  }

  lemma UpdatedWithSo(before: Props, given: Props, now: Value)
    ensures UpdatedWith(before, given, now, (before + given)["updated_at" := now])
  {
  }

  lemma FirstIsLeast(s: set<Id>, x: Id)
    requires x in s
    ensures Listing(s) != [] && Listing(s)[0] in s && Leq(Listing(s)[0], x)
  {
    ListingMembers(s);
    var xs := Listing(s);
    assert x in xs && xs[0] in xs;
    var k :| 0 <= k < |xs| && xs[k] == x;
    if k == 0 {
      LeqReflexive(x);
    } else {
      assert Leq(xs[0], xs[k]);
    }
  }

  /** The id an upsert writes. */
  ghost function UpsertId(c: State, kind: string, identity: Props, given: Props, newId: Id, now: Value): Id
    requires "id" in identity + given ==> (identity + given)["id"].Text?
  {
    var found := Listing(Matching(c, kind, identity));
    if found != [] then found[0] else NewNodeProps(identity, given, newId, now)["id"].s
  }

  lemma UpsertMeans(c: State, kind: string, identity: Props, given: Props, newId: Id, now: Value)
    requires "id" in identity + given ==> (identity + given)["id"].Text?
    requires kind != ""
    ensures UpsertDone(c, kind, identity, given, newId, now, Upserted(c, kind, identity, given, newId, now),
                       UpsertId(c, kind, identity, given, newId, now))
  {
    hide NewNodeProps, FilledWith, UpdatedWith, Matches, Fits, Leq, UpsertDone;
    var all := Matching(c, kind, identity);
    ListingMembers(all);
    FittingAreAll(c, kind, identity);
    if Listing(all) != [] {
      var id := Listing(all)[0];
      assert id in Listing(all);
      forall x | x in all ensures Leq(id, x) {
        FirstIsLeast(all, x);
      }
      UpdateMeans(c, kind, identity, given, newId, now, id);
    } else {
      ListingEmptyOnly(all);
      IdIsText(identity, given, newId, now);
      NewNodePropsAre(identity, given, newId, now);
      CreateMeans(c, kind, identity, given, newId, now, NewNodeProps(identity, given, newId, now));
    }
  }

  /** The written node has the identity and everything given, if these do not meet. */
  lemma UpsertedHolds(c: State, kind: string, identity: Props, given: Props, newId: Id, now: Value, r: State, id: Id)
    requires UpsertDone(c, kind, identity, given, newId, now, r, id) && identity.Keys !! given.Keys
    requires "updated_at" in given && given["updated_at"] == now
    ensures Fits(r.nodes[id], kind, identity)
    ensures forall k :: k in given ==> k in r.nodes[id].props && r.nodes[id].props[k] == given[k]
  {
  }

  lemma UpsertedWhere(c: State, kind: string, identity: Props, given: Props, newId: Id, now: Value, r: State, id: Id)
    requires UpsertDone(c, kind, identity, given, newId, now, r, id) && "id" !in identity && "id" !in given
    ensures (forall x :: x in r.nodes <==> x in c.nodes || x == id)
            && (forall x :: x in c.nodes && x != id ==> r.nodes[x] == c.nodes[x])
    ensures if exists x :: x in c.nodes && Fits(c.nodes[x], kind, identity)
            then && id in c.nodes && Fits(c.nodes[id], kind, identity)
                 && forall x :: x in c.nodes && Fits(c.nodes[x], kind, identity) ==> Leq(id, x)
            else id == newId
  {
    hide Fits, UpdatedWith;
  }

  lemma FittingAreAll(c: State, kind: string, filters: Props)
    ensures forall x :: x in Matching(c, kind, filters) <==> x in c.nodes && Fits(c.nodes[x], kind, filters)
  {
    hide Matches, Fits;
    forall n: Node ensures Matches(n, kind, filters) <==> Fits(n, kind, filters) {
      MatchesFits(n, kind, filters);
    }
  }

  lemma UpdateMeans(c: State, kind: string, identity: Props, given: Props, newId: Id, now: Value, id: Id)
    requires kind != "" && id in c.nodes && Fits(c.nodes[id], kind, identity)
    requires forall x :: x in c.nodes && Fits(c.nodes[x], kind, identity) ==> Leq(id, x)
    ensures var props := (c.nodes[id].props + given)["updated_at" := now];
            UpsertDone(c, kind, identity, given, newId, now,
                       State(c.nodes[id := c.nodes[id].(props := props)], c.edges), id)
  {
    hide FilledWith, UpdatedWith, Fits, Leq;
    KindFits(c.nodes[id], kind, identity);
    UpdatedWithSo(c.nodes[id].props, given, now);
  }

  lemma CreateMeans(c: State, kind: string, identity: Props, given: Props, newId: Id, now: Value, props: Props)
    requires FilledWith(identity, given, newId, now, props) && props["id"].Text?
    requires forall x :: x in c.nodes ==> !Fits(c.nodes[x], kind, identity)
    ensures UpsertDone(c, kind, identity, given, newId, now,
                       State(c.nodes[props["id"].s := Node(kind, props)], c.edges), props["id"].s)
  {
    hide Fits;
  }

  lemma KindFits(n: Node, kind: string, filters: Props)
    requires Fits(n, kind, filters) && kind != ""
    ensures n.kind == kind
  {
  }

  lemma IdIsText(identity: Props, given: Props, newId: Id, now: Value)
    requires "id" in identity + given ==> (identity + given)["id"].Text?
    ensures var props := NewNodeProps(identity, given, newId, now); "id" in props && props["id"].Text?
  {
  }

  lemma ListingEmptyOnly(s: set<Id>)
    requires Listing(s) == []
    ensures s == {}
  {
    assert Elements(Listing(s)) == s;
  }

  /** h names a stored edge of the kind, any if it is empty, between n and the stored node it gives;
      the edge leaves n if asked for outgoing ones and enters it if asked for incoming ones. */
  predicate IsNeighbor(c: State, n: Id, kind: string, dir: Direction, h: EdgeNode) {
    && h.edge.id in c.edges && c.edges[h.edge.id] == h.edge && (kind == "" || h.edge.kind == kind)
    && h.id in c.nodes && c.nodes[h.id] == h.node
    && (|| (dir in {Out, Both} && h.edge.from == n && h.edge.to == h.id)
        || (dir in {In, Both} && h.edge.to == n && h.edge.from == h.id))
  }

  lemma NeighborTimes(c: State, n: Id, kind: string, dir: Direction, h: EdgeNode)
    ensures Times(c, n, kind, dir, h) > 0 <==> IsNeighbor(c, n, kind, dir, h)
  {
  }

  /** What a call of the store may do: a change moves the generation, a rejected call changes nothing. */
  ghost predicate StoreStep(a: State, aGeneration: nat, b: State, bGeneration: nat) {
    && (Keyed(a) ==> Keyed(b))
    && (bGeneration > aGeneration || (b == a && bGeneration == aGeneration))
  }

  class MemoryRepository {
    var nodes: map<Id, Node>
    var edges: map<Id, Edge>
    var generation: nat

    constructor ()
      ensures Contents() == State(map[], map[]) && generation == 0 && Keyed(Contents())
    {
      nodes, edges, generation := map[], map[], 0;
    }

    ghost function Contents(): State
      reads this
    {
      State(nodes, edges)
    }

    /** `FindNodes`: all matching nodes, in id order. */
    method FindNodes(kind: string, filters: Props) returns (ids: seq<Id>)
      ensures ids == Listing(Matching(Contents(), kind, filters))
      ensures forall x :: x in ids <==> x in nodes && Fits(nodes[x], kind, filters)
    {
      var found := [];
      var todo := nodes.Keys;
      while todo != {}
        invariant todo <= nodes.Keys && Distinct(found)
        invariant forall x :: x in found <==> x in Matching(Contents(), kind, filters) && x !in todo
        decreases |todo|
      {
        var id :| id in todo;
        todo := todo - {id};
        if (kind == "" || nodes[id].kind == kind)
           && forall k :: k in filters ==> Get(nodes[id].props, k) == filters[k]
        {
          found := found + [id];
        }
      }
      DistinctFromMultiset(found, Sort(found));
      ids := Sort(found);
      assert Elements(ids) == Matching(Contents(), kind, filters);
      ListingUnique(ids, Matching(Contents(), kind, filters));
      assert forall x :: x in ids <==> x in Elements(ids);
      forall n: Node ensures Matches(n, kind, filters) <==> Fits(n, kind, filters) {
        MatchesFits(n, kind, filters);
      }
    }

    method UpsertNode(kind: string, identity: Props, properties: Props, newId: Id, now: Value)
      returns (ok: bool, id: Id, node: Node)
      requires "id" in identity + properties ==> (identity + properties)["id"].Text?
      modifies this
      ensures ok == ValidKind(kind) && (!ok ==> Contents() == old(Contents()) && generation == old(generation))
      ensures ok ==> generation == old(generation) + 1
                     && Contents() == Upserted(old(Contents()), kind, identity, properties, newId, now)
      ensures ok ==> var found := Listing(Matching(old(Contents()), kind, identity));
                     && id == (if found != [] then found[0] else NewNodeProps(identity, properties, newId, now)["id"].s)
                     && id in nodes && node == nodes[id]
      ensures ok ==> UpsertDone(old(Contents()), kind, identity, properties, newId, now, Contents(), id)
      ensures StoreStep(old(Contents()), old(generation), Contents(), generation)
    {
      id, node := "", Node("", map[]);
      if !ValidKind(kind) {
        return false, id, node;
      }
      ok := true;
      UpsertMeans(Contents(), kind, identity, properties, newId, now);
      hide UpsertDone;
      generation := generation + 1;
      var existing := FindNodes(kind, identity);
      ListingMembers(Matching(Contents(), kind, identity));
      if |existing| > 0 {
        id := existing[0];
        assert id in existing;
        var n := nodes[id];
        var props := n.props + properties;
        props := props["updated_at" := now];
        node := n.(props := props);
        nodes := nodes[id := node];
        return;
      }
      var props := NewNodeProps(identity, properties, newId, now);
      id := props["id"].s;
      node := Node(kind, props);
      nodes := nodes[id := node];
    }

    method Link(kind: string, from: Id, to: Id, properties: Props, newId: Id) returns (ok: bool, edge: Edge)
      modifies this
      ensures ok == ValidKind(kind) && (!ok ==> Contents() == old(Contents()) && generation == old(generation))
      ensures ok ==> generation == old(generation) + 1 && nodes == old(nodes)
      ensures ok ==> var e := Edge(newId, kind, from, to, properties);
                     if Duplicated(old(edges), e)
                     then edges == old(edges) && SameEdge(edge, e) && exists o :: o in edges && edge == edges[o]
                     else edges == old(edges)[newId := e] && edge == e
      ensures ok ==> edge.kind == kind && edge.from == from && edge.to == to && edge.props == properties
      ensures ok ==> if exists o :: && o in old(edges) && old(edges)[o].kind == kind
                                    && old(edges)[o].props == properties
                                    && old(edges)[o].from == from && old(edges)[o].to == to
                     then edges == old(edges) && exists o :: o in edges && edges[o] == edge
                     else edge.id == newId && edges == old(edges)[newId := edge]
      ensures StoreStep(old(Contents()), old(generation), Contents(), generation)
    {
      edge := Edge(newId, kind, from, to, properties);
      if !ValidKind(kind) {
        return false, edge;
      }
      ok := true;
      generation := generation + 1;
      var todo := edges.Keys;
      while todo != {}
        invariant todo <= edges.Keys
        invariant edge == Edge(newId, kind, from, to, properties)
        invariant forall o :: o in edges && o !in todo ==> !SameEdge(edges[o], edge)
        invariant forall o :: o in edges && o !in todo && edges[o].kind == kind && edges[o].props == properties
                              ==> edges[o].from != from || edges[o].to != to
        decreases |todo|
      {
        var o :| o in todo;
        todo := todo - {o};
        if edges[o].kind == kind && edges[o].from == from && edges[o].to == to && edges[o].props == properties {
          assert SameEdge(edges[o], edge);
          edge := edges[o];
          return;
        }
      }
      edges := edges[newId := edge];
    }

    method RemoveNodes(nodeIDs: seq<Id>)
      modifies this
      ensures generation == old(generation) + 1 && nodes == old(nodes) - Elements(nodeIDs)
      ensures edges == map e | e in old(edges) && old(edges)[e].from !in nodeIDs && old(edges)[e].to !in nodeIDs
                             :: old(edges)[e]
      ensures StoreStep(old(Contents()), old(generation), Contents(), generation)
    {
      generation := generation + 1;
      ghost var was := edges;
      var idSet := set id | id in nodeIDs;
      nodes := nodes - idSet;
      var todo := edges.Keys;
      while todo != {}
        invariant todo <= was.Keys && nodes == old(nodes) - idSet && generation == old(generation) + 1
        invariant forall e :: e in edges <==> e in was && (e in todo || (was[e].from !in idSet && was[e].to !in idSet))
        invariant forall e :: e in edges ==> edges[e] == was[e]
        decreases |todo|
      {
        var e :| e in todo;
        todo := todo - {e};
        if edges[e].from in idSet || edges[e].to in idSet {
          edges := edges - {e};
        }
      }
    }

    method RemoveEdges(edgeIDs: seq<Id>)
      modifies this
      ensures generation == old(generation) + 1 && nodes == old(nodes) && edges == old(edges) - Elements(edgeIDs)
      ensures StoreStep(old(Contents()), old(generation), Contents(), generation)
    {
      generation := generation + 1;
      for i := 0 to |edgeIDs|
        invariant generation == old(generation) + 1 && nodes == old(nodes)
                  && edges == old(edges) - Elements(edgeIDs[..i])
      {
        assert Elements(edgeIDs[..i + 1]) == Elements(edgeIDs[..i]) + {edgeIDs[i]};
        edges := edges - {edgeIDs[i]};
      }
      assert edgeIDs[..|edgeIDs|] == edgeIDs;
    }

    /** The plain scan over all edges, in any order. */
    method Neighbors(n: Id, kind: string, dir: Direction) returns (hits: seq<EdgeNode>)
      requires Keyed(Contents())
      ensures forall h :: multiset(hits)[h] == Times(Contents(), n, kind, dir, h)
      ensures forall h :: h in hits <==> IsNeighbor(Contents(), n, kind, dir, h)
    {
      hits := [];
      var todo := edges.Keys;
      assert forall h: EdgeNode :: h.edge.id !in todo ==> Times(Contents(), n, kind, dir, h) == 0;
      hide Times;
      while todo != {}
        invariant todo <= edges.Keys
        invariant forall h :: multiset(hits)[h] == if h.edge.id in todo then 0 else Times(Contents(), n, kind, dir, h)
        decreases |todo|
      {
        var e :| e in todo;
        todo := todo - {e};
        var more := HitsOfEdge(n, kind, dir, e);
        hits := hits + more;
      }
      forall h ensures h in hits <==> IsNeighbor(Contents(), n, kind, dir, h) {
        assert h in hits <==> multiset(hits)[h] > 0;
        NeighborTimes(Contents(), n, kind, dir, h);
      }
    }

    /** The hits of one edge: none, one, or two for a self-loop in both directions. */
    method HitsOfEdge(n: Id, kind: string, dir: Direction, e: Id) returns (hits: seq<EdgeNode>)
      requires e in edges && edges[e].id == e
      ensures forall h :: multiset(hits)[h] == if h.edge.id == e then Times(Contents(), n, kind, dir, h) else 0
    {
      hits := [];
      var edge := edges[e];
      if KindOk(edge, kind) {
        if (dir == Out || dir == Both) && edge.from == n && edge.to in nodes {
          hits := hits + [EdgeNode(edge, edge.to, nodes[edge.to])];
        }
        ghost var leaving := dir == Out || dir == Both;
        assert forall h :: multiset(hits)[h] == if h.edge.id == e && leaving then One(OutHit(Contents(), n, kind, h))
                                                else 0;
        if (dir == In || dir == Both) && edge.to == n && edge.from in nodes {
          hits := hits + [EdgeNode(edge, edge.from, nodes[edge.from])];
        }
      }
    }

    /** Copies of all nodes and edges in id order, with the generation they belong to. */
    method GraphSnapshot() returns (ns: seq<Id>, es: seq<Id>, copy: State, gen: nat)
      ensures copy == Contents() && gen == generation
      ensures ns == Listing(nodes.Keys) && es == Listing(edges.Keys)
    {
      ns := SortedKeys(nodes.Keys);
      es := SortedKeys(edges.Keys);
      ListingUnique(ns, nodes.Keys);
      ListingUnique(es, edges.Keys);
      copy, gen := State(nodes, edges), generation;
    }
  }
}
