/** `PersistentGraphRepository`: one process's view of the shared graph file. */
module Repository {
  import opened Order
  import opened Store
  import opened Identity
  import opened Absorption
  import opened Outcome
  import opened Operations
  import opened Processes
  import opened CacheCoherence
  import opened RepoState
  import opened NodeCache

  /** The graph file: its decoded content and the stamp every rename over it changes. */
  class GraphFile {
    var content: State
    var stamp: nat

    constructor (content: State)
      ensures this.content == content && stamp == 0
    {
      this.content, stamp := content, 0;
    }
  }

  class PersistentRepository {
    const file: GraphFile
    const cache: Cache
    var dirty: map<Id, Snap>
    var newEdges: map<Id, Edge>
    var deletedNodes: set<Id>
    var deletedEdges: set<Id>
    var stamp: nat
    var cachedState: RepoState?
    var generation: nat

    constructor (file: GraphFile, maxNodes: int)
      ensures this.file == file && fresh(cache) && Valid() && cache.nodes == map[]
      ensures J() == EMPTY_JOURNAL && stamp == file.stamp && cachedState != null && fresh(cachedState)
      ensures cachedState.View() == file.content
    {
      this.file := file;
      cache := new Cache(maxNodes);
      dirty, newEdges, deletedNodes, deletedEdges := map[], map[], {}, {};
      stamp := file.stamp;
      cachedState := new RepoState(file.content);
      generation := 0;
    }

    ghost function J(): Journal
      reads this
    {
      Journal(dirty, newEdges, deletedNodes, deletedEdges)
    }

    ghost predicate Valid()
      reads this, cache
    {
      cache.Valid() && JournalKeyed(J())
    }

    /** This repository as one process of the shared-file model. */
    ghost function AsProc(): Proc
      reads this, cachedState
    {
      Proc(J(), if cachedState == null then None else Some(cachedState.View()), stamp)
    }

    ghost function AsSystem(): System
      reads this, cachedState, file
    {
      System(file.content, file.stamp, [AsProc()])
    }

    /** `mergeJournalSnapshotLocked`: merges the journal into st, in place. */
    method MergeJournal(st: RepoState) returns (ghost tgt: map<Id, Id>)
      requires JournalKeyed(J())
      modifies st
      ensures Resolves(old(st.View()), J(), tgt) && st.nodes == MergedNodes(old(st.View()), J(), tgt)
      ensures Sound(old(st.View())) ==> Sound(st.View())
      ensures NoClash(DeleteFrom(old(st.View()), J()).edges, newEdges, tgt)
              ==> st.View() == MergeWith(old(st.View()), J(), tgt) && MergeOutcome(old(st.View()), J(), tgt, st.View())
    {
      ghost var s := st.View();
      hide NoClash, Resolves, MergedNodes, DeleteFrom, Redirect, SoundEdges, MergeOutcome;
      st.MergeDeletions(deletedNodes, deletedEdges, J());
      ghost var deleted := st.View();
      var remap;
      remap, tgt := st.MergeDirty(dirty, s, J());
      MergeParts(s, J(), tgt);
      st.MergeEdges(newEdges, remap, tgt);
      if NoClash(DeleteFrom(s, J()).edges, newEdges, tgt) {
        MergeDoes(s, J(), tgt);
      }
    }

    /** What a read of the current journal starts from: the cached state or the file. */
    ghost function Base(): State
      reads this, cachedState, file
    {
      ReadBase(AsSystem(), 0)
    }

    ghost predicate Hit()
      reads this, file
    {
      cachedState != null && stamp == file.stamp
    }

    /** `readEffectiveStateLocked`: on a miss the decoded file becomes the cache, and the journal is
        merged into that same object. */
    method ReadEffective() returns (st: RepoState)
      requires Valid()
      modifies `cachedState, `stamp, `generation
      ensures fresh(st) && Valid() && J() == old(J()) && stamp == file.stamp && cachedState != null
      ensures EffectiveOf(old(Base()), old(J()), st.View())
      ensures old(Base()) == if old(cachedState) != null && old(stamp) == file.stamp then old(cachedState.View())
                             else file.content
      ensures if old(Hit()) then cachedState == old(cachedState) && cachedState.View() == old(cachedState.View())
                                 && generation == old(generation)
              else cachedState == st && generation == old(generation) + if old(cachedState) == null then 0 else 1
      ensures NeverClash(old(Base()), old(J())) ==> Reads(old(AsSystem()), 0, st.View(), AsProc())
    {
      ghost var tgt;
      ghost var base, sys := Base(), AsSystem();
      hide Resolves, MergedNodes, NoClash, Sound, NeverClash, MayRead, MergeOutcome;
      if cachedState != null && file.stamp == stamp {
        st := new RepoState(State(cachedState.nodes, cachedState.edges));
        tgt := MergeJournal(st);
        assert EffectiveOf(base, J(), st.View());
        EffectiveIsRead(base, J(), st.View());
        return;
      }
      if cachedState != null {
        generation := generation + 1;
      }
      st := new RepoState(file.content);
      cachedState := st;
      stamp := file.stamp;
      tgt := MergeJournal(st);
      assert EffectiveOf(base, J(), st.View());
      EffectiveIsRead(base, J(), st.View());
    }

    /** What an upsert and a link begin with: a new generation and a read. */
    method BeginUpdate() returns (st: RepoState)
      requires Valid()
      modifies `cachedState, `stamp, `generation
      ensures fresh(st) && Valid() && J() == old(J()) && old(generation) < generation
      ensures EffectiveOf(old(Base()), old(J()), st.View())
      ensures NeverClash(old(Base()), old(J())) ==> Reads(old(AsSystem()), 0, st.View(), AsProc())
    {
      generation := generation + 1;
      hide EffectiveOf, NeverClash, Reads;
      st := ReadEffective();
    }

    method FindNodeByIdentity(st: RepoState, kind: string, identity: Props) returns (found: bool, id: Id)
      requires forall k :: k in identity ==> identity[k] != Nil
      ensures found ==> id in st.nodes && st.nodes[id].kind == kind && Carries(st.nodes[id], kind, identity)
      ensures !found ==> forall c :: c in st.nodes ==> !Carries(st.nodes[c], kind, identity)
    {
      var todo := st.nodes.Keys;
      found, id := false, "";
      while todo != {}
        invariant todo <= st.nodes.Keys
        invariant forall c :: c in st.nodes && c !in todo ==> !Carries(st.nodes[c], kind, identity)
        decreases |todo|
      {
        id :| id in todo;
        todo := todo - {id};
        if st.nodes[id].kind == kind && forall k :: k in identity ==> Get(st.nodes[id].props, k) == identity[k] {
          return true, id;
        }
      }
    }

    method UpsertNode(kind: string, identity: Props, properties: Props, newId: Id, now: Value)
      returns (ok: bool, id: Id, node: Node, ghost eff: State)
      requires Valid() && forall k :: k in identity ==> identity[k] != Nil
      requires "id" in identity + properties ==> (identity + properties)["id"].Text?
      modifies this, cache
      ensures Valid() && ok == ValidKind(kind)
      ensures !ok ==> J() == old(J()) && cache.nodes == old(cache.nodes) && generation == old(generation)
      ensures ok ==> EffectiveOf(old(Base()), old(J()), eff)
      ensures ok ==> UpsertsAt(eff, old(J()), Upsert(kind, identity, properties, newId, now), J(), id)
      ensures ok ==> UpsertDone(eff, old(J()), kind, identity, properties, newId, now, J(), id, node)
      ensures ok ==> old(generation) < generation && id in dirty && node == Node(kind, dirty[id].props)
      ensures ok ==> id in cache.nodes && cache.nodes[id] == node
                     && forall x :: x in cache.nodes && x != id
                                    ==> x in old(cache.nodes) && cache.nodes[x] == old(cache.nodes)[x]
      ensures ok && NeverClash(old(Base()), old(J()))
              ==> Next(old(AsSystem()), AsSystem(), Local(0, Upsert(kind, identity, properties, newId, now), eff, J()))
      ensures ok ==> CacheStep(old(AsSystem()), 0, Local(0, Upsert(kind, identity, properties, newId, now), eff, J()),
                               old(cache.nodes), cache.nodes)
    {
      id, node, eff := "", Node("", map[]), State(map[], map[]);
      hide EffectiveOf, NeverClash, Reads, Carries, NewId, NewProps, Cache.Valid, Next, UpsertExisting, UpsertNew;
      if !ValidKind(kind) {
        return false, id, node, eff;
      }
      ok := true;
      var op := Upsert(kind, identity, properties, newId, now);
      var st := BeginUpdate();
      eff := st.View();
      ghost var q := AsProc();
      var found;
      found, id := FindNodeByIdentity(st, kind, identity);
      if found {
        node := UpdateExisting(st, op, id);
      } else {
        id, node := CreateNew(op);
      }
      assert UpsertsAt(eff, old(J()), op, J(), id);
      hide UpsertsAt, CacheStep, UpsertDone;
      UpsertMeans(eff, old(J()), op, J(), id, node);
      UpsertCaches(old(AsSystem()), op, eff, J(), id, old(cache.nodes), cache.nodes);
      assert AsProc() == q.(j := J());
      OneLocalStep(old(AsSystem()), op, eff, q, J());
    }

    /** The found node with the new properties becomes the pending snapshot of its id. */
    method UpdateExisting(st: RepoState, op: Op, id: Id) returns (node: Node)
      requires Valid() && op.Upsert? && id in st.nodes && st.nodes[id].kind == op.kind
      modifies `dirty, cache
      ensures Valid() && J() == UpsertExisting(st.View(), old(J()), op, id)
      ensures id in dirty && node == Node(op.kind, dirty[id].props)
      ensures id in cache.nodes && cache.nodes[id] == node
      ensures forall x :: x in cache.nodes && x != id ==> x in old(cache.nodes) && cache.nodes[x] == old(cache.nodes)[x]
    {
      node := st.nodes[id];
      var props := node.props + op.properties;
      props := props["updated_at" := op.now];
      node := Node(node.kind, props);
      cache.Put(id, node);
      var idMap := if id in dirty then dirty[id].identity else op.identity;
      dirty := dirty[id := Snap(op.kind, node.props, idMap)];
    }

    /** `models.NewNode` becomes a pending snapshot under its new id. */
    method CreateNew(op: Op) returns (id: Id, node: Node)
      requires Valid() && op.Upsert?
      modifies `dirty, cache
      ensures Valid() && id == NewId(op) && J() == UpsertNew(old(J()), op) && id in dirty
              && dirty[id].props == node.props
      ensures node == Node(op.kind, NewProps(op)) && id in cache.nodes && cache.nodes[id] == node
      ensures forall x :: x in cache.nodes && x != id ==> x in old(cache.nodes) && cache.nodes[x] == old(cache.nodes)[x]
    {
      id := NewId(op);
      node := Node(op.kind, NewProps(op));
      cache.Put(id, node);
      dirty := dirty[id := Snap(op.kind, node.props, op.identity)];
    }

    method Link(kind: string, from: Id, to: Id, properties: Props, newId: Id)
      returns (ok: bool, edge: Edge, ghost eff: State)
      requires Valid()
      modifies this
      ensures Valid() && ok == ValidKind(kind)
      ensures !ok ==> J() == old(J()) && generation == old(generation)
      ensures ok ==> EffectiveOf(old(Base()), old(J()), eff) && old(generation) < generation
      ensures ok ==> Applies(eff, old(J()), Operations.Op.Link(kind, from, to, properties, newId), J())
      ensures ok ==> ReturnsEdge(eff, Operations.Op.Link(kind, from, to, properties, newId), edge)
      ensures ok ==> LinkDone(eff, old(J()), kind, from, to, properties, newId, J(), edge)
      ensures ok && NeverClash(old(Base()), old(J()))
              ==> Next(old(AsSystem()), AsSystem(),
                       Local(0, Operations.Op.Link(kind, from, to, properties, newId), eff, J()))
      ensures ok ==> CacheStep(old(AsSystem()), 0,
                               Local(0, Operations.Op.Link(kind, from, to, properties, newId), eff, J()),
                               old(cache.nodes), cache.nodes)
    {
      edge, eff := Edge("", "", "", "", map[]), State(map[], map[]);
      hide EffectiveOf, NeverClash, Reads, Applies, ReturnsEdge, LinkMatches, LinkDone, Cache.Valid, Next;
      if !ValidKind(kind) {
        return false, edge, eff;
      }
      ok := true;
      ghost var op := Operations.Op.Link(kind, from, to, properties, newId);
      var st := BeginUpdate();
      eff := st.View();
      ghost var q := AsProc();
      var found;
      found, edge := FindEqualEdge(st, op, kind, from, to, properties);
      if !found {
        edge := Edge(newId, kind, from, to, properties);
        newEdges := newEdges[newId := edge];
      }
      LinkOutcome(eff, old(J()), op, found, edge, J());
      LinkMeans(eff, old(J()), op, J(), edge);
      assert AsProc() == q.(j := J());
      OneLocalStep(old(AsSystem()), op, eff, q, J());
    }

    /** The loop looking for an edge of the kind and ends with equal properties; an empty end matches any. */
    method FindEqualEdge(st: RepoState, ghost op: Op, kind: string, from: Id, to: Id, properties: Props)
      returns (found: bool, edge: Edge)
      requires op.Link? && op.kind == kind && op.from == from && op.to == to && op.props == properties
      ensures found <==> exists e :: e in st.edges && LinkMatches(st.edges[e], op)
      ensures found ==> LinkMatches(edge, op) && exists e :: e in st.edges && edge == st.edges[e]
      ensures found ==> edge.kind == kind && edge.props == properties
                        && (from == "" || edge.from == from) && (to == "" || edge.to == to)
      ensures found <==> exists e :: && e in st.edges && st.edges[e].kind == kind && st.edges[e].props == properties
                                     && (from == "" || st.edges[e].from == from) && (to == "" || st.edges[e].to == to)
    {
      found, edge := false, Edge("", "", "", "", map[]);
      var todo := st.edges.Keys;
      while todo != {}
        invariant todo <= st.edges.Keys
        invariant forall e :: e in st.edges && e !in todo ==> !LinkMatches(st.edges[e], op)
        invariant forall e :: e in st.edges && e !in todo && st.edges[e].kind == kind && st.edges[e].props == properties
                              ==> (from != "" && st.edges[e].from != from) || (to != "" && st.edges[e].to != to)
        decreases |todo|
      {
        var e :| e in todo;
        todo := todo - {e};
        var ge := st.edges[e];
        if ge.kind == kind {
          var fromMatch := ge.from == from;
          if from == "" {
            fromMatch := true;
          }
          var toMatch := ge.to == to;
          if to == "" {
            toMatch := true;
          }
          if fromMatch && toMatch && ge.props == properties {
            return true, ge;
          }
        }
      }
    }

    method RemoveNodes(nodeIDs: seq<Id>)
      requires Valid()
      modifies this, cache
      ensures Valid() && J() == DropNodes(old(J()), Elements(nodeIDs)) && NodesDropped(old(J()), nodeIDs, J())
      ensures cache.nodes == old(cache.nodes) - Elements(nodeIDs) && generation == old(generation) + 1
      ensures Next(old(AsSystem()), AsSystem(), Remove(0, Operations.Op.RemoveNodes(Elements(nodeIDs))))
      ensures CacheStep(old(AsSystem()), 0, Remove(0, Operations.Op.RemoveNodes(Elements(nodeIDs))),
                        old(cache.nodes), cache.nodes)
    {
      generation := generation + 1;
      var idSet := set id | id in nodeIDs;
      DropSnapshots(idSet);
      DropIncident(idSet);
      assert newEdges == DropNodes(old(J()), idSet).newEdges;
      assert J() == DropNodes(old(J()), idSet);
      NodesDroppedSo(old(J()), nodeIDs);
      hide DropNodes, Cache.Valid;
      assert AsSystem().procs == old(AsSystem()).procs[0 := old(AsProc()).(j := J())];
    }

    /** A removed node loses its snapshot and its cache entry and is marked deleted. */
    method DropSnapshot(id: Id)
      requires cache.Valid()
      modifies `dirty, `deletedNodes, cache
      ensures cache.Valid() && cache.nodes == old(cache.nodes) - {id}
      ensures dirty == old(dirty) - {id} && deletedNodes == old(deletedNodes) + {id}
    {
      cache.Remove(id);
      dirty := dirty - {id};
      deletedNodes := deletedNodes + {id};
    }

    method DropSnapshots(idSet: set<Id>)
      requires cache.Valid()
      modifies `dirty, `deletedNodes, cache
      ensures cache.Valid() && cache.nodes == old(cache.nodes) - idSet
      ensures dirty == old(dirty) - idSet && deletedNodes == old(deletedNodes) + idSet
    {
      var todo := idSet;
      ghost var done: set<Id> := {};
      hide Cache.Valid;
      while todo != {}
        invariant todo + done == idSet && cache.Valid() && cache.nodes == old(cache.nodes) - done
        invariant dirty == old(dirty) - done && deletedNodes == old(deletedNodes) + done
        decreases |todo|
      {
        var id :| id in todo;
        MinusTwice(old(cache.nodes), done, id);
        MinusTwice(old(dirty), done, id);
        PlusTwice(old(deletedNodes), done, id);
        MovedOver(todo, done, id);
        DropSnapshot(id);
        todo, done := todo - {id}, done + {id};
      }
    }

    /** Pending edges of removed nodes are forgotten. */
    method DropIncident(idSet: set<Id>)
      modifies `newEdges
      ensures newEdges == map e | e in old(newEdges) && !Incident(idSet, old(newEdges)[e]) :: old(newEdges)[e]
    {
      ghost var was := newEdges;
      var left := newEdges.Keys;
      while left != {}
        invariant left <= was.Keys
        invariant forall e :: e in newEdges <==> e in was && (e in left || !Incident(idSet, was[e]))
        invariant forall e :: e in newEdges ==> newEdges[e] == was[e]
        decreases |left|
      {
        var eid :| eid in left;
        left := left - {eid};
        if newEdges[eid].from in idSet || newEdges[eid].to in idSet {
          newEdges := newEdges - {eid};
        }
      }
    }

    method RemoveEdges(edgeIDs: seq<Id>)
      requires Valid()
      modifies this
      ensures Valid() && J() == DropEdges(old(J()), Elements(edgeIDs)) && generation == old(generation) + 1
      ensures EdgesDropped(old(J()), edgeIDs, J())
      ensures Next(old(AsSystem()), AsSystem(), Remove(0, Operations.Op.RemoveEdges(Elements(edgeIDs))))
      ensures CacheStep(old(AsSystem()), 0, Remove(0, Operations.Op.RemoveEdges(Elements(edgeIDs))),
                        old(cache.nodes), cache.nodes)
    {
      generation := generation + 1;
      var idSet := set id | id in edgeIDs;
      DropNewEdges(idSet);
      assert J() == DropEdges(old(J()), idSet);
      EdgesDroppedSo(old(J()), edgeIDs);
      hide DropEdges, Cache.Valid;
      assert AsSystem().procs == old(AsSystem()).procs[0 := old(AsProc()).(j := J())];
    }

    method DropNewEdges(idSet: set<Id>)
      modifies `newEdges, `deletedEdges
      ensures newEdges == old(newEdges) - idSet && deletedEdges == old(deletedEdges) + idSet
    {
      var todo := idSet;
      ghost var done: set<Id> := {};
      while todo != {}
        invariant todo + done == idSet && newEdges == old(newEdges) - done && deletedEdges == old(deletedEdges) + done
        decreases |todo|
      {
        var id :| id in todo;
        MinusTwice(old(newEdges), done, id);
        PlusTwice(old(deletedEdges), done, id);
        MovedOver(todo, done, id);
        newEdges := newEdges - {id};
        deletedEdges := deletedEdges + {id};
        todo, done := todo - {id}, done + {id};
      }
    }

    /** A cached node is returned as it is; a missing one is read and cached. */
    method GetNode(id: Id) returns (found: bool, n: Node, ghost eff: State)
      requires Valid()
      modifies this, cache
      ensures Valid() && J() == old(J())
      ensures if id in old(cache.nodes) then found && n == old(cache.nodes)[id] && cache.nodes == old(cache.nodes)
              else EffectiveOf(old(Base()), old(J()), eff)
                   && found == (id in eff.nodes || id in dirty)
                   && (found ==> n == if id in eff.nodes then eff.nodes[id] else Node(dirty[id].kind, dirty[id].props))
                   && forall x :: x in cache.nodes ==> if x == id then found && cache.nodes[x] == n
                                                       else x in old(cache.nodes)
                                                            && cache.nodes[x] == old(cache.nodes)[x]
      ensures if id in old(cache.nodes) then AsSystem() == old(AsSystem())
              else NeverClash(old(Base()), old(J())) ==> Next(old(AsSystem()), AsSystem(), Read(0, eff))
      ensures id !in old(cache.nodes) ==> CacheStep(old(AsSystem()), 0, Read(0, eff), old(cache.nodes), cache.nodes)
    {
      eff := State(map[], map[]);
      hide EffectiveOf, NeverClash, Reads, Next;
      found, n := cache.Get(id);
      if found {
        return;
      }
      var st := ReadEffective();
      eff := st.View();
      OneReadStep(old(AsSystem()), eff, AsProc());
      if id in st.nodes {
        n := st.nodes[id];
        cache.Put(id, n);
        return true, n, eff;
      }
      if id in dirty {
        n := Node(dirty[id].kind, dirty[id].props);
        cache.Put(id, n);
        return true, n, eff;
      }
    }

    /** All matching nodes in id order, each of them cached in that order. */
    method FindNodes(kind: string, filters: Props) returns (ids: seq<Id>, nodes: seq<Node>, ghost eff: State)
      requires Valid()
      modifies this, cache
      ensures Valid() && J() == old(J()) && EffectiveOf(old(Base()), old(J()), eff)
      ensures ids == Listing(set x | x in eff.nodes && Matches(eff.nodes[x], kind, filters))
      ensures forall x :: x in ids <==> && x in eff.nodes && (kind == "" || eff.nodes[x].kind == kind)
                                        && forall k :: k in filters ==> Get(eff.nodes[x].props, k) == filters[k]
      ensures |nodes| == |ids| && forall i :: 0 <= i < |ids| ==> ids[i] in eff.nodes && nodes[i] == eff.nodes[ids[i]]
      ensures forall x :: x in cache.nodes ==> if x in ids then x in eff.nodes && cache.nodes[x] == eff.nodes[x]
                                               else x in old(cache.nodes) && cache.nodes[x] == old(cache.nodes)[x]
      ensures NeverClash(old(Base()), old(J())) ==> Next(old(AsSystem()), AsSystem(), Read(0, eff))
      ensures CacheStep(old(AsSystem()), 0, Read(0, eff), old(cache.nodes), cache.nodes)
    {
      hide EffectiveOf, NeverClash, Reads, Next, Matches, Get;
      var st := ReadEffective();
      eff := st.View();
      OneReadStep(old(AsSystem()), eff, AsProc());
      var matching := set x | x in st.nodes && Matches(st.nodes[x], kind, filters);
      ids := SortedKeys(matching);
      ListingUnique(ids, matching);
      assert forall x :: x in ids <==> x in Elements(ids);
      forall n: Node ensures Matches(n, kind, filters) <==> Wanted(n, kind, filters) {
        MatchesIs(n, kind, filters);
      }
      hide IsListing;
      nodes := CacheAll(ids, st.nodes);
    }

    /** Each of the nodes is cached, in the order of the ids. */
    method CacheAll(ids: seq<Id>, from: map<Id, Node>) returns (nodes: seq<Node>)
      requires cache.Valid() && forall x :: x in ids ==> x in from
      modifies cache
      ensures cache.Valid() && CachedFrom(cache.nodes, old(cache.nodes), ids, from)
      ensures |nodes| == |ids| && forall i :: 0 <= i < |ids| ==> nodes[i] == from[ids[i]]
    {
      nodes := [];
      assert CachedFrom(cache.nodes, cache.nodes, ids[..0], from);
      hide CachedFrom, Cache.Valid;
      for i := 0 to |ids|
        invariant cache.Valid() && CachedFrom(cache.nodes, old(cache.nodes), ids[..i], from)
        invariant |nodes| == i && forall k :: 0 <= k < i ==> nodes[k] == from[ids[k]]
      {
        var x := ids[i];
        assert x in ids && ids[..i + 1] == ids[..i] + [x];
        ghost var was := cache.nodes;
        nodes := nodes + [from[x]];
        cache.Put(x, from[x]);
        CachedNext(was, cache.nodes, old(cache.nodes), ids[..i], from, x);
      }
      assert ids[..|ids|] == ids;
    }

    /** The merged state replaces the file and becomes the cached state. */
    method ReplaceFile() returns (ghost tgt: map<Id, Id>)
      requires JournalKeyed(J())
      modifies file, `cachedState
      ensures J() == old(J()) && cachedState != null && fresh(cachedState) && cachedState.View() == file.content
      ensures Resolves(old(file.content), J(), tgt) && file.content.nodes == MergedNodes(old(file.content), J(), tgt)
      ensures Sound(old(file.content)) ==> Sound(file.content)
      ensures NoClash(DeleteFrom(old(file.content), J()).edges, newEdges, tgt)
              ==> file.content == MergeWith(old(file.content), J(), tgt)
                  && MergeOutcome(old(file.content), J(), tgt, file.content)
      ensures file.stamp == old(file.stamp) + 1
    {
      hide Resolves, MergedNodes, NoClash, Sound, DeleteFrom, MergeWith, MergeOutcome;
      var st := new RepoState(file.content);
      tgt := MergeJournal(st);
      file.content := State(st.nodes, st.edges);
      file.stamp := file.stamp + 1;
      cachedState := st;
    }

    /** Under the file lock: read, merge, replace the file; then the journal is empty. */
    method Save() returns (ghost tgt: map<Id, Id>)
      requires Valid()
      modifies this, cache, file
      ensures Valid() && J() == EMPTY_JOURNAL
      ensures if old(J()) == EMPTY_JOURNAL
              then file.content == old(file.content) && file.stamp == old(file.stamp) && AsSystem() == old(AsSystem())
                   && cachedState == old(cachedState) && stamp == old(stamp) && cache.nodes == old(cache.nodes)
              else && Resolves(old(file.content), old(J()), tgt) && cachedState != null && fresh(cachedState)
                   && file.content.nodes == MergedNodes(old(file.content), old(J()), tgt)
                   && (Sound(old(file.content)) ==> Sound(file.content))
                   && (NoClash(DeleteFrom(old(file.content), old(J())).edges, old(newEdges), tgt)
                       ==> file.content == MergeWith(old(file.content), old(J()), tgt)
                           && MergeOutcome(old(file.content), old(J()), tgt, file.content))
                   && cachedState.View() == file.content && stamp == file.stamp == old(file.stamp) + 1
                   && cache.nodes == map[]
      ensures NeverClash(old(file.content), old(J())) ==> Next(old(AsSystem()), AsSystem(), Step.Save(0, tgt))
      ensures CacheStep(old(AsSystem()), 0, Step.Save(0, tgt), old(cache.nodes), cache.nodes)
    {
      tgt := map[];
      hide Resolves, MergedNodes, NoClash, Sound, DeleteFrom, NeverClash, MergeWith, MergeOutcome, Next;
      OneIdleStep(AsSystem(), tgt);
      if |dirty| == 0 && |deletedNodes| == 0 && |newEdges| == 0 && |deletedEdges| == 0 {
        return;
      }
      tgt := ReplaceFile();
      cache.Clear();
      stamp := file.stamp;
      dirty, deletedNodes, newEdges, deletedEdges := map[], {}, map[], {};
      OneSaveStep(old(AsSystem()), tgt, file.content);
    }

    /** With nothing pending, a changed file replaces the cached state. */
    method Refresh()
      requires Valid()
      modifies this, cache
      ensures Valid() && J() == old(J())
      ensures if old(J()) != EMPTY_JOURNAL || old(stamp) == file.stamp
              then cachedState == old(cachedState) && stamp == old(stamp) && cache.nodes == old(cache.nodes)
              else cachedState != null && cachedState.View() == file.content && stamp == file.stamp
                   && cache.nodes == map[]
      ensures Next(old(AsSystem()), AsSystem(), Step.Refresh(0))
      ensures CacheStep(old(AsSystem()), 0, Step.Refresh(0), old(cache.nodes), cache.nodes)
    {
      if |dirty| != 0 || |deletedNodes| != 0 || |newEdges| != 0 || |deletedEdges| != 0 || file.stamp == stamp {
        return;
      }
      var st := new RepoState(file.content);
      cachedState := st;
      cache.Clear();
      ghost var tgt := MergeJournal(st);
      stamp := file.stamp;
      EmptyMerge(file.content, J(), tgt);
    }
  }

  /** st is what a read may yield: the base merged with the journal, for some resolution. */
  ghost predicate EffectiveOf(base: State, j: Journal, st: State) {
    exists tgt :: && Resolves(base, j, tgt) && st.nodes == MergedNodes(base, j, tgt)
                  && (Sound(base) ==> Sound(st))
                  && (NoClash(DeleteFrom(base, j).edges, j.newEdges, tgt)
                      ==> st == MergeWith(base, j, tgt) && MergeOutcome(base, j, tgt, st))
  }

  /** Pending edges have fresh ids, in whatever a read starts from. */
  ghost predicate NeverClash(base: State, j: Journal) {
    forall tgt :: Resolves(base, j, tgt) ==> NoClash(DeleteFrom(base, j).edges, j.newEdges, tgt)
  }

  lemma EffectiveIsRead(base: State, j: Journal, st: State)
    requires EffectiveOf(base, j, st)
    ensures NeverClash(base, j) ==> MayRead(base, j, st)
  {
    hide ResolvedAt, NoClash, MergeWith, MergedNodes, Sound, MergeOutcome;
  }

  predicate Wanted(n: Node, kind: string, filters: Props) {
    (kind == "" || n.kind == kind) && forall k :: k in filters ==> Get(n.props, k) == filters[k]
  }

  lemma MatchesIs(n: Node, kind: string, filters: Props)
    ensures Matches(n, kind, filters) <==> Wanted(n, kind, filters)
  {
  }

  /** What removing nodes does to the journal: their snapshots and the pending edges at them go, and
      they are marked. */
  ghost predicate NodesDropped(j: Journal, ids: seq<Id>, r: Journal) {
    && (forall x :: x in r.dirty <==> x in j.dirty && x !in ids)
    && (forall x :: x in r.dirty ==> r.dirty[x] == j.dirty[x])
    && (forall e :: e in r.newEdges <==> e in j.newEdges && j.newEdges[e].from !in ids && j.newEdges[e].to !in ids)
    && (forall e :: e in r.newEdges ==> r.newEdges[e] == j.newEdges[e])
    && (forall x :: x in r.deletedNodes <==> x in j.deletedNodes || x in ids) && r.deletedEdges == j.deletedEdges
  }

  lemma NodesDroppedSo(j: Journal, ids: seq<Id>)
    ensures NodesDropped(j, ids, DropNodes(j, Elements(ids)))
  {
  }

  ghost predicate EdgesDropped(j: Journal, ids: seq<Id>, r: Journal) {
    && r.dirty == j.dirty && r.deletedNodes == j.deletedNodes
    && (forall e :: e in r.newEdges <==> e in j.newEdges && e !in ids)
    && (forall e :: e in r.newEdges ==> r.newEdges[e] == j.newEdges[e])
    && forall e :: e in r.deletedEdges <==> e in j.deletedEdges || e in ids
  }

  lemma EdgesDroppedSo(j: Journal, ids: seq<Id>)
    ensures EdgesDropped(j, ids, DropEdges(j, Elements(ids)))
  {
  }

  /** What an upsert does, field by field. A node of the kind with all identity properties is updated
      if there is one, else a node is created; the journal gets it as a snapshot, and nothing else. A
      pending snapshot keeps the identity it was created for. */
  ghost predicate UpsertDone(st: State, j: Journal, kind: string, identity: Props, given: Props, newId: Id, now: Value,
                             r: Journal, id: Id, node: Node) {
    && r.newEdges == j.newEdges && r.deletedNodes == j.deletedNodes && r.deletedEdges == j.deletedEdges
    && (forall x :: x in r.dirty <==> x in j.dirty || x == id)
    && (forall x :: x in j.dirty && x != id ==> r.dirty[x] == j.dirty[x])
    && node.kind == kind && r.dirty[id].kind == kind && r.dirty[id].props == node.props
    && if exists c :: c in st.nodes && HasIdentity(st.nodes[c], kind, identity)
       then && id in st.nodes && HasIdentity(st.nodes[id], kind, identity)
            && UpdatedWith(st.nodes[id].props, given, now, node.props)
            && r.dirty[id].identity == if id in j.dirty then j.dirty[id].identity else identity
       else && CreatedWith(identity, given, newId, now, node.props)
            && (node.props["id"].Text? ==> node.props["id"].s == id) && r.dirty[id].identity == identity
  }

  lemma UpsertMeans(st: State, j: Journal, op: Op, r: Journal, id: Id, node: Node)
    requires op.Upsert? && UpsertsAt(st, j, op, r, id) && id in r.dirty && node == Node(op.kind, r.dirty[id].props)
    ensures UpsertDone(st, j, op.kind, op.identity, op.properties, op.newId, op.now, r, id, node)
  {
    hide NewProps, NewId, CreatedWith, UpdatedWith, HasIdentity, Carries;
    NewPropsAre(op);
    forall n: Node ensures Carries(n, op.kind, op.identity) <==> HasIdentity(n, op.kind, op.identity) {
      CarriesHas(n, op.kind, op.identity);
    }
    if id in st.nodes {
      UpdatedProps(st.nodes[id].props, op.properties, op.now);
    }
  }

  /** What a link does, field by field. With an edge of that kind, with those properties and between
      those ends, an empty one being any, nothing is recorded; else exactly the new edge is. */
  ghost predicate LinkDone(st: State, j: Journal, kind: string, from: Id, to: Id, given: Props, newId: Id,
                           r: Journal, edge: Edge) {
    && r.dirty == j.dirty && r.deletedNodes == j.deletedNodes && r.deletedEdges == j.deletedEdges
    && edge.kind == kind && edge.props == given && (from == "" || edge.from == from) && (to == "" || edge.to == to)
    && if exists e :: && e in st.edges && st.edges[e].kind == kind && st.edges[e].props == given
                      && (from == "" || st.edges[e].from == from) && (to == "" || st.edges[e].to == to)
       then r.newEdges == j.newEdges && exists e :: e in st.edges && st.edges[e] == edge
       else && newId in r.newEdges && r.newEdges[newId] == edge && edge.id == newId
            && edge.from == from && edge.to == to
            && (forall e :: e in r.newEdges <==> e in j.newEdges || e == newId)
            && forall e :: e in j.newEdges && e != newId ==> r.newEdges[e] == j.newEdges[e]
  }

  lemma LinkMeans(st: State, j: Journal, op: Op, r: Journal, edge: Edge)
    requires op.Link? && Applies(st, j, op, r) && ReturnsEdge(st, op, edge)
    ensures LinkDone(st, j, op.kind, op.from, op.to, op.props, op.newId, r, edge)
  {
    assert forall e :: e in st.edges ==>
      (LinkMatches(st.edges[e], op) <==> && st.edges[e].kind == op.kind && st.edges[e].props == op.props
                                         && (op.from == "" || st.edges[e].from == op.from)
                                         && (op.to == "" || st.edges[e].to == op.to));
  }

  /** The edge a link returns: an equal one that is there, else the new one. */
  ghost predicate ReturnsEdge(st: State, op: Op, edge: Edge)
    requires op.Link?
  {
    if exists e :: e in st.edges && LinkMatches(st.edges[e], op)
    then LinkMatches(edge, op) && exists e :: e in st.edges && edge == st.edges[e]
    else edge == Edge(op.newId, op.kind, op.from, op.to, op.props)
  }

  lemma LinkOutcome(st: State, j: Journal, op: Op, found: bool, edge: Edge, r: Journal)
    requires op.Link? && (found <==> exists e :: e in st.edges && LinkMatches(st.edges[e], op))
    requires if found then r == j && LinkMatches(edge, op) && (exists e :: e in st.edges && edge == st.edges[e])
             else edge == Edge(op.newId, op.kind, op.from, op.to, op.props)
                  && r == j.(newEdges := j.newEdges[op.newId := edge])
    ensures Applies(st, j, op, r) && ReturnsEdge(st, op, edge)
  {
    hide LinkMatches;
  }

  /** An operation of a repository that has read is a step of the shared-file model. */
  lemma OneLocalStep(sys: System, op: Op, st: State, q: Proc, r: Journal)
    requires |sys.procs| == 1 && !IsRemoval(op) && Applies(st, sys.procs[0].j, op, r)
    ensures Reads(sys, 0, st, q) ==> Next(sys, System(sys.disk, sys.version, [q.(j := r)]), Local(0, op, st, r))
  {
    hide Applies, Reads;
    assert sys.procs[0 := q.(j := r)] == [q.(j := r)];
  }

  lemma UpsertCaches(sys: System, op: Op, st: State, r: Journal, id: Id, cached: map<Id, Node>, cached': map<Id, Node>)
    requires |sys.procs| == 1 && op.Upsert? && UpsertsAt(st, sys.procs[0].j, op, r, id) && id in r.dirty
    requires id in cached' && cached'[id] == Node(op.kind, r.dirty[id].props)
    requires forall x :: x in cached' && x != id ==> x in cached && cached'[x] == cached[x]
    ensures CacheStep(sys, 0, Local(0, op, st, r), cached, cached')
  {
    hide Carries, NewId, NewProps;
    assert r.dirty[id].kind == op.kind;
    hide UpsertsAt;
  }

  lemma OneReadStep(sys: System, st: State, q: Proc)
    requires |sys.procs| == 1
    ensures Reads(sys, 0, st, q) ==> Next(sys, System(sys.disk, sys.version, [q]), Read(0, st))
  {
    hide Reads;
    assert sys.procs[0 := q] == [q];
  }

  lemma OneIdleStep(sys: System, tgt: map<Id, Id>)
    requires |sys.procs| == 1
    ensures sys.procs[0].j == EMPTY_JOURNAL ==> Next(sys, sys, Step.Save(0, tgt))
  {
  }

  lemma OneSaveStep(sys: System, tgt: map<Id, Id>, d: State)
    requires |sys.procs| == 1 && sys.procs[0].j != EMPTY_JOURNAL && Resolves(sys.disk, sys.procs[0].j, tgt)
    requires NoClash(DeleteFrom(sys.disk, sys.procs[0].j).edges, sys.procs[0].j.newEdges, tgt)
             ==> d == MergeWith(sys.disk, sys.procs[0].j, tgt)
    ensures NeverClash(sys.disk, sys.procs[0].j)
            ==> Next(sys, System(d, sys.version + 1, [Proc(EMPTY_JOURNAL, Some(d), sys.version + 1)]),
                     Step.Save(0, tgt))
  {
    hide ResolvedAt, NoClash, MergeWith;
    var q := Proc(EMPTY_JOURNAL, Some(d), sys.version + 1);
    assert sys.procs[0 := q] == [q];
  }

  /** The parts of `MergeWith` as the phases of the merge produce them. */
  lemma MergeParts(s: State, j: Journal, tgt: map<Id, Id>)
    requires Resolves(s, j, tgt) && JournalKeyed(j)
    ensures tgt.Keys == j.dirty.Keys && (forall e :: e in Listing(j.newEdges.Keys) ==> e in j.newEdges)
    ensures Sound(s) ==> SoundEdges(DeleteFrom(s, j).edges, MergedNodes(s, j, tgt).Keys)
    ensures MergeWith(s, j, tgt) == State(MergedNodes(s, j, tgt),
                                          AddAll(DeleteFrom(s, j).edges, Listing(j.newEdges.Keys), j.newEdges,
                                                 MergedNodes(s, j, tgt).Keys, tgt))
  {
    hide ResolvedAt;
    TargetsCover(s, j, tgt);
    ListingMembers(j.newEdges.Keys);
    if Sound(s) {
      SoundParts(s, j, tgt);
    }
    hide *;
    MergedState(s, j, tgt);
  }

  lemma MergedState(s: State, j: Journal, tgt: map<Id, Id>)
    requires tgt.Keys == j.dirty.Keys && forall e :: e in Listing(j.newEdges.Keys) ==> e in j.newEdges
    ensures MergeWith(s, j, tgt) == State(MergedNodes(s, j, tgt),
                                          AddAll(DeleteFrom(s, j).edges, Listing(j.newEdges.Keys), j.newEdges,
                                                 MergedNodes(s, j, tgt).Keys, tgt))
  {
    hide AddAll, DeleteFrom, MergedNodes;
  }

  lemma SoundParts(s: State, j: Journal, tgt: map<Id, Id>)
    requires Sound(s) && tgt.Keys == j.dirty.Keys
    ensures SoundEdges(DeleteFrom(s, j).edges, MergedNodes(s, j, tgt).Keys)
  {
    ListingMembers(j.dirty.Keys);
    WriteAllKeys(DeleteFrom(s, j).nodes, Listing(j.dirty.Keys), j.dirty, tgt);
    assert SoundEdges(DeleteFrom(s, j).edges, DeleteFrom(s, j).nodes.Keys);
    hide DeleteFrom, WriteAll;
  }

  /** What is cached is what the ids stand for, or was cached before. */
  ghost predicate CachedFrom(cached: map<Id, Node>, before: map<Id, Node>, ids: seq<Id>, from: map<Id, Node>) {
    forall x :: x in cached ==> if x in ids then x in from && cached[x] == from[x]
                                else x in before && cached[x] == before[x]
  }

  lemma CachedNext(was: map<Id, Node>, now: map<Id, Node>, before: map<Id, Node>, ids: seq<Id>, from: map<Id, Node>,
                   x: Id)
    requires CachedFrom(was, before, ids, from) && x in from
    requires forall y :: y in now ==> if y == x then now[y] == from[x] else y in was && now[y] == was[y]
    ensures CachedFrom(now, before, ids + [x], from)
  {
  }

  lemma PlusTwice<A>(s: set<A>, t: set<A>, x: A)
    ensures (s + t) + {x} == s + (t + {x})
  {
  }

  lemma MovedOver<A>(todo: set<A>, done: set<A>, x: A)
    requires x in todo
    ensures (todo - {x}) + (done + {x}) == todo + done
  {
  }

  lemma MinusTwice<A, B>(m: map<A, B>, s: set<A>, x: A)
    ensures (m - s) - {x} == m - (s + {x})
  {
  }

  /** Merging an empty journal changes nothing. */
  lemma EmptyMerge(s: State, j: Journal, tgt: map<Id, Id>)
    requires j == EMPTY_JOURNAL && Resolves(s, j, tgt)
    ensures MergeWith(s, j, tgt) == s && NoClash(DeleteFrom(s, j).edges, j.newEdges, tgt)
  {
    assert DeleteFrom(s, j).nodes == s.nodes && DeleteFrom(s, j).edges == s.edges;
    ListingEmpty(j.dirty.Keys);
    ListingEmpty(j.newEdges.Keys);
  }

  /** A cached state holds a pending edge only as that very edge. */
  lemma CacheNeverClashes(disk: State, used: set<Id>, j: Journal, cached: State, tgt: map<Id, Id>)
    requires Fits(disk, j) && CacheOk(disk, used, j, cached) && Stays(cached, j) && Resolves(cached, j, tgt)
    ensures NoClash(DeleteFrom(cached, j).edges, j.newEdges, tgt)
  {
    StaysOwn(cached, j, tgt);
    hide *;
    var j0 := CachedJournal(disk, used, j, cached);
    FitsFacts(disk, j);
    TargetsCover(cached, j, tgt);
    forall e | e in j.newEdges && e in DeleteFrom(cached, j).edges
      ensures SameEdge(DeleteFrom(cached, j).edges[e], Redirected(tgt, j.newEdges[e]))
    {
      NotStored(disk, j0, e);
      KeptEach(disk, j0, j, e);
      KeptIsSame(disk, cached, j, tgt, e);
    }
    NoClashFrom(DeleteFrom(cached, j).edges, j.newEdges, tgt);
  }

  lemma CachedJournal(disk: State, used: set<Id>, j: Journal, cached: State) returns (j0: Journal)
    requires CacheOk(disk, used, j, cached)
    ensures Fits(disk, j0) && Grown(disk, j0, j) && cached == Plain(disk, j0)
  {
    j0 :| Fits(disk, j0) && Growth.Known(used, disk, j0, j) && Grown(disk, j0, j) && cached == Plain(disk, j0);
  }

  lemma NotStored(disk: State, j0: Journal, e: Id)
    requires e !in disk.edges
    ensures e !in DeleteFrom(disk, j0).edges
  {
  }

  lemma KeptIsSame(disk: State, cached: State, j: Journal, tgt: map<Id, Id>, e: Id)
    requires e in DeleteFrom(cached, j).edges && (forall x :: x in tgt ==> tgt[x] == x)
    requires KeptRightly(DeleteFrom(disk, j).edges, cached.edges[e], j.newEdges, DeleteFrom(cached, j).nodes.Keys, e)
    ensures e in j.newEdges && SameEdge(DeleteFrom(cached, j).edges[e], Redirected(tgt, j.newEdges[e]))
  {
  }

  lemma NoClashFrom(edges: map<Id, Edge>, news: map<Id, Edge>, tgt: map<Id, Id>)
    requires forall e :: e in news && e in edges ==> SameEdge(edges[e], Redirected(tgt, news[e]))
    ensures NoClash(edges, news, tgt)
  {
  }

  lemma FitsFacts(disk: State, j: Journal)
    requires Fits(disk, j)
    ensures JournalKeyed(j) && disk.edges.Keys !! j.newEdges.Keys
  {
  }

  /** So the methods are steps of the shared-file model whenever the system is in order and nothing
      pending has a rival in a valid cache; from the file they always are. */
  lemma MethodsAreSteps(a: System, used: set<Id>, p: nat)
    requires SysOk(a, used) && p < |a.procs|
    ensures NeverClash(a.disk, a.procs[p].j)
    ensures Stays(ReadBase(a, p), a.procs[p].j) ==> NeverClash(ReadBase(a, p), a.procs[p].j)
  {
    assert ProcOk(a.disk, a.version, used, a.procs[p]);
    var j := a.procs[p].j;
    FitsFacts(a.disk, j);
    hide CacheOk, Fits, ResolvedAt, Stays;
    if Stays(ReadBase(a, p), j) && CacheValid(a, p) {
      forall tgt | Resolves(ReadBase(a, p), j, tgt)
        ensures NoClash(DeleteFrom(ReadBase(a, p), j).edges, j.newEdges, tgt)
      {
        CacheNeverClashes(a.disk, used, j, a.procs[p].cached.value, tgt);
      }
    }
  }

  /** What ReadEffective returns through a valid cache is the file with the journal. */
  lemma CachedReadIsMerge(disk: State, used: set<Id>, j: Journal, cached: State, st: State, tgt: map<Id, Id>)
    requires Fits(disk, j) && CacheOk(disk, used, j, cached) && Stays(cached, j) && Resolves(cached, j, tgt)
    requires NoClash(DeleteFrom(cached, j).edges, j.newEdges, tgt) ==> st == MergeWith(cached, j, tgt)
    ensures st == Plain(disk, j)
  {
    CacheNeverClashes(disk, used, j, cached, tgt);
    hide CacheOk, Fits, ResolvedAt, NoClash, Plain, Stays;
    assert MayRead(cached, j, st);
    CachedReadPlain(disk, used, j, cached, st);
  }

  /** What ReadEffective returns from the file is the file with the journal. */
  lemma FileReadIsMerge(disk: State, j: Journal, st: State, tgt: map<Id, Id>)
    requires Fits(disk, j) && Stays(disk, j) && Resolves(disk, j, tgt)
    requires NoClash(DeleteFrom(disk, j).edges, j.newEdges, tgt) ==> st == MergeWith(disk, j, tgt)
    ensures st == Plain(disk, j)
  {
    assert NoClash(DeleteFrom(disk, j).edges, j.newEdges, tgt);
    hide NoClash, Plain, Stays, ResolvedAt;
    StaysIsPlain(disk, j, tgt);
  }
}
