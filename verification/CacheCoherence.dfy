/** The node cache of a process never disagrees with the file plus its journal. */
module CacheCoherence {
  import opened Order
  import opened Store
  import opened Identity
  import opened Absorption
  import opened Operations
  import opened Growth
  import opened Processes

  ghost predicate Coherent(cached: map<Id, Node>, nodes: map<Id, Node>) {
    forall x :: x in cached ==> x in nodes && nodes[x] == cached[x]
  }

  /** The node an upsert puts into the cache: the snapshot it leaves in the journal. */
  function Upserted(r: Journal, id: Id): Node
    requires id in r.dirty
  {
    Node(r.dirty[id].kind, r.dirty[id].props)
  }

  // ----- what each step does to the node cache of process p; any entry may be evicted

  /** A missed read caches effective nodes, or a pending one the effective state does not show. */
  ghost predicate Filled(st: State, j: Journal, cached: map<Id, Node>, cached': map<Id, Node>) {
    forall x :: x in cached' ==> || (x in cached && cached'[x] == cached[x])
                                 || (x in st.nodes && cached'[x] == st.nodes[x])
                                 || (x !in st.nodes && x in j.dirty && cached'[x] == Upserted(j, x))
  }

  ghost predicate LocalCached(st: State, j: Journal, op: Op, r: Journal, cached: map<Id, Node>, cached': map<Id, Node>)
  {
    if op.Upsert?
    then exists id :: UpsertsAt(st, j, op, r, id)
                      && forall x :: x in cached' ==> if x == id then id in r.dirty && cached'[x] == Upserted(r, id)
                                                      else x in cached && cached'[x] == cached[x]
    else cached' == cached
  }

  ghost predicate CacheStep(a: System, p: nat, step: Step, cached: map<Id, Node>, cached': map<Id, Node>)
    requires p < |a.procs|
  {
    var j := a.procs[p].j;
    if step.p != p then cached' == cached
    else match step
         case Read(_, st) => Filled(st, j, cached, cached')
         case Local(_, op, st, r) => LocalCached(st, j, op, r, cached, cached')
         case Remove(_, op) => cached' == if op.RemoveNodes? then cached - op.ids else cached
         case Save(_, _) => cached' == if j == EMPTY_JOURNAL then cached else map[]
         case Refresh(_) => cached' == if j == EMPTY_JOURNAL && a.procs[p].stamp != a.version then map[] else cached
  }

  /** What a step does to the cache of a process that is alone with the file, it does among others. */
  lemma CacheStepAmongOthers(a: System, p: nat, step: Step, cached: map<Id, Node>, cached': map<Id, Node>)
    requires p < |a.procs| && step.p == 0
    ensures CacheStep(OnlyProc(a, p), 0, step, cached, cached') <==> CacheStep(a, p, TakenBy(step, p), cached, cached')
  {
    hide Filled, LocalCached;
  }

  /** An upsert hands no existing node another id as a property; a new node's id is a string. */
  ghost predicate KeepsIds(st: State, op: Op) {
    op.Upsert? ==> && (forall c :: c in st.nodes && Carries(st.nodes[c], op.kind, op.identity) && "id" in op.properties
                                   ==> op.properties["id"] == Text(c))
                   && ("id" in op.identity + op.properties ==> (op.identity + op.properties)["id"].Text?)
  }

  // ----- the nodes of the file with the journal, after each change of the journal

  lemma PlainAfterUpsert(s: State, j: Journal, r: Journal, id: Id)
    requires id in r.dirty && r == j.(dirty := j.dirty[id := r.dirty[id]])
    ensures Plain(s, r).nodes == Plain(s, j).nodes[id := Snapshot(id, r.dirty[id])]
  {
    hide Plain, DeleteFrom, Snapshot;
    PlainNodes(s, j);
    PlainNodes(s, r);
    SameDeletions(s, j, r);
    SnapshotsAfter(j, r, id);
    hide Snapshots;
    UpdateLast(DeleteFrom(s, j).nodes, Snapshots(j), id, Snapshot(id, r.dirty[id]));
  }

  lemma SnapshotsAfter(j: Journal, r: Journal, id: Id)
    requires id in r.dirty && r == j.(dirty := j.dirty[id := r.dirty[id]])
    ensures Snapshots(r) == Snapshots(j)[id := Snapshot(id, r.dirty[id])]
  {
  }

  lemma PlainAfterDrop(s: State, j: Journal, ids: set<Id>)
    ensures Plain(s, DropNodes(j, ids)).nodes == Plain(s, j).nodes - ids
  {
    var r := DropNodes(j, ids);
    assert DeleteFrom(s, r).nodes == DeleteFrom(s, j).nodes - ids;
    assert Snapshots(r) == Snapshots(j) - ids;
    PlainNodes(s, j);
    PlainNodes(s, r);
    hide DeleteFrom, Snapshots, DropNodes, Plain;
    MinusSum(DeleteFrom(s, j).nodes, Snapshots(j), ids);
  }

  lemma MinusSum<A, B>(m: map<A, B>, n: map<A, B>, s: set<A>)
    ensures (m - s) + (n - s) == (m + n) - s
  {
  }

  lemma PlainSameNodes(s: State, j: Journal, r: Journal)
    requires r.dirty == j.dirty && r.deletedNodes == j.deletedNodes
    ensures Plain(s, r).nodes == Plain(s, j).nodes
  {
    assert DeleteFrom(s, r).nodes == DeleteFrom(s, j).nodes;
  }

  lemma PlainKnowsIds(s: State, j: Journal)
    requires KnowIds(s.nodes)
    ensures KnowIds(Plain(s, j).nodes)
  {
  }

  lemma SavedKnowsIds(s: State, j: Journal, tgt: map<Id, Id>)
    requires KnowIds(s.nodes) && tgt.Keys == j.dirty.Keys
    ensures KnowIds(MergeWith(s, j, tgt).nodes)
  {
    ListingMembers(j.dirty.Keys);
    assert KnowIds(DeleteFrom(s, j).nodes);
    hide DeleteFrom;
    WriteAllKnowsIds(DeleteFrom(s, j).nodes, Listing(j.dirty.Keys), j.dirty, tgt);
  }

  /** The snapshot an upsert leaves is shown as it is, id included. */
  lemma UpsertLeaves(st: State, j: Journal, op: Op, r: Journal, id: Id)
    requires op.Upsert? && KnowIds(st.nodes) && KeepsIds(st, op) && UpsertsAt(st, j, op, r, id)
    ensures id in r.dirty && r == j.(dirty := j.dirty[id := r.dirty[id]])
            && Upserted(r, id) == Snapshot(id, r.dirty[id])
  {
    hide Carries;
    assert Get(r.dirty[id].props, "id") == Text(id);
    assert r.dirty[id].props["id" := Text(id)] == r.dirty[id].props;
  }

  lemma LocalKeepsCoherent(s: State, j: Journal, op: Op, r: Journal, cached: map<Id, Node>, cached': map<Id, Node>)
    requires KnowIds(s.nodes) && KeepsIds(Plain(s, j), op) && Applies(Plain(s, j), j, op, r) && !IsRemoval(op)
    requires LocalCached(Plain(s, j), j, op, r, cached, cached') && Coherent(cached, Plain(s, j).nodes)
    ensures Coherent(cached', Plain(s, r).nodes)
  {
    if op.Upsert? {
      UpsertKeepsCoherent(s, j, op, r, cached, cached');
    } else {
      LinkLeaves(Plain(s, j), j, op, r);
      hide *;
      PlainSameNodes(s, j, r);
    }
  }

  lemma LinkLeaves(st: State, j: Journal, op: Op, r: Journal)
    requires Applies(st, j, op, r) && !op.Upsert? && !IsRemoval(op)
    ensures r.dirty == j.dirty && r.deletedNodes == j.deletedNodes
  {
  }

  lemma UpsertKeepsCoherent(s: State, j: Journal, op: Op, r: Journal, cached: map<Id, Node>, cached': map<Id, Node>)
    requires KnowIds(s.nodes) && op.Upsert? && KeepsIds(Plain(s, j), op)
    requires LocalCached(Plain(s, j), j, op, r, cached, cached') && Coherent(cached, Plain(s, j).nodes)
    ensures Coherent(cached', Plain(s, r).nodes)
  {
    PlainKnowsIds(s, j);
    hide Plain, KnowIds, KeepsIds, UpsertsAt, Coherent, Snapshot;
    var id :| UpsertsAt(Plain(s, j), j, op, r, id)
              && forall x :: x in cached' ==> if x == id then id in r.dirty && cached'[x] == Upserted(r, id)
                                              else x in cached && cached'[x] == cached[x];
    UpsertLeaves(Plain(s, j), j, op, r, id);
    PlainAfterUpsert(s, j, r, id);
    CoherentUpdate(cached, cached', Plain(s, j).nodes, id, Upserted(r, id));
  }

  lemma CoherentUpdate(cached: map<Id, Node>, cached': map<Id, Node>, nodes: map<Id, Node>, id: Id, n: Node)
    requires Coherent(cached, nodes)
    requires forall x :: x in cached' ==> if x == id then cached'[x] == n else x in cached && cached'[x] == cached[x]
    ensures Coherent(cached', nodes[id := n])
  {
  }

  /** Right after an upsert the cached node is what the file with the journal shows exactly when
      its "id" property names it. */
  lemma UpsertCoherentIff(s: State, j: Journal, r: Journal, id: Id, cached': map<Id, Node>)
    requires id in r.dirty && r == j.(dirty := j.dirty[id := r.dirty[id]])
    requires id in cached' && cached'[id] == Upserted(r, id) && Coherent(cached' - {id}, Plain(s, j).nodes)
    ensures Coherent(cached', Plain(s, r).nodes) <==> "id" in r.dirty[id].props && r.dirty[id].props["id"] == Text(id)
  {
    PlainAfterUpsert(s, j, r, id);
    hide Plain;
    var shown := r.dirty[id].props["id" := Text(id)];
    assert Plain(s, r).nodes[id] == Node(r.dirty[id].kind, shown);
    if "id" in r.dirty[id].props && r.dirty[id].props["id"] == Text(id) {
      assert shown == r.dirty[id].props;
      forall x | x in cached' ensures x in Plain(s, r).nodes && Plain(s, r).nodes[x] == cached'[x] {
        assert x != id ==> x in cached' - {id};
      }
    }
  }

  lemma FillKeepsCoherent(s: State, j: Journal, cached: map<Id, Node>, cached': map<Id, Node>)
    requires Filled(Plain(s, j), j, cached, cached') && Coherent(cached, Plain(s, j).nodes)
    ensures Coherent(cached', Plain(s, j).nodes)
  {
    PlainShowsPending(s, j);
    hide Plain;
  }

  lemma RemovalKeepsCoherent(s: State, j: Journal, op: Op, cached: map<Id, Node>)
    requires IsRemoval(op) && Coherent(cached, Plain(s, j).nodes)
    ensures Coherent(if op.RemoveNodes? then cached - op.ids else cached, Plain(s, AfterRemoval(j, op)).nodes)
  {
    hide Plain;
    if op.RemoveNodes? {
      PlainAfterDrop(s, j, op.ids);
    } else {
      PlainSameNodes(s, j, AfterRemoval(j, op));
    }
  }

  /** The nodes process p should see. */
  ghost function Seen(a: System, p: nat): map<Id, Node>
    requires p < |a.procs|
  {
    Plain(a.disk, a.procs[p].j).nodes
  }

  /** A step of process p keeps its node cache coherent. */
  lemma OwnStepKeeps(a: System, b: System, used: set<Id>, step: Step, cached: map<Id, Node>, cached': map<Id, Node>)
    requires SysOk(a, used) && Next(a, b, step) && Guarded(a, used, step) && KnowIds(a.disk.nodes)
    requires step.Local? ==> KeepsIds(step.st, step.op)
    requires CacheStep(a, step.p, step, cached, cached') && Coherent(cached, Seen(a, step.p))
    ensures |b.procs| == |a.procs| && Coherent(cached', Seen(b, step.p))
  {
    hide Plain, Stays, SysOk, MayRead, Applies, LocalCached, Filled, Coherent, KeepsIds, KnowIds, IsRemoval,
         ResolvedAt, ReadBase, MergeWith;
    match step
    case Read(p, st) =>
      ReadIsMerge(a, used, p, st);
      FillKeepsCoherent(a.disk, a.procs[p].j, cached, cached');
    case Local(p, op, st, r) =>
      ReadIsMerge(a, used, p, st);
      LocalKeepsCoherent(a.disk, a.procs[p].j, op, r, cached, cached');
    case Remove(p, op) =>
      RemovalKeepsCoherent(a.disk, a.procs[p].j, op, cached);
    case Save(p, tgt) =>
      EmptyCoherent(Seen(b, p));
    case Refresh(p) =>
      EmptyCoherent(Seen(b, p));
  }

  lemma EmptyCoherent(nodes: map<Id, Node>)
    ensures Coherent(map[], nodes)
  {
  }

  /** A step of another process leaves what p should see, unless it saves something. */
  lemma OtherStepKeeps(a: System, b: System, p: nat, step: Step)
    requires p < |a.procs| && Next(a, b, step) && step.p != p && (step.Save? ==> a.procs[step.p].j == EMPTY_JOURNAL)
    ensures |b.procs| == |a.procs| && Seen(b, p) == Seen(a, p) && b.disk == a.disk
  {
    hide Plain, Reads, Applies, MergeWith;
  }

  // ----- in every history in which p is the only one to change the file

  ghost predicate AloneSaving(h: seq<System>, steps: seq<Step>, p: nat, n: nat)
    requires n <= |steps| && |h| == |steps| + 1
  {
    forall i :: 0 <= i < n && steps[i].Save?
                ==> steps[i].p == p || (steps[i].p < |h[i].procs| && h[i].procs[steps[i].p].j == EMPTY_JOURNAL)
  }

  ghost predicate CachesOf(h: seq<System>, steps: seq<Step>, p: nat, caches: seq<map<Id, Node>>, n: nat)
    requires n <= |steps| && |h| == |steps| + 1
  {
    && |caches| == |h|
    && forall i :: 0 <= i < n ==> && p < |h[i].procs| && CacheStep(h[i], p, steps[i], caches[i], caches[i + 1])
                                  && (steps[i].Local? && steps[i].p == p ==> KeepsIds(steps[i].st, steps[i].op))
  }

  lemma StepKnowsIds(a: System, b: System, step: Step)
    requires Next(a, b, step) && KnowIds(a.disk.nodes)
    ensures KnowIds(b.disk.nodes)
  {
    hide KnowIds, Reads, Applies, ResolvedAt, MergeWith;
    if step.Save? && a.procs[step.p].j != EMPTY_JOURNAL {
      SavedKnowsIds(a.disk, a.procs[step.p].j, step.tgt);
    }
  }

  /** In every interleaving, through any number of its own saves, as long as no other process
      changes the file: what the node cache of p holds is what the file with its journal has. */
  lemma {:induction false} CacheAlwaysCoherent(h: seq<System>, steps: seq<Step>, used: set<Id>, p: nat,
                                               caches: seq<map<Id, Node>>, n: nat)
    requires GuardedUpto(h, steps, used, n) && SysOk(h[0], used) && KnowIds(h[0].disk.nodes)
    requires CachesOf(h, steps, p, caches, n) && AloneSaving(h, steps, p, n)
    requires p < |h[0].procs| && Coherent(caches[0], Seen(h[0], p))
    ensures p < |h[n].procs| && Coherent(caches[n], Seen(h[n], p)) && KnowIds(h[n].disk.nodes)
  {
    if n > 0 {
      HistoryKeepsSys(h, steps, used, n - 1);
      CacheAlwaysCoherent(h, steps, used, p, caches, n - 1);
      var step := steps[n - 1];
      assert Next(h[n - 1], h[n - 1 + 1], step) && Guarded(h[n - 1], UsedBy(used, steps[..n - 1]), step);
      assert CacheStep(h[n - 1], p, step, caches[n - 1], caches[n - 1 + 1]);
      hide SysOk, Next, Guarded, KnowIds, Coherent, KeepsIds, Plain, UsedBy;
      StepKnowsIds(h[n - 1], h[n], step);
      if step.p == p {
        OwnStepKeeps(h[n - 1], h[n], UsedBy(used, steps[..n - 1]), step, caches[n - 1], caches[n]);
      } else {
        OtherStepKeeps(h[n - 1], h[n], p, step);
      }
    }
  }
}
