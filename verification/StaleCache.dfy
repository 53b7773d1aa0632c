/** A history in which the node cache of a process falls behind the file. */
module StaleCache {
  import opened Order
  import opened Store
  import opened Identity
  import opened Absorption
  import opened Operations
  import opened LocalRuns
  import opened Processes
  import opened SavedNodes
  import opened SavedIdentities
  import opened CacheCoherence

  /** A process that has read the file and changed nothing yet. */
  function Ready(d: State): Proc {
    Proc(EMPTY_JOURNAL, Some(d), 0)
  }

  /** Two of them. */
  function Opened(d: State): System {
    System(d, 0, [Ready(d), Ready(d)])
  }

  /** What process 0 has cached once it has looked up the module "a". */
  const LOOKED_UP := map["a" := BOTH["a"]]

  lemma OpenedOk(d: State)
    requires Sound(d) && d.edges == map[]
    ensures SysOk(Opened(d), {})
  {
    EmptyCacheOk(d, {});
    hide CacheOk, Fits;
    assert ProcOk(d, 0, {}, Ready(d));
  }

  lemma OpenedReads(d: State, p: nat)
    requires p < 2
    ensures Next(Opened(d), Opened(d), Read(p, d)) && Reads(Opened(d), p, d, Ready(d))
    ensures Guarded(Opened(d), {}, Read(p, d))
  {
    ReadNothing(d);
    hide MayRead;
    var a := Opened(d);
    assert CacheValid(a, p) && Reads(a, p, d, Ready(d));
    assert a.procs[p := Ready(d)] == a.procs;
  }

  lemma ModulesKnown()
    ensures Sound(MODULES) && MODULES.edges == map[] && KnowIds(MODULES.nodes)
  {
  }

  lemma Renaming(now: Value) returns (j: Journal)
    ensures Applies(MODULES, EMPTY_JOURNAL, Rename("a", "N", now), j)
    ensures j.dirty.Keys == {"a"} && j.deletedNodes == {} && Bears(Snapshot("a", j.dirty["a"]), NAMED_N)
    ensures j != EMPTY_JOURNAL
  {
    var op := Rename("a", "N", now);
    j := UpsertExisting(MODULES, EMPTY_JOURNAL, op, "a");
    RenamedBears(MODULES, j, now);
    assert Carries(MODULES.nodes["a"], op.kind, op.identity);
    hide UpsertExisting, Carries;
    assert UpsertsAt(MODULES, EMPTY_JOURNAL, op, j, "a");
  }

  lemma RenamedInFile(j: Journal, tgt: map<Id, Id>)
    requires j.dirty.Keys == {"a"} && j.deletedNodes == {} && Bears(Snapshot("a", j.dirty["a"]), NAMED_N)
    requires Resolves(MODULES, j, tgt)
    ensures tgt.Keys == j.dirty.Keys
    ensures var d := MergeWith(MODULES, j, tgt); "a" in d.nodes && Bears(d.nodes["a"], NAMED_N)
  {
    NothingDeleted(MODULES, j);
    hide DeleteFrom, Bears, ResolvedAt;
    StaysIsPlain(MODULES, j, tgt);
    PlainShowsPending(MODULES, j);
    hide Plain, MergeWith;
    assert "a" in j.dirty;
  }

  lemma NotNamedN()
    ensures !Bears(BOTH["a"], NAMED_N)
  {
    assert BY_NAME["name"] == Text("N") && Named("a", "M")["name"] == Text("M");
  }

  lemma SeenIdle(a: System, p: nat)
    requires p < |a.procs| && a.procs[p].j == EMPTY_JOURNAL
    ensures Seen(a, p) == a.disk.nodes
  {
    MergeEmpty(a.disk);
  }

  lemma Looked()
    ensures CacheStep(Opened(MODULES), 0, Read(0, MODULES), map[], LOOKED_UP)
    ensures Coherent(LOOKED_UP, MODULES.nodes)
  {
  }

  lemma ThreeGuarded(h: seq<System>, steps: seq<Step>)
    requires |h| == 4 && |steps| == 3 && StepUses(steps[0]) == StepUses(steps[1]) == {}
    requires Next(h[0], h[1], steps[0]) && Next(h[1], h[2], steps[1]) && Next(h[2], h[3], steps[2])
    requires Guarded(h[0], {}, steps[0]) && Guarded(h[1], {}, steps[1]) && Guarded(h[2], {}, steps[2])
    ensures GuardedUpto(h, steps, {}, 3)
  {
    hide Next, Guarded, StepUses;
    assert steps[..2][..1] == steps[..1] && steps[..1][..0] == [] && steps[..0] == [];
    assert UsedBy({}, steps[..1]) == {} && UsedBy({}, steps[..2]) == {};
  }

  lemma ThreeCached(h: seq<System>, steps: seq<Step>, caches: seq<map<Id, Node>>)
    requires |h| == 4 && |steps| == 3 && |caches| == 4 && caches[1] == caches[2] == caches[3]
    requires 0 < |h[0].procs| && 0 < |h[1].procs| && 0 < |h[2].procs|
    requires CacheStep(h[0], 0, steps[0], caches[0], caches[1])
    requires steps[0].Read? && steps[1].p == 1 && steps[2].p == 1
    ensures CachesOf(h, steps, 0, caches, 3)
  {
    assert CacheStep(h[1], 0, steps[1], caches[1], caches[2]);
    assert CacheStep(h[2], 0, steps[2], caches[2], caches[3]);
    hide CacheStep, KeepsIds;
  }

  /** Process 1 applies an operation that hands out no edge id, then saves. */
  lemma OtherSaves(d: State, op: Op, j: Journal, tgt: map<Id, Id>) returns (s2: System, s3: System)
    requires Applies(d, EMPTY_JOURNAL, op, j) && op.Upsert? && j != EMPTY_JOURNAL && Resolves(d, j, tgt)
    ensures Next(Opened(d), s2, Local(1, op, d, j)) && Next(s2, s3, Save(1, tgt))
    ensures Guarded(Opened(d), {}, Local(1, op, d, j)) && Guarded(s2, {}, Save(1, tgt))
    ensures StepUses(Local(1, op, d, j)) == {}
    ensures 1 < |s2.procs| && s2.disk == d && s2.procs[0] == Ready(d)
    ensures 1 < |s3.procs| && s3.disk == MergeWith(d, j, tgt) && s3.procs[0] == Ready(d)
  {
    OpenedReads(d, 1);
    hide Reads, Applies, Resolves, MergeWith, Next, Stays;
    s2 := Opened(d).(procs := Opened(d).procs[1 := Ready(d).(j := j)]);
    LocalNext(Opened(d), 1, op, d, Ready(d), j);
    SaveNext(s2, 1, tgt);
    var e := MergeWith(d, j, tgt);
    s3 := System(e, 1, s2.procs[1 := Proc(EMPTY_JOURNAL, Some(e), 1)]);
  }

  /** Guarded steps of an ordered system, with a cache of process 0 that is coherent until the third,
      a save of process 1. */
  ghost predicate StaleAtEnd(h: seq<System>, steps: seq<Step>, caches: seq<map<Id, Node>>) {
    && |h| == 4 && |steps| == 3 && |caches| == 4 && GuardedUpto(h, steps, {}, 3)
    && SysOk(h[0], {}) && KnowIds(h[0].disk.nodes) && CachesOf(h, steps, 0, caches, 3)
    && steps[2].Save? && steps[2].p == 1 && 0 < |h[2].procs| && 0 < |h[3].procs|
    && Coherent(caches[2], Seen(h[2], 0)) && !Coherent(caches[3], Seen(h[3], 0))
  }

  lemma StaleIfSo(h: seq<System>, steps: seq<Step>, cached: map<Id, Node>) returns (caches: seq<map<Id, Node>>)
    requires |h| == 4 && |steps| == 3
    requires 0 < |h[0].procs| && 0 < |h[1].procs| && 0 < |h[2].procs| && 0 < |h[3].procs|
    requires GuardedUpto(h, steps, {}, 3) && SysOk(h[0], {}) && KnowIds(h[0].disk.nodes)
    requires CacheStep(h[0], 0, steps[0], map[], cached) && steps[0].Read? && steps[1].p == 1
    requires steps[2].Save? && steps[2].p == 1
    requires h[2].procs[0].j == EMPTY_JOURNAL && Coherent(cached, h[2].disk.nodes)
    requires h[3].procs[0].j == EMPTY_JOURNAL && !Coherent(cached, h[3].disk.nodes)
    ensures StaleAtEnd(h, steps, caches) && caches[3] == cached
  {
    caches := [map[], cached, cached, cached];
    hide SysOk, KnowIds, CacheStep, Seen, Next, Guarded, CachesOf, GuardedUpto, Coherent;
    ThreeCached(h, steps, caches);
    SeenIdle(h[2], 0);
    SeenIdle(h[3], 0);
  }

  /** Process 1 changes the file while process 0 only has read it. */
  lemma ReadThenSaved(d: State, op: Op, j: Journal, tgt: map<Id, Id>) returns (h: seq<System>, steps: seq<Step>)
    requires Applies(d, EMPTY_JOURNAL, op, j) && op.Upsert? && j != EMPTY_JOURNAL && Resolves(d, j, tgt)
    ensures |h| == 4 && h[0] == Opened(d) && steps == [Read(0, d), Local(1, op, d, j), Save(1, tgt)]
    ensures GuardedUpto(h, steps, {}, 3)
    ensures 1 < |h[0].procs| && 1 < |h[1].procs| && 1 < |h[2].procs| && 1 < |h[3].procs|
    ensures h[2].procs[0].j == EMPTY_JOURNAL && h[3].procs[0].j == EMPTY_JOURNAL
    ensures h[2].disk == d && h[3].disk == MergeWith(d, j, tgt)
  {
    OpenedReads(d, 0);
    ReadUsesNone(0, d);
    var s2, s3 := OtherSaves(d, op, j, tgt);
    hide Guarded, Next, Applies, Resolves, MergeWith, GuardedUpto, StepUses, Reads;
    h, steps := [Opened(d), Opened(d), s2, s3], [Read(0, d), Local(1, op, d, j), Save(1, tgt)];
    ThreeGuarded(h, steps);
  }

  /** Process 0 reads and caches nodes of d, process 1 changes one of them and saves. */
  lemma CachedThenSaved(d: State, cached: map<Id, Node>, op: Op, j: Journal, tgt: map<Id, Id>)
    returns (h: seq<System>, steps: seq<Step>, caches: seq<map<Id, Node>>)
    requires Sound(d) && d.edges == map[] && KnowIds(d.nodes) && Coherent(cached, d.nodes)
    requires Applies(d, EMPTY_JOURNAL, op, j) && op.Upsert? && j != EMPTY_JOURNAL && Resolves(d, j, tgt)
    requires CacheStep(Opened(d), 0, Read(0, d), map[], cached) && !Coherent(cached, MergeWith(d, j, tgt).nodes)
    ensures StaleAtEnd(h, steps, caches)
    ensures h[0] == Opened(d) && h[3].disk == MergeWith(d, j, tgt) && caches[3] == cached
    ensures steps == [Read(0, d), Local(1, op, d, j), Save(1, tgt)]
  {
    OpenedOk(d);
    assert Opened(d).disk == d;
    hide *;
    h, steps := ReadThenSaved(d, op, j, tgt);
    caches := StaleIfSo(h, steps, cached);
  }

  lemma ReadUsesNone(p: nat, st: State)
    ensures StepUses(Read(p, st)) == {}
  {
  }

  /** Process 0 looks up the module "a", process 1 renames it and saves: process 0 goes on seeing the
      old name in its node cache, while the file has the new one. */
  lemma SaveLeavesStale(now: Value) returns (h: seq<System>, steps: seq<Step>, caches: seq<map<Id, Node>>)
    ensures StaleAtEnd(h, steps, caches) && h[0] == Opened(MODULES) && steps[0] == Read(0, MODULES)
    ensures steps[1].Local? && steps[1].op == Rename("a", "N", now)
    ensures caches[3] == LOOKED_UP && "a" in h[3].disk.nodes && Bears(h[3].disk.nodes["a"], NAMED_N)
  {
    hide *;
    ModulesKnown();
    Looked();
    var j := Renaming(now);
    RenameIsUpsert(now);
    var tgt := SomeResolution(MODULES, j);
    RenamedInFile(j, tgt);
    StaleName(MergeWith(MODULES, j, tgt).nodes);
    h, steps, caches := CachedThenSaved(MODULES, LOOKED_UP, Rename("a", "N", now), j, tgt);
  }

  lemma RenameIsUpsert(now: Value)
    ensures Rename("a", "N", now).Upsert?
  {
  }

  lemma StaleName(nodes: map<Id, Node>)
    requires "a" in nodes && Bears(nodes["a"], NAMED_N)
    ensures !Coherent(LOOKED_UP, nodes)
  {
    NotNamedN();
    hide Bears;
    assert "a" in LOOKED_UP;
  }
}
