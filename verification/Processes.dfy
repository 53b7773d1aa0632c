/** Any number of processes sharing one graph file: local operations, reads, saves, refreshes. */
module Processes {
  import opened Order
  import opened Store
  import opened Identity
  import opened Absorption
  import opened Operations
  import opened Growth
  import opened Outcome

  /** `cachedState`, the stamp it was read at, and the journal. */
  datatype Proc = Proc(j: Journal, cached: Option<State>, stamp: nat)

  /** The file, a stamp that every save moves, and the processes. */
  datatype System = System(disk: State, version: nat, procs: seq<Proc>)

  predicate CacheValid(sys: System, p: nat)
    requires p < |sys.procs|
  {
    sys.procs[p].cached.Some? && sys.procs[p].stamp == sys.version
  }

  /** What `readEffectiveStateLocked` starts from. */
  function ReadBase(sys: System, p: nat): State
    requires p < |sys.procs|
  {
    if CacheValid(sys, p) then sys.procs[p].cached.value else sys.disk
  }

  /** Reading clones a valid cache; otherwise the decoded file becomes the cache and the journal
      is merged into that same object. */
  ghost predicate Reads(sys: System, p: nat, st: State, q: Proc)
    requires p < |sys.procs|
  {
    && MayRead(ReadBase(sys, p), sys.procs[p].j, st)
    && q == if CacheValid(sys, p) then sys.procs[p] else Proc(sys.procs[p].j, Some(st), sys.version)
  }

  datatype Step =
    | Read(p: nat, st: State)
    | Local(p: nat, op: Op, st: State, r: Journal)   // an upsert or a link, which read first
    | Remove(p: nat, op: Op)                         // removals, which only change the journal
    | Save(p: nat, tgt: map<Id, Id>)
    | Refresh(p: nat)

  predicate IsRemoval(op: Op) {
    op.RemoveNodes? || op.RemoveEdges?
  }

  function AfterRemoval(j: Journal, op: Op): Journal
    requires IsRemoval(op)
  {
    match op
    case RemoveNodes(ids) => DropNodes(j, ids)
    case RemoveEdges(ids) => DropEdges(j, ids)
  }

  ghost predicate Next(a: System, b: System, step: Step) {
    && step.p < |a.procs|
    && match step
       case Read(p, st) => exists q :: Reads(a, p, st, q) && b == a.(procs := a.procs[p := q])
       case Local(p, op, st, r) =>
         !IsRemoval(op) && exists q :: Reads(a, p, st, q) && Applies(st, a.procs[p].j, op, r)
                                       && b == a.(procs := a.procs[p := q.(j := r)])
       case Remove(p, op) =>
         IsRemoval(op) && b == a.(procs := a.procs[p := a.procs[p].(j := AfterRemoval(a.procs[p].j, op))])
       case Save(p, tgt) =>
         if a.procs[p].j == EMPTY_JOURNAL then b == a
         else Resolves(a.disk, a.procs[p].j, tgt)
              && var d := MergeWith(a.disk, a.procs[p].j, tgt);
                 b == System(d, a.version + 1, a.procs[p := Proc(EMPTY_JOURNAL, Some(d), a.version + 1)])
       case Refresh(p) =>
         if a.procs[p].j == EMPTY_JOURNAL && a.procs[p].stamp != a.version
         then b == a.(procs := a.procs[p := Proc(EMPTY_JOURNAL, Some(a.disk), a.version)])
         else b == a
  }

  ghost predicate IsHistory(h: seq<System>, steps: seq<Step>) {
    |h| == |steps| + 1 && forall i :: 0 <= i < |steps| ==> Next(h[i], h[i + 1], steps[i])
  }

  // ----- a process sees nothing of the others but the file

  /** The file with process p alone. */
  function OnlyProc(a: System, p: nat): System
    requires p < |a.procs|
  {
    System(a.disk, a.version, [a.procs[p]])
  }

  /** The system after process p alone took it to `one`. */
  function WithProc(a: System, p: nat, one: System): System
    requires p < |a.procs| && |one.procs| == 1
  {
    System(one.disk, one.version, a.procs[p := one.procs[0]])
  }

  function TakenBy(step: Step, p: nat): Step {
    match step
    case Read(_, st) => Read(p, st)
    case Local(_, op, st, r) => Local(p, op, st, r)
    case Remove(_, op) => Remove(p, op)
    case Save(_, tgt) => Save(p, tgt)
    case Refresh(_) => Refresh(p)
  }

  /** A step of a process that is alone with the file is its step among any others, which it leaves
      as they are. */
  lemma StepAmongOthers(a: System, p: nat, one: System, step: Step)
    requires p < |a.procs| && step.p == 0 && Next(OnlyProc(a, p), one, step)
    ensures |one.procs| == 1 && Next(a, WithProc(a, p, one), TakenBy(step, p))
  {
    var all := OnlyProc(a, p);
    assert ReadBase(all, 0) == ReadBase(a, p) && CacheValid(all, 0) == CacheValid(a, p);
    hide MayRead, Applies, Resolves, MergeWith, AfterRemoval;
    match step
    case Read(_, st) =>
      var q :| Reads(all, 0, st, q) && one == all.(procs := all.procs[0 := q]);
      assert Reads(a, p, st, q);
    case Local(_, op, st, r) =>
      var q :| Reads(all, 0, st, q) && Applies(st, all.procs[0].j, op, r)
               && one == all.(procs := all.procs[0 := q.(j := r)]);
      assert Reads(a, p, st, q);
    case _ =>
  }

  /** And every step of process p among others is one it could take alone with the file. */
  lemma StepOfItsOwn(a: System, p: nat, b: System, step: Step)
    requires p < |a.procs| && step.p == p && Next(a, b, step)
    ensures p < |b.procs| && Next(OnlyProc(a, p), OnlyProc(b, p), TakenBy(step, 0))
            && b == WithProc(a, p, OnlyProc(b, p))
  {
    var all := OnlyProc(a, p);
    assert ReadBase(all, 0) == ReadBase(a, p) && CacheValid(all, 0) == CacheValid(a, p);
    hide MayRead, Applies, Resolves, MergeWith, AfterRemoval;
    match step
    case Read(_, st) =>
      var q :| Reads(a, p, st, q) && b == a.(procs := a.procs[p := q]);
      assert Reads(all, 0, st, q);
    case Local(_, op, st, r) =>
      var q :| Reads(a, p, st, q) && Applies(st, a.procs[p].j, op, r) && b == a.(procs := a.procs[p := q.(j := r)]);
      assert Reads(all, 0, st, q);
    case _ =>
  }

  // ----- integrity in every interleaving

  /** The file and every cached state are sound, whatever the processes do. */
  ghost predicate Intact(sys: System) {
    && Sound(sys.disk)
    && forall p :: 0 <= p < |sys.procs| ==> IntactProc(sys.procs[p])
  }

  ghost predicate IntactProc(q: Proc) {
    JournalKeyed(q.j) && (q.cached.Some? ==> Sound(q.cached.value))
  }

  lemma AppliesKeyed(st: State, j: Journal, op: Op, r: Journal)
    requires JournalKeyed(j) && Applies(st, j, op, r)
    ensures JournalKeyed(r)
  {
  }

  lemma ReadsIntact(sys: System, p: nat, st: State, q: Proc)
    requires Intact(sys) && p < |sys.procs| && Reads(sys, p, st, q)
    ensures Sound(st) && IntactProc(q)
  {
    var j := sys.procs[p].j;
    assert IntactProc(sys.procs[p]);
    hide ResolvedAt;
    var tgt :| Resolves(ReadBase(sys, p), j, tgt) && st == MergeWith(ReadBase(sys, p), j, tgt);
    MergeKeepsSound(ReadBase(sys, p), j, tgt);
  }

  lemma StepIntact(a: System, b: System, step: Step)
    requires Intact(a) && Next(a, b, step)
    ensures Intact(b)
  {
    hide Sound, Applies, MergeWith, JournalKeyed;
    assert IntactProc(a.procs[step.p]);
    match step
    case Read(p, st) =>
      var q :| Reads(a, p, st, q) && b == a.(procs := a.procs[p := q]);
      ReadsIntact(a, p, st, q);
    case Local(p, op, st, r) =>
      var q :| Reads(a, p, st, q) && Applies(st, a.procs[p].j, op, r) && b == a.(procs := a.procs[p := q.(j := r)]);
      ReadsIntact(a, p, st, q);
      AppliesKeyed(st, a.procs[p].j, op, r);
    case Remove(p, op) =>
      assert Applies(a.disk, a.procs[p].j, op, AfterRemoval(a.procs[p].j, op)) by {
        RemovalApplies(a.disk, a.procs[p].j, op);
      }
      AppliesKeyed(a.disk, a.procs[p].j, op, AfterRemoval(a.procs[p].j, op));
    case Save(p, tgt) =>
      if a.procs[p].j != EMPTY_JOURNAL {
        MergeKeepsSound(a.disk, a.procs[p].j, tgt);
        EmptyKeyed();
      }
    case Refresh(p) =>
  }

  lemma RemovalApplies(st: State, j: Journal, op: Op)
    requires IsRemoval(op)
    ensures Applies(st, j, op, AfterRemoval(j, op))
  {
  }

  lemma EmptyKeyed()
    ensures JournalKeyed(EMPTY_JOURNAL)
  {
  }

  /** In every interleaving the file never holds an edge without endpoints or under a foreign key. */
  lemma {:induction false} DiskAlwaysSound(h: seq<System>, steps: seq<Step>, i: nat)
    requires IsHistory(h, steps) && Intact(h[0]) && i < |h|
    ensures Intact(h[i])
  {
    if i > 0 {
      DiskAlwaysSound(h, steps, i - 1);
      hide Intact, Next;
      assert Next(h[i - 1], h[i - 1 + 1], steps[i - 1]);
      StepIntact(h[i - 1], h[i], steps[i - 1]);
    }
  }

  // ----- what one save does to the file

  lemma SaveDoes(a: System, b: System, p: nat, tgt: map<Id, Id>)
    requires Intact(a) && Next(a, b, Save(p, tgt)) && a.procs[p].j != EMPTY_JOURNAL
    requires NoClash(DeleteFrom(a.disk, a.procs[p].j).edges, a.procs[p].j.newEdges, tgt)
    ensures tgt.Keys == a.procs[p].j.dirty.Keys && MergeOutcome(a.disk, a.procs[p].j, tgt, b.disk)
    ensures b.procs[p].j == EMPTY_JOURNAL && b.procs[p].cached == Some(b.disk) && b.version == a.version + 1
  {
    assert IntactProc(a.procs[p]);
    assert Resolves(a.disk, a.procs[p].j, tgt) && b.disk == MergeWith(a.disk, a.procs[p].j, tgt);
    assert b.procs[p] == Proc(EMPTY_JOURNAL, Some(b.disk), a.version + 1);
    hide *;
    TargetsCover(a.disk, a.procs[p].j, tgt);
    KeyedProc(a.procs[p]);
    MergeDoes(a.disk, a.procs[p].j, tgt);
  }

  lemma TargetsCover(s: State, j: Journal, tgt: map<Id, Id>)
    requires Resolves(s, j, tgt)
    ensures tgt.Keys == j.dirty.Keys
  {
  }

  lemma KeyedProc(q: Proc)
    requires IntactProc(q)
    ensures JournalKeyed(q.j)
  {
  }

  // ----- every read is the file with the journal

  lemma MergeEmpty(s: State)
    ensures Plain(s, EMPTY_JOURNAL) == s
  {
    assert DeleteFrom(s, EMPTY_JOURNAL).nodes == s.nodes && DeleteFrom(s, EMPTY_JOURNAL).edges == s.edges;
    assert Snapshots(EMPTY_JOURNAL) == map[];
    ListingEmpty(EMPTY_JOURNAL.newEdges.Keys);
  }

  /** A valid cache is an earlier journal of the same process merged into the current file. */
  ghost predicate CacheOk(disk: State, used: set<Id>, j: Journal, cached: State) {
    exists j0 :: Fits(disk, j0) && Known(used, disk, j0, j) && Grown(disk, j0, j) && cached == Plain(disk, j0)
  }

  ghost predicate ProcOk(disk: State, version: nat, used: set<Id>, q: Proc) {
    && Fits(disk, q.j) && q.j.newEdges.Keys <= used && q.stamp <= version
    && (q.cached.Some? && q.stamp == version ==> CacheOk(disk, used, q.j, q.cached.value))
  }

  ghost predicate Apart(procs: seq<Proc>) {
    forall p, q :: 0 <= p < q < |procs| ==> procs[p].j.newEdges.Keys !! procs[q].j.newEdges.Keys
  }

  ghost predicate SysOk(sys: System, used: set<Id>) {
    && Sound(sys.disk) && sys.disk.edges.Keys <= used && Apart(sys.procs)
    && forall p :: 0 <= p < |sys.procs| ==> ProcOk(sys.disk, sys.version, used, sys.procs[p])
  }

  /** No process reads while one of its pending snapshots has a rival in what it reads from, and
      the ids of new edges are fresh. Removals, saves and refreshes are free. */
  ghost predicate Guarded(a: System, used: set<Id>, step: Step) {
    && step.p < |a.procs|
    && (step.Read? || step.Local? ==> Stays(ReadBase(a, step.p), a.procs[step.p].j))
    && (step.Local? ==> used !! Uses(step.op))
  }

  ghost function StepUses(step: Step): set<Id> {
    if step.Local? then Uses(step.op) else {}
  }

  lemma CachedReadPlain(disk: State, used: set<Id>, j: Journal, cached: State, st: State)
    requires CacheOk(disk, used, j, cached) && Stays(cached, j) && MayRead(cached, j, st)
    ensures st == Plain(disk, j)
  {
    hide Grown, Stays, Known, MayRead, Fits, Plain;
    var j0 :| Fits(disk, j0) && Known(used, disk, j0, j) && Grown(disk, j0, j) && cached == Plain(disk, j0);
    GrownReadIsPlain(disk, j0, j, st);
  }

  /** A read through a valid cache or from the file yields file plus journal. */
  lemma ReadIsMerge(a: System, used: set<Id>, p: nat, st: State)
    requires SysOk(a, used) && p < |a.procs|
    requires MayRead(ReadBase(a, p), a.procs[p].j, st) && Stays(ReadBase(a, p), a.procs[p].j)
    ensures st == Plain(a.disk, a.procs[p].j)
  {
    assert ProcOk(a.disk, a.version, used, a.procs[p]);
    hide MayRead, Stays, CacheOk, Plain;
    if CacheValid(a, p) {
      CachedReadPlain(a.disk, used, a.procs[p].j, a.procs[p].cached.value, st);
    } else {
      ReadIsPlain(a.disk, a.procs[p].j, st);
    }
  }

  /** After reading, the cache is valid and still absorbs. */
  lemma ReadKeepsCache(a: System, used: set<Id>, p: nat, st: State, q: Proc)
    requires SysOk(a, used) && p < |a.procs| && Reads(a, p, st, q) && Stays(ReadBase(a, p), a.procs[p].j)
    ensures q.j == a.procs[p].j && q.cached.Some? && q.stamp == a.version
    ensures CacheOk(a.disk, used, q.j, q.cached.value) && st == Plain(a.disk, q.j)
  {
    ReadIsMerge(a, used, p, st);
    assert ProcOk(a.disk, a.version, used, a.procs[p]);
    if !CacheValid(a, p) {
      GrownRefl(a.disk, q.j);
      hide Grown, Stays, Fits, Plain, MayRead;
      assert Known(used, a.disk, q.j, q.j);
    }
  }

  lemma LocalKeepsCache(disk: State, used: set<Id>, j: Journal, cached: State, op: Op, r: Journal)
    requires CacheOk(disk, used, j, cached) && Applies(Plain(disk, j), j, op, r) && used !! Uses(op)
    ensures CacheOk(disk, used + Uses(op), r, cached) && Fits(disk, r)
  {
    hide Grown, Fits, Plain, Applies, Known;
    var j0 :| Fits(disk, j0) && Known(used, disk, j0, j) && Grown(disk, j0, j) && cached == Plain(disk, j0);
    OpKeepsGrown(disk, j0, j, op, r, used);
    GrownFits(disk, j0, r);
  }

  lemma GrownFits(disk: State, j0: Journal, r: Journal)
    requires Grown(disk, j0, r)
    ensures Fits(disk, r)
  {
  }

  lemma OpAddsOnly(st: State, j: Journal, op: Op, r: Journal)
    requires Applies(st, j, op, r)
    ensures r.newEdges.Keys <= j.newEdges.Keys + Uses(op)
  {
  }

  lemma MoreUsed(disk: State, version: nat, used: set<Id>, more: set<Id>, q: Proc)
    requires ProcOk(disk, version, used, q)
    ensures ProcOk(disk, version, used + more, q)
  {
    hide Fits, Grown, Plain;
    if q.cached.Some? && q.stamp == version {
      var j0 :| Fits(disk, j0) && Known(used, disk, j0, q.j) && Grown(disk, j0, q.j)
                && q.cached.value == Plain(disk, j0);
      assert Known(used + more, disk, j0, q.j);
    }
  }

  lemma StillApart(procs: seq<Proc>, p: nat, q: Proc, more: set<Id>)
    requires p < |procs| && Apart(procs) && q.j.newEdges.Keys <= procs[p].j.newEdges.Keys + more
    requires forall i :: 0 <= i < |procs| ==> procs[i].j.newEdges.Keys !! more
    ensures Apart(procs[p := q])
  {
    var r := procs[p := q];
    forall i, k | 0 <= i < k < |r| ensures r[i].j.newEdges.Keys !! r[k].j.newEdges.Keys {
      assert procs[i].j.newEdges.Keys !! procs[k].j.newEdges.Keys;
    }
  }

  /** Replacing one process by one in order, with the file as it was. */
  lemma ReplaceProc(a: System, used: set<Id>, more: set<Id>, p: nat, q: Proc)
    requires SysOk(a, used) && p < |a.procs| && ProcOk(a.disk, a.version, used + more, q)
    requires used !! more && q.j.newEdges.Keys <= a.procs[p].j.newEdges.Keys + more
    ensures SysOk(a.(procs := a.procs[p := q]), used + more)
  {
    var b := a.(procs := a.procs[p := q]);
    hide ProcOk, Sound, Apart;
    forall i | 0 <= i < |b.procs| ensures ProcOk(b.disk, b.version, used + more, b.procs[i]) {
      if i != p {
        MoreUsed(a.disk, a.version, used, more, a.procs[i]);
      }
    }
    forall i | 0 <= i < |a.procs| ensures a.procs[i].j.newEdges.Keys !! more {
      EdgesUsed(a.disk, a.version, used, a.procs[i]);
    }
    StillApart(a.procs, p, q, more);
  }

  lemma EdgesUsed(disk: State, version: nat, used: set<Id>, q: Proc)
    requires ProcOk(disk, version, used, q)
    ensures q.j.newEdges.Keys <= used && Fits(disk, q.j)
  {
  }

  lemma ReadKeepsSys(a: System, used: set<Id>, p: nat, st: State, q: Proc)
    requires SysOk(a, used) && p < |a.procs| && Reads(a, p, st, q) && Stays(ReadBase(a, p), a.procs[p].j)
    ensures SysOk(a.(procs := a.procs[p := q]), used)
  {
    ReadKeepsCache(a, used, p, st, q);
    EdgesUsed(a.disk, a.version, used, a.procs[p]);
    hide CacheOk, Fits, Reads, Stays;
    assert used + {} == used;
    ReplaceProc(a, used, {}, p, q);
  }

  lemma LocalKeepsSys(a: System, used: set<Id>, p: nat, op: Op, st: State, q: Proc, r: Journal)
    requires SysOk(a, used) && p < |a.procs| && Reads(a, p, st, q) && Applies(st, a.procs[p].j, op, r)
    requires Stays(ReadBase(a, p), a.procs[p].j) && used !! Uses(op)
    ensures SysOk(a.(procs := a.procs[p := q.(j := r)]), used + Uses(op))
  {
    assert ProcOk(a.disk, a.version, used, a.procs[p]);
    hide CacheOk, Fits, Reads, Applies, Plain, CacheValid, Stays, ReadBase;
    ReadKeepsCache(a, used, p, st, q);
    LocalKeepsCache(a.disk, used, a.procs[p].j, q.cached.value, op, r);
    OpAddsOnly(st, a.procs[p].j, op, r);
    EdgesUsed(a.disk, a.version, used, a.procs[p]);
    assert ProcOk(a.disk, a.version, used + Uses(op), q.(j := r));
    hide ProcOk, SysOk, Uses;
    ReplaceProc(a, used, Uses(op), p, q.(j := r));
  }

  lemma RemovalKeepsCache(disk: State, used: set<Id>, j: Journal, cached: State, op: Op)
    requires IsRemoval(op) && CacheOk(disk, used, j, cached)
    ensures CacheOk(disk, used, AfterRemoval(j, op), cached)
  {
    var r := AfterRemoval(j, op);
    RemovalApplies(disk, j, op);
    OpAddsOnly(disk, j, op, r);
    assert Uses(op) == {};
    hide Grown, Fits, Plain, Applies, AfterRemoval;
    var j0 :| Fits(disk, j0) && Known(used, disk, j0, j) && Grown(disk, j0, j) && cached == Plain(disk, j0);
    RemovalKeepsGrown(disk, j0, j, op, r, disk);
    assert Known(used, disk, j0, r);
  }

  lemma RemovalFits(disk: State, j: Journal, op: Op)
    requires IsRemoval(op) && Fits(disk, j)
    ensures Fits(disk, AfterRemoval(j, op)) && AfterRemoval(j, op).newEdges.Keys <= j.newEdges.Keys
  {
  }

  lemma RemoveKeepsSys(a: System, used: set<Id>, p: nat, op: Op)
    requires SysOk(a, used) && p < |a.procs| && IsRemoval(op)
    ensures SysOk(a.(procs := a.procs[p := a.procs[p].(j := AfterRemoval(a.procs[p].j, op))]), used)
  {
    var q := a.procs[p];
    var r := q.(j := AfterRemoval(q.j, op));
    assert ProcOk(a.disk, a.version, used, q);
    RemovalFits(a.disk, q.j, op);
    hide CacheOk, Fits, AfterRemoval;
    if q.cached.Some? && q.stamp == a.version {
      RemovalKeepsCache(a.disk, used, q.j, q.cached.value, op);
    }
    assert ProcOk(a.disk, a.version, used, r);
    hide ProcOk, SysOk;
    assert used + {} == used;
    ReplaceProc(a, used, {}, p, r);
  }

  lemma SavedEdges(s: State, j: Journal, tgt: map<Id, Id>)
    requires JournalKeyed(j) && tgt.Keys == j.dirty.Keys
    ensures MergeWith(s, j, tgt).edges.Keys <= s.edges.Keys + j.newEdges.Keys
  {
    ListingMembers(j.newEdges.Keys);
    AddAllGrows(DeleteFrom(s, j).edges, Listing(j.newEdges.Keys), j.newEdges, MergedNodes(s, j, tgt).Keys, tgt);
    hide MergedNodes, Redirected;
  }

  lemma EmptyCacheOk(disk: State, used: set<Id>)
    requires Sound(disk) && disk.edges.Keys <= used
    ensures Fits(disk, EMPTY_JOURNAL) && CacheOk(disk, used, EMPTY_JOURNAL, disk)
  {
    MergeEmpty(disk);
    GrownRefl(disk, EMPTY_JOURNAL);
    assert Known(used, disk, EMPTY_JOURNAL, EMPTY_JOURNAL) && Fits(disk, EMPTY_JOURNAL);
    hide Grown, Fits, Plain, Known;
  }

  lemma OthersAfterSave(a: System, used: set<Id>, d: State, p: nat, i: nat)
    requires SysOk(a, used) && p < |a.procs| && i < |a.procs| && i != p
    requires Sound(d) && d.edges.Keys <= a.disk.edges.Keys + a.procs[p].j.newEdges.Keys
    ensures ProcOk(d, a.version + 1, used, a.procs[i])
  {
    assert ProcOk(a.disk, a.version, used, a.procs[i]);
    hide Sound, JournalKeyed, CacheOk;
    assert a.procs[i].j.newEdges.Keys !! a.procs[p].j.newEdges.Keys;
  }

  /** What a save leaves in the file, for the processes. */
  lemma SavedFile(a: System, b: System, used: set<Id>, p: nat, tgt: map<Id, Id>)
    requires SysOk(a, used) && Next(a, b, Save(p, tgt)) && a.procs[p].j != EMPTY_JOURNAL
    ensures Sound(b.disk) && b.disk.edges.Keys <= a.disk.edges.Keys + a.procs[p].j.newEdges.Keys
    ensures b == System(b.disk, a.version + 1, a.procs[p := Proc(EMPTY_JOURNAL, Some(b.disk), a.version + 1)])
  {
    assert ProcOk(a.disk, a.version, used, a.procs[p]);
    hide CacheOk, ResolvedAt, MergeWith, SysOk;
    TargetsCover(a.disk, a.procs[p].j, tgt);
    MergeKeepsSound(a.disk, a.procs[p].j, tgt);
    SavedEdges(a.disk, a.procs[p].j, tgt);
  }

  lemma SaveKeepsSys(a: System, b: System, used: set<Id>, p: nat, tgt: map<Id, Id>)
    requires SysOk(a, used) && Next(a, b, Save(p, tgt))
    ensures SysOk(b, used)
  {
    if a.procs[p].j != EMPTY_JOURNAL {
      SavedFile(a, b, used, p, tgt);
      EdgesUsed(a.disk, a.version, used, a.procs[p]);
      hide Next, ProcOk, Sound, CacheOk, Fits;
      EmptyCacheOk(b.disk, used);
      SavedProc(b, used, p);
      forall i | 0 <= i < |b.procs| && i != p ensures ProcOk(b.disk, b.version, used, b.procs[i]) {
        OthersAfterSave(a, used, b.disk, p, i);
      }
      StillApart(a.procs, p, b.procs[p], {});
    }
  }

  lemma SavedProc(b: System, used: set<Id>, p: nat)
    requires p < |b.procs| && b.procs[p] == Proc(EMPTY_JOURNAL, Some(b.disk), b.version)
    requires Fits(b.disk, EMPTY_JOURNAL) && CacheOk(b.disk, used, EMPTY_JOURNAL, b.disk)
    ensures ProcOk(b.disk, b.version, used, b.procs[p])
  {
    hide CacheOk, Fits;
  }

  lemma RefreshKeepsSys(a: System, b: System, used: set<Id>, p: nat)
    requires SysOk(a, used) && Next(a, b, Refresh(p))
    ensures SysOk(b, used)
  {
    if b != a {
      EmptyCacheOk(a.disk, used);
      hide Plain, Fits, CacheOk;
      assert used + {} == used;
      ReplaceProc(a, used, {}, p, Proc(EMPTY_JOURNAL, Some(a.disk), a.version));
    }
  }

  lemma StepKeepsSys(a: System, b: System, used: set<Id>, step: Step)
    requires SysOk(a, used) && Next(a, b, step) && Guarded(a, used, step)
    ensures SysOk(b, used + StepUses(step))
  {
    hide SysOk, Reads, Applies, Stays, ResolvedAt, MergeWith, Uses, ReadBase;
    assert used + {} == used;
    match step
    case Read(p, st) =>
      var q :| Reads(a, p, st, q) && b == a.(procs := a.procs[p := q]);
      ReadKeepsSys(a, used, p, st, q);
    case Local(p, op, st, r) =>
      var q :| Reads(a, p, st, q) && Applies(st, a.procs[p].j, op, r) && b == a.(procs := a.procs[p := q.(j := r)]);
      LocalKeepsSys(a, used, p, op, st, q, r);
    case Remove(p, op) =>
      RemoveKeepsSys(a, used, p, op);
    case Save(p, tgt) =>
      SaveKeepsSys(a, b, used, p, tgt);
    case Refresh(p) =>
      RefreshKeepsSys(a, b, used, p);
  }

  ghost function UsedBy(used: set<Id>, steps: seq<Step>): set<Id> {
    if steps == [] then used else UsedBy(used, steps[..|steps| - 1]) + StepUses(steps[|steps| - 1])
  }

  /** The first n steps of the history are guarded. */
  ghost predicate GuardedUpto(h: seq<System>, steps: seq<Step>, used: set<Id>, n: nat) {
    n <= |steps| && IsHistory(h, steps) && forall i :: 0 <= i < n ==> Guarded(h[i], UsedBy(used, steps[..i]), steps[i])
  }

  lemma {:induction false} HistoryKeepsSys(h: seq<System>, steps: seq<Step>, used: set<Id>, n: nat)
    requires GuardedUpto(h, steps, used, n) && SysOk(h[0], used)
    ensures SysOk(h[n], UsedBy(used, steps[..n]))
  {
    hide SysOk, Next, Guarded;
    if n > 0 {
      HistoryKeepsSys(h, steps, used, n - 1);
      assert steps[..n][..n - 1] == steps[..n - 1];
      assert Next(h[n - 1], h[n - 1 + 1], steps[n - 1]);
      assert Guarded(h[n - 1], UsedBy(used, steps[..n - 1]), steps[n - 1]);
      StepKeepsSys(h[n - 1], h[n], UsedBy(used, steps[..n - 1]), steps[n - 1]);
    }
  }

  /** In a system in order, whatever process p may read next is the file with its journal exactly
      when none of its pending snapshots has a rival in what it reads from. */
  lemma NextReadIff(a: System, used: set<Id>, p: nat)
    requires SysOk(a, used) && p < |a.procs|
    ensures Stays(ReadBase(a, p), a.procs[p].j)
            <==> forall st :: MayRead(ReadBase(a, p), a.procs[p].j, st) ==> st == Plain(a.disk, a.procs[p].j)
  {
    var j := a.procs[p].j;
    PlainShowsPending(a.disk, j);
    hide MayRead, Stays, SysOk, ReadBase, Plain;
    if Stays(ReadBase(a, p), j) {
      forall st | MayRead(ReadBase(a, p), j, st) ensures st == Plain(a.disk, j) {
        ReadIsMerge(a, used, p, st);
      }
    } else {
      var st, x := RivalHides(ReadBase(a, p), j);
    }
  }

  /** In every interleaving: as long as no process reads past a rival, every read sees exactly the
      file with the reader's journal, and the next one will exactly when it meets no rival either. */
  lemma ReadsSeeFilePlusJournal(h: seq<System>, steps: seq<Step>, used: set<Id>, n: nat, p: nat)
    requires GuardedUpto(h, steps, used, n) && SysOk(h[0], used) && p < |h[n].procs|
    ensures forall i :: 0 <= i < n && (steps[i].Read? || steps[i].Local?)
                        ==> && steps[i].p < |h[i].procs| && steps[i].st == Plain(h[i].disk, h[i].procs[steps[i].p].j)
                            && ReadOutcome(h[i].disk, h[i].procs[steps[i].p].j, steps[i].st)
    ensures Stays(ReadBase(h[n], p), h[n].procs[p].j)
            <==> forall st :: MayRead(ReadBase(h[n], p), h[n].procs[p].j, st)
                              ==> st == Plain(h[n].disk, h[n].procs[p].j)
  {
    HistoryKeepsSys(h, steps, used, n);
    NextReadIff(h[n], UsedBy(used, steps[..n]), p);
    hide Plain, Stays, SysOk, MayRead, ReadBase, UsedBy, ReadOutcome;
    forall i | 0 <= i < n && (steps[i].Read? || steps[i].Local?)
      ensures steps[i].p < |h[i].procs| && steps[i].st == Plain(h[i].disk, h[i].procs[steps[i].p].j)
      ensures ReadOutcome(h[i].disk, h[i].procs[steps[i].p].j, steps[i].st)
    {
      GuardedRead(h, steps, used, n, i);
    }
  }

  lemma GuardedRead(h: seq<System>, steps: seq<Step>, used: set<Id>, n: nat, i: nat)
    requires GuardedUpto(h, steps, used, n) && SysOk(h[0], used) && i < n && (steps[i].Read? || steps[i].Local?)
    ensures steps[i].p < |h[i].procs| && steps[i].st == Plain(h[i].disk, h[i].procs[steps[i].p].j)
    ensures ReadOutcome(h[i].disk, h[i].procs[steps[i].p].j, steps[i].st)
  {
    HistoryKeepsSys(h, steps, used, i);
    assert Guarded(h[i], UsedBy(used, steps[..i]), steps[i]);
    assert Next(h[i], h[i + 1], steps[i]);
    hide Plain, Stays, SysOk, MayRead, ReadBase, UsedBy, Applies;
    var q :| Reads(h[i], steps[i].p, steps[i].st, q);
    ReadIsMerge(h[i], UsedBy(used, steps[..i]), steps[i].p, steps[i].st);
    FitsHere(h[i], UsedBy(used, steps[..i]), steps[i].p);
    hide ReadOutcome, Fits;
    PlainDoes(h[i].disk, h[i].procs[steps[i].p].j);
  }

  lemma FitsHere(a: System, used: set<Id>, p: nat)
    requires SysOk(a, used) && p < |a.procs|
    ensures Fits(a.disk, a.procs[p].j)
  {
    hide Sound, CacheOk, JournalKeyed;
    assert ProcOk(a.disk, a.version, used, a.procs[p]);
  }

  // ----- what every save does, as long as the ids of new edges are fresh

  /** The edges of the file and the pending ones of all processes have different ids. */
  ghost predicate EdgesApart(sys: System, used: set<Id>) {
    && sys.disk.edges.Keys <= used && Apart(sys.procs)
    && forall p :: 0 <= p < |sys.procs| ==> PendingApart(sys.disk, used, sys.procs[p])
  }

  ghost predicate PendingApart(disk: State, used: set<Id>, q: Proc) {
    q.j.newEdges.Keys <= used && q.j.newEdges.Keys !! disk.edges.Keys
  }

  /** Replacing one process by one that adds only the edge ids `more`. */
  lemma ReplaceApart(a: System, used: set<Id>, more: set<Id>, p: nat, q: Proc)
    requires EdgesApart(a, used) && p < |a.procs| && used !! more
    requires q.j.newEdges.Keys <= a.procs[p].j.newEdges.Keys + more
    ensures EdgesApart(a.(procs := a.procs[p := q]), used + more)
  {
    assert forall i :: 0 <= i < |a.procs| ==> PendingApart(a.disk, used, a.procs[i]);
    hide Apart;
    StillApart(a.procs, p, q, more);
  }

  lemma SaveApart(a: System, b: System, used: set<Id>, p: nat, tgt: map<Id, Id>)
    requires Intact(a) && EdgesApart(a, used) && Next(a, b, Save(p, tgt)) && a.procs[p].j != EMPTY_JOURNAL
    ensures EdgesApart(b, used)
  {
    assert IntactProc(a.procs[p]) && PendingApart(a.disk, used, a.procs[p]);
    hide ResolvedAt, MergeWith, Sound, Apart;
    SavedEdges(a.disk, a.procs[p].j, tgt);
    StillApart(a.procs, p, Proc(EMPTY_JOURNAL, Some(b.disk), a.version + 1), {});
    forall i | 0 <= i < |b.procs| ensures PendingApart(b.disk, used, b.procs[i]) {
      if i != p {
        assert PendingApart(a.disk, used, a.procs[i]);
        OthersApart(a.procs, p, i);
      }
    }
  }

  lemma OthersApart(procs: seq<Proc>, p: nat, i: nat)
    requires Apart(procs) && p < |procs| && i < |procs| && i != p
    ensures procs[i].j.newEdges.Keys !! procs[p].j.newEdges.Keys
  {
    if i < p {
      assert procs[i].j.newEdges.Keys !! procs[p].j.newEdges.Keys;
    } else {
      assert procs[p].j.newEdges.Keys !! procs[i].j.newEdges.Keys;
    }
  }

  lemma RemovalAddsNone(j: Journal, op: Op)
    requires IsRemoval(op)
    ensures AfterRemoval(j, op).newEdges.Keys <= j.newEdges.Keys
  {
  }

  lemma StepApart(a: System, b: System, used: set<Id>, step: Step)
    requires Intact(a) && EdgesApart(a, used) && Next(a, b, step) && (step.Local? ==> used !! Uses(step.op))
    ensures EdgesApart(b, used + StepUses(step))
  {
    hide EdgesApart, Intact, MayRead, Applies, Resolves, MergeWith, Uses, AfterRemoval;
    assert used + {} == used;
    match step
    case Read(p, st) =>
      var q :| Reads(a, p, st, q) && b == a.(procs := a.procs[p := q]);
      ReplaceApart(a, used, {}, p, q);
    case Local(p, op, st, r) =>
      var q :| Reads(a, p, st, q) && Applies(st, a.procs[p].j, op, r) && b == a.(procs := a.procs[p := q.(j := r)]);
      OpAddsOnly(st, a.procs[p].j, op, r);
      ReplaceApart(a, used, Uses(op), p, q.(j := r));
    case Remove(p, op) =>
      RemovalAddsNone(a.procs[p].j, op);
      ReplaceApart(a, used, {}, p, a.procs[p].(j := AfterRemoval(a.procs[p].j, op)));
    case Save(p, tgt) =>
      if a.procs[p].j != EMPTY_JOURNAL {
        SaveApart(a, b, used, p, tgt);
      }
    case Refresh(p) =>
      if b != a {
        ReplaceApart(a, used, {}, p, Proc(EMPTY_JOURNAL, Some(a.disk), a.version));
      }
  }

  /** In the first n steps of the history no edge id is handed out twice; that is all. */
  ghost predicate FreshUpto(h: seq<System>, steps: seq<Step>, used: set<Id>, n: nat) {
    && n <= |steps| && IsHistory(h, steps)
    && forall i :: 0 <= i < n && steps[i].Local? ==> UsedBy(used, steps[..i]) !! Uses(steps[i].op)
  }

  /** In every interleaving, whatever was read past a rival: file and journals share no edge id. */
  lemma {:induction false} EdgesAlwaysApart(h: seq<System>, steps: seq<Step>, used: set<Id>, n: nat)
    requires FreshUpto(h, steps, used, n) && Intact(h[0]) && EdgesApart(h[0], used)
    ensures EdgesApart(h[n], UsedBy(used, steps[..n]))
  {
    hide EdgesApart, Intact, Next, Uses;
    if n > 0 {
      EdgesAlwaysApart(h, steps, used, n - 1);
      DiskAlwaysSound(h, steps, n - 1);
      assert steps[..n][..n - 1] == steps[..n - 1];
      assert Next(h[n - 1], h[n - 1 + 1], steps[n - 1]);
      StepApart(h[n - 1], h[n], UsedBy(used, steps[..n - 1]), steps[n - 1]);
    }
  }

  lemma ApartNeverClashes(s: State, used: set<Id>, q: Proc, tgt: map<Id, Id>)
    requires PendingApart(s, used, q)
    ensures NoClash(DeleteFrom(s, q.j).edges, q.j.newEdges, tgt)
  {
  }

  /** So in every interleaving every save that has something to save does what `MergeOutcome` says. */
  lemma EverySaveDoes(h: seq<System>, steps: seq<Step>, used: set<Id>, n: nat)
    requires FreshUpto(h, steps, used, n) && Intact(h[0]) && EdgesApart(h[0], used) && n < |steps|
    requires steps[n].Save? && steps[n].p < |h[n].procs| && h[n].procs[steps[n].p].j != EMPTY_JOURNAL
    ensures var p, tgt := steps[n].p, steps[n].tgt;
            && tgt.Keys == h[n].procs[p].j.dirty.Keys
            && MergeOutcome(h[n].disk, h[n].procs[p].j, tgt, h[n + 1].disk)
            && p < |h[n + 1].procs| && h[n + 1].procs[p].j == EMPTY_JOURNAL
            && h[n + 1].procs[p].cached == Some(h[n + 1].disk) && h[n + 1].version == h[n].version + 1
  {
    var p := steps[n].p;
    EdgesAlwaysApart(h, steps, used, n);
    DiskAlwaysSound(h, steps, n);
    assert Next(h[n], h[n + 1], steps[n]) && PendingApart(h[n].disk, UsedBy(used, steps[..n]), h[n].procs[p]);
    hide Intact, EdgesApart, MergeOutcome, NoClash, MergeWith, Resolves;
    ApartNeverClashes(h[n].disk, UsedBy(used, steps[..n]), h[n].procs[p], steps[n].tgt);
    SaveDoes(h[n], h[n + 1], p, steps[n].tgt);
  }
}
