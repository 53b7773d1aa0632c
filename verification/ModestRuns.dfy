/** Runs and histories in which no operation takes an identity another node has: no read ever meets
    a rival, so every read is the file with the journal. */
module ModestRuns {
  import opened Order
  import opened Store
  import opened Identity
  import opened Absorption
  import opened Outcome
  import opened Operations
  import opened Growth
  import opened LocalRuns
  import opened Processes

  /** The operation, reading s with its journal, takes no identity of another node. */
  ghost predicate NoneTaken(s: State, j: Journal, op: Op, r: Journal) {
    op.Upsert? ==> forall id :: UpsertsAt(Plain(s, j), j, op, r, id) ==> id in r.dirty && TakesNoOther(s, j, op, r, id)
  }

  lemma UnrivalledSame(s: State, j: Journal, r: Journal)
    requires r.dirty == j.dirty && r.deletedNodes == j.deletedNodes
    ensures Unrivalled(s, r) <==> Unrivalled(s, j)
  {
    assert DeleteFrom(s, r).nodes == DeleteFrom(s, j).nodes;
    hide DeleteFrom, Alone, LookedUp;
  }

  /** The exact condition for one operation of any kind. */
  lemma OpUnrivalledIff(s: State, j: Journal, op: Op, r: Journal)
    requires Unrivalled(s, j) && Applies(Plain(s, j), j, op, r)
    ensures Unrivalled(s, r) <==> NoneTaken(s, j, op, r)
  {
    hide Unrivalled, Plain, TakesNoOther, UpsertsAt, LinkMatches;
    match op
    case Upsert(_, _, _, _, _) =>
      forall id | UpsertsAt(Plain(s, j), j, op, r, id)
        ensures id in r.dirty && (Unrivalled(s, r) <==> TakesNoOther(s, j, op, r, id))
      {
        UpsertUnrivalledIff(s, j, op, r, id);
      }
    case RemoveNodes(ids) =>
      RemovalKeepsUnrivalled(s, j, ids);
    case _ =>
      UnrivalledSame(s, j, r);
  }

  /** A state the journal was just merged into holds no rival either. */
  lemma MergedUnrivalled(s: State, j: Journal)
    requires Unrivalled(s, j)
    ensures Unrivalled(Plain(s, j), j)
  {
    var base, left := DeleteFrom(s, j).nodes, DeleteFrom(Plain(s, j), j).nodes;
    MergedLeft(s, j);
    hide Plain, DeleteFrom, Carries, Snapshot;
    forall x | LookedUp(left, j.dirty, x) ensures Alone(left, j.dirty, x) {
      assert LookedUp(base, j.dirty, x);
      AloneInMerged(base, left, j.dirty, x);
    }
  }

  /** What the deletions leave of the merged state. */
  lemma MergedLeft(s: State, j: Journal)
    ensures var base, left := DeleteFrom(s, j).nodes, DeleteFrom(Plain(s, j), j).nodes;
            && base.Keys <= left.Keys
            && forall c :: c in left ==> if c in j.dirty then left[c] == Snapshot(c, j.dirty[c])
                                         else c in base && left[c] == base[c]
  {
    PlainNodes(s, j);
    hide Plain, Snapshot;
  }

  lemma AloneInMerged(base: map<Id, Node>, left: map<Id, Node>, dirty: map<Id, Snap>, x: Id)
    requires x in dirty && x !in left && Alone(base, dirty, x)
    requires forall c :: c in left ==> if c in dirty then left[c] == Snapshot(c, dirty[c])
                                       else c in base && left[c] == base[c]
    ensures Alone(left, dirty, x)
  {
    hide Carries, Snapshot;
  }

  lemma MergedPlain(s: State, j: Journal)
    requires Fits(s, j)
    ensures Plain(Plain(s, j), j) == Plain(s, j)
  {
    GrownRefl(s, j);
    MergeAbsorbs(s, j, j);
  }

  // ----- one process, one file

  /** Nothing pending has a rival in the file or in the cached state. */
  ghost predicate BothUnrivalled(s: State, c: State, j: Journal) {
    Unrivalled(s, j) && Unrivalled(c, j)
  }

  ghost predicate ModestStep(s: State, c: State, ops: seq<Op>, js: seq<Journal>, i: nat)
    requires i < |ops| && |js| == |ops| + 1
  {
    NoneTaken(s, js[i], ops[i], js[i + 1]) && NoneTaken(c, js[i], ops[i], js[i + 1])
  }

  lemma StepUnrivalledIff(s: State, c: State, used: set<Id>, ops: seq<Op>, js: seq<Journal>, i: nat)
    requires i < |ops| && IsRun(c, used, ops, js) && Grown(s, js[0], js[i]) && Fits(s, js[0]) && c == Plain(s, js[0])
    requires BothUnrivalled(s, c, js[i])
    ensures BothUnrivalled(s, c, js[i + 1]) <==> ModestStep(s, c, ops, js, i)
  {
    assert StepAt(c, used, ops, js, i);
    hide Unrivalled, Plain, Grown, Fits, Applies, MayRead, NoneTaken;
    var st :| MayRead(c, js[i], st) && Applies(st, js[i], ops[i], js[i + 1]);
    UnrivalledStays(c, js[i]);
    ReadIsPlain(c, js[i], st);
    MergeAbsorbs(s, js[0], js[i]);
    OpUnrivalledIff(s, js[i], ops[i], js[i + 1]);
    OpUnrivalledIff(c, js[i], ops[i], js[i + 1]);
  }

  /** In every run: no pending snapshot ever has the identity of another node exactly when no
      operation takes one. */
  lemma {:induction false} RunUnrivalledIff(s: State, c: State, used: set<Id>, ops: seq<Op>, js: seq<Journal>, n: nat)
    requires n <= |ops| && IsRun(c, used, ops, js) && MayRead(s, js[0], c)
    requires Fits(s, js[0]) && Known(used, s, js[0], js[0]) && Unrivalled(s, js[0])
    ensures |js| == |ops| + 1 && (RunUnrivalled(s, c, js, n) <==> RunModest(s, c, ops, js, n))
  {
    assert |js| == |ops| + 1;
    hide *;
    if n > 0 {
      RunUnrivalledIff(s, c, used, ops, js, n - 1);
      RunOneMore(s, c, used, ops, js, n);
    } else {
      FirstUnrivalled(s, c, ops, js);
    }
  }

  ghost predicate RunUnrivalled(s: State, c: State, js: seq<Journal>, n: nat)
    requires n < |js|
  {
    forall i :: 0 <= i <= n ==> BothUnrivalled(s, c, js[i])
  }

  ghost predicate RunModest(s: State, c: State, ops: seq<Op>, js: seq<Journal>, n: nat)
    requires n <= |ops| && |js| == |ops| + 1
  {
    forall i :: 0 <= i < n ==> ModestStep(s, c, ops, js, i)
  }

  lemma FirstUnrivalled(s: State, c: State, ops: seq<Op>, js: seq<Journal>)
    requires |js| == |ops| + 1 && MayRead(s, js[0], c) && Unrivalled(s, js[0])
    ensures RunUnrivalled(s, c, js, 0) && RunModest(s, c, ops, js, 0)
  {
    UnrivalledStays(s, js[0]);
    ReadIsPlain(s, js[0], c);
    MergedUnrivalled(s, js[0]);
    hide Unrivalled, Plain, MayRead;
  }

  lemma RunOneMore(s: State, c: State, used: set<Id>, ops: seq<Op>, js: seq<Journal>, n: nat)
    requires 0 < n <= |ops| && IsRun(c, used, ops, js) && MayRead(s, js[0], c)
    requires |js| == |ops| + 1 && Fits(s, js[0]) && Known(used, s, js[0], js[0])
    requires RunUnrivalled(s, c, js, n - 1) <==> RunModest(s, c, ops, js, n - 1)
    ensures RunUnrivalled(s, c, js, n) <==> RunModest(s, c, ops, js, n)
  {
    hide Unrivalled, Plain, Grown, Fits, MayRead, ModestStep, IsRun, Known, BothUnrivalled;
    if RunUnrivalled(s, c, js, n - 1) {
      BothGrow(s, c, used, ops, js, n - 1);
      StepUnrivalledIff(s, c, used, ops, js, n - 1);
    }
  }

  lemma BothGrow(s: State, c: State, used: set<Id>, ops: seq<Op>, js: seq<Journal>, i: nat)
    requires i < |js| && IsRun(c, used, ops, js) && MayRead(s, js[0], c)
    requires Fits(s, js[0]) && Known(used, s, js[0], js[0])
    requires forall k :: 0 <= k <= i ==> BothUnrivalled(s, c, js[k])
    ensures Grown(s, js[0], js[i]) && c == Plain(s, js[0])
  {
    hide Unrivalled, Plain, Grown, Fits, MayRead, IsRun, Known, Stays;
    forall k | 0 <= k <= i ensures Stays(s, js[k]) && Stays(c, js[k]) {
      assert BothUnrivalled(s, c, js[k]);
      UnrivalledStays(s, js[k]);
      UnrivalledStays(c, js[k]);
    }
    RunGrows(s, c, used, ops, js, i);
  }

  /** So a run whose operations take no identity of another node never meets a rival, and its reads
      through the cache and from the file agree throughout. */
  lemma ModestRunAgrees(s: State, c: State, used: set<Id>, ops: seq<Op>, js: seq<Journal>, n: nat)
    requires n <= |ops| && IsRun(c, used, ops, js) && MayRead(s, js[0], c)
    requires Fits(s, js[0]) && Known(used, s, js[0], js[0]) && Unrivalled(s, js[0])
    requires forall i :: 0 <= i < n ==> ModestStep(s, c, ops, js, i)
    ensures forall i :: 0 <= i <= n ==> NoRivals(s, c, js[i]) && Agree(s, c, js[i])
  {
    RunUnrivalledIff(s, c, used, ops, js, n);
    assert RunUnrivalled(s, c, js, n);
    hide Unrivalled, Fits, MayRead, ModestStep, IsRun, Known, Agree, Stays;
    forall i | 0 <= i <= n ensures NoRivals(s, c, js[i]) {
      assert BothUnrivalled(s, c, js[i]);
      UnrivalledStays(s, js[i]);
      UnrivalledStays(c, js[i]);
    }
    RunAgreesIff(s, c, used, ops, js, n);
  }

  // ----- any number of processes

  /** Nothing pending has a rival in the file or in a valid cache. */
  ghost predicate ProcUnrivalled(disk: State, version: nat, q: Proc) {
    Unrivalled(disk, q.j) && (q.cached.Some? && q.stamp == version ==> Unrivalled(q.cached.value, q.j))
  }

  ghost predicate AllUnrivalled(a: System) {
    forall p :: 0 <= p < |a.procs| ==> ProcUnrivalled(a.disk, a.version, a.procs[p])
  }

  /** A local operation takes no identity of another node, and a save stores none that is pending
      in another process. */
  ghost predicate Modest(a: System, b: System, step: Step) {
    && step.p < |a.procs| && |b.procs| == |a.procs|
    && match step
       case Local(p, op, st, r) =>
         && NoneTaken(a.disk, a.procs[p].j, op, r)
         && b.procs[p].cached.Some? && NoneTaken(b.procs[p].cached.value, a.procs[p].j, op, r)
       case Save(p, _) => forall q :: 0 <= q < |a.procs| && q != p ==> Unrivalled(b.disk, a.procs[q].j)
       case _ => true
  }

  lemma EmptyUnrivalled(s: State)
    ensures Unrivalled(s, EMPTY_JOURNAL)
  {
  }

  lemma ReplacedUnrivalled(a: System, p: nat, q: Proc)
    requires AllUnrivalled(a) && p < |a.procs|
    ensures AllUnrivalled(a.(procs := a.procs[p := q])) <==> ProcUnrivalled(a.disk, a.version, q)
  {
    hide ProcUnrivalled;
    var b := a.(procs := a.procs[p := q]);
    assert b.procs[p] == q;
    forall i | 0 <= i < |a.procs| && i != p ensures ProcUnrivalled(b.disk, b.version, b.procs[i]) {
      assert b.procs[i] == a.procs[i];
    }
  }

  /** After reading, the cached state is valid, holds no rival, and yields what was read. */
  lemma ReadUnrivalled(a: System, used: set<Id>, p: nat, st: State, q: Proc)
    requires SysOk(a, used) && AllUnrivalled(a) && p < |a.procs| && Reads(a, p, st, q)
    ensures Stays(ReadBase(a, p), a.procs[p].j) && st == Plain(a.disk, a.procs[p].j)
    ensures q.j == a.procs[p].j && q.cached.Some? && q.stamp == a.version && ProcUnrivalled(a.disk, a.version, q)
    ensures Plain(q.cached.value, q.j) == st
  {
    var j, base := a.procs[p].j, ReadBase(a, p);
    assert ProcUnrivalled(a.disk, a.version, a.procs[p]) && ProcOk(a.disk, a.version, used, a.procs[p]);
    hide Unrivalled, Plain, SysOk, MayRead, Fits, CacheOk, Stays;
    UnrivalledStays(base, j);
    ReadIsPlain(base, j, st);
    ReadIsMerge(a, used, p, st);
    if !CacheValid(a, p) {
      MergedUnrivalled(a.disk, j);
      MergedPlain(a.disk, j);
    }
  }

  lemma LocalUnrivalledIff(a: System, used: set<Id>, p: nat, op: Op, st: State, q: Proc, r: Journal)
    requires SysOk(a, used) && AllUnrivalled(a) && p < |a.procs| && Reads(a, p, st, q)
             && Applies(st, a.procs[p].j, op, r)
    ensures Stays(ReadBase(a, p), a.procs[p].j) && q.cached.Some?
    ensures AllUnrivalled(a.(procs := a.procs[p := q.(j := r)]))
            <==> NoneTaken(a.disk, a.procs[p].j, op, r) && NoneTaken(q.cached.value, a.procs[p].j, op, r)
  {
    ReadUnrivalled(a, used, p, st, q);
    hide Unrivalled, Plain, SysOk, Reads, Applies, NoneTaken, Stays;
    OpUnrivalledIff(a.disk, q.j, op, r);
    OpUnrivalledIff(q.cached.value, q.j, op, r);
    ReplacedUnrivalled(a, p, q.(j := r));
  }

  lemma RemovalUnrivalled(a: System, p: nat, op: Op)
    requires AllUnrivalled(a) && p < |a.procs| && IsRemoval(op)
    ensures AllUnrivalled(a.(procs := a.procs[p := a.procs[p].(j := AfterRemoval(a.procs[p].j, op))]))
  {
    var q := a.procs[p];
    var r := AfterRemoval(q.j, op);
    assert ProcUnrivalled(a.disk, a.version, q);
    hide Unrivalled, AllUnrivalled, AfterRemoval, Applies;
    RemovalUnrivalledIn(a.disk, q.j, op);
    if q.cached.Some? && q.stamp == a.version {
      RemovalUnrivalledIn(q.cached.value, q.j, op);
    }
    ReplacedUnrivalled(a, p, q.(j := r));
  }

  lemma RemovalUnrivalledIn(s: State, j: Journal, op: Op)
    requires IsRemoval(op) && Unrivalled(s, j)
    ensures Unrivalled(s, AfterRemoval(j, op))
  {
    hide Unrivalled;
    match op
    case RemoveNodes(ids) =>
      RemovalKeepsUnrivalled(s, j, ids);
    case RemoveEdges(ids) =>
      UnrivalledSame(s, j, DropEdges(j, ids));
  }

  /** A save makes all other caches invalid, so only the new file matters to the others. */
  lemma SaveUnrivalledIff(a: System, b: System, used: set<Id>, p: nat, tgt: map<Id, Id>)
    requires SysOk(a, used) && AllUnrivalled(a) && Next(a, b, Save(p, tgt))
    ensures AllUnrivalled(b) <==> Modest(a, b, Save(p, tgt))
  {
    EmptyUnrivalled(b.disk);
    hide Unrivalled, Fits, CacheOk, Resolves, MergeWith, Sound, Apart;
    forall q | 0 <= q < |a.procs| && q != p
      ensures ProcUnrivalled(b.disk, b.version, b.procs[q]) <==> Unrivalled(b.disk, a.procs[q].j)
    {
      assert ProcOk(a.disk, a.version, used, a.procs[q]) && ProcUnrivalled(a.disk, a.version, a.procs[q]);
    }
    assert ProcUnrivalled(b.disk, b.version, b.procs[p]) by {
      assert ProcUnrivalled(a.disk, a.version, a.procs[p]);
    }
  }

  lemma HistoryStepIff(a: System, b: System, used: set<Id>, step: Step)
    requires SysOk(a, used) && AllUnrivalled(a) && Next(a, b, step) && (step.Local? ==> used !! Uses(step.op))
    ensures Guarded(a, used, step) && (AllUnrivalled(b) <==> Modest(a, b, step))
  {
    hide SysOk, AllUnrivalled, Reads, Applies, Resolves, MergeWith, ReadBase, Stays, Uses, NoneTaken, AfterRemoval;
    match step
    case Read(p, st) =>
      var q :| Reads(a, p, st, q) && b == a.(procs := a.procs[p := q]);
      ReadUnrivalled(a, used, p, st, q);
      ReplacedUnrivalled(a, p, q);
    case Local(p, op, st, r) =>
      var q :| Reads(a, p, st, q) && Applies(st, a.procs[p].j, op, r) && b == a.(procs := a.procs[p := q.(j := r)]);
      LocalUnrivalledIff(a, used, p, op, st, q, r);
    case Remove(p, op) =>
      RemovalUnrivalled(a, p, op);
    case Save(p, tgt) =>
      SaveUnrivalledIff(a, b, used, p, tgt);
    case Refresh(p) =>
      if b != a {
        EmptyUnrivalled(a.disk);
        ReplacedUnrivalled(a, p, Proc(EMPTY_JOURNAL, Some(a.disk), a.version));
      }
  }

  ghost predicate UnrivalledUpto(h: seq<System>, n: nat)
    requires n < |h|
  {
    forall i :: 0 <= i <= n ==> AllUnrivalled(h[i])
  }

  ghost predicate ModestUpto(h: seq<System>, steps: seq<Step>, n: nat)
    requires n <= |steps| && |h| == |steps| + 1
  {
    forall i :: 0 <= i < n ==> Modest(h[i], h[i + 1], steps[i])
  }

  /** In every interleaving: nothing pending in any process ever has a rival exactly when no local
      operation takes an identity and no save stores one that is pending elsewhere. Then no read is
      past a rival, and every read sees the file with the reader's journal. */
  lemma {:induction false} HistoryUnrivalledIff(h: seq<System>, steps: seq<Step>, used: set<Id>, n: nat)
    requires FreshUpto(h, steps, used, n) && SysOk(h[0], used) && AllUnrivalled(h[0])
    ensures UnrivalledUpto(h, n) <==> ModestUpto(h, steps, n)
    ensures ModestUpto(h, steps, n) ==> GuardedUpto(h, steps, used, n)
  {
    hide SysOk, AllUnrivalled, Next, Modest, Guarded, Uses;
    if n > 0 {
      HistoryUnrivalledIff(h, steps, used, n - 1);
      assert UnrivalledUpto(h, n) <==> UnrivalledUpto(h, n - 1) && AllUnrivalled(h[n]);
      assert ModestUpto(h, steps, n) <==> ModestUpto(h, steps, n - 1) && Modest(h[n - 1], h[n - 1 + 1], steps[n - 1]);
      if UnrivalledUpto(h, n - 1) {
        HistoryKeepsSys(h, steps, used, n - 1);
        assert Next(h[n - 1], h[n - 1 + 1], steps[n - 1]) && AllUnrivalled(h[n - 1]);
        HistoryStepIff(h[n - 1], h[n], UsedBy(used, steps[..n - 1]), steps[n - 1]);
      }
    }
  }

  /** So in such a history every read saw the file with the reader's journal, and the next one will. */
  lemma ModestHistoryReads(h: seq<System>, steps: seq<Step>, used: set<Id>, n: nat, p: nat)
    requires FreshUpto(h, steps, used, n) && SysOk(h[0], used) && AllUnrivalled(h[0]) && ModestUpto(h, steps, n)
    requires p < |h[n].procs|
    ensures forall i :: 0 <= i < n && (steps[i].Read? || steps[i].Local?)
                        ==> && steps[i].p < |h[i].procs| && steps[i].st == Plain(h[i].disk, h[i].procs[steps[i].p].j)
                            && ReadOutcome(h[i].disk, h[i].procs[steps[i].p].j, steps[i].st)
    ensures forall st :: MayRead(ReadBase(h[n], p), h[n].procs[p].j, st) ==> st == Plain(h[n].disk, h[n].procs[p].j)
  {
    HistoryUnrivalledIff(h, steps, used, n);
    assert AllUnrivalled(h[n]) && ProcUnrivalled(h[n].disk, h[n].version, h[n].procs[p]);
    UnrivalledStays(ReadBase(h[n], p), h[n].procs[p].j);
    hide SysOk, AllUnrivalled, Next, Modest, Guarded, GuardedUpto, FreshUpto, Stays, MayRead, Plain, Unrivalled,
         ReadOutcome;
    ReadsSeeFilePlusJournal(h, steps, used, n, p);
  }
}
