/** The indexing workers of the daemon: each lock region is one step, passes share a semaphore. */
module Worker {
  import opened Order

  type File = string
  type Id = string

  datatype Config = Config(maxDirtyFiles: nat, indexIncremental: bool)

  // ----- the lock regions of one worker

  datatype Fields = Fields(pending: bool, indexing: bool, stopped: bool, dirty: set<File>, dirtyOverflow: bool)

  const IDLE := Fields(false, false, false, {}, false)

  /** What one pass works on: everything after an overflow, else the dirty files it took. */
  datatype Batch = Batch(fullIndex: bool, dirtyFiles: set<File>) {
    /** IndexRepository is called rather than IndexFiles: the pass is over everything. */
    predicate Whole() {
      fullIndex || dirtyFiles == {}
    }

    predicate Contains(f: File) {
      Whole() || f in dirtyFiles
    }
  }

  function Marked(cfg: Config, w: Fields, file: File): Fields {
    if |w.dirty| >= cfg.maxDirtyFiles then w.(dirtyOverflow := true, dirty := {})
    else w.(dirty := w.dirty + {file})
  }

  function Requested(w: Fields): Fields {
    if w.stopped then w else w.(pending := true)
  }

  /** A request starts a new goroutine unless a pass is under way or asked for. */
  predicate Starts(w: Fields) {
    !w.stopped && !w.indexing && !w.pending
  }

  function BatchOf(cfg: Config, w: Fields): Batch {
    if w.dirtyOverflow then Batch(true, {})
    else if cfg.indexIncremental then Batch(false, w.dirty)
    else Batch(false, {})
  }

  function Taken(cfg: Config, w: Fields): Fields {
    w.(dirty := if w.dirtyOverflow || cfg.indexIncremental then {} else w.dirty,
       dirtyOverflow := false, pending := false, indexing := true)
  }

  function Ended(w: Fields): Fields {
    w.(indexing := false, pending := false)
  }

  /** The members of a set, in any order. */
  method FilesIn(dirty: set<File>) returns (files: seq<File>)
    ensures Distinct(files) && Elements(files) == dirty
  {
    var todo := dirty;
    files := [];
    while todo != {}
      invariant todo <= dirty && Distinct(files) && Elements(files) == dirty - todo
      decreases |todo|
    {
      var f :| f in todo;
      todo := todo - {f};
      assert f in files ==> f in Elements(files);
      assert Elements(files + [f]) == Elements(files) + {f};
      files := files + [f];
    }
  }

  datatype EventKind = FileCreated | FileModified | FileDeleted | FileRenamed | OtherEvent

  /** `ProjectWorker`: its mutable fields and the regions that hold its lock. */
  class ProjectWorker {
    const cfg: Config
    const projectID: Id
    const indexOnChange: bool
    var pending: bool
    var indexing: bool
    var stopped: bool
    var dirty: set<File>
    var dirtyOverflow: bool

    constructor (cfg: Config, projectID: Id, indexOnChange: bool)
      ensures this.cfg == cfg && this.projectID == projectID && this.indexOnChange == indexOnChange && Now() == IDLE
    {
      this.cfg, this.projectID, this.indexOnChange := cfg, projectID, indexOnChange;
      pending, indexing, stopped, dirty, dirtyOverflow := false, false, false, {}, false;
    }

    ghost function Now(): Fields
      reads this
    {
      Fields(pending, indexing, stopped, dirty, dirtyOverflow)
    }

    method MarkDirty(file: File)
      modifies this`dirty, this`dirtyOverflow
      ensures Now() == Marked(cfg, old(Now()), file)
      ensures if |old(dirty)| >= cfg.maxDirtyFiles then dirty == {} && dirtyOverflow
              else dirty == old(dirty) + {file} && dirtyOverflow == old(dirtyOverflow)
    {
      if |dirty| >= cfg.maxDirtyFiles {
        dirtyOverflow := true;
        dirty := {};
        return;
      }
      dirty := dirty + {file};
    }

    method RunMaintenance() returns (start: bool)
      modifies this`pending
      ensures Now() == Requested(old(Now())) && start == Starts(old(Now()))
      ensures start == (!stopped && !indexing && !old(pending)) && pending == (old(pending) || !stopped)
    {
      if stopped {
        return false;
      }
      if indexing || pending {
        pending := true;
        return false;
      }
      pending := true;
      start := true;
    }

    predicate Concerns(kind: EventKind, eventProject: Id) {
      (eventProject == "" || eventProject == projectID) && kind != OtherEvent && indexOnChange
    }

    /** Without another goroutine in between: the file is marked, then a pass is asked for. */
    method OnEvent(kind: EventKind, eventProject: Id, file: File) returns (start: bool)
      modifies this`dirty, this`dirtyOverflow, this`pending
      ensures !Concerns(kind, eventProject) || old(stopped) ==> Now() == old(Now()) && !start
      ensures Concerns(kind, eventProject) && !old(stopped) ==>
        && Now() == Requested(if file == "" then old(Now()) else Marked(cfg, old(Now()), file))
        && start == Starts(old(Now()))
      ensures var heard := && !stopped && indexOnChange && kind != OtherEvent
                           && (eventProject == "" || eventProject == projectID);
              && pending == (old(pending) || heard) && start == (heard && !indexing && !old(pending))
              && if !heard || file == "" then dirty == old(dirty) && dirtyOverflow == old(dirtyOverflow)
                 else if |old(dirty)| >= cfg.maxDirtyFiles then dirty == {} && dirtyOverflow
                 else dirty == old(dirty) + {file} && dirtyOverflow == old(dirtyOverflow)
    {
      if stopped || (eventProject != "" && eventProject != projectID) {
        return false;
      }
      match kind
      case OtherEvent =>
        start := false;
      case _ =>
        start := false;
        if indexOnChange {
          if file != "" {
            MarkDirty(file);
          }
          start := RunMaintenance();
        }
    }

    method TakeBatch() returns (work: bool, fullIndex: bool, dirtyFiles: seq<File>)
      modifies this
      ensures work == old(pending) && (!work ==> Now() == old(Now()))
      ensures work ==> Now() == Taken(cfg, old(Now()))
      ensures work ==> Distinct(dirtyFiles) && Batch(fullIndex, Elements(dirtyFiles)) == BatchOf(cfg, old(Now()))
      ensures work ==> fullIndex == old(dirtyOverflow) && !dirtyOverflow && !pending && indexing
                       && stopped == old(stopped)
      ensures work ==> if old(dirtyOverflow) then dirtyFiles == [] && dirty == {}
                       else if cfg.indexIncremental then Elements(dirtyFiles) == old(dirty) && dirty == {}
                       else dirtyFiles == [] && dirty == old(dirty)
    {
      if !pending {
        return false, false, [];
      }
      work, fullIndex, dirtyFiles := true, dirtyOverflow, [];
      if fullIndex {
        dirtyOverflow := false;
        dirty := {};
      } else if cfg.indexIncremental && |dirty| > 0 {
        dirtyFiles := FilesIn(dirty);
        dirty := {};
      }
      pending := false;
      indexing := true;
    }

    method RestoreDirty(files: seq<File>)
      modifies this`dirty
      ensures Now() == old(Now()).(dirty := old(dirty) + Elements(files))
    {
      for i := 0 to |files|
        invariant dirty == old(dirty) + Elements(files[..i])
      {
        assert Elements(files[..i + 1]) == Elements(files[..i]) + {files[i]};
        dirty := dirty + {files[i]};
      }
      assert files[..|files|] == files;
    }

    method EndPass() returns (again: bool)
      modifies this`indexing, this`pending
      ensures Now() == Ended(old(Now())) && again == (old(pending) && !stopped) && !indexing && !pending
    {
      indexing := false;
      again := pending && !stopped;
      pending := false;
    }
  }

  // ----- all workers together

  /** Where a goroutine is in its loop. Waiting for a slot, indexing, and a failed batch not yet put
      back hold the batch. */
  datatype Phase = LoopTop | Waiting | Indexing | Failed | Saving | Unlocked

  predicate Holds(p: Phase) {
    p == Waiting || p == Indexing || p == Failed
  }

  predicate HasSlot(p: Phase) {
    p == Indexing || p == Failed || p == Saving
  }

  /** A goroutine in runMaintenance; `since` counts the reports made when its batch was taken. */
  datatype Pass = Pass(worker: Id, phase: Phase, batch: Batch, since: nat)

  datatype Result = Result(batch: Batch, since: nat, ok: bool)

  /** A worker with the trace of its reports and of the indexing calls that ended. */
  datatype Traced = Traced(now: Fields, reports: seq<File>, past: seq<Result>)

  datatype System = System(cfg: Config, slots: nat, workers: map<Id, Traced>, passes: map<nat, Pass>, used: nat)

  datatype Step =
    | Add(w: Id)
    | Report(w: Id, file: File)
    | Request(w: Id, g: nat)
    | Begin(g: nat)
    | Acquire(g: nat)
    | SeeStop(g: nat)
    | Index(g: nat, ok: bool)
    | PutBack(g: nat)
    | Release(g: nat)
    | End(g: nat)
    | Stop(w: Id)

  predicate At(s: System, g: nat, phase: Phase) {
    g in s.passes && s.passes[g].phase == phase && s.passes[g].worker in s.workers
  }

  predicate Enabled(s: System, t: Step) {
    match t
    case Add(w) => w !in s.workers
    case Report(w, _) => w in s.workers
    case Request(w, g) => w in s.workers && g !in s.passes
    case Begin(g) => At(s, g, LoopTop)
    case Acquire(g) => At(s, g, Waiting) && s.used < s.slots
    case SeeStop(g) => At(s, g, Waiting) && s.workers[s.passes[g].worker].now.stopped
    case Index(g, _) => At(s, g, Indexing)
    case PutBack(g) => At(s, g, Failed)
    case Release(g) => At(s, g, Saving) && s.used > 0
    case End(g) => At(s, g, Unlocked)
    case Stop(w) => w in s.workers
  }

  function SetNow(s: System, w: Id, now: Fields): System
    requires w in s.workers
  {
    s.(workers := s.workers[w := s.workers[w].(now := now)])
  }

  function Move(s: System, g: nat, phase: Phase): System
    requires g in s.passes
  {
    s.(passes := s.passes[g := s.passes[g].(phase := phase)])
  }

  function Apply(s: System, t: Step): System
    requires Enabled(s, t)
  {
    match t
    case Add(w) => s.(workers := s.workers[w := Traced(IDLE, [], [])])
    case Report(w, file) =>
      var x := s.workers[w];
      s.(workers := s.workers[w := x.(now := Marked(s.cfg, x.now, file), reports := x.reports + [file])])
    case Request(w, g) =>
      var x := s.workers[w].now;
      var r := SetNow(s, w, Requested(x));
      if Starts(x) then r.(passes := r.passes[g := Pass(w, LoopTop, Batch(false, {}), 0)]) else r
    case Begin(g) =>
      var w := s.passes[g].worker;
      var x := s.workers[w];
      if !x.now.pending then s.(passes := s.passes - {g})
      else SetNow(s, w, Taken(s.cfg, x.now)).(
           passes := s.passes[g := Pass(w, Waiting, BatchOf(s.cfg, x.now), |x.reports|)])
    case Acquire(g) => Move(s, g, Indexing).(used := s.used + 1)
    case SeeStop(g) =>
      var w := s.passes[g].worker;
      SetNow(s, w, s.workers[w].now.(indexing := false)).(passes := s.passes - {g})
    case Index(g, ok) =>
      var p := s.passes[g];
      if !ok && !p.batch.Whole() then Move(s, g, Failed)
      else
        var x := s.workers[p.worker];
        Move(s, g, Saving).(workers := s.workers[p.worker := x.(past := x.past + [Result(p.batch, p.since, ok)])])
    case PutBack(g) =>
      var p := s.passes[g];
      var x := s.workers[p.worker].now;
      SetNow(Move(s, g, Saving), p.worker, x.(dirty := x.dirty + p.batch.dirtyFiles))
    case Release(g) => Move(s, g, Unlocked).(used := s.used - 1)
    case End(g) =>
      var w := s.passes[g].worker;
      var x := s.workers[w].now;
      var r := SetNow(s, w, Ended(x));
      if x.pending && !x.stopped then Move(r, g, LoopTop) else r.(passes := r.passes - {g})
    case Stop(w) => SetNow(s, w, s.workers[w].now.(stopped := true))
  }

  /** The states of a run from the empty system. */
  ghost predicate IsRun(cfg: Config, slots: nat, steps: seq<Step>, states: seq<System>) {
    && |states| == |steps| + 1 && states[0] == System(cfg, slots, map[], map[], 0)
    && forall i :: 0 <= i < |steps| ==> Enabled(states[i], steps[i]) && states[i + 1] == Apply(states[i], steps[i])
  }

  // ----- the semaphore

  function Holders(passes: map<nat, Pass>): set<nat> {
    set g | g in passes && HasSlot(passes[g].phase)
  }

  ghost predicate SlotsCounted(s: System) {
    s.used == |Holders(s.passes)| && s.used <= s.slots
  }

  /** A step moves at most one goroutine, and counts it if it gains or loses a slot. */
  lemma StepKeepsSlots(s: System, t: Step)
    requires SlotsCounted(s) && Enabled(s, t)
    ensures SlotsCounted(Apply(s, t))
  {
    var r := Apply(s, t);
    match t
    case Add(w) =>
    case Report(w, file) =>
    case Stop(w) =>
    case Request(w, g) => MovedSlots(s, r, g);
    case Begin(g) => MovedSlots(s, r, g);
    case Acquire(g) => MovedSlots(s, r, g);
    case SeeStop(g) => MovedSlots(s, r, g);
    case Index(g, ok) => MovedSlots(s, r, g);
    case PutBack(g) => MovedSlots(s, r, g);
    case Release(g) => MovedSlots(s, r, g);
    case End(g) => MovedSlots(s, r, g);
  }

  function Slot(passes: map<nat, Pass>, g: nat): int {
    if g in passes && HasSlot(passes[g].phase) then 1 else 0
  }

  /** The number of slots used follows the one goroutine that moved. */
  lemma MovedSlots(s: System, r: System, g: nat)
    requires SlotsCounted(s) && s.passes - {g} == r.passes - {g}
    requires r.used - s.used == Slot(r.passes, g) - Slot(s.passes, g) && r.used <= r.slots
    ensures SlotsCounted(r)
  {
    var rest := Holders(s.passes - {g});
    assert Holders(r.passes) == if Slot(r.passes, g) == 1 then rest + {g} else rest by {
      HoldersWithout(r.passes, g);
    }
    assert Holders(s.passes) == if Slot(s.passes, g) == 1 then rest + {g} else rest by {
      HoldersWithout(s.passes, g);
    }
  }

  lemma HoldersWithout(passes: map<nat, Pass>, g: nat)
    ensures Holders(passes) == Holders(passes - {g}) + (if Slot(passes, g) == 1 then {g} else {})
  {
  }

  // ----- coverage

  ghost predicate Running(s: System, w: Id, n: nat, g: nat)
    requires w in s.workers && n < |s.workers[w].reports|
  {
    && g in s.passes && s.passes[g].worker == w && Holds(s.passes[g].phase)
    && s.passes[g].since > n && s.passes[g].batch.Contains(s.workers[w].reports[n])
  }

  predicate Over(x: Traced, n: nat, k: nat)
    requires n < |x.reports|
  {
    k < |x.past| && x.past[k].since > n && x.past[k].ok && x.past[k].batch.Contains(x.reports[n])
  }

  /** The n-th reported file is dirty, covered by the overflow flag, held by a pass that took its
      batch after the report, or such a pass indexed it. */
  ghost predicate Kept(s: System, w: Id, n: nat)
    requires w in s.workers && n < |s.workers[w].reports|
  {
    var x := s.workers[w];
    || x.reports[n] in x.now.dirty
    || x.now.dirtyOverflow
    || (exists g :: Running(s, w, n, g))
    || (exists k :: Over(x, n, k))
  }

  /** Something other than the pass of goroutine g keeps the report. */
  ghost predicate KeptBesides(s: System, w: Id, n: nat, g: nat)
    requires w in s.workers && n < |s.workers[w].reports|
  {
    var x := s.workers[w];
    || x.reports[n] in x.now.dirty
    || x.now.dirtyOverflow
    || (exists h :: h != g && Running(s, w, n, h))
    || (exists k :: Over(x, n, k))
  }

  /** A pass over everything fails while it alone keeps the report. */
  ghost predicate Loses(s: System, t: Step, w: Id, n: nat)
    requires w in s.workers && n < |s.workers[w].reports|
  {
    t.Index? && !t.ok && Running(s, w, n, t.g) && s.passes[t.g].batch.Whole() && !KeptBesides(s, w, n, t.g)
  }

  lemma PastStays(x: Traced, y: Traced, n: nat)
    requires n < |x.reports| && x.reports <= y.reports && x.past <= y.past
    ensures forall k: nat :: Over(x, n, k) ==> Over(y, n, k)
  {
    forall k: nat | Over(x, n, k) ensures Over(y, n, k) {
      assert y.past[k] == x.past[k];
    }
  }

  /** A report stays kept if what kept it waiting or held it still does, or leads to something that does. */
  lemma StaysKept(s: System, r: System, w: Id, n: nat)
    requires w in s.workers && w in r.workers && n < |s.workers[w].reports| && Kept(s, w, n)
    requires s.workers[w].reports <= r.workers[w].reports && s.workers[w].past <= r.workers[w].past
    requires s.workers[w].reports[n] in s.workers[w].now.dirty || s.workers[w].now.dirtyOverflow ==> Kept(r, w, n)
    requires forall g :: Running(s, w, n, g) ==> Kept(r, w, n)
    ensures Kept(r, w, n)
  {
    PastStays(s.workers[w], r.workers[w], n);
  }

  lemma StillRunning(s: System, r: System, w: Id, n: nat, g: nat)
    requires w in s.workers && w in r.workers && n < |s.workers[w].reports|
    requires s.workers[w].reports <= r.workers[w].reports
    requires Running(s, w, n, g) && g in r.passes && r.passes[g].worker == w && r.passes[g].batch == s.passes[g].batch
    requires r.passes[g].since == s.passes[g].since && Holds(r.passes[g].phase)
    ensures Kept(r, w, n)
  {
    assert Running(r, w, n, g);
  }

  /** A step that moves goroutine g of the worker and keeps everything else the report may hang on. */
  lemma OthersHold(s: System, r: System, w: Id, n: nat, g: nat)
    requires w in s.workers && w in r.workers && n < |s.workers[w].reports| && Kept(s, w, n)
    requires s.workers[w].reports <= r.workers[w].reports && s.workers[w].past <= r.workers[w].past
    requires s.workers[w].reports[n] in s.workers[w].now.dirty || s.workers[w].now.dirtyOverflow ==> Kept(r, w, n)
    requires s.passes - {g} == r.passes - {g}
    requires Running(s, w, n, g) ==> Kept(r, w, n)
    ensures Kept(r, w, n)
  {
    hide Kept;
    forall h | Running(s, w, n, h) ensures Kept(r, w, n) {
      if h != g {
        assert h in s.passes - {g};
        assert (s.passes - {g})[h] == (r.passes - {g})[h];
        StillRunning(s, r, w, n, h);
      }
    }
    StaysKept(s, r, w, n);
  }

  lemma SamePasses(s: System, r: System, w: Id, n: nat)
    requires w in s.workers && w in r.workers && n < |s.workers[w].reports| && Kept(s, w, n)
    requires s.workers[w].reports <= r.workers[w].reports && s.workers[w].past <= r.workers[w].past
    requires s.workers[w].reports[n] in s.workers[w].now.dirty || s.workers[w].now.dirtyOverflow ==> Kept(r, w, n)
    requires s.passes == r.passes
    ensures Kept(r, w, n)
  {
    hide Kept;
    forall h | Running(s, w, n, h) ensures Kept(r, w, n) {
      StillRunning(s, r, w, n, h);
    }
    StaysKept(s, r, w, n);
  }

  /** Only batches of single files fail in a way that puts them back. */
  ghost predicate FailedArePartial(s: System) {
    forall g :: g in s.passes && s.passes[g].phase == Failed ==> !s.passes[g].batch.Whole()
  }

  lemma StepKeepsPartial(s: System, t: Step)
    requires FailedArePartial(s) && Enabled(s, t)
    ensures FailedArePartial(Apply(s, t))
  {
  }

  /** The worker a step is about. */
  function WorkerOf(s: System, t: Step): Id
    requires Enabled(s, t)
  {
    match t
    case Add(w) => w
    case Report(w, _) => w
    case Request(w, _) => w
    case Stop(w) => w
    case Begin(g) => s.passes[g].worker
    case Acquire(g) => s.passes[g].worker
    case SeeStop(g) => s.passes[g].worker
    case Index(g, _) => s.passes[g].worker
    case PutBack(g) => s.passes[g].worker
    case Release(g) => s.passes[g].worker
    case End(g) => s.passes[g].worker
  }

  /** A report of the file keeps every waiting report waiting. */
  lemma ReportKeeps(s: System, w: Id, file: File, n: nat)
    requires Enabled(s, Report(w, file)) && n < |Apply(s, Report(w, file)).workers[w].reports|
    requires n < |s.workers[w].reports| ==> Kept(s, w, n)
    ensures Kept(Apply(s, Report(w, file)), w, n)
  {
    var r := Apply(s, Report(w, file));
    if n < |s.workers[w].reports| {
      assert r.workers[w].reports[n] == s.workers[w].reports[n];
      SamePasses(s, r, w, n);
    }
  }

  /** A pass that takes its batch takes every waiting report, or leaves it in `dirty`. */
  lemma BeginKeeps(s: System, g: nat, w: Id, n: nat)
    requires Enabled(s, Begin(g)) && w == s.passes[g].worker && n < |s.workers[w].reports| && Kept(s, w, n)
    ensures Kept(Apply(s, Begin(g)), w, n)
  {
    var r := Apply(s, Begin(g));
    var x := s.workers[w];
    assert !Running(s, w, n, g);
    if x.now.pending && (x.reports[n] in x.now.dirty || x.now.dirtyOverflow) {
      if x.now.dirtyOverflow || s.cfg.indexIncremental {
        assert Running(r, w, n, g);
      }
    }
    OthersHold(s, r, w, n, g);
  }

  lemma IndexKeeps(s: System, g: nat, ok: bool, w: Id, n: nat)
    requires Enabled(s, Index(g, ok)) && w == s.passes[g].worker && n < |s.workers[w].reports| && Kept(s, w, n)
    requires !Loses(s, Index(g, ok), w, n)
    ensures Kept(Apply(s, Index(g, ok)), w, n)
  {
    var r := Apply(s, Index(g, ok));
    var p := s.passes[g];
    if Running(s, w, n, g) {
      if !ok && !p.batch.Whole() {
        StillRunning(s, r, w, n, g);
      } else if ok {
        var k := |s.workers[w].past|;
        assert r.workers[w].past[k] == Result(p.batch, p.since, ok);
        assert Over(r.workers[w], n, k);
      } else {
        KeptByOthers(s, r, w, n, g);
      }
    }
    OthersHold(s, r, w, n, g);
  }

  /** What other passes, the flags and the past keep, they still keep. */
  lemma KeptByOthers(s: System, r: System, w: Id, n: nat, g: nat)
    requires w in s.workers && w in r.workers && n < |s.workers[w].reports| && KeptBesides(s, w, n, g)
    requires r.workers[w].reports == s.workers[w].reports && r.workers[w].now == s.workers[w].now
    requires s.workers[w].past <= r.workers[w].past && s.passes - {g} == r.passes - {g}
    ensures Kept(r, w, n)
  {
    PastStays(s.workers[w], r.workers[w], n);
    if h :| h != g && Running(s, w, n, h) {
      assert h in s.passes - {g};
      assert (s.passes - {g})[h] == (r.passes - {g})[h];
      StillRunning(s, r, w, n, h);
    }
  }

  /** A failed pass over everything that alone kept the report leaves nothing behind. */
  lemma LosesIt(s: System, t: Step, w: Id, n: nat)
    requires Enabled(s, t) && w in s.workers && n < |s.workers[w].reports| && Loses(s, t, w, n)
    ensures !Kept(Apply(s, t), w, n)
  {
    var r := Apply(s, t);
    var x, y := s.workers[w], r.workers[w];
    assert y.past == x.past + [Result(s.passes[t.g].batch, s.passes[t.g].since, false)];
    forall k: nat ensures !Over(y, n, k) {
      assert !Over(x, n, k);
    }
    forall h ensures !Running(r, w, n, h) {
      assert h != t.g ==> !Running(s, w, n, h);
    }
  }

  lemma MoveKeeps(s: System, t: Step, w: Id, n: nat)
    requires Enabled(s, t) && (t.Request? || t.Acquire? || t.PutBack? || t.Release? || t.End?) && FailedArePartial(s)
    requires w == WorkerOf(s, t) && n < |s.workers[w].reports| && Kept(s, w, n)
    ensures Kept(Apply(s, t), w, n)
  {
    var r := Apply(s, t);
    if t.Acquire? && Running(s, w, n, t.g) {
      StillRunning(s, r, w, n, t.g);
    }
    OthersHold(s, r, w, n, t.g);
  }

  /** A step of another worker. */
  lemma ElsewhereKeeps(s: System, t: Step, w: Id, n: nat)
    requires Enabled(s, t) && w in s.workers && w != WorkerOf(s, t) && n < |s.workers[w].reports| && Kept(s, w, n)
    ensures Apply(s, t).workers[w] == s.workers[w] && Kept(Apply(s, t), w, n)
  {
    var r := Apply(s, t);
    assert r.workers[w] == s.workers[w];
    if t.Add? || t.Report? || t.Stop? {
      SamePasses(s, r, w, n);
    } else {
      assert s.passes - {t.g} == r.passes - {t.g};
      hide Apply;
      OthersHold(s, r, w, n, t.g);
    }
  }

  lemma NewWorkers(s: System, t: Step, w: Id)
    requires Enabled(s, t)
    ensures w in Apply(s, t).workers && w !in s.workers ==> Apply(s, t).workers[w].reports == []
    ensures w in s.workers ==> w in Apply(s, t).workers
                               && (s.workers[w].now.stopped ==> Apply(s, t).workers[w].now.stopped)
  {
  }

  /** A new report is kept. */
  lemma ReportIsKept(s: System, w: Id, file: File)
    requires w in s.workers
    ensures var r := Apply(s, Report(w, file)); w in r.workers && Kept(r, w, |s.workers[w].reports|)
  {
  }

  lemma StepKeeps(s: System, t: Step, w: Id, n: nat)
    requires Enabled(s, t) && w in s.workers && FailedArePartial(s) && !Apply(s, t).workers[w].now.stopped
    requires n < |s.workers[w].reports| && Kept(s, w, n) && !Loses(s, t, w, n)
    ensures n < |Apply(s, t).workers[w].reports| && Kept(Apply(s, t), w, n)
  {
    hide Kept, Loses;
    if w != WorkerOf(s, t) {
      assert Apply(s, t).workers[w] == s.workers[w];
      ElsewhereKeeps(s, t, w, n);
    } else {
      match t
      case Report(_, file) => ReportKeeps(s, w, file, n);
      case Begin(g) => BeginKeeps(s, g, w, n);
      case Index(g, ok) => IndexKeeps(s, g, ok, w, n);
      case Request(_, _) => MoveKeeps(s, t, w, n);
      case Acquire(_) => MoveKeeps(s, t, w, n);
      case PutBack(_) => MoveKeeps(s, t, w, n);
      case Release(_) => MoveKeeps(s, t, w, n);
      case End(_) => MoveKeeps(s, t, w, n);
      case _ =>
    }
  }

  /** A step loses a kept report of a running worker exactly when it is the failure of a pass over
      everything that alone kept it. */
  lemma StepKeepsIff(s: System, t: Step, w: Id, n: nat)
    requires Enabled(s, t) && w in s.workers && FailedArePartial(s) && !Apply(s, t).workers[w].now.stopped
    requires n < |s.workers[w].reports| && Kept(s, w, n)
    ensures n < |Apply(s, t).workers[w].reports| && (Kept(Apply(s, t), w, n) <==> !Loses(s, t, w, n))
  {
    hide Kept, Apply, Enabled;
    if Loses(s, t, w, n) {
      SameReports(s, t, w);
      LosesIt(s, t, w, n);
    } else {
      StepKeeps(s, t, w, n);
    }
  }

  lemma SameReports(s: System, t: Step, w: Id)
    requires Enabled(s, t) && w in s.workers
    ensures w in Apply(s, t).workers && s.workers[w].reports <= Apply(s, t).workers[w].reports
    ensures |Apply(s, t).workers[w].reports| <= |s.workers[w].reports| + 1
    ensures |Apply(s, t).workers[w].reports| > |s.workers[w].reports| ==> t.Report? && t.w == w
  {
  }

  /** A lost report is kept again by a report of the same file, by an overflow, by a pass over
      everything, or when a failed pass puts the file back. */
  ghost predicate Regains(s: System, t: Step, w: Id, n: nat)
    requires Enabled(s, t) && w in s.workers && n < |s.workers[w].reports|
  {
    var x := s.workers[w];
    match t
    case Report(v, file) => v == w && (|x.now.dirty| >= s.cfg.maxDirtyFiles || file == x.reports[n])
    case Begin(g) => s.passes[g].worker == w && x.now.pending && BatchOf(s.cfg, x.now).Whole()
    case PutBack(g) => s.passes[g].worker == w && x.reports[n] in s.passes[g].batch.dirtyFiles
    case _ => false
  }

  /** A lost report stays lost until one of these. */
  lemma RegainsIff(s: System, t: Step, w: Id, n: nat)
    requires Enabled(s, t) && w in s.workers && n < |s.workers[w].reports| && !Kept(s, w, n)
    ensures w in Apply(s, t).workers && n < |Apply(s, t).workers[w].reports|
    ensures Kept(Apply(s, t), w, n) <==> Regains(s, t, w, n)
  {
    SameReports(s, t, w);
    if Regains(s, t, w, n) {
      if t.Begin? {
        assert Running(Apply(s, t), w, n, t.g);
      }
    } else {
      NotOver(s, t, w, n);
      NotRunning(s, t, w, n);
      NotDirty(s, t, w, n);
      hide Apply, Enabled, Running, Over;
    }
  }

  lemma NotDirty(s: System, t: Step, w: Id, n: nat)
    requires Enabled(s, t) && w in s.workers && n < |s.workers[w].reports| && !Kept(s, w, n) && !Regains(s, t, w, n)
    ensures w in Apply(s, t).workers && n < |Apply(s, t).workers[w].reports|
    ensures var y := Apply(s, t).workers[w]; y.reports[n] !in y.now.dirty && !y.now.dirtyOverflow
  {
    SameReports(s, t, w);
    hide Running, Over;
  }

  lemma NotRunning(s: System, t: Step, w: Id, n: nat)
    requires Enabled(s, t) && w in s.workers && n < |s.workers[w].reports| && !Kept(s, w, n) && !Regains(s, t, w, n)
    ensures w in Apply(s, t).workers && n < |Apply(s, t).workers[w].reports|
    ensures forall g :: !Running(Apply(s, t), w, n, g)
  {
    SameReports(s, t, w);
    hide Over;
    forall g ensures !Running(Apply(s, t), w, n, g) {
      assert !Running(s, w, n, g);
    }
  }

  lemma NotOver(s: System, t: Step, w: Id, n: nat)
    requires Enabled(s, t) && w in s.workers && n < |s.workers[w].reports| && !Kept(s, w, n)
    ensures w in Apply(s, t).workers && n < |Apply(s, t).workers[w].reports|
    ensures forall k: nat :: !Over(Apply(s, t).workers[w], n, k)
  {
    SameReports(s, t, w);
    var x, y := s.workers[w], Apply(s, t).workers[w];
    assert x.past <= y.past && |y.past| <= |x.past| + 1;
    forall k: nat ensures !Over(y, n, k) {
      assert !Over(x, n, k);
      if k == |x.past| && k < |y.past| {
        assert !Running(s, w, n, t.g);
      }
    }
  }

  // ----- whole runs

  ghost predicate Safe(s: System) {
    SlotsCounted(s) && FailedArePartial(s)
  }

  lemma StepKeepsSafe(s: System, t: Step)
    requires Safe(s) && Enabled(s, t)
    ensures Safe(Apply(s, t))
  {
    StepKeepsSlots(s, t);
    StepKeepsPartial(s, t);
  }

  /** In every interleaving at most `slots` passes hold a slot, and only partial batches are put back. */
  lemma {:induction false} RunIsSafe(cfg: Config, slots: nat, steps: seq<Step>, states: seq<System>, i: nat)
    requires IsRun(cfg, slots, steps, states) && i < |states|
    ensures Safe(states[i]) && states[i].slots == slots && |Holders(states[i].passes)| <= slots
    decreases i
  {
    if i == 0 {
      assert Holders(map[]) == {};
    } else {
      RunIsSafe(cfg, slots, steps, states, i - 1);
      assert Enabled(states[i - 1], steps[i - 1]);
      StepKeepsSafe(states[i - 1], steps[i - 1]);
    }
  }

  lemma NextInRun(cfg: Config, slots: nat, steps: seq<Step>, states: seq<System>, i: nat, w: Id)
    requires IsRun(cfg, slots, steps, states) && i < |steps|
    ensures Enabled(states[i], steps[i]) && states[i + 1] == Apply(states[i], steps[i]) && Safe(states[i])
    ensures w in states[i].workers ==> w in states[i + 1].workers
                                       && states[i].workers[w].reports <= states[i + 1].workers[w].reports
                                       && (states[i].workers[w].now.stopped ==> states[i + 1].workers[w].now.stopped)
  {
    RunIsSafe(cfg, slots, steps, states, i);
    assert Enabled(states[i], steps[i]) && states[i + 1] == Apply(states[i], steps[i]);
    NewWorkers(states[i], steps[i], w);
    if w in states[i].workers {
      SameReports(states[i], steps[i], w);
    }
  }

  /** The worker and its report are there all along. */
  ghost predicate There(s: System, w: Id, n: nat) {
    w in s.workers && n < |s.workers[w].reports|
  }

  ghost predicate KeptFrom(states: seq<System>, w: Id, n: nat, from: nat, till: nat)
    requires till < |states|
  {
    forall k :: from <= k <= till ==> There(states[k], w, n) && Kept(states[k], w, n)
  }

  ghost predicate NeverLost(states: seq<System>, steps: seq<Step>, w: Id, n: nat, from: nat, till: nat)
    requires till <= |steps| && |states| == |steps| + 1
  {
    forall k :: from <= k < till && There(states[k], w, n) ==> !Loses(states[k], steps[k], w, n)
  }

  /** In every interleaving a report of a running worker stays kept exactly as long as no pass over
      everything fails that alone keeps it. */
  lemma {:induction false} KeptIff(cfg: Config, slots: nat, steps: seq<Step>, states: seq<System>, w: Id, n: nat,
                                   from: nat, till: nat)
    requires IsRun(cfg, slots, steps, states) && from <= till < |states| && There(states[from], w, n)
             && Kept(states[from], w, n)
    requires w in states[till].workers && !states[till].workers[w].now.stopped
    ensures There(states[till], w, n)
    ensures KeptFrom(states, w, n, from, till) <==> NeverLost(states, steps, w, n, from, till)
    decreases till
  {
    hide *;
    RunLength(cfg, slots, steps, states);
    if from == till {
      KeptAtFirst(states, steps, w, n, from);
    } else {
      NotStoppedBefore(cfg, slots, steps, states, w, n, from, till);
      KeptIff(cfg, slots, steps, states, w, n, from, till - 1);
      LastStepIff(states, steps, w, n, from, till);
    }
  }

  lemma KeptAtFirst(states: seq<System>, steps: seq<Step>, w: Id, n: nat, from: nat)
    requires |states| == |steps| + 1 && from <= |steps| && There(states[from], w, n) && Kept(states[from], w, n)
    ensures KeptFrom(states, w, n, from, from) && NeverLost(states, steps, w, n, from, from)
  {
    hide Kept, Loses;
  }

  lemma NotStoppedBefore(cfg: Config, slots: nat, steps: seq<Step>, states: seq<System>, w: Id, n: nat, from: nat,
                         till: nat)
    requires IsRun(cfg, slots, steps, states) && from < till < |states| && There(states[from], w, n)
    requires w in states[till].workers && !states[till].workers[w].now.stopped
    ensures |states| == |steps| + 1 && There(states[till - 1], w, n) && There(states[till], w, n)
    ensures w in states[till - 1].workers && !states[till - 1].workers[w].now.stopped
    ensures Enabled(states[till - 1], steps[till - 1]) && states[till] == Apply(states[till - 1], steps[till - 1])
    ensures Safe(states[till - 1])
  {
    hide *;
    RunLength(cfg, slots, steps, states);
    AllThere(cfg, slots, steps, states, w, n, from, till - 1);
    AllThere(cfg, slots, steps, states, w, n, from, till);
    IsThere(states[till - 1], w, n);
    var i := till - 1;
    NextInRun(cfg, slots, steps, states, i, w);
    assert i + 1 == till;
  }

  lemma RunLength(cfg: Config, slots: nat, steps: seq<Step>, states: seq<System>)
    requires IsRun(cfg, slots, steps, states)
    ensures |states| == |steps| + 1
  {
    hide Enabled, Apply;
  }

  lemma IsThere(s: System, w: Id, n: nat)
    requires There(s, w, n)
    ensures w in s.workers
  {
  }

  lemma LastStepIff(states: seq<System>, steps: seq<Step>, w: Id, n: nat, from: nat, till: nat)
    requires from < till < |states| && |states| == |steps| + 1 && There(states[till - 1], w, n)
             && There(states[till], w, n)
    requires Enabled(states[till - 1], steps[till - 1]) && states[till] == Apply(states[till - 1], steps[till - 1])
    requires Safe(states[till - 1]) && !states[till].workers[w].now.stopped
    requires KeptFrom(states, w, n, from, till - 1) <==> NeverLost(states, steps, w, n, from, till - 1)
    ensures KeptFrom(states, w, n, from, till) <==> NeverLost(states, steps, w, n, from, till)
  {
    hide Kept, Loses, Apply, Enabled, Safe;
    if Kept(states[till - 1], w, n) {
      SafeIsPartial(states[till - 1]);
      StepKeepsIff(states[till - 1], steps[till - 1], w, n);
    }
  }

  lemma SafeIsPartial(s: System)
    requires Safe(s)
    ensures FailedArePartial(s)
  {
  }

  lemma {:induction false} AllThere(cfg: Config, slots: nat, steps: seq<Step>, states: seq<System>, w: Id, n: nat,
                                    from: nat, till: nat)
    requires IsRun(cfg, slots, steps, states) && from <= till < |states| && There(states[from], w, n)
    ensures There(states[till], w, n)
    decreases till
  {
    if from < till {
      assert |states| == |steps| + 1;
      hide IsRun, There;
      AllThere(cfg, slots, steps, states, w, n, from, till - 1);
      ThereNext(cfg, slots, steps, states, w, n, till - 1);
    }
  }

  lemma ThereNext(cfg: Config, slots: nat, steps: seq<Step>, states: seq<System>, w: Id, n: nat, i: nat)
    requires IsRun(cfg, slots, steps, states) && i < |steps| && There(states[i], w, n)
    ensures There(states[i + 1], w, n)
  {
    NextInRun(cfg, slots, steps, states, i, w);
    hide IsRun, Apply, Enabled, Safe;
    var before, after := states[i].workers[w].reports, states[i + 1].workers[w].reports;
    assert before <= after;
  }

  predicate WholeFailed(x: Traced) {
    exists k :: 0 <= k < |x.past| && x.past[k].batch.Whole() && !x.past[k].ok
  }

  /** As long as no pass over everything fails, every report waits, is held, or has been indexed since. */
  lemma {:induction false} NothingLost(cfg: Config, slots: nat, steps: seq<Step>, states: seq<System>, i: nat, w: Id,
                                       n: nat)
    requires IsRun(cfg, slots, steps, states) && i < |states| && There(states[i], w, n)
    requires !states[i].workers[w].now.stopped && !WholeFailed(states[i].workers[w])
    ensures Kept(states[i], w, n)
    decreases i
  {
    if i > 0 {
      NextInRun(cfg, slots, steps, states, i - 1, w);
      var s, t := states[i - 1], steps[i - 1];
      EarlierPast(s, t, w);
      SafeIsPartial(s);
      if There(s, w, n) {
        NothingLost(cfg, slots, steps, states, i - 1, w, n);
        LossIsInPast(s, t, w, n);
        StepKeepsIff(s, t, w, n);
      } else {
        FirstReport(s, t, w, n);
      }
    }
  }

  lemma EarlierPast(s: System, t: Step, w: Id)
    requires Enabled(s, t) && w in Apply(s, t).workers
    ensures w in s.workers && WholeFailed(s.workers[w]) ==> WholeFailed(Apply(s, t).workers[w])
  {
    if w in s.workers && WholeFailed(s.workers[w]) {
      var x, y := s.workers[w], Apply(s, t).workers[w];
      var k :| 0 <= k < |x.past| && x.past[k].batch.Whole() && !x.past[k].ok;
      assert y.past[k] == x.past[k];
    }
  }

  lemma LossIsInPast(s: System, t: Step, w: Id, n: nat)
    requires Enabled(s, t) && There(s, w, n) && w in Apply(s, t).workers
    ensures Loses(s, t, w, n) ==> WholeFailed(Apply(s, t).workers[w])
  {
    if Loses(s, t, w, n) {
      var y := Apply(s, t).workers[w];
      assert y.past[|y.past| - 1] == Result(s.passes[t.g].batch, s.passes[t.g].since, false);
    }
  }

  lemma FirstReport(s: System, t: Step, w: Id, n: nat)
    requires Enabled(s, t) && !There(s, w, n) && There(Apply(s, t), w, n)
    ensures Kept(Apply(s, t), w, n)
  {
    NewWorkers(s, t, w);
    if w in s.workers {
      SameReports(s, t, w);
      ReportIsKept(s, w, t.file);
    }
  }

  // ----- what the code does not promise

  /** The flag that asks for another pass is cleared before it is looked at: the goroutine ends. */
  lemma AgainDoesNotLoop(s: System, g: nat)
    requires Enabled(s, End(g)) && Enabled(Apply(s, End(g)), Begin(g))
    ensures s.workers[s.passes[g].worker].now.pending
    ensures g !in Apply(Apply(s, End(g)), Begin(g)).passes
  {
  }

  /** Some run leads to the state. */
  ghost predicate Reachable(s: System) {
    exists steps, states :: IsRun(s.cfg, s.slots, steps, states) && states[|steps|] == s
  }

  lemma ReachNext(s: System, t: Step)
    requires Reachable(s) && Enabled(s, t)
    ensures Reachable(Apply(s, t))
  {
    var steps, states :| IsRun(s.cfg, s.slots, steps, states) && states[|steps|] == s;
    var more, reached := steps + [t], states + [Apply(s, t)];
    assert Apply(s, t).cfg == s.cfg && Apply(s, t).slots == s.slots;
    hide Enabled, Apply;
    forall i | 0 <= i < |more| ensures Enabled(reached[i], more[i]) && reached[i + 1] == Apply(reached[i], more[i]) {
      assert i < |steps| ==> Enabled(states[i], steps[i]) && states[i + 1] == Apply(states[i], steps[i]);
    }
    assert IsRun(s.cfg, s.slots, more, reached);
  }

  /** One worker, at most one goroutine. */
  function Single(cfg: Config, now: Fields, reports: seq<File>, past: seq<Result>, passes: map<nat, Pass>,
                  used: nat): System
  {
    System(cfg, 1, map["p" := Traced(now, reports, past)], passes, used)
  }

  lemma ReachSingle(cfg: Config)
    ensures Reachable(Single(cfg, IDLE, [], [], map[], 0))
  {
    var s := System(cfg, 1, map[], map[], 0);
    assert IsRun(s.cfg, s.slots, [], [s]);
    ReachNext(s, Add("p"));
  }

  /** A single worker's pass goes through: waiting, indexing, saving, unlocked. */
  lemma ReachPass(cfg: Config, now: Fields, reports: seq<File>, past: seq<Result>, b: Batch, since: nat, ok: bool)
    requires Reachable(Single(cfg, now, reports, past, map[0 := Pass("p", Waiting, b, since)], 0)) && (ok || b.Whole())
    ensures Reachable(Single(cfg, now, reports, past + [Result(b, since, ok)], map[0 := Pass("p", Unlocked, b, since)],
                             0))
  {
    var s := Single(cfg, now, reports, past, map[0 := Pass("p", Waiting, b, since)], 0);
    ReachNext(s, Acquire(0));
    var s1 := Single(cfg, now, reports, past, map[0 := Pass("p", Indexing, b, since)], 1);
    assert Apply(s, Acquire(0)) == s1;
    ReachNext(s1, Index(0, ok));
    var s2 := Single(cfg, now, reports, past + [Result(b, since, ok)], map[0 := Pass("p", Saving, b, since)], 1);
    assert Apply(s1, Index(0, ok)) == s2;
    ReachNext(s2, Release(0));
    var s3 := Single(cfg, now, reports, past + [Result(b, since, ok)], map[0 := Pass("p", Unlocked, b, since)], 0);
    assert Apply(s2, Release(0)) == s3;
  }

  /** The last step of a pass, with or without a request meanwhile: the goroutine is gone. */
  lemma ReachEnd(cfg: Config, now: Fields, reports: seq<File>, past: seq<Result>, b: Batch, since: nat)
    requires Reachable(Single(cfg, now, reports, past, map[0 := Pass("p", Unlocked, b, since)], 0)) && !now.stopped
    ensures Reachable(Single(cfg, Ended(now), reports, past, map[], 0))
  {
    var s := Single(cfg, now, reports, past, map[0 := Pass("p", Unlocked, b, since)], 0);
    ReachNext(s, End(0));
    if now.pending {
      var s1 := Single(cfg, Ended(now), reports, past, map[0 := Pass("p", LoopTop, b, since)], 0);
      assert Apply(s, End(0)) == s1;
      ReachNext(s1, Begin(0));
      assert Apply(s1, Begin(0)) == Single(cfg, Ended(now), reports, past, map[], 0);
    } else {
      assert Apply(s, End(0)) == Single(cfg, Ended(now), reports, past, map[], 0);
    }
  }

  lemma ReachReport(cfg: Config, now: Fields, reports: seq<File>, passes: map<nat, Pass>, file: File)
    requires Reachable(Single(cfg, now, reports, [], passes, 0))
    ensures Reachable(Single(cfg, Marked(cfg, now, file), reports + [file], [], passes, 0))
  {
    var s := Single(cfg, now, reports, [], passes, 0);
    ReachNext(s, Report("p", file));
    assert Apply(s, Report("p", file)) == Single(cfg, Marked(cfg, now, file), reports + [file], [], passes, 0);
  }

  /** A requested pass takes its batch. */
  lemma ReachBegin(cfg: Config, now: Fields, reports: seq<File>)
    requires Reachable(Single(cfg, now, reports, [], map[], 0)) && Starts(now)
    ensures Reachable(Single(cfg, Taken(cfg, now), reports, [],
                             map[0 := Pass("p", Waiting, BatchOf(cfg, now), |reports|)], 0))
  {
    var s := Single(cfg, now, reports, [], map[], 0);
    ReachNext(s, Request("p", 0));
    var s1 := Single(cfg, Requested(now), reports, [], map[0 := Pass("p", LoopTop, Batch(false, {}), 0)], 0);
    assert Apply(s, Request("p", 0)) == s1;
    ReachNext(s1, Begin(0));
    assert Apply(s1, Begin(0))
        == Single(cfg, Taken(cfg, now), reports, [], map[0 := Pass("p", Waiting, BatchOf(cfg, now), |reports|)], 0);
  }

  /** A request during a pass only sets the flag. */
  lemma ReachRequest(cfg: Config, now: Fields, reports: seq<File>, passes: map<nat, Pass>, g: nat)
    requires Reachable(Single(cfg, now, reports, [], passes, 0)) && now.indexing && !now.stopped && g !in passes
    ensures Reachable(Single(cfg, now.(pending := true), reports, [], passes, 0))
  {
    var s := Single(cfg, now, reports, [], passes, 0);
    ReachNext(s, Request("p", g));
    assert Apply(s, Request("p", g)) == Single(cfg, now.(pending := true), reports, [], passes, 0);
  }

  /** A failed pass over everything puts nothing back: the reports behind an overflow are gone. */
  lemma FailedFullPassLoses() returns (s: System)
    ensures Reachable(s) && s.workers.Keys == {"p"} && s.workers["p"].reports == ["a", "b"]
            && !s.workers["p"].now.stopped
    ensures !Kept(s, "p", 0) && !Kept(s, "p", 1) && s.passes == map[]
  {
    var cfg := Config(1, true);
    var full, busy, b := Fields(false, false, false, {}, true), Fields(false, true, false, {}, false), Batch(true, {});
    hide Reachable;
    ReachOverflow();
    ReachBegin(cfg, full, ["a", "b"]);
    assert Taken(cfg, full) == busy && BatchOf(cfg, full) == b;
    ReachPass(cfg, busy, ["a", "b"], [], b, 2, false);
    ReachEnd(cfg, busy, ["a", "b"], [] + [Result(b, 2, false)], b, 2);
    s := Single(cfg, Ended(busy), ["a", "b"], [] + [Result(b, 2, false)], map[], 0);
  }

  /** With room for one file, the second report overflows. */
  lemma ReachOverflow()
    ensures Reachable(Single(Config(1, true), Fields(false, false, false, {}, true), ["a", "b"], [], map[], 0))
  {
    var cfg := Config(1, true);
    hide Reachable;
    ReachSingle(cfg);
    ReachReport(cfg, IDLE, [], map[], "a");
    var one := Fields(false, false, false, {"a"}, false);
    assert Marked(cfg, IDLE, "a") == one && [] + ["a"] == ["a"];
    ReachReport(cfg, one, ["a"], map[], "b");
    assert ["a"] + ["b"] == ["a", "b"];
  }

  /** A report made during a pass can be left waiting with no goroutine and no request pending. */
  lemma ReportDuringPassWaits() returns (s: System)
    ensures Reachable(s) && s.workers.Keys == {"p"} && s.passes == map[]
    ensures s.workers["p"].now == Fields(false, false, false, {"b"}, false) && s.workers["p"].reports == ["a", "b"]
  {
    var cfg := Config(10, true);
    hide Reachable;
    ReachSingle(cfg);
    ReachReport(cfg, IDLE, [], map[], "a");
    var one := Fields(false, false, false, {"a"}, false);
    assert Marked(cfg, IDLE, "a") == one && [] + ["a"] == ["a"];
    ReachBegin(cfg, one, ["a"]);
    var b, busy := Batch(false, {"a"}), Fields(false, true, false, {}, false);
    assert Taken(cfg, one) == busy && BatchOf(cfg, one) == b;
    var at := map[0 := Pass("p", Waiting, b, 1)];
    ReachReport(cfg, busy, ["a"], at, "b");
    var two := Fields(false, true, false, {"b"}, false);
    assert Marked(cfg, busy, "b") == two && ["a"] + ["b"] == ["a", "b"];
    ReachRequest(cfg, two, ["a", "b"], at, 1);
    var asked := Fields(true, true, false, {"b"}, false);
    ReachPass(cfg, asked, ["a", "b"], [], b, 1, true);
    ReachEnd(cfg, asked, ["a", "b"], [] + [Result(b, 1, true)], b, 1);
    s := Single(cfg, Ended(asked), ["a", "b"], [] + [Result(b, 1, true)], map[], 0);
  }
}
