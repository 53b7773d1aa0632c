/** When saving keeps at most one stored node per identity, and how two come about. */
module SavedIdentities {
  import opened Order
  import opened Store
  import opened Identity
  import opened Absorption
  import opened Operations
  import opened LocalRuns
  import opened Processes
  import opened SavedNodes

  predicate New(base: map<Id, Node>, dirty: map<Id, Snap>, x: Id) {
    x in dirty && x !in base
  }

  /** A new snapshot carries its own identity and none of the others; it may also be identified by
      its own id or not at all. */
  ghost predicate NewIdentified(keys: set<Key>, x: Id, snap: Snap) {
    && x != ""
    && (KeyOf(snap) in keys || snap.identity == map[] || Get(snap.identity, "id") == Text(x))
    && forall k :: k in keys ==> (Bears(Snapshot(x, snap), k) <==> k == KeyOf(snap))
  }

  /** A stored node with a pending change keeps the identities it has, and a stored node that has
      the identity of a new snapshot has no other. */
  ghost predicate StoredIdentified(keys: set<Key>, base: map<Id, Node>, dirty: map<Id, Snap>) {
    && (forall c, k :: c in base && c in dirty && k in keys
                       ==> (Bears(Snapshot(c, dirty[c]), k) <==> Bears(base[c], k)))
    && (forall c, x, k :: c in base && New(base, dirty, x) && k in keys && Bears(base[c], KeyOf(dirty[x]))
                          && Bears(base[c], k)
                          ==> k == KeyOf(dirty[x]))
  }

  /** A journal of identified snapshots, as far as the identities `keys` are concerned. */
  ghost predicate Identified(keys: set<Key>, base: map<Id, Node>, dirty: map<Id, Snap>) {
    && (forall k :: k in keys ==> Proper(k))
    && (forall x :: New(base, dirty, x) ==> NewIdentified(keys, x, dirty[x]))
    && StoredIdentified(keys, base, dirty)
  }

  ghost predicate Stored(base: map<Id, Node>, k: Key) {
    exists c :: c in base && Bears(base[c], k)
  }

  /** Each identity with two or more new snapshots has a stored node that is not deleted. */
  ghost predicate Covered(keys: set<Key>, base: map<Id, Node>, dirty: map<Id, Snap>) {
    forall x, y :: New(base, dirty, x) && New(base, dirty, y) && x != y && KeyOf(dirty[x]) == KeyOf(dirty[y])
                   && KeyOf(dirty[x]) in keys
                   ==> Stored(base, KeyOf(dirty[x]))
  }

  // ----- a save of identified snapshots

  /** Only a stored node can be a rival: one that bears the identity of the new snapshot. */
  lemma RivalIsStored(keys: set<Key>, base: map<Id, Node>, dirty: map<Id, Snap>, x: Id, c: Id)
    requires Identified(keys, base, dirty) && OwnIds(base) && LookedUp(base, dirty, x) && KeyOf(dirty[x]) in keys
    ensures Rival(base, dirty, x, c) <==> c in base && Bears(base[c], KeyOf(dirty[x]))
  {
    hide Proper, Earlier, KnowIds;
    if c !in base && c in dirty && Bears(Snapshot(c, dirty[c]), KeyOf(dirty[x])) {
      NewNeverEarlier(keys, base, dirty, x, c);
    }
  }

  lemma NewNeverEarlier(keys: set<Key>, base: map<Id, Node>, dirty: map<Id, Snap>, x: Id, c: Id)
    requires Identified(keys, base, dirty) && LookedUp(base, dirty, x) && KeyOf(dirty[x]) in keys
    requires New(base, dirty, c) && Bears(Snapshot(c, dirty[c]), KeyOf(dirty[x]))
    ensures !Earlier(base, dirty, c, x)
  {
    hide Bears, Proper;
    assert NewIdentified(keys, c, dirty[c]) && KeyOf(dirty[c]) == KeyOf(dirty[x]);
    assert SharesIndex(base, dirty, c, x);
  }

  /** A snapshot that is identified by its own id has no rival. */
  lemma OwnIdNoRival(base: map<Id, Node>, dirty: map<Id, Snap>, x: Id, c: Id)
    requires OwnIds(base) && LookedUp(base, dirty, x) && Get(dirty[x].identity, "id") == Text(x)
    ensures !Rival(base, dirty, x, c)
  {
    assert SharesIndex(base, dirty, x, x);
    assert "id" in dirty[x].identity && dirty[x].identity["id"] == Text(x);
  }

  ghost predicate MovesToStored(keys: set<Key>, base: map<Id, Node>, dirty: map<Id, Snap>, x: Id) {
    New(base, dirty, x) && KeyOf(dirty[x]) in keys && Stored(base, KeyOf(dirty[x]))
  }

  lemma MovesIff(keys: set<Key>, base: map<Id, Node>, dirty: map<Id, Snap>, x: Id)
    requires Identified(keys, base, dirty) && OwnIds(base)
    ensures Moves(base, dirty, x) <==> MovesToStored(keys, base, dirty, x)
  {
    hide Bears, Rival, StoredIdentified, OwnIds;
    assert New(base, dirty, x) ==> NewIdentified(keys, x, dirty[x]);
    if LookedUp(base, dirty, x) {
      forall c ensures Rival(base, dirty, x, c)
                       <==> KeyOf(dirty[x]) in keys && c in base && Bears(base[c], KeyOf(dirty[x])) {
        if KeyOf(dirty[x]) in keys {
          RivalIsStored(keys, base, dirty, x, c);
        } else {
          OwnIdNoRival(base, dirty, x, c);
        }
      }
    }
  }

  /** What moves has its own identity only, and a stored node of it to land on. */
  lemma RivalFacts(keys: set<Key>, base: map<Id, Node>, dirty: map<Id, Snap>, x: Id, c: Id)
    requires Identified(keys, base, dirty) && OwnIds(base) && LookedUp(base, dirty, x) && Rival(base, dirty, x, c)
    ensures c in base && KeyOf(dirty[x]) in keys && Bears(base[c], KeyOf(dirty[x]))
    ensures BearsOnly(keys, Snapshot(x, dirty[x]), KeyOf(dirty[x]))
  {
    hide Bears, Proper, StoredIdentified, OwnIds, Rival;
    assert Moves(base, dirty, x);
    MovesIff(keys, base, dirty, x);
    RivalIsStored(keys, base, dirty, x, c);
    assert NewIdentified(keys, x, dirty[x]);
  }

  /** So a save of identified snapshots into a file without duplicates is an orderly one. */
  lemma IdentifiedOrderly(keys: set<Key>, base: map<Id, Node>, dirty: map<Id, Snap>)
    requires Identified(keys, base, dirty) && OwnIds(base) && Unique(keys, base)
    ensures Orderly(keys, base, dirty)
  {
    hide Bears, Rival, Proper, OwnIds, BearsOnly;
    forall x, c | LookedUp(base, dirty, x) && Rival(base, dirty, x, c)
      ensures c in base && KeyOf(dirty[x]) in keys && Bears(base[c], KeyOf(dirty[x]))
      ensures BearsOnly(keys, Snapshot(x, dirty[x]), KeyOf(dirty[x]))
    {
      RivalFacts(keys, base, dirty, x, c);
    }
    assert "" !in dirty by {
      IdentifiedNames(keys, base, dirty);
    }
    assert OneIdentityEach(base, dirty) by {
      RivalsApart(keys, base, dirty);
    }
    assert MoversIdentified(keys, base, dirty) by {
      assert forall x :: LookedUp(base, dirty, x) ==> NewIdentified(keys, x, dirty[x]);
    }
  }

  lemma IdentifiedNames(keys: set<Key>, base: map<Id, Node>, dirty: map<Id, Snap>)
    requires Identified(keys, base, dirty) && OwnIds(base)
    ensures "" !in dirty
  {
    hide Bears, StoredIdentified, KnowIds;
    assert New(base, dirty, "") ==> NewIdentified(keys, "", dirty[""]);
  }

  lemma RivalsApart(keys: set<Key>, base: map<Id, Node>, dirty: map<Id, Snap>)
    requires Identified(keys, base, dirty)
    requires forall x, c :: LookedUp(base, dirty, x) && Rival(base, dirty, x, c)
                            ==> c in base && Bears(base[c], KeyOf(dirty[x])) && KeyOf(dirty[x]) in keys
    ensures OneIdentityEach(base, dirty)
  {
    hide Bears, Rival, Proper, NewIdentified;
    forall x, y, c | LookedUp(base, dirty, x) && LookedUp(base, dirty, y) && Rival(base, dirty, x, c)
                     && Rival(base, dirty, y, c)
      ensures KeyOf(dirty[x]) == KeyOf(dirty[y])
    {
      assert New(base, dirty, x);
    }
  }

  /** Stored nodes end with the identities they have, new ones that stay with their own. */
  lemma EndBears(keys: set<Key>, base: map<Id, Node>, dirty: map<Id, Snap>, n: Id, k: Key)
    requires Identified(keys, base, dirty) && OwnIds(base) && Unique(keys, base) && n in Overlaid(base, dirty)
             && k in keys
    ensures n in base ==> (Bears(EndOf(base, dirty, n), k) <==> Bears(base[n], k))
    ensures n !in base ==> n in dirty && (Bears(EndOf(base, dirty, n), k) <==> k == KeyOf(dirty[n]))
  {
    var end := EndOf(base, dirty, n);
    hide Bears, Rival, Proper, OwnIds;
    if x :| Overwrites(base, dirty, x, n) && end == Snapshot(x, dirty[x]) {
      assert Moves(base, dirty, x);
      MovesIff(keys, base, dirty, x);
      RivalIsStored(keys, base, dirty, x, n);
    } else {
      assert n !in base ==> NewIdentified(keys, n, dirty[n]);
    }
  }

  lemma EndsUniqueIff(keys: set<Key>, base: map<Id, Node>, dirty: map<Id, Snap>)
    requires Identified(keys, base, dirty) && OwnIds(base) && Unique(keys, base)
    ensures Unique(keys, Ends(base, dirty)) <==> Covered(keys, base, dirty)
  {
    var ends := Ends(base, dirty);
    EndKeys(base, dirty);
    EndsAt(base, dirty);
    hide *;
    forall n ensures Moves(base, dirty, n) <==> MovesToStored(keys, base, dirty, n) {
      MovesIff(keys, base, dirty, n);
    }
    forall n, k | n in ends && k in keys
      ensures n in base ==> (Bears(ends[n], k) <==> Bears(base[n], k))
      ensures n !in base ==> n in dirty && (Bears(ends[n], k) <==> k == KeyOf(dirty[n]))
    {
      EndBears(keys, base, dirty, n, k);
    }
    CoveredIff(keys, base, dirty, ends);
  }

  lemma EndsAt(base: map<Id, Node>, dirty: map<Id, Snap>)
    ensures forall n :: n in Ends(base, dirty)
                        ==> n in Overlaid(base, dirty) && Ends(base, dirty)[n] == EndOf(base, dirty, n)
  {
    hide EndOf, Overlaid, Moves;
  }

  /** Two nodes of one identity: where the second can come from. */
  lemma CoveredIff(keys: set<Key>, base: map<Id, Node>, dirty: map<Id, Snap>, ends: map<Id, Node>)
    requires Unique(keys, base)
    requires forall n :: n in ends <==> (n in base || n in dirty)
                                        && !MovesToStored(keys, base, dirty, n)
    requires forall n, k :: n in ends && k in keys && n in base ==> (Bears(ends[n], k) <==> Bears(base[n], k))
    requires forall n, k :: n in ends && k in keys && n !in base ==> (Bears(ends[n], k) <==> k == KeyOf(dirty[n]))
    ensures Unique(keys, ends) <==> Covered(keys, base, dirty)
  {
    hide Bears;
    if Covered(keys, base, dirty) {
      forall k, x, y | k in keys && x in ends && y in ends && Bears(ends[x], k) && Bears(ends[y], k) ensures x == y {
        assert x in base || KeyOf(dirty[x]) == k;
        assert y in base || KeyOf(dirty[y]) == k;
      }
    } else {
      var x, y :| New(base, dirty, x) && New(base, dirty, y) && x != y && KeyOf(dirty[x]) == KeyOf(dirty[y])
                  && KeyOf(dirty[x]) in keys && !Stored(base, KeyOf(dirty[x]));
      assert x in ends && y in ends;
      assert Bears(ends[x], KeyOf(dirty[x])) && Bears(ends[y], KeyOf(dirty[x]));
    }
  }

  /** A save of identified snapshots leaves at most one node per identity exactly when every
      identity with two or more new snapshots has a stored node that is not deleted. */
  lemma SaveKeepsUniqueIff(keys: set<Key>, s: State, j: Journal, tgt: map<Id, Id>)
    requires OwnIds(s.nodes) && Unique(keys, s.nodes)
    requires Identified(keys, DeleteFrom(s, j).nodes, j.dirty) && Resolves(s, j, tgt)
    ensures Unique(keys, MergeWith(s, j, tgt).nodes) <==> Covered(keys, DeleteFrom(s, j).nodes, j.dirty)
    ensures OwnIds(MergeWith(s, j, tgt).nodes)
  {
    var base := DeleteFrom(s, j).nodes;
    FewerNodes(keys, s.nodes, base);
    hide *;
    IdentifiedNames(keys, base, j.dirty);
    IdentifiedOrderly(keys, base, j.dirty);
    EndsUniqueIff(keys, base, j.dirty);
    SaveUniqueIff(keys, s, j, tgt);
    SaveKeepsOwnIds(s, j, tgt);
  }

  /** Nothing is saved under the empty id, and every saved node knows its id. */
  lemma SaveKeepsOwnIds(s: State, j: Journal, tgt: map<Id, Id>)
    requires OwnIds(s.nodes) && "" !in j.dirty && Resolves(s, j, tgt)
    ensures tgt.Keys == j.dirty.Keys && OwnIds(MergeWith(s, j, tgt).nodes)
  {
    var base, order := DeleteFrom(s, j).nodes, Listing(j.dirty.Keys);
    assert OwnIds(base);
    hide Carries, BuiltAt, WriteAll, KnowIds, DeleteFrom;
    ListingMembers(j.dirty.Keys);
    WriteAllKnowsIds(base, order, j.dirty, tgt);
    WriteAllKeys(base, order, j.dirty, tgt);
    forall x | x in order ensures tgt[x] != "" {
      var k :| 0 <= k < |order| && order[k] == x;
      assert ResolvedAt(base, order, j.dirty, tgt, k);
    }
  }

  lemma FewerNodes(keys: set<Key>, nodes: map<Id, Node>, some: map<Id, Node>)
    requires OwnIds(nodes) && Unique(keys, nodes) && forall n :: n in some ==> n in nodes && some[n] == nodes[n]
    ensures OwnIds(some) && Unique(keys, some)
  {
    hide Bears, Get;
  }

  // ----- in every history

  ghost predicate Saves(a: System, step: Step) {
    step.Save? && step.p < |a.procs| && a.procs[step.p].j != EMPTY_JOURNAL
  }

  /** The stored nodes a save leaves where they are, and the pending ones. */
  ghost function SaveBase(a: System, step: Step): map<Id, Node>
    requires Saves(a, step)
  {
    DeleteFrom(a.disk, a.procs[step.p].j).nodes
  }

  ghost function SaveDirty(a: System, step: Step): map<Id, Snap>
    requires Saves(a, step)
  {
    a.procs[step.p].j.dirty
  }

  ghost predicate SavesOrderly(keys: set<Key>, a: System, step: Step) {
    Saves(a, step) ==> Orderly(keys, SaveBase(a, step), SaveDirty(a, step))
  }

  /** No two nodes end with one identity, read off the file and the journal before the save. */
  ghost predicate SavesUnique(keys: set<Key>, a: System, step: Step) {
    Saves(a, step) ==> Unique(keys, Ends(SaveBase(a, step), SaveDirty(a, step)))
  }

  ghost predicate SavesIdentified(keys: set<Key>, a: System, step: Step) {
    Saves(a, step) ==> Identified(keys, SaveBase(a, step), SaveDirty(a, step))
  }

  ghost predicate SavesCovered(keys: set<Key>, a: System, step: Step) {
    Saves(a, step) ==> Covered(keys, SaveBase(a, step), SaveDirty(a, step))
  }

  ghost predicate UniqueUpto(keys: set<Key>, h: seq<System>, n: nat)
    requires n < |h|
  {
    forall i :: 0 <= i <= n ==> Unique(keys, h[i].disk.nodes)
  }

  lemma StepUniqueIff(keys: set<Key>, a: System, b: System, step: Step)
    requires Next(a, b, step) && Unique(keys, a.disk.nodes) && SavesOrderly(keys, a, step)
    ensures Unique(keys, b.disk.nodes) <==> SavesUnique(keys, a, step)
  {
    hide Unique, Orderly, Ends, Reads, Applies, ResolvedAt, MergeWith;
    if Saves(a, step) {
      SaveUniqueIff(keys, a.disk, a.procs[step.p].j, step.tgt);
    }
  }

  /** In every interleaving of orderly saves, the file never holds two nodes of one identity exactly
      when in no save two nodes end with one. */
  lemma {:induction false} DiskUniqueIff(keys: set<Key>, h: seq<System>, steps: seq<Step>, n: nat)
    requires IsHistory(h, steps) && n < |h| && Unique(keys, h[0].disk.nodes)
    requires forall i :: 0 <= i < n ==> SavesOrderly(keys, h[i], steps[i])
    ensures UniqueUpto(keys, h, n) <==> forall i :: 0 <= i < n ==> SavesUnique(keys, h[i], steps[i])
  {
    hide Unique, SavesOrderly, SavesUnique, Next;
    if n > 0 {
      DiskUniqueIff(keys, h, steps, n - 1);
      assert Next(h[n - 1], h[n - 1 + 1], steps[n - 1]);
      assert UniqueUpto(keys, h, n) <==> UniqueUpto(keys, h, n - 1) && Unique(keys, h[n].disk.nodes);
      if UniqueUpto(keys, h, n - 1) {
        StepUniqueIff(keys, h[n - 1], h[n], steps[n - 1]);
      }
    }
  }

  lemma StepCoveredIff(keys: set<Key>, a: System, b: System, step: Step)
    requires Next(a, b, step) && OwnIds(a.disk.nodes) && Unique(keys, a.disk.nodes) && SavesIdentified(keys, a, step)
    ensures OwnIds(b.disk.nodes) && (Unique(keys, b.disk.nodes) <==> SavesCovered(keys, a, step))
  {
    hide OwnIds, Unique, Identified, Covered, Reads, Applies, ResolvedAt, MergeWith;
    if Saves(a, step) {
      SaveKeepsUniqueIff(keys, a.disk, a.procs[step.p].j, step.tgt);
    }
  }

  ghost predicate CoveredUpto(keys: set<Key>, h: seq<System>, steps: seq<Step>, n: nat)
    requires n <= |steps| && n < |h|
  {
    forall i :: 0 <= i < n ==> SavesCovered(keys, h[i], steps[i])
  }

  /** In every interleaving in which the saved snapshots are identified, the file never holds two
      nodes of one identity exactly when every save covers its repeated identities. */
  lemma {:induction false} DiskIdentitiesUniqueIff(keys: set<Key>, h: seq<System>, steps: seq<Step>, n: nat)
    requires IsHistory(h, steps) && n < |h| && OwnIds(h[0].disk.nodes) && Unique(keys, h[0].disk.nodes)
    requires forall i :: 0 <= i < n ==> SavesIdentified(keys, h[i], steps[i])
    ensures UniqueUpto(keys, h, n) <==> CoveredUpto(keys, h, steps, n)
    ensures UniqueUpto(keys, h, n) ==> OwnIds(h[n].disk.nodes)
  {
    hide OwnIds, Unique, SavesIdentified, SavesCovered, Next;
    if n > 0 {
      DiskIdentitiesUniqueIff(keys, h, steps, n - 1);
      assert Next(h[n - 1], h[n - 1 + 1], steps[n - 1]);
      assert UniqueUpto(keys, h, n) <==> UniqueUpto(keys, h, n - 1) && Unique(keys, h[n].disk.nodes);
      assert CoveredUpto(keys, h, steps, n)
             <==> CoveredUpto(keys, h, steps, n - 1) && SavesCovered(keys, h[n - 1], steps[n - 1]);
      if UniqueUpto(keys, h, n - 1) {
        StepCoveredIff(keys, h[n - 1], h[n], steps[n - 1]);
      }
    }
  }

  // ----- a rename that takes a stored name

  const NAMED_N := Key("Module", BY_NAME)
  const MODULES := State(BOTH, map[])

  lemma RenameHits(st: State, j: Journal, now: Value)
    requires st.nodes == BOTH && Applies(st, EMPTY_JOURNAL, Rename("a", "N", now), j)
    ensures j == UpsertExisting(st, EMPTY_JOURNAL, Rename("a", "N", now), "a")
  {
    var op := Rename("a", "N", now);
    var id :| UpsertsAt(st, EMPTY_JOURNAL, op, j, id);
    assert op.identity["id"] == Text("a") && Named("b", "N")["id"] == Text("b");
    assert Carries(st.nodes["a"], op.kind, op.identity);
    hide UpsertExisting;
    assert id == "a";
  }

  lemma RenamedBears(st: State, j: Journal, now: Value)
    requires st.nodes == BOTH && j == UpsertExisting(st, EMPTY_JOURNAL, Rename("a", "N", now), "a")
    ensures j.dirty.Keys == {"a"} && j.deletedNodes == {} && Bears(Snapshot("a", j.dirty["a"]), NAMED_N)
  {
    var props := j.dirty["a"].props;
    assert props["name"] == Text("N") && props["project_id"] == Text("p");
  }

  lemma NamesDiffer()
    ensures Unique({NAMED_N}, BOTH) && Bears(BOTH["b"], NAMED_N)
  {
    assert BY_NAME["name"] == Text("N") && Named("a", "M")["name"] == Text("M");
  }

  /** Modules "a" and "b" are stored under the names M and N. Renaming "a" to N and saving leaves two
      modules N, although the file had one of each and no snapshot is new or moves. */
  lemma RenameDuplicates(st: State, j: Journal, now: Value, tgt: map<Id, Id>)
    requires MayRead(MODULES, EMPTY_JOURNAL, st) && Applies(st, EMPTY_JOURNAL, Rename("a", "N", now), j)
    requires Resolves(MODULES, j, tgt)
    ensures Unique({NAMED_N}, MODULES.nodes) && Covered({NAMED_N}, DeleteFrom(MODULES, j).nodes, j.dirty)
    ensures Stays(MODULES, j) && !Unique({NAMED_N}, MergeWith(MODULES, j, tgt).nodes)
  {
    NamesDiffer();
    EmptyRead(MODULES, st);
    hide MayRead, Applies, Resolves, MergeWith, Bears, UpsertExisting;
    RenameHits(st, j, now);
    RenamedBears(st, j, now);
    NothingDeleted(MODULES, j);
    hide DeleteFrom, Unique;
    TwoNames(j.dirty);
    UnmovedUniqueIff({NAMED_N}, MODULES, j, tgt);
  }

  lemma TwoNames(dirty: map<Id, Snap>)
    requires dirty.Keys == {"a"} && Bears(Snapshot("a", dirty["a"]), NAMED_N)
    ensures Covered({NAMED_N}, BOTH, dirty) && !Unique({NAMED_N}, Overlaid(BOTH, dirty))
  {
    NamesDiffer();
    hide Bears;
    var after := Overlaid(BOTH, dirty);
    assert after["a"] == Snapshot("a", dirty["a"]) && after["b"] == BOTH["b"];
  }

  lemma EmptyRead(s: State, st: State)
    requires MayRead(s, EMPTY_JOURNAL, st)
    ensures st == s
  {
    StaysNothing(s);
    MergeEmpty(s);
    hide MayRead, Stays;
    ReadIsPlain(s, EMPTY_JOURNAL, st);
  }

  lemma StaysNothing(s: State)
    ensures Stays(s, EMPTY_JOURNAL)
  {
  }

  // ----- two nodes of one identity, step by step

  const TITLE: Props := map["title" := Text("t")]
  const TITLED := Key("Memory", TITLE)
  const NOTHING := State(map[], map[])
  const IDLE := Proc(EMPTY_JOURNAL, Some(NOTHING), 0)

  function Note(id: Id): Op {
    Upsert("Memory", TITLE, map[], id, Nil)
  }

  function Noted(id: Id): Journal {
    UpsertNew(EMPTY_JOURNAL, Note(id))
  }

  lemma NotedHas(id: Id)
    ensures Noted(id) != EMPTY_JOURNAL && Noted(id).dirty.Keys == {id}
            && Noted(id) == EMPTY_JOURNAL.(dirty := Noted(id).dirty)
    ensures KeyOf(Noted(id).dirty[id]) == TITLED && Bears(Snapshot(id, Noted(id).dirty[id]), TITLED)
  {
    assert NewProps(Note(id))["title"] == Text("t");
    assert id in Noted(id).dirty;
  }

  lemma NoteNew(st: State, id: Id)
    requires forall c :: c in st.nodes ==> !Bears(st.nodes[c], TITLED)
    ensures Applies(st, EMPTY_JOURNAL, Note(id), Noted(id))
  {
    assert UpsertsAt(st, EMPTY_JOURNAL, Note(id), Noted(id), id);
  }

  lemma ReadNothing(s: State)
    ensures MayRead(s, EMPTY_JOURNAL, s)
  {
    var st := SomeRead(s, EMPTY_JOURNAL);
    EmptyRead(s, st);
  }

  lemma LocalNext(a: System, p: nat, op: Op, st: State, q: Proc, r: Journal)
    requires p < |a.procs| && Reads(a, p, st, q) && Applies(st, a.procs[p].j, op, r) && !IsRemoval(op)
    ensures Next(a, a.(procs := a.procs[p := q.(j := r)]), Local(p, op, st, r))
  {
    hide Reads, Applies;
  }

  /** A process that has nothing pending and a valid cache notes the title under a new id. */
  lemma IdleNotes(a: System, p: nat, id: Id)
    requires p < |a.procs| && a.procs[p] == IDLE && a.version == 0
    ensures Next(a, a.(procs := a.procs[p := IDLE.(j := Noted(id))]), Local(p, Note(id), NOTHING, Noted(id)))
  {
    ReadNothing(NOTHING);
    NoteNew(NOTHING, id);
    hide MayRead, Applies, Noted;
    assert Reads(a, p, NOTHING, IDLE);
    LocalNext(a, p, Note(id), NOTHING, IDLE, Noted(id));
  }

  lemma SavedNote(tgt: map<Id, Id>)
    requires Resolves(NOTHING, Noted("a"), tgt)
    ensures var d := MergeWith(NOTHING, Noted("a"), tgt);
            d.nodes.Keys == {"a"} && Bears(d.nodes["a"], TITLED) && OwnIds(d.nodes)
  {
    NotedHas("a");
    var j := Noted("a");
    hide Noted, Carries, ResolvedAt;
    assert DeleteFrom(NOTHING, j).nodes == map[];
    assert Unrivalled(NOTHING, j);
    UnrivalledStays(NOTHING, j);
    hide Stays, Unrivalled, MergeWith;
    StaysIsPlain(NOTHING, j, tgt);
    PlainNodes(NOTHING, j);
    assert Plain(NOTHING, j).nodes.Keys == {"a"};
    assert Plain(NOTHING, j).nodes["a"] == Snapshot("a", j.dirty["a"]);
  }

  ghost predicate TwoPending(j: Journal) {
    && j.dirty.Keys == {"a", "b"} && j.deletedNodes == {}
    && forall x :: x in j.dirty ==> KeyOf(j.dirty[x]) == TITLED && Bears(Snapshot(x, j.dirty[x]), TITLED)
  }

  /** The first process's note lands on the saved one, so its next upsert by title hits that node
      and leaves two pending snapshots of one identity. */
  lemma SecondUpsert(d: State, v: State) returns (j: Journal)
    requires d.nodes.Keys == {"a"} && Bears(d.nodes["a"], TITLED) && OwnIds(d.nodes) && MayRead(d, Noted("b"), v)
    ensures Applies(v, Noted("b"), Note("x"), j) && TwoPending(j)
  {
    NotedHas("b");
    ReadHas(d, v);
    hide MayRead, Noted, NewProps;
    j := UpsertExisting(v, Noted("b"), Note("x"), "a");
    assert UpsertsAt(v, Noted("b"), Note("x"), j, "a");
    assert j.dirty["a"].props["title"] == Text("t");
  }

  lemma NotedIdentified(base: map<Id, Node>)
    requires base.Keys <= {"a"}
    ensures Identified({TITLED}, base, Noted("b").dirty)
  {
    NotedHas("b");
    hide Noted, Carries;
    assert "title" in TITLE;
  }

  lemma ReadHas(d: State, v: State)
    requires d.nodes.Keys == {"a"} && Bears(d.nodes["a"], TITLED) && OwnIds(d.nodes) && MayRead(d, Noted("b"), v)
    ensures "a" in v.nodes && Bears(v.nodes["a"], TITLED)
  {
    NotedHas("b");
    var j, base := Noted("b"), DeleteFrom(d, Noted("b")).nodes;
    assert base == d.nodes && Unique({TITLED}, base) && "a" in Overlaid(base, j.dirty);
    NotedIdentified(base);
    EndKeys(base, j.dirty);
    EndBears({TITLED}, base, j.dirty, "a", TITLED);
    IdentifiedOrderly({TITLED}, base, j.dirty);
    hide Bears, ResolvedAt, Noted, Identified, OwnIds, Orderly, Overlaid, EndOf, MergeWith, Unique, Moves;
    var tgt :| Resolves(d, j, tgt) && v == MergeWith(d, j, tgt);
    SaveEndsAs({TITLED}, d, j, tgt);
  }

  lemma SaveNext(a: System, p: nat, tgt: map<Id, Id>)
    requires p < |a.procs| && a.procs[p].j != EMPTY_JOURNAL && Resolves(a.disk, a.procs[p].j, tgt)
    ensures var d := MergeWith(a.disk, a.procs[p].j, tgt);
            Next(a, System(d, a.version + 1, a.procs[p := Proc(EMPTY_JOURNAL, Some(d), a.version + 1)]), Save(p, tgt))
  {
    hide ResolvedAt, MergeWith;
  }

  /** Reading a changed file makes the merged state the cache; then the upsert is journalled. */
  lemma MissNext(a: System, p: nat, op: Op, st: State, r: Journal)
    requires p < |a.procs| && !CacheValid(a, p) && MayRead(a.disk, a.procs[p].j, st)
    requires Applies(st, a.procs[p].j, op, r) && !IsRemoval(op)
    ensures Next(a, a.(procs := a.procs[p := Proc(r, Some(st), a.version)]), Local(p, op, st, r))
  {
    hide MayRead, Applies;
    assert Reads(a, p, st, Proc(a.procs[p].j, Some(st), a.version));
    LocalNext(a, p, op, st, Proc(a.procs[p].j, Some(st), a.version), r);
  }

  const GONE := DropNodes(EMPTY_JOURNAL, {"a"})

  lemma SavedGone(d: State, tgt: map<Id, Id>)
    requires d.nodes.Keys == {"a"} && Resolves(d, GONE, tgt)
    ensures GONE != EMPTY_JOURNAL && MergeWith(d, GONE, tgt).nodes == map[]
  {
    assert "a" in GONE.deletedNodes && GONE.dirty == map[];
    assert Stays(d, GONE);
    assert DeleteFrom(d, GONE).nodes == map[] && Snapshots(GONE) == map[];
    hide Stays, ResolvedAt;
    StaysIsPlain(d, GONE, tgt);
    PlainNodes(d, GONE);
  }

  /** Once the node both were for is gone, saving the two snapshots stores two nodes. */
  lemma SavedTwice(d: State, j: Journal, tgt: map<Id, Id>)
    requires d.nodes == map[] && j.dirty.Keys == {"a", "b"} && Resolves(d, j, tgt)
    requires forall x :: x in j.dirty ==> KeyOf(j.dirty[x]) == TITLED && Bears(Snapshot(x, j.dirty[x]), TITLED)
    ensures !Unique({TITLED}, MergeWith(d, j, tgt).nodes)
  {
    assert DeleteFrom(d, j).nodes == map[];
    TwoUncovered(j.dirty);
    assert OwnIds(d.nodes) && Unique({TITLED}, d.nodes);
    hide Carries, Resolves, MergeWith, Unique, Covered, Identified, DeleteFrom;
    SaveKeepsUniqueIff({TITLED}, d, j, tgt);
  }

  lemma TwoUncovered(dirty: map<Id, Snap>)
    requires dirty.Keys == {"a", "b"}
    requires forall x :: x in dirty ==> KeyOf(dirty[x]) == TITLED && Bears(Snapshot(x, dirty[x]), TITLED)
    ensures Identified({TITLED}, map[], dirty) && !Covered({TITLED}, map[], dirty)
  {
    assert "title" in TITLE;
    hide Carries;
    assert New(map[], dirty, "a") && New(map[], dirty, "b") && !Stored(map[], TITLED);
  }

  lemma Extend(h: seq<System>, steps: seq<Step>, b: System, step: Step)
    requires IsHistory(h, steps) && Next(h[|h| - 1], b, step)
    ensures IsHistory(h + [b], steps + [step])
  {
    hide Next;
    var g, more := h + [b], steps + [step];
    forall i | 0 <= i < |more| ensures Next(g[i], g[i + 1], more[i]) {
      if i < |steps| {
        assert Next(h[i], h[i + 1], steps[i]);
      }
    }
  }

  const START := System(NOTHING, 0, [IDLE, IDLE])

  lemma BothWrite() returns (h: seq<System>, steps: seq<Step>)
    ensures IsHistory(h, steps) && |h| == 3 && h[0] == START
    ensures h[2] == System(NOTHING, 0, [IDLE.(j := Noted("b")), IDLE.(j := Noted("a"))])
  {
    hide Noted, Next;
    h, steps := [START], [];
    IdleNotes(START, 0, "b");
    var s1 := START.(procs := START.procs[0 := IDLE.(j := Noted("b"))]);
    Extend(h, steps, s1, Local(0, Note("b"), NOTHING, Noted("b")));
    h, steps := h + [s1], steps + [Local(0, Note("b"), NOTHING, Noted("b"))];
    IdleNotes(s1, 1, "a");
    var s2 := s1.(procs := s1.procs[1 := IDLE.(j := Noted("a"))]);
    Extend(h, steps, s2, Local(1, Note("a"), NOTHING, Noted("a")));
    h, steps := h + [s2], steps + [Local(1, Note("a"), NOTHING, Noted("a"))];
  }

  lemma UntilSaved() returns (h: seq<System>, steps: seq<Step>, d: State)
    ensures IsHistory(h, steps) && |h| == 4 && h[0] == START
    ensures d.nodes.Keys == {"a"} && Bears(d.nodes["a"], TITLED) && OwnIds(d.nodes)
    ensures h[3] == System(d, 1, [IDLE.(j := Noted("b")), Proc(EMPTY_JOURNAL, Some(d), 1)])
  {
    NotedHas("a");
    h, steps := BothWrite();
    var tgt := SomeResolution(NOTHING, Noted("a"));
    SavedNote(tgt);
    hide Noted, Next, MergeWith, OwnIds, Bears, Resolves;
    d := MergeWith(NOTHING, Noted("a"), tgt);
    SaveNext(h[2], 1, tgt);
    var s3 := System(d, 1, [IDLE.(j := Noted("b")), Proc(EMPTY_JOURNAL, Some(d), 1)]);
    assert s3.procs == h[2].procs[1 := Proc(EMPTY_JOURNAL, Some(d), 1)];
    Extend(h, steps, s3, Save(1, tgt));
    h, steps := h + [s3], steps + [Save(1, tgt)];
  }

  lemma UntilTwoPending() returns (h: seq<System>, steps: seq<Step>, d: State, v: State, j: Journal)
    ensures IsHistory(h, steps) && |h| == 5 && h[0] == START && d.nodes.Keys == {"a"} && TwoPending(j)
    ensures h[4] == System(d, 1, [Proc(j, Some(v), 1), Proc(EMPTY_JOURNAL, Some(d), 1)])
  {
    h, steps, d := UntilSaved();
    v := SomeRead(d, Noted("b"));
    j := SecondUpsert(d, v);
    hide Noted, Next, OwnIds, Bears, MayRead, Applies, TwoPending, IsHistory;
    var s4 := System(d, 1, [Proc(j, Some(v), 1), Proc(EMPTY_JOURNAL, Some(d), 1)]);
    assert !CacheValid(h[3], 0) && s4.procs == h[3].procs[0 := Proc(j, Some(v), 1)];
    hide CacheValid;
    assert !IsRemoval(Note("x"));
    MissNext(h[3], 0, Note("x"), v, j);
    Extend(h, steps, s4, Local(0, Note("x"), v, j));
    h, steps := h + [s4], steps + [Local(0, Note("x"), v, j)];
  }

  lemma RemoveNext(a: System, p: nat, ids: set<Id>)
    requires p < |a.procs| && a.procs[p].j == EMPTY_JOURNAL
    ensures Next(a, a.(procs := a.procs[p := a.procs[p].(j := DropNodes(EMPTY_JOURNAL, ids))]),
                 Remove(p, RemoveNodes(ids)))
  {
    hide DropNodes;
  }

  /** From an empty file and idle processes: "b" is created here and "a" there, both of one title;
      "a" is saved; an upsert by title here then hits "a"; "a" is removed there and that is saved.
      Saving here stores both: two nodes of one identity. */
  lemma TwoProcessesDuplicate() returns (h: seq<System>, steps: seq<Step>)
    ensures IsHistory(h, steps) && |h| == 8 && h[0] == START && !Unique({TITLED}, h[7].disk.nodes)
  {
    var d, v, j;
    h, steps, d, v, j := UntilTwoPending();
    hide Next, MergeWith, Resolves, DropNodes, Unique, TwoPending;
    RemoveNext(h[4], 1, {"a"});
    var s5 := System(d, 1, [Proc(j, Some(v), 1), Proc(GONE, Some(d), 1)]);
    assert s5.procs == h[4].procs[1 := Proc(GONE, Some(d), 1)];
    Extend(h, steps, s5, Remove(1, RemoveNodes({"a"})));
    h, steps := h + [s5], steps + [Remove(1, RemoveNodes({"a"}))];
    h, steps := SavedByBoth(h, steps, d, v, j);
  }

  lemma SavedByBoth(g: seq<System>, some: seq<Step>, d: State, v: State, j: Journal)
    returns (h: seq<System>, steps: seq<Step>)
    requires IsHistory(g, some) && |g| == 6 && d.nodes.Keys == {"a"} && TwoPending(j)
    requires g[5] == System(d, 1, [Proc(j, Some(v), 1), Proc(GONE, Some(d), 1)])
    ensures IsHistory(h, steps) && |h| == 8 && h[0] == g[0] && !Unique({TITLED}, h[7].disk.nodes)
  {
    var t5 := SomeResolution(d, GONE);
    SavedGone(d, t5);
    assert j != EMPTY_JOURNAL by {
      assert "a" in j.dirty;
    }
    hide Next, MergeWith, DropNodes, Unique, Bears, ResolvedAt;
    var d2 := MergeWith(d, GONE, t5);
    SaveNext(g[5], 1, t5);
    var s6 := System(d2, 2, [Proc(j, Some(v), 1), Proc(EMPTY_JOURNAL, Some(d2), 2)]);
    assert s6.procs == g[5].procs[1 := Proc(EMPTY_JOURNAL, Some(d2), 2)];
    Extend(g, some, s6, Save(1, t5));
    h, steps := g + [s6], some + [Save(1, t5)];
    var t6 := SomeResolution(d2, j);
    SavedTwice(d2, j, t6);
    SaveNext(s6, 0, t6);
    var d3 := MergeWith(d2, j, t6);
    var s7 := System(d3, 3, s6.procs[0 := Proc(EMPTY_JOURNAL, Some(d3), 3)]);
    Extend(h, steps, s7, Save(0, t6));
    h, steps := h + [s7], steps + [Save(0, t6)];
  }
}
