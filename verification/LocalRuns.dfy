/** Runs of operations over one file state: when reading through the merged cache is right. */
module LocalRuns {
  import opened Order
  import opened Store
  import opened Identity
  import opened Absorption
  import opened Operations
  import opened Growth

  ghost function UsedAfter(used: set<Id>, ops: seq<Op>): set<Id> {
    if ops == [] then used else UsedAfter(used, ops[..|ops| - 1]) + Uses(ops[|ops| - 1])
  }

  ghost predicate StepAt(c: State, used: set<Id>, ops: seq<Op>, js: seq<Journal>, i: nat)
    requires i < |ops| && |js| == |ops| + 1
  {
    && (exists st :: MayRead(c, js[i], st) && Applies(st, js[i], ops[i], js[i + 1]))
    && UsedAfter(used, ops[..i]) !! Uses(ops[i])
  }

  /** Any operations, each reading the cached state c with the current journal; edge ids are fresh. */
  ghost predicate IsRun(c: State, used: set<Id>, ops: seq<Op>, js: seq<Journal>) {
    |js| == |ops| + 1 && forall i :: 0 <= i < |ops| ==> StepAt(c, used, ops, js, i)
  }

  /** Reads through the cache and from the file agree, and show every pending node as written. */
  ghost predicate Agree(s: State, c: State, j: Journal) {
    forall a, b :: MayRead(s, j, a) && MayRead(c, j, b) ==> a == b && ShowsPending(a, j)
  }

  /** No snapshot has a rival, neither in the file nor in the cached state. */
  ghost predicate NoRivals(s: State, c: State, j: Journal) {
    Stays(s, j) && Stays(c, j)
  }

  lemma AgreeMeansNoRivals(s: State, c: State, j: Journal)
    requires Agree(s, c, j)
    ensures NoRivals(s, c, j)
  {
    hide Stays, MayRead;
    var a := SomeRead(s, j);
    var b := SomeRead(c, j);
    if !Stays(s, j) {
      var st, x := RivalHides(s, j);
    }
    if !Stays(c, j) {
      var st, x := RivalHides(c, j);
    }
  }

  lemma NoRivalsMeansAgree(s: State, j0: Journal, j: Journal)
    requires Fits(s, j0) && Grown(s, j0, j) && NoRivals(s, Plain(s, j0), j)
    ensures Agree(s, Plain(s, j0), j)
  {
    PlainShowsPending(s, j);
    hide MayRead, Plain, Grown, Fits, Stays, ShowsPending;
    forall a, b | MayRead(s, j, a) && MayRead(Plain(s, j0), j, b) ensures a == b && ShowsPending(a, j) {
      ReadIsPlain(s, j, a);
      GrownReadIsPlain(s, j0, j, b);
    }
  }

  lemma {:induction false} RunGrows(s: State, c: State, used: set<Id>, ops: seq<Op>, js: seq<Journal>, i: nat)
    requires i < |js| && IsRun(c, used, ops, js) && MayRead(s, js[0], c)
    requires Fits(s, js[0]) && Known(used, s, js[0], js[0]) && Stays(s, js[0])
    requires forall k :: 0 <= k < i ==> Stays(c, js[k])
    ensures Grown(s, js[0], js[i]) && Known(UsedAfter(used, ops[..i]), s, js[0], js[i]) && c == Plain(s, js[0])
  {
    ReadIsPlain(s, js[0], c);
    hide Plain, Fits, Stays, Grown, Applies, MayRead;
    if i == 0 {
      GrownRefl(s, js[0]);
    } else {
      RunGrows(s, c, used, ops, js, i - 1);
      assert StepAt(c, used, ops, js, i - 1);
      assert ops[..i][..i - 1] == ops[..i - 1];
      StepGrows(s, js[0], js[i - 1], ops[i - 1], js[i], UsedAfter(used, ops[..i - 1]));
    }
  }

  lemma StepGrows(s: State, j0: Journal, j: Journal, op: Op, r: Journal, used: set<Id>)
    requires Fits(s, j0) && Grown(s, j0, j) && Known(used, s, j0, j) && Stays(Plain(s, j0), j) && used !! Uses(op)
    requires exists st :: MayRead(Plain(s, j0), j, st) && Applies(st, j, op, r)
    ensures Grown(s, j0, r) && Known(used + Uses(op), s, j0, r)
  {
    hide Plain, Fits, Stays, Grown, Applies, MayRead;
    var st :| MayRead(Plain(s, j0), j, st) && Applies(st, j, op, r);
    GrownReadIsPlain(s, j0, j, st);
    OpKeepsGrown(s, j0, j, op, r, used);
  }

  /** In every run of any operations, up to any point: reads through the cache and from the file
      agreed and showed every pending node exactly when no pending snapshot had a rival. */
  lemma RunAgreesIff(s: State, c: State, used: set<Id>, ops: seq<Op>, js: seq<Journal>, n: nat)
    requires n < |js| && IsRun(c, used, ops, js) && MayRead(s, js[0], c)
    requires Fits(s, js[0]) && Known(used, s, js[0], js[0])
    ensures (forall i :: 0 <= i <= n ==> Agree(s, c, js[i])) <==> (forall i :: 0 <= i <= n ==> NoRivals(s, c, js[i]))
  {
    hide MayRead, Fits, IsRun, Known, Agree, Stays;
    if forall i :: 0 <= i <= n ==> Agree(s, c, js[i]) {
      forall i | 0 <= i <= n ensures NoRivals(s, c, js[i]) {
        AgreeMeansNoRivals(s, c, js[i]);
      }
    }
    if forall i :: 0 <= i <= n ==> NoRivals(s, c, js[i]) {
      forall i | 0 <= i <= n ensures Agree(s, c, js[i]) {
        assert NoRivals(s, c, js[0]);
        assert forall k :: 0 <= k < i ==> NoRivals(s, c, js[k]);
        RunGrows(s, c, used, ops, js, i);
        NoRivalsMeansAgree(s, js[0], js[i]);
      }
    }
  }

  // ----- and when the two reads differ

  /** The cache already holds every pending node, so a read through it shows them all. */
  lemma CachedShowsPending(c: State, j: Journal)
    requires j.dirty.Keys <= DeleteFrom(c, j).nodes.Keys
    ensures Stays(c, j)
  {
  }

  ghost predicate SameReads(s: State, c: State, j: Journal) {
    forall a, b :: MayRead(s, j, a) && MayRead(c, j, b) ==> a == b
  }

  /** No read of the file shows the nodes of any read through the cache. */
  ghost predicate AllDiffer(s: State, c: State, j: Journal) {
    forall a, b :: MayRead(s, j, a) && MayRead(c, j, b) ==> a.nodes != b.nodes
  }

  lemma NotBoth(s: State, c: State, j: Journal)
    requires SameReads(s, c, j)
    ensures !AllDiffer(s, c, j)
  {
    var a := SomeRead(s, j);
    var b := SomeRead(c, j);
    hide MayRead;
  }

  lemma RivalSplits(s: State, c: State, j: Journal)
    requires !Stays(s, j) && Stays(c, j) && "" !in s.nodes && "" !in j.dirty
    ensures AllDiffer(s, c, j)
  {
    PlainShowsPending(c, j);
    hide MayRead, Stays, Plain;
    forall a, b | MayRead(s, j, a) && MayRead(c, j, b) ensures a.nodes != b.nodes {
      var x := RivalAlwaysHides(s, j, a);
      ReadIsPlain(c, j, b);
    }
  }

  /** While nothing was created since the cache was read, all reads agree when the file holds no
      rival, and no read of the file agrees with one through the cache when it does. */
  lemma AbsorbsIff(s: State, j0: Journal, j: Journal)
    requires Fits(s, j0) && Grown(s, j0, j) && j.dirty.Keys <= DeleteFrom(Plain(s, j0), j).nodes.Keys
    requires "" !in s.nodes && "" !in j.dirty
    ensures SameReads(s, Plain(s, j0), j) <==> Stays(s, j)
    ensures AllDiffer(s, Plain(s, j0), j) <==> !Stays(s, j)
  {
    var c := Plain(s, j0);
    CachedShowsPending(c, j);
    hide Stays, Plain, DeleteFrom, Fits, Grown, SameReads, Agree, AllDiffer;
    if Stays(s, j) {
      NoRivalsMeansAgree(s, j0, j);
      AgreeMeansSame(s, c, j);
    } else {
      RivalSplits(s, c, j);
    }
    if SameReads(s, c, j) {
      NotBoth(s, c, j);
    }
  }

  lemma AgreeMeansSame(s: State, c: State, j: Journal)
    requires Agree(s, c, j)
    ensures SameReads(s, c, j)
  {
    hide MayRead;
  }

  lemma MovedOnto(s: State, j: Journal, tgt: map<Id, Id>, x: Id)
    requires Resolves(s, j, tgt) && x in j.dirty && tgt[x] != x && tgt[x] !in j.dirty
    ensures tgt[x] in s.nodes && tgt[x] !in j.deletedNodes
  {
    var base, order := DeleteFrom(s, j).nodes, Listing(j.dirty.Keys);
    ListingMembers(j.dirty.Keys);
    var k :| 0 <= k < |order| && order[k] == x;
    assert ResolvedAt(base, order, j.dirty, tgt, k);
    var m := MovedOntoStored(base, order, j.dirty, tgt, k);
    hide ResolvedAt;
    assert ResolvedUpto(base, order, j.dirty, tgt, m);
    MovedNotWritten(base, order, j.dirty, tgt, m, tgt[x]);
  }

  /** A snapshot moved onto another process's node, then removed under its local id: reads through
      the cache keep showing its content on that node, reads of the file do not. */
  lemma MoveBreaksAbsorption(s: State, j: Journal, tgt: map<Id, Id>, x: Id, a: State, b: State)
    requires Resolves(s, j, tgt) && x in j.dirty && tgt[x] != x && tgt[x] !in j.dirty
    requires forall y :: y in j.dirty && y != x ==> tgt[y] != tgt[x]
    requires tgt[x] in s.nodes && Written(DeleteFrom(s, j).nodes, j.dirty[x], x, tgt[x]) != s.nodes[tgt[x]]
    requires var c, r := MergeWith(s, j, tgt), DropNodes(j, {x});
             NoRivals(s, c, r) && MayRead(s, r, a) && MayRead(c, r, b)
    ensures tgt[x] in a.nodes && tgt[x] in b.nodes && a.nodes[tgt[x]] == s.nodes[tgt[x]] != b.nodes[tgt[x]]
  {
    var c, r, m := MergeWith(s, j, tgt), DropNodes(j, {x}), tgt[x];
    MovedOnto(s, j, tgt, x);
    assert tgt.Keys == j.dirty.Keys;
    hide MayRead, Stays, Resolves, MergeWith, Written;
    SnapshotIsWritten(s, j, tgt, x);
    ReadIsPlain(s, r, a);
    ReadIsPlain(c, r, b);
    PlainNodes(s, r);
    PlainNodes(c, r);
    hide Plain;
    assert m !in r.dirty && m !in r.deletedNodes;
  }

  // ----- concrete inputs

  const THEIRS: Props := map["title" := Text("t"), "id" := Text("a"), "content" := Text("theirs")]
  const OURS: Props := map["title" := Text("t"), "id" := Text("b"), "content" := Text("ours")]
  const STORED := State(map["a" := Node("Memory", THEIRS)], map[])
  const PENDING := Journal(map["b" := Snap("Memory", OURS, map["title" := Text("t")])], map[], {}, {})

  lemma OnlySnapshot(s: State, j: Journal, x: Id, tgt: map<Id, Id>)
    requires Resolves(s, j, tgt) && j.dirty.Keys == {x} && LookedUp(DeleteFrom(s, j).nodes, j.dirty, x)
    ensures PickedFrom(DeleteFrom(s, j).nodes, j.dirty[x], x, tgt[x])
  {
    var order := Listing(j.dirty.Keys);
    ListingUnique([x], j.dirty.Keys);
    hide PickedFrom, DeleteFrom;
    assert ResolvedAt(DeleteFrom(s, j).nodes, order, j.dirty, tgt, 0);
    assert order[..0] == [];
  }

  lemma PendingLands(tgt: map<Id, Id>)
    requires Resolves(STORED, PENDING, tgt)
    ensures tgt["b"] == "a"
  {
    var base := DeleteFrom(STORED, PENDING).nodes;
    assert base == STORED.nodes;
    assert "title" in PENDING.dirty["b"].identity;
    assert LookedUp(base, PENDING.dirty, "b");
    OnlySnapshot(STORED, PENDING, "b", tgt);
    assert Carries(base["a"], "Memory", PENDING.dirty["b"].identity);
  }

  /** Node "b" was created here while another process stored "a" with the same title. After "b" is
      removed, reads through the cache still show its content on "a", reads of the file do not. */
  lemma MovedExample(c: State, a: State, b: State)
    requires MayRead(STORED, PENDING, c)
    requires MayRead(STORED, DropNodes(PENDING, {"b"}), a) && MayRead(c, DropNodes(PENDING, {"b"}), b)
    ensures "a" in a.nodes && "a" in b.nodes && a.nodes["a"] == STORED.nodes["a"] != b.nodes["a"]
  {
    hide MayRead;
    var tgt := ReadTargets(STORED, PENDING, c);
    PendingLands(tgt);
    var r := DropNodes(PENDING, {"b"});
    assert r.dirty == map[] && Stays(STORED, r) && Stays(c, r);
    var w := Written(DeleteFrom(STORED, PENDING).nodes, PENDING.dirty["b"], "b", "a");
    assert w.props["content"] == Text("ours") && THEIRS["content"] == Text("theirs");
    hide Stays, Resolves, Written;
    MoveBreaksAbsorption(STORED, PENDING, tgt, "b", a, b);
  }

  lemma ReadTargets(s: State, j: Journal, c: State) returns (tgt: map<Id, Id>)
    requires MayRead(s, j, c)
    ensures Resolves(s, j, tgt) && c == MergeWith(s, j, tgt)
  {
    tgt :| Resolves(s, j, tgt) && c == MergeWith(s, j, tgt);
  }

  function Named(id: Id, name: string): Props {
    map["id" := Text(id), "project_id" := Text("p"), "name" := Text(name)]
  }

  const BY_NAME: Props := map["project_id" := Text("p"), "name" := Text("N")]

  const FILE := State(map["a" := Node("Module", Named("a", "M"))], map[])
  const BOTH := map["a" := Node("Module", Named("a", "M")), "b" := Node("Module", Named("b", "N"))]
  const CREATED := Journal(map["b" := Snap("Module", Named("b", "N"), BY_NAME)], map[], {}, {})

  /** What renaming a symbol sends: the id and project as identity, all properties with the new name. */
  function Rename(id: Id, name: string, now: Value): Op {
    Upsert("Module", map["id" := Text(id), "project_id" := Text("p")], Named(id, name), "", now)
  }

  lemma CreatedStays()
    ensures Stays(FILE, CREATED)
    ensures Plain(FILE, CREATED).nodes == BOTH
  {
    var base, snap := DeleteFrom(FILE, CREATED).nodes, Snapshot("b", CREATED.dirty["b"]);
    assert base == FILE.nodes;
    assert snap.props == Named("b", "N");
    assert BY_NAME["name"] == Text("N") && base["a"].props["name"] == Text("M");
    forall c ensures !Rival(base, CREATED.dirty, "b", c) {
      assert SharesIndex(base, CREATED.dirty, "b", "b") ==> !Earlier(base, CREATED.dirty, "b", "b");
    }
    PlainNodes(FILE, CREATED);
    hide Plain;
    assert Snapshots(CREATED) == map["b" := snap];
  }

  lemma CachedStays(c: State)
    requires c.nodes == BOTH
    ensures Stays(c, CREATED) && Plain(c, CREATED).nodes == BOTH
  {
    assert Snapshot("b", CREATED.dirty["b"]).props == Named("b", "N");
    assert DeleteFrom(c, CREATED).nodes == BOTH && Snapshots(CREATED) == map["b" := BOTH["b"]];
    PlainNodes(c, CREATED);
  }

  lemma RenameHitsA(st: State, j1: Journal, now: Value)
    requires st.nodes == BOTH && Applies(st, CREATED, Rename("a", "N", now), j1)
    ensures j1 == UpsertExisting(st, CREATED, Rename("a", "N", now), "a")
  {
    var op := Rename("a", "N", now);
    var id :| UpsertsAt(st, CREATED, op, j1, id);
    assert op.identity["id"] == Text("a") && Named("b", "N")["id"] == Text("b");
    assert Carries(st.nodes["a"], op.kind, op.identity);
    hide UpsertExisting;
    assert id == "a";
  }

  lemma RenamedJournal(st: State, j1: Journal, now: Value)
    requires st.nodes == BOTH && Applies(st, CREATED, Rename("a", "N", now), j1)
    ensures "a" in j1.dirty && j1 == CREATED.(dirty := CREATED.dirty["a" := j1.dirty["a"]])
    ensures Carries(Snapshot("a", j1.dirty["a"]), "Module", BY_NAME)
  {
    RenameHitsA(st, j1, now);
    hide Applies;
    var props := j1.dirty["a"].props;
    assert props["name"] == Text("N") && props["project_id"] == Text("p");
    assert Snapshot("a", j1.dirty["a"]).props["name"] == props["name"];
    assert Snapshot("a", j1.dirty["a"]).props["project_id"] == props["project_id"];
  }

  lemma RenamedRival(j1: Journal)
    requires "a" in j1.dirty && j1 == CREATED.(dirty := CREATED.dirty["a" := j1.dirty["a"]])
    requires Carries(Snapshot("a", j1.dirty["a"]), "Module", BY_NAME)
    ensures !Stays(FILE, j1) && j1.dirty.Keys == {"a", "b"} && DeleteFrom(FILE, j1).nodes.Keys == {"a"}
  {
    var base := DeleteFrom(FILE, j1).nodes;
    assert base == FILE.nodes;
    assert "name" in j1.dirty["b"].identity;
    assert LookedUp(base, j1.dirty, "b");
    assert Earlier(base, j1.dirty, "a", "b");
    assert Rival(base, j1.dirty, "b", "a");
  }

  lemma NothingDeleted(c: State, j: Journal)
    requires j.deletedNodes == {}
    ensures DeleteFrom(c, j).nodes == c.nodes
  {
  }

  /** Node "b" was created here under the name N, then the stored node "a" was renamed to N. Reads
      through the cache show "b"; a read of the file, and with it a save, writes "b" over "a". */
  lemma RenameExample(c: State, st: State, j1: Journal, now: Value, a: State, b: State)
    requires MayRead(FILE, CREATED, c) && MayRead(c, CREATED, st) && Applies(st, CREATED, Rename("a", "N", now), j1)
    requires MayRead(FILE, j1, a) && MayRead(c, j1, b)
    ensures "b" in j1.dirty && "b" !in a.nodes && "b" in b.nodes
  {
    CreatedStays();
    hide Stays, MayRead, Applies, Plain, DeleteFrom;
    ReadIsPlain(FILE, CREATED, c);
    CachedStays(c);
    ReadIsPlain(c, CREATED, st);
    RenamedJournal(st, j1, now);
    NothingDeleted(c, j1);
    RenamedRival(j1);
    var x := RivalAlwaysHides(FILE, j1, a);
    StoredAreRead(FILE, j1, a);
    StoredAreRead(c, j1, b);
  }

  const OLD := State(map["b" := Node("Module", Named("b", "N"))], map[])

  lemma RenameHitsB(st: State, j1: Journal, now: Value)
    requires st.nodes == OLD.nodes && Applies(st, EMPTY_JOURNAL, Rename("b", "M", now), j1)
    ensures j1 == UpsertExisting(st, EMPTY_JOURNAL, Rename("b", "M", now), "b")
  {
    var op := Rename("b", "M", now);
    var id :| UpsertsAt(st, EMPTY_JOURNAL, op, j1, id);
    assert Carries(st.nodes["b"], op.kind, op.identity);
    hide UpsertExisting;
    assert id == "b";
  }

  lemma RenamedB(st: State, j1: Journal, now: Value)
    requires st.nodes == OLD.nodes && Applies(st, EMPTY_JOURNAL, Rename("b", "M", now), j1)
    ensures j1.dirty.Keys == {"b"} && j1 == EMPTY_JOURNAL.(dirty := j1.dirty)
    ensures !Carries(Snapshot("b", j1.dirty["b"]), "Module", BY_NAME)
  {
    RenameHitsB(st, j1, now);
    hide Applies;
    assert Snapshot("b", j1.dirty["b"]).props["name"] == Text("M") && BY_NAME["name"] == Text("N");
  }

  lemma CreatedA(st: State, j1: Journal, j2: Journal, later: Value)
    requires forall c :: c in st.nodes ==> !Carries(st.nodes[c], "Module", BY_NAME)
    requires Applies(st, j1, Upsert("Module", BY_NAME, map[], "a", later), j2)
    ensures "a" in j2.dirty && j2 == j1.(dirty := j1.dirty["a" := j2.dirty["a"]])
    ensures j2.dirty["a"].kind == "Module" && j2.dirty["a"].identity == BY_NAME
  {
    var op := Upsert("Module", BY_NAME, map[], "a", later);
    var id :| UpsertsAt(st, j1, op, j2, id);
    hide Carries, NewProps;
    assert NewId(op) == "a";
  }

  lemma OldRival(j2: Journal)
    requires j2.dirty.Keys == {"a", "b"} && j2.deletedNodes == {}
    requires j2.dirty["a"].kind == "Module" && j2.dirty["a"].identity == BY_NAME
    ensures !Stays(OLD, j2) && DeleteFrom(OLD, j2).nodes.Keys == {"b"}
  {
    var base := DeleteFrom(OLD, j2).nodes;
    assert base == OLD.nodes;
    assert "name" in BY_NAME && LookedUp(base, j2.dirty, "a");
    assert SharesIndex(base, j2.dirty, "a", "a") && !Leq("b", "a");
    assert Carries(base["b"], "Module", BY_NAME);
    assert Rival(base, j2.dirty, "a", "b");
  }

  /** The stored node "b" was renamed away from N here, then "a" was created under that name. The
      merge looks "a" up before the renamed "b" is written, so "a" is lost in every read and save. */
  lemma RenamedAwayExample(st1: State, j1: Journal, now: Value, st2: State, j2: Journal, later: Value, a: State)
    requires MayRead(OLD, EMPTY_JOURNAL, st1) && Applies(st1, EMPTY_JOURNAL, Rename("b", "M", now), j1)
    requires MayRead(OLD, j1, st2) && Applies(st2, j1, Upsert("Module", BY_NAME, map[], "a", later), j2)
    requires MayRead(OLD, j2, a)
    ensures "a" in j2.dirty && "a" !in a.nodes
  {
    assert Stays(OLD, EMPTY_JOURNAL);
    NothingDeleted(OLD, EMPTY_JOURNAL);
    PlainNodes(OLD, EMPTY_JOURNAL);
    assert Snapshots(EMPTY_JOURNAL) == map[];
    hide Stays, MayRead, Applies, Plain, DeleteFrom;
    ReadIsPlain(OLD, EMPTY_JOURNAL, st1);
    RenamedB(st1, j1, now);
    AfterRenaming(j1, st2);
    CreatedA(st2, j1, j2, later);
    OldRival(j2);
    var x := RivalAlwaysHides(OLD, j2, a);
    StoredAreRead(OLD, j2, a);
  }

  lemma AfterRenaming(j1: Journal, st2: State)
    requires j1.dirty.Keys == {"b"} && j1.deletedNodes == {} && MayRead(OLD, j1, st2)
    requires !Carries(Snapshot("b", j1.dirty["b"]), "Module", BY_NAME)
    ensures forall c :: c in st2.nodes ==> !Carries(st2.nodes[c], "Module", BY_NAME)
  {
    NothingDeleted(OLD, j1);
    assert Stays(OLD, j1);
    PlainNodes(OLD, j1);
    hide Stays, MayRead, Plain, DeleteFrom;
    ReadIsPlain(OLD, j1, st2);
  }
}
