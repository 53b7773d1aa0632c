/** `CircularDependencies` over the store: the import graph of a project's files. */
module ImportCycles {
  import opened Order
  import opened Store
  import opened Memory
  import R = Reachability
  import C = Cycles

  ghost function Files(c: State, projectId: Value): set<Id> {
    Matching(c, "SourceFile", map["project_id" := projectId])
  }

  ghost predicate Imports(c: State, x: Id, y: Id) {
    exists e :: e in c.edges && c.edges[e].kind == "IMPORTS" && c.edges[e].from == x && c.edges[e].to == y
  }

  /** Files, and the files each imports. */
  ghost function ImportGraph(c: State, projectId: Value): R.Graph {
    var files := Files(c, projectId);
    map x | x in files :: set y | y in files && Imports(c, x, y)
  }

  /** A file is named by its path, or by its id if it has none. */
  function NameOf(nodes: map<Id, Node>, x: Id): string {
    if x in nodes && StrProp(nodes[x], "path") != "" then StrProp(nodes[x], "path") else x
  }

  function Naming(nodes: map<Id, Node>): Id -> string {
    x => NameOf(nodes, x)
  }

  /** The imported files among the neighbours of one file. */
  method ImportedFiles(repo: MemoryRepository, x: Id, files: set<Id>) returns (out: seq<Id>)
    requires Keyed(repo.Contents()) && files <= repo.nodes.Keys
    ensures Elements(out) == set y | y in files && Imports(repo.Contents(), x, y)
  {
    var hits := repo.Neighbors(x, "IMPORTS", Out);
    out := [];
    for i := 0 to |hits|
      invariant forall y :: y in out <==> y in files && exists k :: 0 <= k < i && hits[k].id == y
    {
      if hits[i].id in files {
        out := out + [hits[i].id];
      }
    }
    forall y | y in files ensures y in out <==> Imports(repo.Contents(), x, y) {
      HitsAreImports(repo.Contents(), x, hits, y);
    }
  }

  lemma HitsAreImports(c: State, x: Id, hits: seq<EdgeNode>, y: Id)
    requires Keyed(c) && y in c.nodes && forall h :: multiset(hits)[h] == Times(c, x, "IMPORTS", Out, h)
    ensures (exists k :: 0 <= k < |hits| && hits[k].id == y) <==> Imports(c, x, y)
  {
    if k :| 0 <= k < |hits| && hits[k].id == y {
      assert hits[k] in multiset(hits);
      assert OutHit(c, x, "IMPORTS", hits[k]);
    }
    if Imports(c, x, y) {
      var e :| e in c.edges && c.edges[e].kind == "IMPORTS" && c.edges[e].from == x && c.edges[e].to == y;
      var h := EdgeNode(c.edges[e], y, c.nodes[y]);
      assert OutHit(c, x, "IMPORTS", h) && multiset(hits)[h] == 1;
      assert h in hits;
    }
  }

  method BuildGraph(repo: MemoryRepository, projectId: Value) returns (adj: map<Id, seq<Id>>)
    requires Keyed(repo.Contents())
    ensures adj.Keys == Files(repo.Contents(), projectId)
    ensures (map x | x in adj :: Elements(adj[x])) == ImportGraph(repo.Contents(), projectId)
    ensures forall x, y :: x in adj && y in adj[x] ==> y in adj
  {
    ghost var files := Files(repo.Contents(), projectId);
    var ids := repo.FindNodes("SourceFile", map["project_id" := projectId]);
    ListingMembers(files);
    var known := set x | x in ids;
    assert known == files;
    hide Matching, Imports;
    adj := map[];
    for i := 0 to |ids|
      invariant adj.Keys == Elements(ids[..i])
      invariant forall x :: x in adj ==> Elements(adj[x]) == set y | y in files && Imports(repo.Contents(), x, y)
    {
      var out := ImportedFiles(repo, ids[i], known);
      assert Elements(ids[..i + 1]) == Elements(ids[..i]) + {ids[i]} by {
        assert ids[..i + 1] == ids[..i] + [ids[i]];
      }
      adj := adj[ids[i] := out];
    }
    assert ids[..|ids|] == ids;
    forall x, y | x in adj && y in adj[x] ensures y in adj {
      assert y in Elements(adj[x]);
    }
  }

  // ----- the result, read off nodes and edges

  ghost predicate IsFile(c: State, projectId: Value, x: Id) {
    && x in c.nodes && c.nodes[x].kind == "SourceFile"
    && (if "project_id" in c.nodes[x].props then c.nodes[x].props["project_id"] else Nil) == projectId
  }

  /** Files of the project, each importing the next and the last one the first. */
  ghost predicate ImportLoop(c: State, projectId: Value, files: seq<Id>) {
    && files != [] && (forall i :: 0 <= i < |files| ==> IsFile(c, projectId, files[i]))
    && forall i :: 0 <= i < |files| ==> Imports(c, files[i], files[if i + 1 < |files| then i + 1 else 0])
  }

  /** Every file is named by its path, or by its id if it has none. */
  ghost predicate NamedBy(c: State, files: seq<Id>, names: seq<string>) {
    && |names| == |files|
    && forall i :: 0 <= i < |files| && files[i] in c.nodes
                   ==> && (forall path :: path != "" && HasText(c.nodes[files[i]], "path", path) ==> names[i] == path)
                       && (HasText(c.nodes[files[i]], "path", "") ==> names[i] == files[i])
  }

  ghost predicate NamesLoop(c: State, projectId: Value, names: seq<string>) {
    exists files :: ImportLoop(c, projectId, files) && Distinct(files) && NamedBy(c, files, names)
  }

  lemma IsFileIff(c: State, projectId: Value)
    ensures forall x :: x in Files(c, projectId) <==> IsFile(c, projectId, x)
  {
    var filter: Props := map["project_id" := projectId];
    assert filter["project_id"] == projectId;
    forall n: Node
      ensures Matches(n, "SourceFile", filter) <==> n.kind == "SourceFile" && Get(n.props, "project_id") == projectId
    {
    }
    hide Matches;
  }

  lemma ImportEdge(c: State, projectId: Value, x: Id, y: Id)
    ensures y in R.Succ(ImportGraph(c, projectId), x)
            <==> IsFile(c, projectId, x) && IsFile(c, projectId, y) && Imports(c, x, y)
  {
    IsFileIff(c, projectId);
    hide IsFile, Imports, Files;
  }

  lemma CycleIsLoop(c: State, projectId: Value, files: seq<Id>)
    requires C.IsCycle(ImportGraph(c, projectId), files)
    ensures ImportLoop(c, projectId, files)
  {
    hide IsFile, Imports, ImportGraph, R.Succ;
    forall i | 0 <= i < |files|
      ensures IsFile(c, projectId, files[i]) && Imports(c, files[i], files[if i + 1 < |files| then i + 1 else 0])
    {
      ImportEdge(c, projectId, files[i], files[if i + 1 < |files| then i + 1 else 0]);
      assert i + 1 < |files| ==> R.Edge(ImportGraph(c, projectId), files, i);
    }
  }

  lemma LoopIsCycle(c: State, projectId: Value, files: seq<Id>)
    requires ImportLoop(c, projectId, files)
    ensures C.IsCycle(ImportGraph(c, projectId), files)
  {
    hide IsFile, Imports, ImportGraph, R.Succ;
    forall i | 0 <= i < |files|
      ensures files[if i + 1 < |files| then i + 1 else 0] in R.Succ(ImportGraph(c, projectId), files[i])
    {
      ImportEdge(c, projectId, files[i], files[if i + 1 < |files| then i + 1 else 0]);
    }
    forall i | 0 <= i < |files| - 1 ensures R.Edge(ImportGraph(c, projectId), files, i) {
    }
  }

  lemma LoopIffCycle(c: State, projectId: Value, files: seq<Id>)
    ensures C.IsCycle(ImportGraph(c, projectId), files) <==> ImportLoop(c, projectId, files)
  {
    hide ImportGraph, ImportLoop, C.IsCycle;
    if C.IsCycle(ImportGraph(c, projectId), files) {
      CycleIsLoop(c, projectId, files);
    }
    if ImportLoop(c, projectId, files) {
      LoopIsCycle(c, projectId, files);
    }
  }

  lemma NamesAre(c: State, files: seq<Id>)
    ensures NamedBy(c, files, C.Names(Naming(c.nodes), files))
  {
  }

  /** What the search reports, and that it reports something exactly if there is a loop. */
  lemma ReportsLoops(c: State, projectId: Value, cycles: seq<seq<string>>)
    requires C.RealCycles(ImportGraph(c, projectId), Naming(c.nodes), cycles)
    ensures forall k :: 0 <= k < |cycles| ==> NamesLoop(c, projectId, cycles[k])
    ensures C.Acyclic(ImportGraph(c, projectId)) <==> forall files :: !ImportLoop(c, projectId, files)
  {
    hide ImportGraph, ImportLoop, NamedBy, Naming, C.Names, C.Acyclic, C.IsCycle;
    var g := ImportGraph(c, projectId);
    forall files ensures C.IsCycle(g, files) <==> ImportLoop(c, projectId, files) {
      LoopIffCycle(c, projectId, files);
    }
    forall k | 0 <= k < |cycles| ensures NamesLoop(c, projectId, cycles[k]) {
      assert C.NamesCycle(g, Naming(c.nodes), cycles[k]);
      var files :| C.IsCycle(g, files) && Distinct(files) && cycles[k] == C.Names(Naming(c.nodes), files);
      NamesAre(c, files);
    }
    C.AcyclicIff(g);
  }

  /** `CircularDependencies`: up to `limit` import cycles. */
  method CircularDependencies(repo: MemoryRepository, projectId: Value, limit: int) returns (cycles: seq<seq<string>>)
    requires Keyed(repo.Contents())
    ensures var g := ImportGraph(repo.Contents(), projectId);
            var name := Naming(repo.nodes);
            && (cycles == [] || |cycles| <= limit)
            && C.RealCycles(g, name, cycles)
            && (|cycles| < limit ==> C.CoversAll(g, name, cycles))
            && (limit >= 1 ==> (cycles == [] <==> C.Acyclic(g)))
    ensures forall k :: 0 <= k < |cycles| ==> NamesLoop(repo.Contents(), projectId, cycles[k])
    ensures limit >= 1 ==> (cycles == [] <==> forall files :: !ImportLoop(repo.Contents(), projectId, files))
  {
    hide NamesLoop, ImportLoop;
    var adj := BuildGraph(repo, projectId);
    ghost var g := ImportGraph(repo.Contents(), projectId);
    var name := Naming(repo.nodes);
    hide Naming, C.RealCycles, C.CoversAll, C.Acyclic, ImportGraph, C.CycleSearch.NothingSkipped,
         C.CycleSearch.StackIsPath;
    var search := new C.CycleSearch(adj, name, limit);
    search.Run();
    cycles := search.cycles;
    if limit >= 1 {
      C.NothingIffAcyclic(g, name, cycles);
    }
    ReportsLoops(repo.Contents(), projectId, cycles);
  }
}
