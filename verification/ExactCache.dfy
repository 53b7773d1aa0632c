/** The exact level of `CacheManager`: entries are graph nodes, counted beside the graph. */
module ExactCache {
  import opened Order
  import opened Store
  import opened Memory
  import opened Purge

  /** A request, with the key that the program derives from it by hashing. */
  datatype Request = Request(project: string, repo: string, commit: string, binaryHash: string, tool: string,
                             key: string, arguments: Value)

  datatype Config = Config(enabled: bool, exactEnabled: bool, maxEntries: int)

  datatype Lookup = Miss | Stale | Hit(id: Id)

  predicate Reserved(tool: string) {
    tool in {"__privacy_state__", "__privacy_policy__", "__pseudonym_snapshot__"}
  }

  function Identity(project: string, key: string, tool: string): Props {
    map["project_id" := Text(project), "cache_key" := Text(key), "tool_name" := Text(tool)]
  }

  function Payload(r: Request, result: Value, confidence: real, agent: string, now: string): Props {
    map["arguments" := r.arguments, "result" := result, "repository_id" := Text(r.repo), "git_commit" := Text(r.commit),
        "binary_hash" := Text(r.binaryHash), "parser_version" := Text("regex-v1"), "schema_version" := Text("v1"),
        "analysis_version" := Text("v1"), "created_at" := Text(now), "updated_at" := Text(now),
        "confidence" := Real(confidence), "agent" := Text(agent), "freshness" := Text("VALID")]
  }

  ghost function Entries(c: State): set<Id> {
    Matching(c, "CacheEntry", map[])
  }

  // ----- what the graph operations do to the regular entries

  lemma RegularAfterRemoval(nodes: Nodes, gone: set<Id>)
    ensures Regular(nodes - gone) == Regular(nodes) - gone
    ensures forall kept, p :: kept <= (nodes - gone).Keys ==> Of(nodes - gone, kept, p) == Of(nodes, kept, p)
  {
    hide IsRegular;
  }

  /** An upsert over an existing entry leaves every entry as regular as it was, in its project. */
  lemma UpdateKeepsRegular(nodes: Nodes, x: Id, properties: Props, now: Value)
    requires x in nodes && "tool_name" !in properties && "project_id" !in properties
    ensures var r := nodes[x := nodes[x].(props := (nodes[x].props + properties)["updated_at" := now])];
            Regular(r) == Regular(nodes) && forall y :: Project(r, y) == Project(nodes, y)
  {
    var r := nodes[x := nodes[x].(props := (nodes[x].props + properties)["updated_at" := now])];
    assert forall y :: y in nodes ==> StrProp(r[y], "tool_name") == StrProp(nodes[y], "tool_name");
    assert forall y :: y in nodes ==> StrProp(r[y], "project_id") == StrProp(nodes[y], "project_id");
  }

  lemma CreatedEntry(project: string, key: string, tool: string, properties: Props, newId: Id, now: Value)
    requires "tool_name" !in properties && "id" !in properties && "project_id" !in properties
    ensures var props := NewNodeProps(Identity(project, key, tool), properties, newId, now);
            props["id"] == Text(newId) && StrProp(Node("CacheEntry", props), "tool_name") == tool
            && StrProp(Node("CacheEntry", props), "project_id") == project
  {
  }

  /** The regular entries after an upsert. */
  lemma UpsertedRegular(c: State, project: string, key: string, tool: string, properties: Props, newId: Id, now: Value)
    requires "tool_name" !in properties && "id" !in properties && "project_id" !in properties && newId !in c.nodes
    ensures var r := Upserted(c, "CacheEntry", Identity(project, key, tool), properties, newId, now).nodes;
            if Matching(c, "CacheEntry", Identity(project, key, tool)) != {}
            then Regular(r) == Regular(c.nodes) && forall y :: Project(r, y) == Project(c.nodes, y)
            else Regular(r) == if Reserved(tool) then Regular(c.nodes) else Regular(c.nodes) + {newId}
  {
    var identity := Identity(project, key, tool);
    var matching := Matching(c, "CacheEntry", identity);
    ListingMembers(matching);
    if matching != {} {
      assert Listing(matching) != [] by {
        var x :| x in matching;
        assert x in Listing(matching);
      }
      assert Listing(matching)[0] in Listing(matching);
      hide StrProp;
      UpdateKeepsRegular(c.nodes, Listing(matching)[0], properties, now);
    } else {
      ListingEmpty(matching);
      CreatedEntry(project, key, tool, properties, newId, now);
      hide NewNodeProps, StrProp;
    }
  }

  // ----- the manager

  /** The regular ones among the entries, grouped by project. */
  ghost predicate Grouped(nodes: Nodes, seen: set<Id>, byProject: map<string, seq<Id>>) {
    && (forall p :: p in byProject ==> Distinct(byProject[p])
                                        && Elements(byProject[p]) == Of(nodes, seen * Regular(nodes), p))
    && (forall x :: x in seen && x in Regular(nodes) ==> Project(nodes, x) in byProject)
  }

  lemma GroupOne(nodes: Nodes, seen: set<Id>, byProject: map<string, seq<Id>>, x: Id)
    requires Grouped(nodes, seen, byProject) && x in nodes && x !in seen
    ensures !(x in Regular(nodes)) ==> Grouped(nodes, seen + {x}, byProject)
    ensures var p := Project(nodes, x); var was := if p in byProject then byProject[p] else [];
            x in Regular(nodes) ==> Grouped(nodes, seen + {x}, byProject[p := was + [x]])
  {
    hide Regular, Project;
    var p := Project(nodes, x);
    var was := if p in byProject then byProject[p] else [];
    assert x !in Elements(was);
    assert Elements(was + [x]) == Elements(was) + {x};
    forall q ensures Of(nodes, (seen + {x}) * Regular(nodes), q)
                     == Of(nodes, seen * Regular(nodes), q) + if q == p && x in Regular(nodes) then {x} else {} {
    }
    assert Elements(was) == Of(nodes, seen * Regular(nodes), p);
    hide Of;
  }

  method GroupByProject(nodes: Nodes, entries: seq<Id>) returns (byProject: map<string, seq<Id>>)
    requires Distinct(entries) && forall x :: x in entries <==> x in nodes && nodes[x].kind == "CacheEntry"
    ensures Grouped(nodes, Elements(entries), byProject)
  {
    byProject := map[];
    assert Grouped(nodes, {}, byProject);
    hide Grouped;
    assert Elements(entries[..0]) == {};
    for i := 0 to |entries|
      invariant Grouped(nodes, Elements(entries[..i]), byProject)
    {
      var x := entries[i];
      assert x in entries && forall k :: 0 <= k < i ==> entries[k] != x;
      assert Elements(entries[..i + 1]) == Elements(entries[..i]) + {x} by {
        assert entries[..i + 1] == entries[..i] + [x];
      }
      assert x !in Elements(entries[..i]);
      GroupOne(nodes, Elements(entries[..i]), byProject, x);
      if !Special(nodes[x]) {
        var p := Project(nodes, x);
        byProject := byProject[p := (if p in byProject then byProject[p] else []) + [x]];
      }
    }
    assert entries[..|entries|] == entries;
  }

  /** One project's list is sorted and cut after its newest n entries. */
  method CutOne(nodes: Nodes, xs: seq<Id>, n: nat, ghost seen: set<Id>, ghost byProject: map<string, seq<Id>>,
                ghost p: string)
    returns (less: seq<Id>, m: nat, ghost more: set<Id>)
    requires Grouped(nodes, seen, byProject) && Regular(nodes) <= seen && p in byProject && xs == byProject[p]
    ensures m == |more| <= n && (less != [] ==> m == n) && Distinct(less)
    ensures Parts(nodes, {p}, more, Elements(less)) && NewerKept(nodes, more, Elements(less))
  {
    hide Grouped, Regular, Parts, NewerKept;
    var sorted := SortNewest(nodes, xs);
    m := if |sorted| > n then n else |sorted|;
    CutProject(nodes, seen, byProject, p, m);
    less := sorted[m..];
    more := Elements(sorted[..m]);
  }

  /** One more project is cut. */
  method CutNext(nodes: Nodes, byProject: map<string, seq<Id>>, n: nat, ghost seen: set<Id>, p: string,
                 ghost done: set<string>, remove: seq<Id>, remaining: nat, ghost kept: set<Id>)
    returns (remove': seq<Id>, remaining': nat, ghost kept': set<Id>)
    requires Grouped(nodes, seen, byProject) && Regular(nodes) <= seen && p in byProject && p !in done
    requires Distinct(remove) && remaining == |kept| && Split(nodes, done, n, kept, Elements(remove))
    ensures Distinct(remove') && remaining' == |kept'| && Split(nodes, done + {p}, n, kept', Elements(remove'))
  {
    hide Split, Grouped, Parts, NewerKept, Regular, Sizes;
    var less, m, more := CutOne(nodes, byProject[p], n, seen, byProject, p);
    assert Elements(less) != {} ==> less != [];
    hide Elements, Distinct;
    SplitOne(nodes, done, n, kept, Elements(remove), p, more, Elements(less));
    AppendDistinct(remove, less);
    assert |kept + more| == |kept| + m;
    remove', remaining', kept' := remove + less, remaining + m, kept + more;
  }

  /** Cuts every project's list after its newest n entries. */
  method CutAll(nodes: Nodes, byProject: map<string, seq<Id>>, n: nat, ghost seen: set<Id>)
    returns (remove: seq<Id>, remaining: nat)
    requires Grouped(nodes, seen, byProject) && Regular(nodes) <= seen
    ensures Distinct(remove) && Purged(nodes, n, Elements(remove)) && remaining == |Regular(nodes) - Elements(remove)|
  {
    remove, remaining := [], 0;
    ghost var kept: set<Id> := {};
    var todo := byProject.Keys;
    NoneSplit(nodes, n);
    assert Elements(remove) == {} && byProject.Keys - todo == {};
    assert Distinct(remove);
    hide Split, Purged, Grouped, Parts, NewerKept, Regular, Project, Elements, Distinct;
    while todo != {}
      invariant todo <= byProject.Keys && Distinct(remove) && remaining == |kept|
      invariant Split(nodes, byProject.Keys - todo, n, kept, Elements(remove))
      decreases |todo|
    {
      var p :| p in todo;
      ghost var done := byProject.Keys - todo;
      todo := todo - {p};
      assert done + {p} == byProject.Keys - todo && p !in done;
      remove, remaining, kept := CutNext(nodes, byProject, n, seen, p, done, remove, remaining, kept);
    }
    assert byProject.Keys - todo == byProject.Keys;
    assert forall x :: x in Regular(nodes) ==> Project(nodes, x) in byProject by {
      GroupedAll(nodes, seen, byProject);
    }
    AllSplit(nodes, byProject.Keys, n, kept, Elements(remove));
  }

  lemma GroupedAll(nodes: Nodes, seen: set<Id>, byProject: map<string, seq<Id>>)
    requires Grouped(nodes, seen, byProject) && Regular(nodes) <= seen
    ensures forall x :: x in Regular(nodes) ==> Project(nodes, x) in byProject
  {
    hide Regular, Project;
  }

  lemma NoneSplit(nodes: Nodes, n: nat)
    ensures Split(nodes, {}, n, {}, {})
  {
    assert forall p :: Of(nodes, {}, p) == {};
    assert RegularIn(nodes, {}) == {};
  }

  lemma AppendDistinct(a: seq<Id>, b: seq<Id>)
    requires Distinct(a) && Distinct(b) && Elements(a) !! Elements(b)
    ensures Distinct(a + b) && Elements(a + b) == Elements(a) + Elements(b)
  {
    forall i, j | 0 <= i < j < |a + b| ensures (a + b)[i] != (a + b)[j] {
      if i < |a| <= j {
        assert a[i] in Elements(a) && b[j - |a|] in Elements(b);
      }
    }
  }

  /** The list of one project, sorted and cut. */
  lemma CutProject(nodes: Nodes, seen: set<Id>, byProject: map<string, seq<Id>>, p: string, m: nat)
    requires Grouped(nodes, seen, byProject) && Regular(nodes) <= seen && p in byProject
    requires m <= |SortNewest(nodes, byProject[p])|
    ensures var sorted := SortNewest(nodes, byProject[p]);
            var more, less := Elements(sorted[..m]), Elements(sorted[m..]);
            && Parts(nodes, {p}, more, less) && NewerKept(nodes, more, less) && |more| == m && |less| == |sorted| - m
            && Distinct(sorted[m..])
  {
    var xs := byProject[p];
    var sorted := SortNewest(nodes, xs);
    assert seen * Regular(nodes) == Regular(nodes);
    assert Elements(xs) == RegularIn(nodes, {p}) && Distinct(xs) && multiset(sorted) == multiset(xs);
    hide Grouped, Regular, RegularIn, NewestFirst, SortNewest, NewerKept;
    SortedNewestFirst(nodes, xs);
    DistinctFromMultiset(xs, sorted);
    SameMultiset(xs, sorted);
    assert Elements(sorted) == Elements(xs);
    CutSorted(nodes, sorted, m);
  }

  lemma CutSorted(nodes: Nodes, sorted: seq<Id>, m: nat)
    requires Distinct(sorted) && NewestFirst(nodes, sorted) && m <= |sorted|
    ensures var more, less := Elements(sorted[..m]), Elements(sorted[m..]);
            && more + less == Elements(sorted) && more !! less && NewerKept(nodes, more, less)
            && |more| == m && |less| == |sorted| - m && Distinct(sorted[m..])
  {
    hide NewestFirst, Newer;
    CutParts(nodes, sorted, m);
    assert Elements(sorted[..m]) + Elements(sorted[m..]) == Elements(sorted);
  }

  // ----- the manager

  /** Per project at most n regular entries. */
  ghost predicate WithinLimit(nodes: Nodes, n: int) {
    forall p :: |Of(nodes, Regular(nodes), p)| <= n
  }

  lemma FewAreWithinLimit(nodes: Nodes, n: int)
    requires |Regular(nodes)| <= n
    ensures WithinLimit(nodes, n)
  {
    forall p ensures |Of(nodes, Regular(nodes), p)| <= n {
      SubsetSize(Of(nodes, Regular(nodes), p), Regular(nodes));
    }
  }

  lemma SubsetSize<T>(a: set<T>, b: set<T>)
    requires a <= b
    ensures |a| <= |b| && |b - a| == |b| - |a|
  {
    assert b == a + (b - a);
  }

  lemma PurgedIsWithinLimit(nodes: Nodes, n: nat, gone: set<Id>)
    requires Purged(nodes, n, gone)
    ensures WithinLimit(nodes - gone, n) && Regular(nodes - gone) == Regular(nodes) - gone
  {
    RegularAfterRemoval(nodes, gone);
    assert Regular(nodes - gone) <= (nodes - gone).Keys;
    hide Regular, NewerKept;
    forall p ensures |Of(nodes - gone, Regular(nodes - gone), p)| <= n {
      assert Of(nodes - gone, Regular(nodes - gone), p) == Of(nodes, Regular(nodes) - gone, p);
    }
  }

  method CountRegular(nodes: Nodes, entries: seq<Id>) returns (count: nat)
    requires Distinct(entries) && forall x :: x in entries <==> x in nodes && nodes[x].kind == "CacheEntry"
    ensures count == |Regular(nodes)|
  {
    count := 0;
    assert forall x :: x in Regular(nodes) ==> x in entries;
    hide IsRegular, Special, Distinct;
    assert Elements(entries[..0]) * Regular(nodes) == {};
    for i := 0 to |entries|
      invariant count == |Elements(entries[..i]) * Regular(nodes)|
    {
      CountNext(nodes, entries, i);
      if !Special(nodes[entries[i]]) {
        count := count + 1;
      }
    }
    assert entries[..|entries|] == entries;
    assert Elements(entries) * Regular(nodes) == Regular(nodes);
  }

  lemma CountNext(nodes: Nodes, entries: seq<Id>, i: nat)
    requires Distinct(entries) && i < |entries| && entries[i] in nodes && nodes[entries[i]].kind == "CacheEntry"
    ensures |Elements(entries[..i + 1]) * Regular(nodes)|
         == |Elements(entries[..i]) * Regular(nodes)| + if Special(nodes[entries[i]]) then 0 else 1
  {
    var x := entries[i];
    var before := Elements(entries[..i]) * Regular(nodes);
    assert entries[..i + 1] == entries[..i] + [x];
    assert x in Regular(nodes) <==> !Special(nodes[x]);
    assert x !in entries[..i];
    hide Regular, Special, Distinct;
    assert Elements(entries[..i + 1]) * Regular(nodes) == if x in Regular(nodes) then before + {x} else before;
    assert x !in before;
  }

  /** The counter after a removal of `count` entries. */
  function Forget(exactCount: int, count: int): int {
    if exactCount <= count then 0 else exactCount - count
  }

  /** Forgetting as many as were removed never counts too many, and stays exact unless special entries
      went and regular ones are left. */
  lemma ForgetExact(nodes: Nodes, gone: set<Id>, exactCount: int)
    requires gone <= nodes.Keys && 0 <= exactCount <= |Regular(nodes)|
    ensures 0 <= Forget(exactCount, |gone|) <= |Regular(nodes - gone)|
    ensures exactCount == |Regular(nodes)|
            ==> (Forget(exactCount, |gone|) == |Regular(nodes - gone)|
                 <==> gone <= Regular(nodes) || Regular(nodes - gone) == {})
  {
    RegularAfterRemoval(nodes, gone);
    var r, both := Regular(nodes), gone * Regular(nodes);
    assert r - gone == r - both;
    SubsetSize(both, r);
    SubsetSize(both, gone);
    assert gone <= r <==> gone - both == {};
    hide Regular;
    assert r - gone == {} <==> |r - gone| == 0;
  }

  lemma MatchingProject(c: State, projectID: string)
    ensures var gone := Matching(c, "CacheEntry", map["project_id" := Text(projectID)]);
            && (forall x :: x in gone ==> Project(c.nodes, x) == projectID)
            && (forall x :: x in c.nodes && c.nodes[x].kind == "CacheEntry" && Project(c.nodes, x) == projectID
                            && projectID != ""
                            ==> x in gone)
  {
    forall x | x in c.nodes && c.nodes[x].kind == "CacheEntry" && Project(c.nodes, x) == projectID && projectID != ""
      ensures Matches(c.nodes[x], "CacheEntry", map["project_id" := Text(projectID)])
    {
    }
  }

  lemma NamedAreMatching(c: State, filters: Props, projectID: string, cacheKey: string, cacheID: string,
                         toolName: string)
    requires forall n :: Matches(n, "CacheEntry", filters) <==> IsNamed(n, projectID, cacheKey, cacheID, toolName)
    ensures Matching(c, "CacheEntry", filters) == set x | x in c.nodes
                                                          && IsNamed(c.nodes[x], projectID, cacheKey, cacheID, toolName)
  {
    hide Matches, IsNamed;
  }

  /** One more filter, if its value is given. */
  lemma MoreFilter(filters: Props, k: string, v: string)
    requires k !in filters
    ensures forall n :: Matches(n, "CacheEntry", filters[k := Text(v)])
                        <==> Matches(n, "CacheEntry", filters) && Get(n.props, k) == Text(v)
  {
    hide Get;
  }

  lemma ProjectFilter(projectID: string)
    ensures forall n :: Matches(n, "CacheEntry", map["project_id" := Text(projectID)])
                        <==> n.kind == "CacheEntry" && Get(n.props, "project_id") == Text(projectID)
  {
  }

  lemma {:induction false} SizeWithout<A, B>(m: map<A, B>, s: set<A>)
    requires s <= m.Keys
    ensures |m - s| == |m| - |s|
  {
    assert (m - s).Keys == m.Keys - s;
    assert |m.Keys| == |m| && |(m - s).Keys| == |m - s|;
  }

  /** An entry of the project that has every property that is given. */
  predicate IsNamed(n: Node, projectID: string, cacheKey: string, cacheID: string, toolName: string) {
    && n.kind == "CacheEntry" && Get(n.props, "project_id") == Text(projectID)
    && (cacheKey == "" || Get(n.props, "cache_key") == Text(cacheKey))
    && (cacheID == "" || Get(n.props, "id") == Text(cacheID))
    && (toolName == "" || Get(n.props, "tool_name") == Text(toolName))
  }

  /** Neither marked stale or invalid, nor past its time to live. */
  predicate Fresh(nodes: Nodes, x: Id, expired: string -> bool) {
    x in nodes && StrProp(nodes[x], "freshness") !in {"STALE", "INVALID"} && !expired(Stamp(nodes, x))
  }

  // ----- the same, property by property

  predicate Has(n: Node, k: string, v: Value) {
    k in n.props && n.props[k] == v
  }

  /** An entry with this project, key and tool. */
  predicate IsEntryOf(n: Node, project: string, key: string, tool: string) {
    && n.kind == "CacheEntry" && Has(n, "project_id", Text(project)) && Has(n, "cache_key", Text(key))
    && Has(n, "tool_name", Text(tool))
  }

  /** The entry of the request that comes first by id. */
  ghost predicate FirstEntry(nodes: Nodes, r: Request, x: Id) {
    && x in nodes && IsEntryOf(nodes[x], r.project, r.key, r.tool)
    && forall y :: y in nodes && IsEntryOf(nodes[y], r.project, r.key, r.tool) ==> Leq(x, y)
  }

  /** What the result was computed from. */
  predicate HoldsOrigin(n: Node, r: Request) {
    && Has(n, "arguments", r.arguments) && Has(n, "repository_id", Text(r.repo)) && Has(n, "git_commit", Text(r.commit))
    && Has(n, "binary_hash", Text(r.binaryHash)) && Has(n, "parser_version", Text("regex-v1"))
    && Has(n, "schema_version", Text("v1")) && Has(n, "analysis_version", Text("v1"))
  }

  /** The node holds the result, marked as valid. */
  predicate HoldsResult(n: Node, result: Value, confidence: real, agent: string, now: string) {
    && Has(n, "result", result) && Has(n, "confidence", Real(confidence)) && Has(n, "agent", Text(agent))
    && Has(n, "freshness", Text("VALID")) && Has(n, "created_at", Text(now)) && Has(n, "updated_at", Text(now))
  }

  /** Neither marked stale or invalid, nor past its time to live. */
  ghost predicate NotStale(n: Node, expired: string -> bool) {
    && !Has(n, "freshness", Text("STALE")) && !Has(n, "freshness", Text("INVALID"))
    && forall t :: HasText(n, "updated_at", t) ==> !expired(t)
  }

  /** The first entry of the request, or a new one if there is none, holds the result; other nodes stay. */
  ghost predicate ResultStored(before: Nodes, r: Request, result: Value, confidence: real, agent: string, now: string,
                               newId: Id, after: Nodes, id: Id)
  {
    && (if exists x :: x in before && IsEntryOf(before[x], r.project, r.key, r.tool) then FirstEntry(before, r, id)
        else id == newId)
    && (forall x :: x in after <==> x in before || x == id)
    && (forall x :: x in before && x != id ==> after[x] == before[x])
    && IsEntryOf(after[id], r.project, r.key, r.tool) && HoldsOrigin(after[id], r)
    && HoldsResult(after[id], result, confidence, agent, now)
  }

  lemma IdentityFits(n: Node, project: string, key: string, tool: string)
    ensures Memory.Fits(n, "CacheEntry", Identity(project, key, tool)) <==> IsEntryOf(n, project, key, tool)
  {
    var m := Identity(project, key, tool);
    assert m["project_id"] == Text(project) && m["cache_key"] == Text(key) && m["tool_name"] == Text(tool);
  }

  ghost predicate HoldsAll(n: Node, given: Props) {
    forall k :: k in given ==> Has(n, k, given[k])
  }

  lemma PayloadOrigin(n: Node, r: Request, result: Value, confidence: real, agent: string, now: string)
    requires HoldsAll(n, Payload(r, result, confidence, agent, now))
    ensures HoldsOrigin(n, r)
  {
    hide Has;
    var given := Payload(r, result, confidence, agent, now);
    assert given["arguments"] == r.arguments && given["repository_id"] == Text(r.repo);
    assert given["git_commit"] == Text(r.commit) && given["binary_hash"] == Text(r.binaryHash);
    assert given["parser_version"] == Text("regex-v1") && given["schema_version"] == Text("v1");
    assert given["analysis_version"] == Text("v1");
  }

  lemma PayloadResult(n: Node, r: Request, result: Value, confidence: real, agent: string, now: string)
    requires HoldsAll(n, Payload(r, result, confidence, agent, now))
    ensures HoldsResult(n, result, confidence, agent, now)
  {
    hide Has;
    var given := Payload(r, result, confidence, agent, now);
    assert given["result"] == result && given["confidence"] == Real(confidence) && given["agent"] == Text(agent);
    assert given["freshness"] == Text("VALID") && given["created_at"] == Text(now) && given["updated_at"] == Text(now);
  }

  lemma FreshIff(nodes: Nodes, x: Id, expired: string -> bool)
    requires x in nodes
    ensures Fresh(nodes, x, expired) <==> NotStale(nodes[x], expired)
  {
    assert HasText(nodes[x], "updated_at", Stamp(nodes, x));
  }

  lemma StoredMeans(c: State, r: Request, result: Value, confidence: real, agent: string, now: string, newId: Id,
                    after: State, id: Id)
    requires UpsertDone(c, "CacheEntry", Identity(r.project, r.key, r.tool), Payload(r, result, confidence, agent, now),
                        newId, Text(now), after, id)
    ensures ResultStored(c.nodes, r, result, confidence, agent, now, newId, after.nodes, id)
  {
    hide UpsertDone, IsEntryOf, Memory.Fits, HoldsResult, HoldsOrigin;
    var identity, given := Identity(r.project, r.key, r.tool), Payload(r, result, confidence, agent, now);
    assert given["updated_at"] == Text(now) && identity.Keys !! given.Keys;
    UpsertedHolds(c, "CacheEntry", identity, given, newId, Text(now), after, id);
    UpsertedWhere(c, "CacheEntry", identity, given, newId, Text(now), after, id);
    assert HoldsAll(after.nodes[id], given);
    hide HoldsAll;
    PayloadOrigin(after.nodes[id], r, result, confidence, agent, now);
    PayloadResult(after.nodes[id], r, result, confidence, agent, now);
    hide Identity, Payload;
    forall n: Node ensures Memory.Fits(n, "CacheEntry", identity) <==> IsEntryOf(n, r.project, r.key, r.tool) {
      IdentityFits(n, r.project, r.key, r.tool);
    }
  }

  lemma CacheEntryIsValid()
    ensures ValidKind("CacheEntry")
  {
  }

  lemma RemoveOne(nodes: Nodes, x: Id)
    requires x in nodes && nodes[x].kind == "CacheEntry"
    ensures |Regular(nodes - {x})| == |Regular(nodes)| - (if Special(nodes[x]) then 0 else 1)
  {
    RegularAfterRemoval(nodes, {x});
    assert x in Regular(nodes) <==> !Special(nodes[x]);
    hide Special;
    assert x !in Regular(nodes) ==> Regular(nodes) - {x} == Regular(nodes);
  }

  class CacheManager {
    const graph: MemoryRepository
    const config: Config
    var exactCount: int
    var invalidations: nat
    var staleHits: nat

    /** The counter never exceeds the regular entries. */
    ghost predicate Bounded()
      reads this, graph
    {
      0 <= exactCount <= |Regular(graph.nodes)|
    }

    ghost predicate Exact()
      reads this, graph
    {
      exactCount == |Regular(graph.nodes)|
    }

    constructor (g: MemoryRepository, cfg: Config)
      ensures graph == g && config == cfg && Bounded() && (cfg.exactEnabled ==> Exact())
      ensures invalidations == 0 && staleHits == 0
    {
      graph, config, exactCount, invalidations, staleHits := g, cfg, 0, 0, 0;
      new;
      if cfg.exactEnabled {
        var entries := graph.FindNodes("CacheEntry", map[]);
        ListingMembers(Entries(graph.Contents()));
        assert forall x :: x in entries <==> x in graph.nodes && graph.nodes[x].kind == "CacheEntry";
        hide Regular;
        exactCount := CountRegular(graph.nodes, entries);
      }
    }

    method ForgetEntries(count: nat)
      modifies this`exactCount
      ensures exactCount == Forget(old(exactCount), count)
    {
      if exactCount <= count {
        exactCount := 0;
      } else {
        exactCount := exactCount - count;
      }
    }

    /** Keeps the newest entries of every project and counts what is left. */
    method PurgeExact(maxEntries: int) returns (removed: nat, ghost gone: set<Id>)
      modifies this`exactCount, this`invalidations, graph
      ensures maxEntries <= 0 ==> removed == 0 && graph.nodes == old(graph.nodes) && graph.edges == old(graph.edges)
                                  && exactCount == old(exactCount) && invalidations == old(invalidations)
      ensures maxEntries > 0 ==> && Purged(old(graph.nodes), maxEntries, gone) && graph.nodes == old(graph.nodes) - gone
                                 && removed == |gone| && invalidations == old(invalidations) + removed
                                 && Exact() && WithinLimit(graph.nodes, maxEntries)
      ensures maxEntries > 0 ==> PurgeDone(old(graph.nodes), maxEntries, gone)
    {
      hide PurgeDone;
      removed, gone := 0, {};
      if maxEntries <= 0 {
        return;
      }
      ghost var nodes := graph.nodes;
      hide Purged, WithinLimit, Regular;
      var remove, remaining := PickOld(maxEntries);
      gone := Elements(remove);
      DistinctSize(remove);
      PurgedIsWithinLimit(nodes, maxEntries, gone);
      PurgedDone(nodes, maxEntries, gone);
      hide Distinct;
      if |remove| > 0 {
        graph.RemoveNodes(remove);
      }
      assert graph.nodes == nodes - gone;
      exactCount := remaining;
      invalidations := invalidations + |remove|;
      removed := |remove|;
    }

    /** The entries beyond the newest n of their project, and how many stay. */
    method PickOld(n: nat) returns (remove: seq<Id>, remaining: nat)
      ensures Distinct(remove) && Purged(graph.nodes, n, Elements(remove))
      ensures remaining == |Regular(graph.nodes) - Elements(remove)|
    {
      var entries := graph.FindNodes("CacheEntry", map[]);
      ghost var all := Entries(graph.Contents());
      ListingMembers(all);
      assert forall x :: x in entries <==> x in graph.nodes && graph.nodes[x].kind == "CacheEntry";
      assert Regular(graph.nodes) <= Elements(entries);
      hide Purged, Regular, Grouped, Matching;
      var byProject := GroupByProject(graph.nodes, entries);
      remove, remaining := CutAll(graph.nodes, byProject, n, Elements(entries));
    }

    /** The removal that the invalidations and `Flush` share. */
    method RemoveMatching(filters: Props) returns (n: nat)
      modifies this`exactCount, this`invalidations, graph
      ensures var gone := old(Matching(graph.Contents(), "CacheEntry", filters));
              && graph.nodes == old(graph.nodes) - gone && n == |gone| && invalidations == old(invalidations) + n
              && exactCount == (if gone == {} then old(exactCount) else Forget(old(exactCount), |gone|))
              && (old(Exact()) ==> (Exact() <==> gone <= Regular(old(graph.nodes)) || Regular(graph.nodes) == {}))
      ensures old(Bounded()) ==> Bounded()
    {
      ghost var nodes, count := graph.nodes, exactCount;
      ghost var gone := Matching(graph.Contents(), "CacheEntry", filters);
      var ids := graph.FindNodes("CacheEntry", filters);
      ListingMembers(gone);
      DistinctSize(ids);
      assert Elements(ids) == gone && gone <= nodes.Keys;
      n := |ids|;
      hide Matching, Regular;
      if |ids| > 0 {
        graph.RemoveNodes(ids);
        invalidations := invalidations + |ids|;
        ForgetEntries(|ids|);
        if 0 <= count <= |Regular(nodes)| {
          ForgetExact(nodes, gone, count);
        }
      } else {
        assert nodes - gone == nodes;
      }
    }

    /** The entries of the project with every property that is given. */
    method Invalidate(projectID: string, cacheKey: string, cacheID: string, toolName: string)
      modifies this`exactCount, this`invalidations, graph
      ensures old(Bounded()) ==> Bounded()
      ensures var gone := set x | x in old(graph.nodes)
                                  && IsNamed(old(graph.nodes)[x], projectID, cacheKey, cacheID, toolName);
              && graph.nodes == old(graph.nodes) - gone && invalidations == old(invalidations) + |gone|
              && (old(Exact()) ==> (Exact() <==> gone <= Regular(old(graph.nodes)) || Regular(graph.nodes) == {}))
    {
      hide Regular, Matching, Matches, Bounded, Exact;
      var filters: Props := map["project_id" := Text(projectID)];
      ProjectFilter(projectID);
      if cacheKey != "" {
        MoreFilter(filters, "cache_key", cacheKey);
        filters := filters["cache_key" := Text(cacheKey)];
      }
      assert "id" !in filters && "tool_name" !in filters;
      if cacheID != "" {
        MoreFilter(filters, "id", cacheID);
        filters := filters["id" := Text(cacheID)];
      }
      assert "tool_name" !in filters;
      if toolName != "" {
        MoreFilter(filters, "tool_name", toolName);
        filters := filters["tool_name" := Text(toolName)];
      }
      NamedAreMatching(graph.Contents(), filters, projectID, cacheKey, cacheID, toolName);
      hide IsNamed;
      var n := RemoveMatching(filters);
    }

    method InvalidateByCommit(projectID: string, commit: string)
      modifies this`exactCount, this`invalidations, graph
      ensures old(Bounded()) ==> Bounded()
      ensures var gone := old(Matching(graph.Contents(), "CacheEntry",
                                       map["project_id" := Text(projectID), "git_commit" := Text(commit)]));
              && graph.nodes == old(graph.nodes) - gone && invalidations == old(invalidations) + |gone|
              && (old(Exact()) ==> (Exact() <==> gone <= Regular(old(graph.nodes)) || Regular(graph.nodes) == {}))
    {
      var n := RemoveMatching(map["project_id" := Text(projectID), "git_commit" := Text(commit)]);
    }

    method InvalidateByBinaryHash(projectID: string, binaryHash: string)
      modifies this`exactCount, this`invalidations, graph
      ensures old(Bounded()) ==> Bounded()
      ensures var gone := old(Matching(graph.Contents(), "CacheEntry",
                                       map["project_id" := Text(projectID), "binary_hash" := Text(binaryHash)]));
              && graph.nodes == old(graph.nodes) - gone && invalidations == old(invalidations) + |gone|
              && (old(Exact()) ==> (Exact() <==> gone <= Regular(old(graph.nodes)) || Regular(graph.nodes) == {}))
    {
      var n := RemoveMatching(map["project_id" := Text(projectID), "binary_hash" := Text(binaryHash)]);
    }

    /** Removes every entry of a project, special ones too. */
    method Flush(projectID: string) returns (n: nat)
      modifies this`exactCount, this`invalidations, graph
      ensures old(Bounded()) ==> Bounded()
      ensures projectID != "" ==> Of(graph.nodes, Regular(graph.nodes), projectID) == {}
      ensures forall x :: x in old(graph.nodes) && Project(old(graph.nodes), x) != projectID ==> x in graph.nodes
      ensures graph.nodes == old(graph.nodes) - old(Matching(graph.Contents(), "CacheEntry",
                                                             map["project_id" := Text(projectID)]))
      ensures n == |old(graph.nodes)| - |graph.nodes| && invalidations == old(invalidations) + n
      ensures var gone := old(Matching(graph.Contents(), "CacheEntry", map["project_id" := Text(projectID)]));
              old(Exact()) ==> (Exact() <==> gone <= Regular(old(graph.nodes)) || Regular(graph.nodes) == {})
    {
      ghost var filters: Props := map["project_id" := Text(projectID)];
      ghost var nodes := graph.nodes;
      MatchingProject(graph.Contents(), projectID);
      ghost var gone := Matching(graph.Contents(), "CacheEntry", filters);
      assert gone <= nodes.Keys;
      hide Matching;
      n := RemoveMatching(map["project_id" := Text(projectID)]);
      SizeWithout(nodes, gone);
    }

    /** A reserved entry: stored like the others, but not counted. */
    method StoreReserved(projectID: string, key: string, payload: Props, newId: Id, now: Value)
      requires Reserved(key) && newId !in graph.nodes
      requires "tool_name" !in payload && "id" !in payload && "project_id" !in payload
      modifies graph
      ensures config.enabled
              ==> graph.nodes == Upserted(old(graph.Contents()), "CacheEntry", Identity(projectID, key, key),
                                          payload, newId, now).nodes
      ensures !config.enabled ==> graph.nodes == old(graph.nodes)
      ensures |Regular(graph.nodes)| == |Regular(old(graph.nodes))|
      ensures (old(Bounded()) ==> Bounded()) && (old(Exact()) ==> Exact())
    {
      if !config.enabled {
        return;
      }
      UpsertedRegular(graph.Contents(), projectID, key, key, payload, newId, now);
      hide Regular, Upserted;
      CacheEntryIsValid();
      var ok, id, _ := graph.UpsertNode("CacheEntry", Identity(projectID, key, key), payload, newId, now);
    }

    /** Finds a fresh entry; a stale one is removed. */
    method CheckExactCache(r: Request, expired: string -> bool) returns (result: Lookup)
      modifies this`exactCount, this`staleHits, graph
      ensures !(config.enabled && config.exactEnabled) ==> result == Miss
      ensures result != Stale
              ==> graph.nodes == old(graph.nodes) && exactCount == old(exactCount) && staleHits == old(staleHits)
      ensures config.enabled && config.exactEnabled ==>
        var found := Matching(old(graph.Contents()), "CacheEntry", Identity(r.project, r.key, r.tool));
        && (result == Miss <==> found == {})
        && (result.Hit? ==> result.id in found && Fresh(old(graph.nodes), result.id, expired))
        && (result == Stale ==> staleHits == old(staleHits) + 1
                                && exists x :: x in found && !Fresh(old(graph.nodes), x, expired)
                                               && graph.nodes == old(graph.nodes) - {x})
      ensures (old(Bounded()) ==> Bounded()) && (old(Exact()) ==> Exact())
      ensures config.enabled && config.exactEnabled ==>
        match result
        case Miss => !old(HasEntry(r))
        case Hit(x) => FirstEntry(old(graph.nodes), r, x) && NotStale(old(graph.nodes)[x], expired)
        case Stale => exists x :: && FirstEntry(old(graph.nodes), r, x) && !NotStale(old(graph.nodes)[x], expired)
                                  && graph.nodes == old(graph.nodes) - {x}
    {
      hide HasEntry, NotStale, FirstEntry, Fresh, Regular, Matching, Identity, Listing;
      if !config.enabled || !config.exactEnabled {
        return Miss;
      }
      KnownIff(r);
      ghost var found := Matching(graph.Contents(), "CacheEntry", Identity(r.project, r.key, r.tool));
      var entries := graph.FindNodes("CacheEntry", Identity(r.project, r.key, r.tool));
      ExistingIffKnown(found);
      if |entries| == 0 {
        return Miss;
      }
      var x := entries[0];
      FirstListed(r);
      FreshIff(graph.nodes, x, expired);
      if Fresh(graph.nodes, x, expired) {
        return Hit(x);
      }
      RemoveStale(x);
      result := Stale;
    }

    /** A stale entry goes, and the counter forgets it unless it is reserved. */
    method RemoveStale(x: Id)
      requires x in graph.nodes && graph.nodes[x].kind == "CacheEntry"
      modifies this`exactCount, this`staleHits, graph
      ensures graph.nodes == old(graph.nodes) - {x} && staleHits == old(staleHits) + 1
      ensures (old(Bounded()) ==> Bounded()) && (old(Exact()) ==> Exact())
    {
      ghost var nodes := graph.nodes;
      var special := Special(graph.nodes[x]);
      RemoveOne(nodes, x);
      hide Regular, Special;
      graph.RemoveNodes([x]);
      assert graph.nodes == nodes - {x};
      if !special {
        ForgetEntries(1);
      }
      staleHits := staleHits + 1;
    }

    /** The graph once the entry is stored. */
    ghost function Stored(r: Request, payload: Props, newId: Id, now: string): Nodes
      requires "id" !in payload
      reads this, graph
    {
      Upserted(graph.Contents(), "CacheEntry", Identity(r.project, r.key, r.tool), payload, newId, Text(now)).nodes
    }

    ghost predicate Known(r: Request)
      reads this, graph
    {
      Matching(graph.Contents(), "CacheEntry", Identity(r.project, r.key, r.tool)) != {}
    }

    /** One more entry is counted; past the limit the graph is purged. */
    method CountNew()
      modifies this`exactCount, this`invalidations, graph
      ensures !(0 < config.maxEntries < old(exactCount) + 1)
              ==> exactCount == old(exactCount) + 1 && graph.nodes == old(graph.nodes)
      ensures 0 < config.maxEntries < old(exactCount) + 1
              ==> Exact() && exists gone :: graph.nodes == old(graph.nodes) - gone
                                            && Purged(old(graph.nodes), config.maxEntries, gone)
                                            && PurgeDone(old(graph.nodes), config.maxEntries, gone)
      ensures 0 < config.maxEntries && old(exactCount) + 1 == |Regular(old(graph.nodes))|
              ==> WithinLimit(graph.nodes, config.maxEntries)
    {
      hide PurgeDone;
      exactCount := exactCount + 1;
      if config.maxEntries > 0 && exactCount == |Regular(graph.nodes)| <= config.maxEntries {
        FewAreWithinLimit(graph.nodes, config.maxEntries);
      }
      hide Regular, WithinLimit, Purged;
      if config.maxEntries > 0 && exactCount > config.maxEntries {
        var removed, gone := PurgeExact(config.maxEntries);
      }
    }

    /** Stores an entry, and purges once the counter passes the limit. */
    method StoreExactCache(r: Request, result: Value, confidence: real, agent: string, now: string, newId: Id)
      requires newId !in graph.nodes
      modifies this`exactCount, this`invalidations, graph
      ensures !(config.enabled && config.exactEnabled)
              ==> graph.nodes == old(graph.nodes) && exactCount == old(exactCount)
                  && invalidations == old(invalidations)
      ensures config.enabled && config.exactEnabled ==>
        var stored := old(Stored(r, Payload(r, result, confidence, agent, now), newId, now));
        var purge := !old(Known(r)) && 0 < config.maxEntries < old(exactCount) + 1;
        && (!purge ==> graph.nodes == stored && exactCount == old(exactCount) + if old(Known(r)) then 0 else 1)
        && (purge ==> Exact() && exists gone :: graph.nodes == stored - gone && Purged(stored, config.maxEntries, gone))
        && |Regular(stored)| == |Regular(old(graph.nodes))| + (if old(Known(r)) || Reserved(r.tool) then 0 else 1)
        && (old(Exact()) ==> (Exact() <==> purge || old(Known(r)) || !Reserved(r.tool)))
      ensures !Reserved(r.tool) ==> (old(Bounded()) ==> Bounded()) && (old(Exact()) ==> Exact())
      ensures config.enabled && config.exactEnabled && !Reserved(r.tool) && old(Exact()) && config.maxEntries > 0
              && (!old(Known(r)) || WithinLimit(old(graph.nodes), config.maxEntries))
              ==> WithinLimit(graph.nodes, config.maxEntries)
      ensures config.enabled && config.exactEnabled
              ==> exists stored, id ::
                    && ResultStored(old(graph.nodes), r, result, confidence, agent, now, newId, stored, id)
                    && LeftOf(stored, old(HasEntry(r)) || !(0 < config.maxEntries < old(exactCount) + 1))
    {
      hide Regular, Matching, Upserted, WithinLimit, Purged, Identity, Reserved, ResultStored, HasEntry, PurgeDone;
      if !config.enabled || !config.exactEnabled {
        return;
      }
      KnownIff(r);
      var existed, id := Put(r, Payload(r, result, confidence, agent, now), newId, now);
      StoredMeans(old(graph.Contents()), r, result, confidence, agent, now, newId, graph.Contents(), id);
      hide Payload;
      ghost var stored := graph.nodes;
      if !existed {
        CountNew();
      }
      assert LeftOf(stored, old(HasEntry(r)) || !(0 < config.maxEntries < old(exactCount) + 1));
    }

    /** The graph holds an entry of the request. */
    ghost predicate HasEntry(r: Request)
      reads graph
    {
      exists x :: x in graph.nodes && IsEntryOf(graph.nodes[x], r.project, r.key, r.tool)
    }

    /** What a store leaves: everything, or what a purge keeps. */
    ghost predicate LeftOf(stored: Nodes, all: bool)
      reads graph
    {
      if all then graph.nodes == stored
      else config.maxEntries > 0 && exists gone :: graph.nodes == stored - gone
                                                   && PurgeDone(stored, config.maxEntries, gone)
    }

    lemma FirstListed(r: Request)
      requires Known(r)
      ensures var all := Listing(Matching(graph.Contents(), "CacheEntry", Identity(r.project, r.key, r.tool)));
              && all != [] && FirstEntry(graph.nodes, r, all[0]) && graph.nodes[all[0]].kind == "CacheEntry"
              && all[0] in Matching(graph.Contents(), "CacheEntry", Identity(r.project, r.key, r.tool))
    {
      hide Memory.Fits, IsEntryOf, Identity, Leq;
      var found := Matching(graph.Contents(), "CacheEntry", Identity(r.project, r.key, r.tool));
      FittingAreAll(graph.Contents(), "CacheEntry", Identity(r.project, r.key, r.tool));
      forall n: Node
        ensures Memory.Fits(n, "CacheEntry", Identity(r.project, r.key, r.tool))
                <==> IsEntryOf(n, r.project, r.key, r.tool)
      {
        IdentityFits(n, r.project, r.key, r.tool);
      }
      hide Matching;
      var y :| y in found;
      FirstIsLeast(found, y);
      forall x | x in found ensures Leq(Listing(found)[0], x) {
        FirstIsLeast(found, x);
      }
      EntryKind(graph.nodes[Listing(found)[0]], r);
    }

    static lemma EntryKind(n: Node, r: Request)
      ensures IsEntryOf(n, r.project, r.key, r.tool) ==> n.kind == "CacheEntry"
    {
    }

    lemma KnownIff(r: Request)
      ensures Known(r) <==> HasEntry(r)
    {
      hide Memory.Fits, IsEntryOf, Identity;
      FittingAreAll(graph.Contents(), "CacheEntry", Identity(r.project, r.key, r.tool));
      forall n: Node
        ensures Memory.Fits(n, "CacheEntry", Identity(r.project, r.key, r.tool))
                <==> IsEntryOf(n, r.project, r.key, r.tool)
      {
        IdentityFits(n, r.project, r.key, r.tool);
      }
      hide Matching;
      if HasEntry(r) {
        var x :| x in graph.nodes && IsEntryOf(graph.nodes[x], r.project, r.key, r.tool);
        assert x in Matching(graph.Contents(), "CacheEntry", Identity(r.project, r.key, r.tool));
      }
    }

    /** Looks for the entry, then creates or updates it. */
    method Put(r: Request, payload: Props, newId: Id, now: string) returns (existed: bool, ghost id: Id)
      requires newId !in graph.nodes && "tool_name" !in payload && "id" !in payload && "project_id" !in payload
      modifies graph
      ensures graph.nodes == old(Stored(r, payload, newId, now)) && existed == old(Known(r))
      ensures |Regular(graph.nodes)| == |Regular(old(graph.nodes))| + (if existed || Reserved(r.tool) then 0 else 1)
      ensures existed
              ==> WithinLimit(graph.nodes, config.maxEntries) == WithinLimit(old(graph.nodes), config.maxEntries)
      ensures UpsertDone(old(graph.Contents()), "CacheEntry", Identity(r.project, r.key, r.tool), payload, newId,
                         Text(now), graph.Contents(), id)
    {
      hide UpsertDone;
      var identity := Identity(r.project, r.key, r.tool);
      ghost var found := Matching(graph.Contents(), "CacheEntry", identity);
      var existing := graph.FindNodes("CacheEntry", identity);
      ExistingIffKnown(found);
      existed := |existing| > 0;
      StoredSize(graph.Contents(), r.project, r.key, r.tool, payload, newId, Text(now), config.maxEntries);
      CacheEntryIsValid();
      hide Regular, Matching, Upserted, WithinLimit, Reserved, ValidKind, Listing;
      var ok, written, _ := graph.UpsertNode("CacheEntry", identity, payload, newId, Text(now));
      id := written;
    }
  }

  // ----- inputs at which the counter goes wrong

  const STATE_TOOL := "__privacy_state__"

  function Entry(tool: string): Node {
    Node("CacheEntry", map["project_id" := Text("p"), "tool_name" := Text(tool)])
  }

  /** A result stored under a reserved tool name is counted although it is no regular entry. */
  method StoreCountsReserved(m: CacheManager, r: Request, now: string, newId: Id)
    requires m.config.enabled && m.config.exactEnabled && m.config.maxEntries <= 0
    requires m.graph.nodes == map[] && m.Exact() && r.tool == STATE_TOOL
    modifies m`exactCount, m`invalidations, m.graph
    ensures m.exactCount == |Regular(m.graph.nodes)| + 1
  {
    assert Regular(m.graph.nodes) == {} && !m.Known(r);
    hide Regular, Matching, Upserted, Identity, Payload;
    m.StoreExactCache(r, Nil, 1.0, "", now, newId);
  }

  const TWO_ENTRIES: Nodes := map["r" := Entry("find_callers"), "s" := Entry(STATE_TOOL)]

  lemma OneReserved(gone: set<Id>)
    requires gone == set x | x in TWO_ENTRIES && IsNamed(TWO_ENTRIES[x], "p", "", "", STATE_TOOL)
    ensures Regular(TWO_ENTRIES) == {"r"} && gone == {"s"} && Regular(TWO_ENTRIES - gone) == {"r"}
  {
    RegularAfterRemoval(TWO_ENTRIES, gone);
  }

  /** Invalidating a reserved entry takes one off the counter although no regular entry went. */
  method InvalidateForgetsRegular(m: CacheManager)
    requires m.graph.nodes == TWO_ENTRIES && m.Exact()
    modifies m`exactCount, m`invalidations, m.graph
    ensures m.exactCount < |Regular(m.graph.nodes)|
  {
    ghost var gone := set x | x in TWO_ENTRIES && IsNamed(TWO_ENTRIES[x], "p", "", "", STATE_TOOL);
    OneReserved(gone);
    hide Regular, IsNamed;
    m.Invalidate("p", "", "", STATE_TOOL);
    assert m.Bounded() && !m.Exact();
  }

  /** Storing adds one regular entry if the key is new, and none otherwise. */
  lemma StoredSize(c: State, project: string, key: string, tool: string, properties: Props, newId: Id, now: Value,
                   n: int)
    requires "tool_name" !in properties && "id" !in properties && "project_id" !in properties && newId !in c.nodes
    ensures var r := Upserted(c, "CacheEntry", Identity(project, key, tool), properties, newId, now).nodes;
            var known := Matching(c, "CacheEntry", Identity(project, key, tool)) != {};
            && |Regular(r)| == |Regular(c.nodes)| + (if known || Reserved(tool) then 0 else 1)
            && (known ==> WithinLimit(c.nodes, n) == WithinLimit(r, n))
  {
    UpsertedRegular(c, project, key, tool, properties, newId, now);
    assert newId !in Regular(c.nodes);
    if Matching(c, "CacheEntry", Identity(project, key, tool)) != {} {
      SameLimit(c.nodes, Upserted(c, "CacheEntry", Identity(project, key, tool), properties, newId, now).nodes, n);
    }
    hide Regular, Matching, Upserted, WithinLimit;
  }

  lemma ExistingIffKnown(found: set<Id>)
    ensures Listing(found) == [] <==> found == {}
  {
    ListingMembers(found);
    if found == {} {
      ListingEmpty(found);
    } else {
      var x :| x in found;
      assert x in Listing(found);
    }
  }

  lemma SameLimit(a: Nodes, b: Nodes, n: int)
    requires Regular(a) == Regular(b) && forall x :: Project(b, x) == Project(a, x)
    ensures WithinLimit(a, n) == WithinLimit(b, n)
  {
    hide Regular, Project;
    forall p ensures Of(a, Regular(a), p) == Of(b, Regular(b), p) {
    }
    hide Of;
  }
}
