/** The loop of `ResolveCalls`: one synchronisation per function, over the whole store. */
module CallGraph {
  import opened Order
  import opened Store
  import opened Memory
  import opened CallRule
  import opened Calls
  import opened EdgeSync

  /** The spot whose edges belong to the caller. */
  function CallsOf(f: Fn): Spot {
    Spot(f.id, "CALLS", "tree-sitter")
  }

  lemma CallsIsValid()
    ensures ValidKind("CALLS")
  {
  }

  /** The functions of a project, in id order. */
  ghost function Functions(nodes: map<Id, Node>, projectId: Value): (fns: seq<Fn>)
    ensures DistinctIds(fns) && forall i :: 0 <= i < |fns| ==> fns[i].id in nodes
  {
    var found := Matching(State(nodes, map[]), "Function", map["project_id" := projectId]);
    ListingMembers(found);
    FnsOf(nodes, Listing(found))
  }

  // ----- one synchronisation leaves the edges of other functions alone

  ghost predicate SameFrom(a: map<Id, Edge>, b: map<Id, Edge>, x: Id) {
    && (forall e :: e in a && a[e].from == x ==> e in b && b[e] == a[e])
    && (forall e :: e in b && b[e].from == x ==> e in a && a[e] == b[e])
  }

  lemma SameFromTransitive(a: map<Id, Edge>, b: map<Id, Edge>, c: map<Id, Edge>, x: Id)
    requires SameFrom(a, b, x) && SameFrom(b, c, x)
    ensures SameFrom(a, c, x)
  {
  }

  lemma SameSlice(nodes: set<Id>, p: Spot, a: map<Id, Edge>, b: map<Id, Edge>, want: set<Id>)
    requires SameFrom(a, b, p.from)
    ensures TargetsOf(nodes, p, a) == TargetsOf(nodes, p, b) && TheirTargets(nodes, p, a) == TheirTargets(nodes, p, b)
    ensures OnePerTarget(nodes, p, a) == OnePerTarget(nodes, p, b)
            && UpToDate(nodes, p, a, want) == UpToDate(nodes, p, b, want)
  {
    hide Stamped;
    HalfSlice(nodes, p, a, b);
    HalfSlice(nodes, p, b, a);
  }

  lemma HalfSlice(nodes: set<Id>, p: Spot, a: map<Id, Edge>, b: map<Id, Edge>)
    requires SameFrom(a, b, p.from)
    ensures TargetsOf(nodes, p, a) <= TargetsOf(nodes, p, b) && TheirTargets(nodes, p, a) <= TheirTargets(nodes, p, b)
    ensures OnePerTarget(nodes, p, b) ==> OnePerTarget(nodes, p, a)
  {
    hide Stamped;
    forall e | e in a && Seen(nodes, p, a[e]) ensures e in b && b[e] == a[e] {
    }
  }

  lemma SyncedElsewhere(nodes: set<Id>, p: Spot, before: map<Id, Edge>, after: map<Id, Edge>, want: set<Id>, x: Id)
    requires Synced(nodes, p, before, after, want) && x != p.from
    ensures SameFrom(before, after, x)
  {
    hide Stamped, OnePerTarget, TargetsOf;
  }

  // ----- the whole run

  /** The function's targets are the desired ones and those of edges from other sources. */
  ghost predicate Resolved(nodes: set<Id>, s: Scope, f: Fn, was: map<Id, Edge>, now: map<Id, Edge>) {
    && TargetsOf(nodes, CallsOf(f), now) == Desired(s, f) + TheirTargets(nodes, CallsOf(f), was)
    && TheirTargets(nodes, CallsOf(f), now) == TheirTargets(nodes, CallsOf(f), was)
    && OnePerTarget(nodes, CallsOf(f), now) && NoneUnwanted(nodes, s, f, now)
  }

  ghost predicate NoneUnwanted(nodes: set<Id>, s: Scope, f: Fn, edges: map<Id, Edge>) {
    forall e :: e in edges && Ours(nodes, CallsOf(f), edges[e]) ==> edges[e].to in Desired(s, f)
  }

  ghost predicate Owned(nodes: set<Id>, fns: seq<Fn>, e: Edge) {
    exists k :: 0 <= k < |fns| && Ours(nodes, CallsOf(fns[k]), e)
  }

  /** The edge leads to a desired target and carries the best confidence of the calls that mean it. */
  ghost predicate Rated(s: Scope, f: Fn, e: Edge) {
    e.to in Desired(s, f) && exists c :: BestUpto(s, f, |f.calls|, e.to, c) && e.props == LinkProps(CallsOf(f), c)
  }

  ghost predicate Made(s: Scope, fns: seq<Fn>, id: Id, e: Edge) {
    exists k :: 0 <= k < |fns| && IsNew(CallsOf(fns[k]), id, e) && Rated(s, fns[k], e)
  }

  /** What one round leaves is as before or new with its confidence. */
  ghost predicate RatedAll(s: Scope, f: Fn, now: map<Id, Edge>, next: map<Id, Edge>) {
    forall e :: e in next ==> (e in now && next[e] == now[e]) || Rated(s, f, next[e])
  }

  /** Edges that are not tree-sitter CALLS edges of these functions stay as they are. */
  ghost predicate OthersKept(nodes: set<Id>, s: Scope, fns: seq<Fn>, was: map<Id, Edge>, now: map<Id, Edge>) {
    && (forall e :: e in was && !Owned(nodes, fns, was[e]) ==> e in now && now[e] == was[e])
    && (forall e :: e in now ==> (e in was && now[e] == was[e]) || Made(s, fns, e, now[e]))
  }

  lemma OthersKeptStep(nodes: set<Id>, s: Scope, fns: seq<Fn>, f: Fn, was: map<Id, Edge>, now: map<Id, Edge>,
                       next: map<Id, Edge>)
    requires OthersKept(nodes, s, fns, was, now) && Synced(nodes, CallsOf(f), now, next, Desired(s, f))
    requires RatedAll(s, f, now, next)
    ensures OthersKept(nodes, s, fns + [f], was, next)
  {
    hide Ours, IsNew, CallsOf, OnePerTarget, TargetsOf, Rated, Desired;
    var more := fns + [f];
    forall e: Edge ensures Owned(nodes, more, e) <== Owned(nodes, fns, e) || Ours(nodes, CallsOf(f), e) {
      if Owned(nodes, fns, e) {
        var k :| 0 <= k < |fns| && Ours(nodes, CallsOf(fns[k]), e);
        assert more[k] == fns[k];
      }
      if Ours(nodes, CallsOf(f), e) {
        assert more[|fns|] == f;
      }
    }
    forall id, e: Edge
      ensures Made(s, more, id, e) <== Made(s, fns, id, e) || (IsNew(CallsOf(f), id, e) && Rated(s, f, e))
    {
      if Made(s, fns, id, e) {
        var k :| 0 <= k < |fns| && IsNew(CallsOf(fns[k]), id, e) && Rated(s, fns[k], e);
        assert more[k] == fns[k];
      }
      if IsNew(CallsOf(f), id, e) && Rated(s, f, e) {
        assert more[|fns|] == f;
      }
    }
    hide Owned, Made;
  }

  ghost function IdsOf(fns: seq<Fn>): set<Id> {
    set f | f in fns :: f.id
  }

  lemma NextId(fns: seq<Fn>, i: nat)
    requires i < |fns| && DistinctIds(fns)
    ensures IdsOf(fns[..i + 1]) == IdsOf(fns[..i]) + {fns[i].id} && fns[i].id !in IdsOf(fns[..i])
  {
    assert fns[..i + 1] == fns[..i] + [fns[i]];
    forall f | f in fns[..i] ensures f.id != fns[i].id {
      var k :| 0 <= k < i && fns[..i][k] == f;
    }
  }

  /** What holds after the first i functions. */
  ghost predicate Progress(nodes: set<Id>, s: Scope, i: nat, was: map<Id, Edge>, now: map<Id, Edge>)
    requires i <= |s.fns|
  {
    && (forall k :: 0 <= k < i ==> Resolved(nodes, s, s.fns[k], was, now))
    && (forall x :: x !in IdsOf(s.fns[..i]) ==> SameFrom(was, now, x))
    && OthersKept(nodes, s, s.fns[..i], was, now)
  }

  lemma ProgressStep(nodes: set<Id>, s: Scope, i: nat, was: map<Id, Edge>, now: map<Id, Edge>, next: map<Id, Edge>)
    requires i < |s.fns| && DistinctIds(s.fns) && Progress(nodes, s, i, was, now)
    requires forall k :: 0 <= k < |s.fns| ==> s.fns[k].id in nodes
    requires Synced(nodes, CallsOf(s.fns[i]), now, next, Desired(s, s.fns[i])) && RatedAll(s, s.fns[i], now, next)
    ensures Progress(nodes, s, i + 1, was, next)
  {
    hide RatedAll, Desired;
    var f := s.fns[i];
    OthersKeptStep(nodes, s, s.fns[..i], f, was, now, next);
    assert s.fns[..i + 1] == s.fns[..i] + [f];
    NextId(s.fns, i);
    hide Synced, SameFrom, OthersKept, Resolved, IdsOf;
    forall x | x != f.id ensures SameFrom(now, next, x) {
      SyncedElsewhere(nodes, CallsOf(f), now, next, Desired(s, f), x);
    }
    hide CallsOf;
    forall k | 0 <= k < i ensures Resolved(nodes, s, s.fns[k], was, next) {
      assert s.fns[k].id != f.id;
      ResolvedStays(nodes, s, s.fns[k], was, now, next);
    }
    ResolvedNow(nodes, s, f, was, now, next);
    forall x | SameFrom(was, now, x) && x != f.id ensures SameFrom(was, next, x) {
      SameFromTransitive(was, now, next, x);
    }
  }

  lemma ResolvedStays(nodes: set<Id>, s: Scope, f: Fn, was: map<Id, Edge>, now: map<Id, Edge>, next: map<Id, Edge>)
    requires Resolved(nodes, s, f, was, now) && SameFrom(now, next, f.id)
    ensures Resolved(nodes, s, f, was, next)
  {
    hide Desired, OnePerTarget, TargetsOf, TheirTargets, Stamped;
    SameSlice(nodes, CallsOf(f), now, next, {});
  }

  lemma ResolvedNow(nodes: set<Id>, s: Scope, f: Fn, was: map<Id, Edge>, now: map<Id, Edge>, next: map<Id, Edge>)
    requires (forall k :: 0 <= k < |s.fns| ==> s.fns[k].id in nodes) && SameFrom(was, now, f.id)
    requires Synced(nodes, CallsOf(f), now, next, Desired(s, f))
    ensures Resolved(nodes, s, f, was, next)
  {
    assert OnePerTarget(nodes, CallsOf(f), next) && NoneUnwanted(nodes, s, f, next);
    hide SameFrom, Synced, Desired, OnePerTarget, TargetsOf, TheirTargets, NoneUnwanted;
    SameSlice(nodes, CallsOf(f), was, now, {});
    DesiredAreFunctions(s, f);
    SyncedTargets(nodes, CallsOf(f), now, next, Desired(s, f));
  }

  /** Nothing to do for any function. */
  ghost predicate AllUpToDate(nodes: set<Id>, s: Scope, edges: map<Id, Edge>) {
    forall k :: 0 <= k < |s.fns| ==> UpToDate(nodes, CallsOf(s.fns[k]), edges, Desired(s, s.fns[k]))
  }

  /** Without edges from other sources a run leaves nothing to do for the next one. */
  lemma ResolvedIsUpToDate(nodes: set<Id>, s: Scope, was: map<Id, Edge>, now: map<Id, Edge>)
    requires forall k :: 0 <= k < |s.fns| ==> Resolved(nodes, s, s.fns[k], was, now)
    requires forall k :: 0 <= k < |s.fns| ==> TheirTargets(nodes, CallsOf(s.fns[k]), was) == {}
    ensures AllUpToDate(nodes, s, now)
  {
    hide TargetsOf, TheirTargets, OnePerTarget, Desired;
  }

  // ----- the result, edge by edge

  /** f is what is recorded on the node, a function of the project. */
  predicate RecordedOn(n: Node, projectId: Value, f: Fn) {
    && n.kind == "Function" && projectId == (if "project_id" in n.props then n.props["project_id"] else Nil)
    && HasText(n, "name", f.name) && HasText(n, "owner", f.owner) && HasText(n, "path", f.path)
    && f.calls == if "calls" in n.props && n.props["calls"].Texts? then n.props["calls"].items else []
  }

  lemma RecordedIff(id: Id, n: Node, projectId: Value, f: Fn)
    ensures f.id == id && RecordedOn(n, projectId, f)
            <==> Matches(n, "Function", map["project_id" := projectId]) && f == FnOf(id, n)
  {
    var filter: Props := map["project_id" := projectId];
    assert Matches(n, "Function", filter) <==> n.kind == "Function" && Get(n.props, "project_id") == projectId by {
      assert filter["project_id"] == projectId;
    }
  }

  lemma FunctionsAre(nodes: map<Id, Node>, projectId: Value)
    ensures forall f :: f in Functions(nodes, projectId) <==> f.id in nodes && RecordedOn(nodes[f.id], projectId, f)
  {
    hide RecordedOn, Matches;
    var found := Matching(State(nodes, map[]), "Function", map["project_id" := projectId]);
    var ids := Listing(found);
    ListingMembers(found);
    forall f ensures f in Functions(nodes, projectId) <==> f.id in nodes && RecordedOn(nodes[f.id], projectId, f) {
      if f.id in nodes {
        RecordedIff(f.id, nodes[f.id], projectId, f);
      }
      FnsOfAt(nodes, ids, f);
    }
  }

  lemma FnsOfAt(nodes: map<Id, Node>, ids: seq<Id>, f: Fn)
    requires forall x :: x in ids ==> x in nodes
    ensures f in FnsOf(nodes, ids) <==> f.id in ids && f == FnOf(f.id, nodes[f.id])
  {
    hide FnOf;
    forall k | 0 <= k < |ids| ensures FnsOf(nodes, ids)[k] == FnOf(ids[k], nodes[ids[k]]) {
    }
    FnOfId();
    if f.id in ids {
      var k :| 0 <= k < |ids| && ids[k] == f.id;
      assert FnsOf(nodes, ids)[k] == FnOf(f.id, nodes[f.id]);
    }
  }

  lemma FnOfId()
    ensures forall id, n: Node :: FnOf(id, n).id == id
  {
  }

  predicate FromTreeSitter(e: Edge) {
    "source" in e.props && e.props["source"] == Text("tree-sitter")
  }

  /** A CALLS edge of one of the functions to a stored node. */
  ghost predicate IsCall(nodes: set<Id>, s: Scope, e: Edge) {
    e.kind == "CALLS" && e.to in nodes && exists f :: f in s.fns && f.id == e.from
  }

  predicate CallTo(e: Edge, from: Id, to: Id) {
    e.kind == "CALLS" && e.from == from && e.to == to
  }

  /** A new edge: from a function to a wanted target, with the best rating of the calls that mean it. */
  ghost predicate NewCall(s: Scope, id: Id, e: Edge) {
    exists f, c :: f in s.fns && Wanted(s, f, e.to) && BestRating(s, f, e.to, c)
                   && e == Edge(id, "CALLS", f.id, e.to, map["source" := Text("tree-sitter"), "confidence" := Real(c)])
  }

  ghost predicate WantedCall(s: Scope, e: Edge) {
    exists f :: f in s.fns && f.id == e.from && Wanted(s, f, e.to)
  }

  ghost predicate Called(s: Scope, f: Fn, t: Id, was: map<Id, Edge>, now: map<Id, Edge>) {
    (exists e :: e in now && CallTo(now[e], f.id, t))
    <==> Wanted(s, f, t) || exists e :: e in was && CallTo(was[e], f.id, t) && !FromTreeSitter(was[e])
  }

  /** What a resolution leaves. A function has an edge to a node exactly if it wants the node or had an edge
      from another source to it; of its own edges one to each wanted node at most is left; all other edges stay. */
  ghost predicate CallsAfter(nodes: set<Id>, s: Scope, was: map<Id, Edge>, now: map<Id, Edge>) {
    && (forall f, t :: f in s.fns && t in nodes ==> Called(s, f, t, was, now))
    && (forall e :: e in was && !(IsCall(nodes, s, was[e]) && FromTreeSitter(was[e])) ==> e in now && now[e] == was[e])
    && (forall e :: e in now ==> (e in was && now[e] == was[e]) || NewCall(s, e, now[e]))
    && (forall e :: e in now && IsCall(nodes, s, now[e]) && FromTreeSitter(now[e]) ==> WantedCall(s, now[e]))
    && (forall e, d :: (&& e in now && IsCall(nodes, s, now[e]) && FromTreeSitter(now[e])
                        && d in now && CallTo(now[d], now[e].from, now[e].to) && FromTreeSitter(now[d]))
                       ==> d == e)
  }

  lemma StampedByTreeSitter(f: Fn, e: Edge)
    ensures Stamped(CallsOf(f), e) <==> FromTreeSitter(e)
  {
  }

  lemma OursAreCalls(nodes: set<Id>, f: Fn, e: Edge)
    ensures Seen(nodes, CallsOf(f), e) <==> e.to in nodes && CallTo(e, f.id, e.to)
    ensures Ours(nodes, CallsOf(f), e) <==> e.to in nodes && CallTo(e, f.id, e.to) && FromTreeSitter(e)
    ensures Theirs(nodes, CallsOf(f), e) <==> e.to in nodes && CallTo(e, f.id, e.to) && !FromTreeSitter(e)
  {
    StampedByTreeSitter(f, e);
    hide Stamped, FromTreeSitter;
  }

  lemma CalledIff(nodes: set<Id>, s: Scope, f: Fn, t: Id, was: map<Id, Edge>, now: map<Id, Edge>)
    requires DistinctIds(s.fns) && f in s.fns && t in nodes && Resolved(nodes, s, f, was, now)
    ensures Called(s, f, t, was, now)
  {
    DesiredMeans(s, f);
    hide Desired, Wanted, OnePerTarget, NoneUnwanted, FromTreeSitter, CallTo, Seen, Theirs, DistinctIds;
    forall e: Edge
      ensures Seen(nodes, CallsOf(f), e) && e.to == t <==> CallTo(e, f.id, t)
      ensures Theirs(nodes, CallsOf(f), e) && e.to == t <==> CallTo(e, f.id, t) && !FromTreeSitter(e)
    {
      CallToAt(e, f.id, t);
      OursAreCalls(nodes, f, e);
    }
    hide CallsOf;
    assert t in TargetsOf(nodes, CallsOf(f), now) <==> exists e :: e in now && CallTo(now[e], f.id, t);
    assert t in TheirTargets(nodes, CallsOf(f), was)
           <==> exists e :: e in was && CallTo(was[e], f.id, t) && !FromTreeSitter(was[e]);
  }

  lemma CallToAt(e: Edge, from: Id, to: Id)
    ensures CallTo(e, from, to) ==> e.to == to
  {
  }

  lemma OwnedIsCall(nodes: set<Id>, s: Scope, e: Edge)
    ensures Owned(nodes, s.fns, e) <==> IsCall(nodes, s, e) && FromTreeSitter(e)
  {
    hide Ours, FromTreeSitter;
    forall f: Fn ensures Ours(nodes, CallsOf(f), e) <==> e.to in nodes && CallTo(e, f.id, e.to) && FromTreeSitter(e) {
      OursAreCalls(nodes, f, e);
    }
    if f :| f in s.fns && f.id == e.from {
      var k :| 0 <= k < |s.fns| && s.fns[k] == f;
      assert Ours(nodes, CallsOf(s.fns[k]), e) == Ours(nodes, CallsOf(f), e);
    }
  }

  lemma MadeIsNew(s: Scope, id: Id, e: Edge)
    requires DistinctIds(s.fns) && Made(s, s.fns, id, e)
    ensures NewCall(s, id, e)
  {
    hide Desired, Wanted, BestUpto, BestRating, DistinctIds, Stamped;
    var k :| 0 <= k < |s.fns| && IsNew(CallsOf(s.fns[k]), id, e) && Rated(s, s.fns[k], e);
    var f := s.fns[k];
    DesiredMeans(s, f);
    var c :| BestUpto(s, f, |f.calls|, e.to, c) && e.props == LinkProps(CallsOf(f), c);
    BestMeans(s, f, e.to, c);
  }

  lemma OwnAreWanted(nodes: set<Id>, s: Scope, f: Fn, was: map<Id, Edge>, now: map<Id, Edge>, e: Id)
    requires DistinctIds(s.fns) && f in s.fns && Resolved(nodes, s, f, was, now)
    requires e in now && now[e].from == f.id && IsCall(nodes, s, now[e]) && FromTreeSitter(now[e])
    ensures WantedCall(s, now[e])
    ensures forall d :: d in now && CallTo(now[d], f.id, now[e].to) && FromTreeSitter(now[d]) ==> d == e
  {
    DesiredMeans(s, f);
    hide Desired, Wanted, DistinctIds, FromTreeSitter, Ours, TargetsOf, TheirTargets;
    forall d: Edge ensures Ours(nodes, CallsOf(f), d) <==> d.to in nodes && CallTo(d, f.id, d.to) && FromTreeSitter(d) {
      OursAreCalls(nodes, f, d);
    }
    hide CallsOf;
  }

  lemma ResolvedMeans(nodes: set<Id>, s: Scope, was: map<Id, Edge>, now: map<Id, Edge>)
    requires DistinctIds(s.fns) && OthersKept(nodes, s, s.fns, was, now)
    requires forall k :: 0 <= k < |s.fns| ==> Resolved(nodes, s, s.fns[k], was, now)
    ensures CallsAfter(nodes, s, was, now)
  {
    hide Resolved, Called, Owned, Made, NewCall, IsCall, FromTreeSitter, WantedCall, DistinctIds, CallTo;
    forall f, t | f in s.fns && t in nodes ensures Called(s, f, t, was, now) {
      CalledIff(nodes, s, f, t, was, now);
    }
    forall e: Edge ensures Owned(nodes, s.fns, e) <==> IsCall(nodes, s, e) && FromTreeSitter(e) {
      OwnedIsCall(nodes, s, e);
    }
    forall id, e: Edge | Made(s, s.fns, id, e) ensures NewCall(s, id, e) {
      MadeIsNew(s, id, e);
    }
    forall e | e in now && IsCall(nodes, s, now[e]) && FromTreeSitter(now[e])
      ensures WantedCall(s, now[e])
      ensures forall d :: d in now && CallTo(now[d], now[e].from, now[e].to) && FromTreeSitter(now[d]) ==> d == e
    {
      var f := CallerOf(nodes, s, now[e]);
      OwnAreWanted(nodes, s, f, was, now, e);
    }
  }

  lemma CallerOf(nodes: set<Id>, s: Scope, e: Edge) returns (f: Fn)
    requires IsCall(nodes, s, e)
    ensures f in s.fns && f.id == e.from
  {
    f :| f in s.fns && f.id == e.from;
  }

  // ----- the methods

  /** The functions of the project, as the repository lists them. */
  method LoadFunctions(repo: MemoryRepository, projectId: Value) returns (fns: seq<Fn>)
    ensures fns == Functions(repo.nodes, projectId)
  {
    var filter: Props := map["project_id" := projectId];
    var ids := repo.FindNodes("Function", filter);
    ghost var found := Matching(State(repo.nodes, map[]), "Function", filter);
    assert Matching(repo.Contents(), "Function", filter) == found;
    ListingMembers(found);
    fns := FnsOf(repo.nodes, ids);
  }

  lemma RatedSo(s: Scope, f: Fn, now: map<Id, Edge>, next: map<Id, Edge>, desired: map<Id, real>)
    requires WithConfidence(CallsOf(f), now, next, desired) && desired.Keys == Desired(s, f)
    requires forall t :: t in desired ==> BestUpto(s, f, |f.calls|, t, desired[t])
    ensures RatedAll(s, f, now, next)
  {
    hide BestUpto, Desired;
  }

  /** One round of the loop: the edges of caller i are synchronised. */
  method ResolveOne(repo: MemoryRepository, m: Maps, s: Scope, i: nat, freshId: set<Id> -> Id, ghost was: map<Id, Edge>)
    requires Keyed(repo.Contents()) && (forall used :: freshId(used) !in used) && MapsOf(m, s.fns)
    requires i < |s.fns| && DistinctIds(s.fns) && forall k :: 0 <= k < |s.fns| ==> s.fns[k].id in repo.nodes
    requires Progress(repo.nodes.Keys, s, i, was, repo.edges)
    modifies repo
    ensures repo.nodes == old(repo.nodes) && Keyed(repo.Contents())
    ensures Progress(repo.nodes.Keys, s, i + 1, was, repo.edges)
    ensures AllUpToDate(repo.nodes.Keys, s, old(repo.edges))
            ==> repo.edges == old(repo.edges) && repo.generation == old(repo.generation)
  {
    CallsIsValid();
    ghost var nodes, now := repo.nodes.Keys, repo.edges;
    hide Progress, Synced, UpToDate, Desired, MapsOf, ValidKind, BestUpto, Wanted, BestRating, RatedAll;
    var desired := DesiredOf(m, s, s.fns[i]);
    SyncEdgesAs(repo, CallsOf(s.fns[i]), desired, freshId);
    RatedSo(s, s.fns[i], now, repo.edges, desired);
    ProgressStep(nodes, s, i, was, now, repo.edges);
  }

  /** `ResolveCalls`: afterwards the CALLS edges of every function are what the recorded names ask for. */
  method ResolveCalls(repo: MemoryRepository, projectId: Value, group: string -> string, freshId: set<Id> -> Id)
    requires Keyed(repo.Contents()) && forall used :: freshId(used) !in used
    modifies repo
    ensures repo.nodes == old(repo.nodes) && Keyed(repo.Contents())
    ensures var s := Scope(Functions(repo.nodes, projectId), group);
            && (forall k :: 0 <= k < |s.fns| ==> Resolved(repo.nodes.Keys, s, s.fns[k], old(repo.edges), repo.edges))
            && OthersKept(repo.nodes.Keys, s, s.fns, old(repo.edges), repo.edges)
            && (AllUpToDate(repo.nodes.Keys, s, old(repo.edges))
                ==> repo.edges == old(repo.edges) && repo.generation == old(repo.generation))
    ensures CallsAfter(repo.nodes.Keys, Scope(Functions(repo.nodes, projectId), group), old(repo.edges), repo.edges)
    ensures forall f :: f in Functions(repo.nodes, projectId)
                        <==> f.id in repo.nodes && RecordedOn(repo.nodes[f.id], projectId, f)
  {
    hide RecordedOn, CallsAfter;
    ghost var nodes, was := repo.nodes.Keys, repo.edges;
    var fns := LoadFunctions(repo, projectId);
    var s := Scope(fns, group);
    var m := BuildMaps(fns);
    assert Progress(nodes, s, 0, was, repo.edges);
    hide Progress, AllUpToDate, MapsOf, Functions, Resolved, OthersKept;
    for i := 0 to |fns|
      invariant repo.nodes == old(repo.nodes) && Keyed(repo.Contents()) && Progress(nodes, s, i, was, repo.edges)
      invariant AllUpToDate(nodes, s, was) ==> repo.edges == was && repo.generation == old(repo.generation)
    {
      ResolveOne(repo, m, s, i, freshId, was);
    }
    ProgressDone(nodes, s, was, repo.edges);
    ResolvedMeans(nodes, s, was, repo.edges);
    FunctionsAre(repo.nodes, projectId);
  }

  lemma ProgressDone(nodes: set<Id>, s: Scope, was: map<Id, Edge>, now: map<Id, Edge>)
    requires Progress(nodes, s, |s.fns|, was, now)
    ensures forall k :: 0 <= k < |s.fns| ==> Resolved(nodes, s, s.fns[k], was, now)
    ensures OthersKept(nodes, s, s.fns, was, now)
  {
    assert s.fns[..|s.fns|] == s.fns;
    hide Resolved, OthersKept, SameFrom;
  }
}
