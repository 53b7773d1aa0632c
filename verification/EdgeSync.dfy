/** `syncEdgesAs` and the loop of `ResolveCalls` over the in-memory store. */
module EdgeSync {
  import opened Order
  import opened Store
  import opened Memory

  /** Which edges one synchronisation looks at: those of a kind leaving a node, stamped by a source. */
  datatype Spot = Spot(from: Id, kind: string, source: string)

  /** An edge of the spot whose target exists. */
  predicate Seen(nodes: set<Id>, p: Spot, e: Edge) {
    e.from == p.from && e.kind == p.kind && e.to in nodes
  }

  predicate Stamped(p: Spot, e: Edge) {
    StrProp(Node("", e.props), "source") == p.source
  }

  predicate Ours(nodes: set<Id>, p: Spot, e: Edge) {
    Seen(nodes, p, e) && Stamped(p, e)
  }

  predicate Theirs(nodes: set<Id>, p: Spot, e: Edge) {
    Seen(nodes, p, e) && !Stamped(p, e)
  }

  ghost function TargetsOf(nodes: set<Id>, p: Spot, edges: map<Id, Edge>): set<Id> {
    set e | e in edges && Seen(nodes, p, edges[e]) :: edges[e].to
  }

  ghost function TheirTargets(nodes: set<Id>, p: Spot, edges: map<Id, Edge>): set<Id> {
    set e | e in edges && Theirs(nodes, p, edges[e]) :: edges[e].to
  }

  /** At most one edge of ours per target. */
  ghost predicate OnePerTarget(nodes: set<Id>, p: Spot, edges: map<Id, Edge>) {
    forall e, f :: (e in edges && f in edges && Ours(nodes, p, edges[e]) && Ours(nodes, p, edges[f])
                    && edges[e].to == edges[f].to)
                   ==> e == f
  }

  /** An edge that a synchronisation creates. */
  predicate IsNew(p: Spot, e: Id, edge: Edge) {
    edge.id == e && edge.from == p.from && edge.kind == p.kind && Stamped(p, edge)
  }

  /** What a new edge is stamped with. */
  function LinkProps(p: Spot, confidence: real): Props {
    map["source" := Text(p.source), "confidence" := Real(confidence)]
  }

  /** An edge is as it was, or a new one with the confidence of its target. */
  ghost predicate WithConfidence(p: Spot, before: map<Id, Edge>, after: map<Id, Edge>, desired: map<Id, real>) {
    forall e :: e in after ==> (e in before && after[e] == before[e])
                               || (after[e].to in desired && after[e].props == LinkProps(p, desired[after[e].to]))
  }

  /** The edges after a synchronisation to the wanted targets. */
  ghost predicate Synced(nodes: set<Id>, p: Spot, before: map<Id, Edge>, after: map<Id, Edge>, want: set<Id>) {
    && (forall e :: e in before && !Ours(nodes, p, before[e]) ==> e in after && after[e] == before[e])
    && (forall e :: e in after ==> (e in before && after[e] == before[e])
                                        || (IsNew(p, e, after[e]) && after[e].to in want))
    && (forall e :: e in after && Ours(nodes, p, after[e]) ==> after[e].to in want)
    && OnePerTarget(nodes, p, after)
    && (forall t :: t in want && t in nodes ==> t in TargetsOf(nodes, p, after))
  }

  /** Nothing to do: no foreign edges, and exactly one edge of ours to each wanted target. */
  ghost predicate UpToDate(nodes: set<Id>, p: Spot, edges: map<Id, Edge>, want: set<Id>) {
    && TheirTargets(nodes, p, edges) == {}
    && TargetsOf(nodes, p, edges) == want
    && OnePerTarget(nodes, p, edges)
  }

  // ----- consequences

  /** The targets are exactly the wanted ones and those of edges from other sources. */
  lemma SyncedTargets(nodes: set<Id>, p: Spot, before: map<Id, Edge>, after: map<Id, Edge>, want: set<Id>)
    requires Synced(nodes, p, before, after, want) && want <= nodes
    ensures TargetsOf(nodes, p, after) == want + TheirTargets(nodes, p, before)
    ensures TheirTargets(nodes, p, after) == TheirTargets(nodes, p, before)
  {
    forall t ensures t in TheirTargets(nodes, p, after) <==> t in TheirTargets(nodes, p, before) {
      if t in TheirTargets(nodes, p, after) {
        var e :| e in after && Theirs(nodes, p, after[e]) && after[e].to == t;
        assert e in before;
      }
      if t in TheirTargets(nodes, p, before) {
        var e :| e in before && Theirs(nodes, p, before[e]) && before[e].to == t;
        assert e in after;
      }
    }
    forall t ensures t in TargetsOf(nodes, p, after) <==> t in want || t in TheirTargets(nodes, p, after) {
      if t in TargetsOf(nodes, p, after) {
        var e :| e in after && Seen(nodes, p, after[e]) && after[e].to == t;
        assert Ours(nodes, p, after[e]) || Theirs(nodes, p, after[e]);
      }
    }
  }

  /** Without edges from other sources a synchronisation leaves nothing for the next one. */
  lemma SyncedUpToDate(nodes: set<Id>, p: Spot, before: map<Id, Edge>, after: map<Id, Edge>, want: set<Id>)
    requires Synced(nodes, p, before, after, want) && want <= nodes && TheirTargets(nodes, p, before) == {}
    ensures UpToDate(nodes, p, after, want)
  {
    SyncedTargets(nodes, p, before, after, want);
  }

  // ----- the loop over the neighbours

  predicate Stays(p: Spot, h: EdgeNode, stale: set<Id>) {
    Stamped(p, h.edge) && h.edge.id !in stale
  }

  /** What is known after looking at the first i hits: `have` and the stale edge ids. */
  ghost predicate Sifted(hits: seq<EdgeNode>, i: nat, p: Spot, want: set<Id>, have: set<Id>, stale: set<Id>)
    requires i <= |hits|
  {
    && (forall k :: 0 <= k < i && !Stamped(p, hits[k].edge) ==> hits[k].id in have)
    && (forall k :: 0 <= k < i && Stays(p, hits[k], stale) ==> hits[k].id in want && hits[k].id in have)
    && (forall k, l :: 0 <= k < l < i && Stays(p, hits[k], stale) && Stays(p, hits[l], stale)
                       ==> hits[k].id != hits[l].id)
    && (forall s :: s in stale ==> exists k :: 0 <= k < i && hits[k].edge.id == s && Stamped(p, hits[k].edge))
    && (forall t :: t in have ==> Holds(hits, i, p, stale, t))
  }

  /** Some looked-at edge to t stays. */
  ghost predicate Holds(hits: seq<EdgeNode>, i: nat, p: Spot, stale: set<Id>, t: Id)
    requires i <= |hits|
  {
    exists k :: 0 <= k < i && hits[k].id == t && (!Stamped(p, hits[k].edge) || Stays(p, hits[k], stale))
  }

  ghost predicate DistinctHits(hits: seq<EdgeNode>) {
    forall k, l :: 0 <= k < l < |hits| ==> hits[k].edge.id != hits[l].edge.id
  }

  lemma SiftTheirs(hits: seq<EdgeNode>, i: nat, p: Spot, want: set<Id>, have: set<Id>, stale: set<Id>)
    requires i < |hits| && Sifted(hits, i, p, want, have, stale) && !Stamped(p, hits[i].edge)
    ensures Sifted(hits, i + 1, p, want, have + {hits[i].id}, stale)
  {
    hide Stamped;
    forall t | t in have ensures Holds(hits, i + 1, p, stale, t) {
      assert Holds(hits, i, p, stale, t);
    }
  }

  lemma SiftStale(hits: seq<EdgeNode>, i: nat, p: Spot, want: set<Id>, have: set<Id>, stale: set<Id>)
    requires i < |hits| && Sifted(hits, i, p, want, have, stale) && Stamped(p, hits[i].edge) && DistinctHits(hits)
    ensures Sifted(hits, i + 1, p, want, have, stale + {hits[i].edge.id})
  {
    hide Stamped;
    assert forall k :: 0 <= k < i ==> hits[k].edge.id != hits[i].edge.id;
    forall t | t in have ensures Holds(hits, i + 1, p, stale + {hits[i].edge.id}, t) {
      assert Holds(hits, i, p, stale, t);
      var k :| 0 <= k < i && hits[k].id == t && (!Stamped(p, hits[k].edge) || Stays(p, hits[k], stale));
      assert hits[k].edge.id != hits[i].edge.id;
    }
  }

  lemma SiftKept(hits: seq<EdgeNode>, i: nat, p: Spot, want: set<Id>, have: set<Id>, stale: set<Id>)
    requires i < |hits| && Sifted(hits, i, p, want, have, stale) && Stamped(p, hits[i].edge) && DistinctHits(hits)
    requires hits[i].id in want && hits[i].id !in have
    ensures Sifted(hits, i + 1, p, want, have + {hits[i].id}, stale)
  {
    hide Stamped;
    assert hits[i].edge.id !in stale by {
      assert forall k :: 0 <= k < i ==> hits[k].edge.id != hits[i].edge.id;
    }
    forall t | t in have ensures Holds(hits, i + 1, p, stale, t) {
      assert Holds(hits, i, p, stale, t);
    }
  }

  // ----- which edge stays depends on the order of the hits

  /** The targets taken care of and the stale edges after looking at the hits in this order. */
  function Sift(hits: seq<EdgeNode>, p: Spot, want: set<Id>): (set<Id>, set<Id>) {
    if hits == [] then ({}, {})
    else
      var (have, stale) := Sift(hits[..|hits| - 1], p, want);
      var h := hits[|hits| - 1];
      if !Stamped(p, h.edge) then (have + {h.id}, stale)
      else if h.id !in want || h.id in have then (have, stale + {h.edge.id})
      else (have + {h.id}, stale)
  }

  predicate Reordered(a: seq<EdgeNode>, b: seq<EdgeNode>) {
    multiset(a) == multiset(b)
  }

  /** Two edges lead to one wanted target, at least one of them stamped. */
  predicate Contested(p: Spot, want: set<Id>, x: EdgeNode, y: EdgeNode) {
    x != y && x.id == y.id && x.id in want && Stamped(p, x.edge)
  }

  ghost predicate NoContest(hits: seq<EdgeNode>, p: Spot, want: set<Id>) {
    forall x, y :: x in hits && y in hits ==> !Contested(p, want, x, y)
  }

  /** Exactly the stamped edges to unwanted targets. */
  ghost predicate OnlyUnwanted(hits: seq<EdgeNode>, p: Spot, want: set<Id>, stale: set<Id>) {
    forall s :: s in stale <==> exists x :: x in hits && x.edge.id == s && Stamped(p, x.edge) && x.id !in want
  }

  /** Without contested targets the stale edges do not depend on the order. */
  lemma {:induction false} UncontestedStale(hits: seq<EdgeNode>, p: Spot, want: set<Id>)
    requires NoContest(hits, p, want) && Distinct(hits)
    ensures OnlyUnwanted(hits, p, want, Sift(hits, p, want).1)
    ensures forall t :: t in Sift(hits, p, want).0 ==> exists x :: x in hits && x.id == t
  {
    hide Stamped;
    if hits != [] {
      var n := |hits| - 1;
      var rest, h := hits[..n], hits[n];
      assert hits == rest + [h];
      UncontestedStale(rest, p, want);
      var (have, stale) := Sift(rest, p, want);
      assert h !in rest;
      assert h.id in have && Stamped(p, h.edge) ==> h.id !in want by {
        if h.id in have {
          var x :| x in rest && x.id == h.id;
          assert !Contested(p, want, h, x);
        }
      }
      MoreUnwanted(rest, h, p, want, stale);
      MoreTargets(rest, h, have);
    }
  }

  lemma MoreUnwanted(rest: seq<EdgeNode>, h: EdgeNode, p: Spot, want: set<Id>, stale: set<Id>)
    requires OnlyUnwanted(rest, p, want, stale)
    ensures OnlyUnwanted(rest + [h], p, want, if Stamped(p, h.edge) && h.id !in want then stale + {h.edge.id}
                                              else stale)
  {
    hide Stamped;
    assert forall x :: x in rest + [h] <==> x in rest || x == h;
  }

  lemma MoreTargets(rest: seq<EdgeNode>, h: EdgeNode, have: set<Id>)
    requires forall t :: t in have ==> exists x :: x in rest && x.id == t
    ensures forall t :: t in have + {h.id} ==> exists x :: x in rest + [h] && x.id == t
  {
    assert h in rest + [h];
    assert forall x :: x in rest ==> x in rest + [h];
  }

  /** What comes first is taken care of from then on: a wanted edge stays, and another one goes. */
  lemma {:induction false} FirstWins(h: EdgeNode, more: seq<EdgeNode>, p: Spot, want: set<Id>, x: EdgeNode)
    requires DistinctHits([h] + more)
    ensures h.id in want && Stamped(p, h.edge) ==> h.edge.id !in Sift([h] + more, p, want).1
    ensures h.id in want || !Stamped(p, h.edge) ==> h.id in Sift([h] + more, p, want).0
    ensures x in more && x.id == h.id && Stamped(p, x.edge) && h.id in want ==> x.edge.id in Sift([h] + more, p, want).1
  {
    hide Stamped;
    var hits := [h] + more;
    if more == [] {
      assert Sift([], p, want) == ({}, {}) && hits[..0] == [] && hits == [h];
    } else {
      var n := |more| - 1;
      assert hits[..|hits| - 1] == [h] + more[..n] && hits[|hits| - 1] == more[n];
      assert more == more[..n] + [more[n]];
      assert DistinctHits([h] + more[..n]) && h.edge.id != more[n].edge.id by {
        assert hits[0] == h && hits[n + 1] == more[n];
        assert forall k :: 0 <= k < |hits| - 1 ==> ([h] + more[..n])[k] == hits[k];
      }
      FirstWins(h, more[..n], p, want, x);
    }
  }

  /** The hits with one of them moved to the front. */
  function Fronted(hits: seq<EdgeNode>, i: nat): seq<EdgeNode>
    requires i < |hits|
  {
    hits[..i] + hits[i + 1..]
  }

  lemma FrontedAt(hits: seq<EdgeNode>, i: nat, k: nat) returns (a: nat)
    requires i < |hits| && k < |Fronted(hits, i)|
    ensures a == (if k < i then k else k + 1) && a < |hits| && a != i && Fronted(hits, i)[k] == hits[a]
  {
    a := if k < i then k else k + 1;
  }

  lemma FrontedDistinct(hits: seq<EdgeNode>, i: nat)
    requires i < |hits| && DistinctHits(hits)
    ensures DistinctHits([hits[i]] + Fronted(hits, i))
  {
    var more := Fronted(hits, i);
    hide Fronted;
    var front := [hits[i]] + more;
    forall k, l | 0 <= k < l < |front| ensures front[k].edge.id != front[l].edge.id {
      var b := FrontedAt(hits, i, l - 1);
      if k > 0 {
        var a := FrontedAt(hits, i, k - 1);
      }
    }
  }

  lemma FrontFirst(hits: seq<EdgeNode>, i: nat)
    requires i < |hits| && DistinctHits(hits)
    ensures Reordered([hits[i]] + Fronted(hits, i), hits) && DistinctHits([hits[i]] + Fronted(hits, i))
    ensures forall x :: x in hits && x != hits[i] ==> x in Fronted(hits, i)
  {
    FrontedDistinct(hits, i);
    hide DistinctHits;
    assert hits == hits[..i] + ([hits[i]] + hits[i + 1..]);
  }

  lemma ContestedDiffers(hits: seq<EdgeNode>, p: Spot, want: set<Id>, x: EdgeNode, y: EdgeNode)
    returns (a: seq<EdgeNode>, b: seq<EdgeNode>)
    requires DistinctHits(hits) && x in hits && y in hits && Contested(p, want, x, y)
    ensures Reordered(a, hits) && Reordered(b, hits)
    ensures x.edge.id !in Sift(a, p, want).1 && x.edge.id in Sift(b, p, want).1
  {
    hide Sift;
    var i :| 0 <= i < |hits| && hits[i] == x;
    var j :| 0 <= j < |hits| && hits[j] == y;
    FrontFirst(hits, i);
    FrontFirst(hits, j);
    hide Fronted, DistinctHits, Reordered, Stamped;
    FirstWins(x, Fronted(hits, i), p, want, x);
    FirstWins(y, Fronted(hits, j), p, want, x);
    a, b := [x] + Fronted(hits, i), [y] + Fronted(hits, j);
  }

  /** The same edges stay in every order of the neighbours exactly when no wanted target has two
      edges one of which is stamped. */
  lemma KeptIgnoresOrderIff(hits: seq<EdgeNode>, p: Spot, want: set<Id>)
    requires DistinctHits(hits)
    ensures NoContest(hits, p, want)
            <==> forall other :: Reordered(other, hits) ==> Sift(other, p, want).1 == Sift(hits, p, want).1
  {
    hide Sift, Contested;
    if NoContest(hits, p, want) {
      assert Distinct(hits);
      UncontestedStale(hits, p, want);
      forall other | Reordered(other, hits) ensures Sift(other, p, want).1 == Sift(hits, p, want).1 {
        SameMultiset(other, hits);
        DistinctFromMultiset(hits, other);
        UncontestedStale(other, p, want);
      }
    } else {
      var x, y :| x in hits && y in hits && Contested(p, want, x, y);
      var a, b := ContestedDiffers(hits, p, want, x, y);
    }
  }

  /** The hits of the spot: each edge of the store once. */
  ghost predicate HitsOf(c: State, p: Spot, hits: seq<EdgeNode>) {
    && DistinctHits(hits)
    && (forall k :: 0 <= k < |hits| ==> OutHit(c, p.from, p.kind, hits[k]))
    && (forall e :: e in c.edges && Seen(c.nodes.Keys, p, c.edges[e])
                    ==> exists k :: 0 <= k < |hits| && hits[k].edge.id == e)
  }

  lemma NeighborsAreHits(c: State, p: Spot, hits: seq<EdgeNode>)
    requires Keyed(c) && p.kind != "" && forall h :: multiset(hits)[h] == Times(c, p.from, p.kind, Out, h)
    ensures HitsOf(c, p, hits)
  {
    forall k | 0 <= k < |hits| ensures OutHit(c, p.from, p.kind, hits[k]) {
      assert hits[k] in multiset(hits);
    }
    forall k, l | 0 <= k < l < |hits| ensures hits[k].edge.id != hits[l].edge.id {
      RepeatCounts(hits, k, l);
      assert OutHit(c, p.from, p.kind, hits[k]) && OutHit(c, p.from, p.kind, hits[l]);
    }
    forall e | e in c.edges && Seen(c.nodes.Keys, p, c.edges[e])
      ensures exists k :: 0 <= k < |hits| && hits[k].edge.id == e
    {
      var h := EdgeNode(c.edges[e], c.edges[e].to, c.nodes[c.edges[e].to]);
      assert OutHit(c, p.from, p.kind, h) && multiset(hits)[h] == 1;
      assert h in hits;
      var k :| 0 <= k < |hits| && hits[k] == h;
    }
  }

  /** The edges once the stale ones are gone, with the targets in `have` taken care of. */
  ghost predicate Pruned(nodes: set<Id>, p: Spot, before: map<Id, Edge>, rest: map<Id, Edge>, want: set<Id>,
                         have: set<Id>)
  {
    && (forall e :: e in before && !Ours(nodes, p, before[e]) ==> e in rest)
    && (forall e :: e in rest ==> e in before && rest[e] == before[e])
    && (forall e :: e in rest && Seen(nodes, p, rest[e]) ==> rest[e].to in have)
    && (forall e :: e in rest && Ours(nodes, p, rest[e]) ==> rest[e].to in want)
    && OnePerTarget(nodes, p, rest)
    && (forall t :: t in have ==> t in TargetsOf(nodes, p, rest))
  }

  lemma SiftedPruned(c: State, p: Spot, hits: seq<EdgeNode>, want: set<Id>, have: set<Id>, stale: set<Id>)
    requires Keyed(c) && p.kind != "" && HitsOf(c, p, hits) && Sifted(hits, |hits|, p, want, have, stale)
    ensures Pruned(c.nodes.Keys, p, c.edges, c.edges - stale, want, have)
  {
    var nodes, rest := c.nodes.Keys, c.edges - stale;
    hide Stamped;
    forall e | e in c.edges && Seen(nodes, p, c.edges[e])
      ensures exists k :: 0 <= k < |hits| && hits[k].edge == c.edges[e] && hits[k].id == c.edges[e].to
    {
      var k :| 0 <= k < |hits| && hits[k].edge.id == e;
      assert OutHit(c, p.from, p.kind, hits[k]);
    }
    SiftedOnePer(c, p, hits, want, have, stale);
    forall t | t in have ensures t in TargetsOf(nodes, p, rest) {
      assert Holds(hits, |hits|, p, stale, t);
      var k :| 0 <= k < |hits| && hits[k].id == t && (!Stamped(p, hits[k].edge) || Stays(p, hits[k], stale));
      assert OutHit(c, p.from, p.kind, hits[k]);
      TheirsNotStale(hits, p, want, have, stale, k);
      var e := hits[k].edge.id;
      assert e in rest && rest[e] == hits[k].edge && Seen(nodes, p, rest[e]) && rest[e].to == t;
    }
    forall k | 0 <= k < |hits| && Stamped(p, hits[k].edge) ensures Ours(nodes, p, c.edges[hits[k].edge.id]) {
      assert OutHit(c, p.from, p.kind, hits[k]);
    }
  }

  lemma TheirsNotStale(hits: seq<EdgeNode>, p: Spot, want: set<Id>, have: set<Id>, stale: set<Id>, k: nat)
    requires Sifted(hits, |hits|, p, want, have, stale) && DistinctHits(hits) && k < |hits|
    requires !Stamped(p, hits[k].edge) || Stays(p, hits[k], stale)
    ensures hits[k].edge.id !in stale
  {
    hide Stamped;
    assert forall l :: 0 <= l < |hits| && hits[l].edge.id == hits[k].edge.id ==> l == k;
  }

  lemma SiftedOnePer(c: State, p: Spot, hits: seq<EdgeNode>, want: set<Id>, have: set<Id>, stale: set<Id>)
    requires Keyed(c) && p.kind != "" && HitsOf(c, p, hits) && Sifted(hits, |hits|, p, want, have, stale)
    ensures OnePerTarget(c.nodes.Keys, p, c.edges - stale)
  {
    var nodes, rest := c.nodes.Keys, c.edges - stale;
    hide Stamped;
    forall e, f | (e in rest && f in rest && Ours(nodes, p, rest[e]) && Ours(nodes, p, rest[f])
                   && rest[e].to == rest[f].to)
      ensures e == f
    {
      var k :| 0 <= k < |hits| && hits[k].edge.id == e;
      var l :| 0 <= l < |hits| && hits[l].edge.id == f;
      assert OutHit(c, p.from, p.kind, hits[k]) && OutHit(c, p.from, p.kind, hits[l]);
      assert Stays(p, hits[k], stale) && Stays(p, hits[l], stale);
    }
  }

  /** A spot that is up to date has no stale edge. */
  lemma NothingStale(c: State, hits: seq<EdgeNode>, i: nat, p: Spot, want: set<Id>, have: set<Id>, stale: set<Id>)
    requires i < |hits| && Keyed(c) && p.kind != "" && HitsOf(c, p, hits) && Sifted(hits, i, p, want, have, stale)
    ensures UpToDate(c.nodes.Keys, p, c.edges, want)
            ==> Stamped(p, hits[i].edge) && hits[i].id in want && hits[i].id !in have
  {
    hide Stamped;
    assert OutHit(c, p.from, p.kind, hits[i]);
    var nodes := c.nodes.Keys;
    var e := hits[i].edge.id;
    assert Seen(nodes, p, c.edges[e]) && c.edges[e].to == hits[i].id;
    assert !Stamped(p, hits[i].edge) ==> hits[i].id in TheirTargets(nodes, p, c.edges);
    assert hits[i].id in TargetsOf(nodes, p, c.edges);
    assert hits[i].id in have ==> Holds(hits, i, p, stale, hits[i].id);
    forall k | 0 <= k < i && hits[k].id == hits[i].id
      ensures !UpToDate(nodes, p, c.edges, want)
    {
      assert OutHit(c, p.from, p.kind, hits[k]);
      var f := hits[k].edge.id;
      assert f != e && Seen(nodes, p, c.edges[f]) && c.edges[f].to == hits[k].id;
      assert !Stamped(p, hits[k].edge) ==> hits[k].id in TheirTargets(nodes, p, c.edges);
    }
  }

  // ----- the loop over the missing targets

  /** The edges once the targets in `done` are linked. */
  ghost predicate Linking(nodes: set<Id>, p: Spot, rest: map<Id, Edge>, now: map<Id, Edge>, have: set<Id>,
                          done: set<Id>)
  {
    && (forall e :: e in rest ==> e in now && now[e] == rest[e])
    && (forall e :: e in now && e !in rest ==> IsNew(p, e, now[e]) && now[e].to in done && now[e].to !in have)
    && (forall e, f :: e in now && f in now && e !in rest && f !in rest && now[e].to == now[f].to ==> e == f)
    && (forall t :: t in done && t in nodes && t !in have ==> t in TargetsOf(nodes, p, now))
  }

  lemma TargetsGrow(nodes: set<Id>, p: Spot, a: map<Id, Edge>, b: map<Id, Edge>)
    requires forall e :: e in a ==> e in b && b[e] == a[e]
    ensures TargetsOf(nodes, p, a) <= TargetsOf(nodes, p, b)
  {
    forall t | t in TargetsOf(nodes, p, a) ensures t in TargetsOf(nodes, p, b) {
      var e :| e in a && Seen(nodes, p, a[e]) && a[e].to == t;
      assert e in b;
    }
  }

  /** One more edge is linked, unless an equal one is there. */
  lemma LinkOne(nodes: set<Id>, p: Spot, rest: map<Id, Edge>, now: map<Id, Edge>, have: set<Id>, done: set<Id>,
                edge: Edge)
    requires Linking(nodes, p, rest, now, have, done) && edge.id !in now && IsNew(p, edge.id, edge)
    requires edge.to !in done && edge.to !in have
    ensures Linking(nodes, p, rest, if Duplicated(now, edge) then now else now[edge.id := edge], have, done + {edge.to})
  {
    hide Stamped;
    var next := if Duplicated(now, edge) then now else now[edge.id := edge];
    TargetsGrow(nodes, p, now, next);
    if Duplicated(now, edge) {
      var o :| o in now && SameEdge(now[o], edge);
      assert edge.to in nodes ==> Seen(nodes, p, now[o]);
    } else {
      assert edge.to in nodes ==> Seen(nodes, p, next[edge.id]);
    }
    assert edge.to in nodes ==> edge.to in TargetsOf(nodes, p, next);
  }

  /** A target that is taken care of needs nothing. */
  lemma LinkNone(nodes: set<Id>, p: Spot, rest: map<Id, Edge>, now: map<Id, Edge>, have: set<Id>, done: set<Id>, id: Id)
    requires Linking(nodes, p, rest, now, have, done) && id in have
    ensures Linking(nodes, p, rest, now, have, done + {id})
  {
    hide IsNew, TargetsOf;
  }

  lemma PrunedAndLinked(nodes: set<Id>, p: Spot, before: map<Id, Edge>, rest: map<Id, Edge>, now: map<Id, Edge>,
                        have: set<Id>, want: set<Id>)
    requires Pruned(nodes, p, before, rest, want, have) && Linking(nodes, p, rest, now, have, want)
    ensures Synced(nodes, p, before, now, want)
  {
    LinkedOnePer(nodes, p, before, rest, now, have, want);
    LinkedTargets(nodes, p, before, rest, now, have, want);
    hide Stamped, OnePerTarget, TargetsOf, Seen;
  }

  lemma LinkedOnePer(nodes: set<Id>, p: Spot, before: map<Id, Edge>, rest: map<Id, Edge>, now: map<Id, Edge>,
                     have: set<Id>, want: set<Id>)
    requires Pruned(nodes, p, before, rest, want, have) && Linking(nodes, p, rest, now, have, want)
    ensures OnePerTarget(nodes, p, now)
  {
    hide Stamped, TargetsOf, IsNew;
    forall e | e in rest && Ours(nodes, p, now[e]) ensures now[e].to in have {
      assert Seen(nodes, p, rest[e]);
    }
  }

  lemma LinkedTargets(nodes: set<Id>, p: Spot, before: map<Id, Edge>, rest: map<Id, Edge>, now: map<Id, Edge>,
                      have: set<Id>, want: set<Id>)
    requires Pruned(nodes, p, before, rest, want, have) && Linking(nodes, p, rest, now, have, want)
    ensures forall t :: t in want && t in nodes ==> t in TargetsOf(nodes, p, now)
  {
    TargetsGrow(nodes, p, rest, now);
    hide Stamped, TargetsOf, IsNew, OnePerTarget, Seen;
  }

  // ----- the method

  /** What one hit leaves to do. */
  method SiftHit(hits: seq<EdgeNode>, i: nat, p: Spot, desired: map<Id, real>, have: set<Id>, stale: seq<Id>)
    returns (have': set<Id>, stale': seq<Id>)
    requires i < |hits| && Sifted(hits, i, p, desired.Keys, have, Elements(stale)) && DistinctHits(hits)
    requires (have, Elements(stale)) == Sift(hits[..i], p, desired.Keys)
    ensures Sifted(hits, i + 1, p, desired.Keys, have', Elements(stale'))
    ensures (have', Elements(stale')) == Sift(hits[..i + 1], p, desired.Keys)
    ensures Stamped(p, hits[i].edge) && hits[i].id in desired && hits[i].id !in have ==> stale' == stale
  {
    hide Sifted, DistinctHits;
    assert hits[..i + 1][..i] == hits[..i];
    var en := hits[i];
    have', stale' := have, stale;
    if StrProp(Node("", en.edge.props), "source") != p.source {
      SiftTheirs(hits, i, p, desired.Keys, have, Elements(stale));
      have' := have + {en.id};
    } else if en.id !in desired || en.id in have {
      SiftStale(hits, i, p, desired.Keys, have, Elements(stale));
      assert Elements(stale + [en.edge.id]) == Elements(stale) + {en.edge.id};
      stale' := stale + [en.edge.id];
    } else {
      SiftKept(hits, i, p, desired.Keys, have, Elements(stale));
      have' := have + {en.id};
    }
  }

  /** What the hits leave to do: the targets taken care of and the edges to remove. */
  method SiftHits(hits: seq<EdgeNode>, p: Spot, desired: map<Id, real>, ghost c: State)
    returns (have: set<Id>, stale: seq<Id>)
    requires Keyed(c) && p.kind != "" && HitsOf(c, p, hits)
    ensures Sifted(hits, |hits|, p, desired.Keys, have, Elements(stale))
    ensures (have, Elements(stale)) == Sift(hits, p, desired.Keys)
    ensures UpToDate(c.nodes.Keys, p, c.edges, desired.Keys) ==> stale == []
  {
    have, stale := {}, [];
    assert Sifted(hits, 0, p, desired.Keys, have, Elements(stale)) && DistinctHits(hits);
    assert Elements(stale) == {} && hits[..0] == [];
    hide Sifted, UpToDate, Keyed, HitsOf, DistinctHits, Stamped, Elements;
    for i := 0 to |hits|
      invariant Sifted(hits, i, p, desired.Keys, have, Elements(stale))
      invariant (have, Elements(stale)) == Sift(hits[..i], p, desired.Keys)
      invariant UpToDate(c.nodes.Keys, p, c.edges, desired.Keys) ==> stale == []
    {
      NothingStale(c, hits, i, p, desired.Keys, have, Elements(stale));
      have, stale := SiftHit(hits, i, p, desired, have, stale);
    }
    assert hits[..|hits|] == hits;
  }

  /** Links the desired targets that have no edge yet, in any order. */
  method LinkMissing(repo: MemoryRepository, p: Spot, desired: map<Id, real>, have: set<Id>, freshId: set<Id> -> Id)
    requires Keyed(repo.Contents()) && ValidKind(p.kind) && forall used :: freshId(used) !in used
    modifies repo
    ensures repo.nodes == old(repo.nodes) && Keyed(repo.Contents())
    ensures Linking(repo.nodes.Keys, p, old(repo.edges), repo.edges, have, desired.Keys)
    ensures WithConfidence(p, old(repo.edges), repo.edges, desired)
    ensures desired.Keys <= have ==> repo.edges == old(repo.edges) && repo.generation == old(repo.generation)
  {
    assert Linking(repo.nodes.Keys, p, repo.edges, repo.edges, have, {});
    hide Linking, ValidKind, Duplicated;
    var todo := desired.Keys;
    while todo != {}
      invariant todo <= desired.Keys && repo.nodes == old(repo.nodes) && Keyed(repo.Contents())
      invariant Linking(repo.nodes.Keys, p, old(repo.edges), repo.edges, have, desired.Keys - todo)
      invariant WithConfidence(p, old(repo.edges), repo.edges, desired)
      invariant desired.Keys <= have ==> repo.edges == old(repo.edges) && repo.generation == old(repo.generation)
      decreases |todo|
    {
      var id :| id in todo;
      ghost var done := desired.Keys - todo;
      todo := todo - {id};
      assert done + {id} == desired.Keys - todo;
      if id in have {
        LinkNone(repo.nodes.Keys, p, old(repo.edges), repo.edges, have, done, id);
      } else {
        var props := LinkProps(p, desired[id]);
        var newId := freshId(repo.edges.Keys);
        LinkOne(repo.nodes.Keys, p, old(repo.edges), repo.edges, have, done, Edge(newId, p.kind, p.from, id, props));
        var ok, edge := repo.Link(p.kind, p.from, id, props, newId);
      }
    }
    assert desired.Keys - todo == desired.Keys;
  }

  /** Up to date means every wanted target is taken care of already. */
  lemma NothingMissing(nodes: set<Id>, p: Spot, edges: map<Id, Edge>, want: set<Id>, have: set<Id>)
    requires UpToDate(nodes, p, edges, want) && Pruned(nodes, p, edges, edges, want, have)
    ensures want <= have
  {
  }

  /** `syncEdgesAs`: the edges of one kind and source leaving a node are made equal to the desired ones. */
  method SyncEdgesAs(repo: MemoryRepository, p: Spot, desired: map<Id, real>, freshId: set<Id> -> Id)
    requires Keyed(repo.Contents()) && ValidKind(p.kind) && forall used :: freshId(used) !in used
    modifies repo
    ensures repo.nodes == old(repo.nodes) && Keyed(repo.Contents())
    ensures Synced(repo.nodes.Keys, p, old(repo.edges), repo.edges, desired.Keys)
    ensures WithConfidence(p, old(repo.edges), repo.edges, desired)
    ensures UpToDate(repo.nodes.Keys, p, old(repo.edges), desired.Keys)
            ==> repo.edges == old(repo.edges) && repo.generation == old(repo.generation)
  {
    ghost var c := repo.Contents();
    ghost var nodes, want := c.nodes.Keys, desired.Keys;
    assert p.kind != "";
    var hits := repo.Neighbors(p.from, p.kind, Out);
    NeighborsAreHits(c, p, hits);
    hide Synced, UpToDate, Pruned, Linking, Sifted, HitsOf, ValidKind, Times;
    var have, stale := SiftHits(hits, p, desired, c);
    SiftedPruned(c, p, hits, want, have, Elements(stale));
    if |stale| > 0 {
      repo.RemoveEdges(stale);
    }
    ghost var rest := repo.edges;
    assert rest == c.edges - Elements(stale);
    if UpToDate(nodes, p, c.edges, want) {
      NothingMissing(nodes, p, c.edges, want, have);
    }
    LinkMissing(repo, p, desired, have, freshId);
    PrunedAndLinked(nodes, p, c.edges, rest, repo.edges, have, want);
  }
}
