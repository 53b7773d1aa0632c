/** Identities: which node a journal snapshot lands on, and when it stays under its own id. */
module Identity {
  import opened Order
  import opened Store

  predicate Sub(a: Props, b: Props) {
    forall k :: k in a ==> k in b && b[k] == a[k]
  }

  /** `findNodeByIdentity` and `lookup`: the node has the kind and every identity property. */
  predicate Carries(n: Node, kind: string, identity: Props) {
    n.kind == kind && Sub(identity, n.props)
  }

  /** Every node's "id" property is its id. */
  ghost predicate KnowIds(nodes: map<Id, Node>) {
    forall n :: n in nodes ==> Get(nodes[n].props, "id") == Text(n)
  }

  lemma {:induction false} WriteAllKnowsIds(nodes: map<Id, Node>, order: seq<Id>, dirty: map<Id, Snap>,
                                            tgt: map<Id, Id>)
    requires KnowIds(nodes) && forall x :: x in order ==> x in dirty && x in tgt
    ensures KnowIds(WriteAll(nodes, order, dirty, tgt))
  {
    if order != [] {
      WriteAllKnowsIds(nodes, order[..|order| - 1], dirty, tgt);
    }
  }

  // ----- the lookup of the code

  /** A snapshot is looked up unless its id is stored or it has no identity. */
  predicate LookedUp(base: map<Id, Node>, dirty: map<Id, Snap>, z: Id) {
    z in dirty && z !in base && dirty[z].identity != map[]
  }

  /** z is looked up in the index that also serves x: same kind, same identifying properties. */
  predicate SharesIndex(base: map<Id, Node>, dirty: map<Id, Snap>, z: Id, x: Id)
    requires x in dirty
  {
    LookedUp(base, dirty, z) && dirty[z].kind == dirty[x].kind && dirty[z].identity.Keys == dirty[x].identity.Keys
  }

  /** The index serving x is built when the m-th snapshot is looked up, and never again. */
  ghost predicate BuiltAt(base: map<Id, Node>, order: seq<Id>, dirty: map<Id, Snap>, x: Id, m: nat)
    requires x in dirty
  {
    && m < |order| && SharesIndex(base, dirty, order[m], x)
    && forall i :: 0 <= i < m ==> !SharesIndex(base, dirty, order[i], x)
  }

  /** A lookup in an index built when the nodes were `nodes`; the empty id means no match. */
  ghost predicate PickedFrom(nodes: map<Id, Node>, snap: Snap, x: Id, t: Id) {
    || (t == x && forall c :: c in nodes ==> !Carries(nodes[c], snap.kind, snap.identity))
    || exists c :: c in nodes && Carries(nodes[c], snap.kind, snap.identity) && t == if c == "" then x else c
  }

  /** The choice made for the k-th snapshot, in the index of its kind and identifying properties. */
  ghost predicate ResolvedAt(base: map<Id, Node>, order: seq<Id>, dirty: map<Id, Snap>, tgt: map<Id, Id>, k: nat)
    requires k < |order| && forall x :: x in order ==> x in dirty && x in tgt
  {
    var x := order[k];
    if LookedUp(base, dirty, x)
    then exists m :: 0 <= m <= k && BuiltAt(base, order, dirty, x, m)
                     && PickedFrom(WriteAll(base, order[..m], dirty, tgt), dirty[x], x, tgt[x])
    else tgt[x] == x
  }

  ghost predicate Resolves(s: State, j: Journal, tgt: map<Id, Id>) {
    && tgt.Keys == j.dirty.Keys
    && (forall x :: x in Listing(j.dirty.Keys) ==> x in j.dirty)
    && forall k :: 0 <= k < |Listing(j.dirty.Keys)|
                   ==> ResolvedAt(DeleteFrom(s, j).nodes, Listing(j.dirty.Keys), j.dirty, tgt, k)
  }

  // ----- when a snapshot stays under its own id

  function Snapshot(x: Id, snap: Snap): Node {
    Node(snap.kind, snap.props["id" := Text(x)])
  }

  /** y is written before the index serving x is built. */
  ghost predicate Earlier(base: map<Id, Node>, dirty: map<Id, Snap>, y: Id, x: Id)
    requires x in dirty
  {
    forall z :: SharesIndex(base, dirty, z, x) ==> Leq(y, z) && y != z
  }

  /** Node c carries the identity of x where x is looked up: as it is stored, or as it is pending
      when its snapshot is written before the index is built. */
  ghost predicate Rival(base: map<Id, Node>, dirty: map<Id, Snap>, x: Id, c: Id)
    requires x in dirty
  {
    c != "" && if c in dirty && Earlier(base, dirty, c, x)
               then Carries(Snapshot(c, dirty[c]), dirty[x].kind, dirty[x].identity)
               else c in base && Carries(base[c], dirty[x].kind, dirty[x].identity)
  }

  /** No snapshot that is looked up has a rival. */
  ghost predicate Stays(s: State, j: Journal) {
    forall x :: LookedUp(DeleteFrom(s, j).nodes, j.dirty, x)
                ==> forall c :: !Rival(DeleteFrom(s, j).nodes, j.dirty, x, c)
  }

  ghost predicate OwnTargets(order: seq<Id>, tgt: map<Id, Id>) {
    forall x :: x in order ==> x in tgt && tgt[x] == x
  }

  ghost function SnapshotsOf(order: seq<Id>, dirty: map<Id, Snap>): map<Id, Node>
    requires forall x :: x in order ==> x in dirty
  {
    map x | x in order :: Snapshot(x, dirty[x])
  }

  lemma SnapshotsOfStep(rest: seq<Id>, x: Id, dirty: map<Id, Snap>)
    requires forall y :: y in rest + [x] ==> y in dirty
    ensures (forall y :: y in rest ==> y in dirty) && x in dirty
    ensures SnapshotsOf(rest + [x], dirty) == SnapshotsOf(rest, dirty)[x := Snapshot(x, dirty[x])]
  {
    forall y | y in rest ensures y in dirty {
      assert y in rest + [x];
    }
    assert x in rest + [x];
    assert forall y :: y in rest + [x] <==> y in rest || y == x;
  }

  lemma UpdateLast<A, B>(m: map<A, B>, n: map<A, B>, x: A, v: B)
    ensures (m + n)[x := v] == m + n[x := v]
  {
  }

  /** Writing snapshots that all stay lays them over the stored nodes. */
  lemma {:induction false} WriteAllUnmoved(nodes: map<Id, Node>, order: seq<Id>, dirty: map<Id, Snap>, tgt: map<Id, Id>)
    requires forall x :: x in order ==> x in dirty && x in tgt && tgt[x] == x
    ensures WriteAll(nodes, order, dirty, tgt) == nodes + SnapshotsOf(order, dirty)
  {
    if order == [] {
      assert SnapshotsOf(order, dirty) == map[];
    } else {
      var rest, x := order[..|order| - 1], order[|order| - 1];
      assert order == rest + [x];
      WriteAllUnmoved(nodes, rest, dirty, tgt);
      SnapshotsOfStep(rest, x, dirty);
      hide SnapshotsOf;
      UpdateLast(nodes, SnapshotsOf(rest, dirty), x, Snapshot(x, dirty[x]));
    }
  }

  /** What is written before the index is built, read off the order of ids. */
  lemma WrittenEarlier(base: map<Id, Node>, order: seq<Id>, dirty: map<Id, Snap>, x: Id, m: nat, y: Id)
    requires x in dirty && IsListing(order, dirty.Keys) && BuiltAt(base, order, dirty, x, m)
    ensures y in order[..m] <==> y in dirty && Earlier(base, dirty, y, x)
  {
    if y in order[..m] {
      var i :| 0 <= i < m && order[i] == y;
      assert y in Elements(order);
      forall z | SharesIndex(base, dirty, z, x) ensures Leq(y, z) && y != z {
        assert z in Elements(order);
        var k :| 0 <= k < |order| && order[k] == z;
        assert !SharesIndex(base, dirty, order[i], x) && m <= k;
      }
    }
    if y in dirty && Earlier(base, dirty, y, x) {
      assert y in Elements(order);
      var i :| 0 <= i < |order| && order[i] == y;
      var z := order[m];
      assert Leq(y, z) && y != z;
      if m < i {
        assert Leq(order[m], order[i]);
        LeqAntisymmetric(y, z);
      }
      assert order[..m][i] == y;
    }
  }

  /** In the index of x, a rival is what carries the identity while nothing was moved. */
  lemma RivalIsSeen(base: map<Id, Node>, order: seq<Id>, dirty: map<Id, Snap>, tgt: map<Id, Id>, x: Id, m: nat, c: Id)
    requires x in dirty && IsListing(order, dirty.Keys) && BuiltAt(base, order, dirty, x, m)
    requires forall y :: y in order[..m] ==> y in dirty && y in tgt && tgt[y] == y
    ensures var seen := WriteAll(base, order[..m], dirty, tgt);
            Rival(base, dirty, x, c) <==> c != "" && c in seen && Carries(seen[c], dirty[x].kind, dirty[x].identity)
  {
    WriteAllUnmoved(base, order[..m], dirty, tgt);
    WrittenEarlier(base, order, dirty, x, m, c);
    hide Carries, Earlier, BuiltAt, IsListing;
  }

  lemma BuiltByThen(base: map<Id, Node>, order: seq<Id>, dirty: map<Id, Snap>, k: nat) returns (m: nat)
    requires k < |order| && LookedUp(base, dirty, order[k])
    ensures m <= k && BuiltAt(base, order, dirty, order[k], m)
  {
    m := 0;
    while !SharesIndex(base, dirty, order[m], order[k])
      invariant m <= k && forall i :: 0 <= i < m ==> !SharesIndex(base, dirty, order[i], order[k])
      decreases k - m
    {
      m := m + 1;
    }
  }

  // ----- without rivals every resolution keeps every id

  lemma StaysStep(base: map<Id, Node>, order: seq<Id>, dirty: map<Id, Snap>, tgt: map<Id, Id>, k: nat)
    requires IsListing(order, dirty.Keys) && k < |order| && (forall x :: x in order ==> x in dirty && x in tgt)
    requires OwnTargets(order[..k], tgt) && ResolvedAt(base, order, dirty, tgt, k)
    requires LookedUp(base, dirty, order[k]) ==> forall c :: !Rival(base, dirty, order[k], c)
    ensures tgt[order[k]] == order[k]
  {
    hide Rival, IsListing, BuiltAt, WriteAll;
    var x := order[k];
    if LookedUp(base, dirty, x) {
      var m :| 0 <= m <= k && BuiltAt(base, order, dirty, x, m)
               && PickedFrom(WriteAll(base, order[..m], dirty, tgt), dirty[x], x, tgt[x]);
      assert order[..k][..m] == order[..m];
      forall c ensures var seen := WriteAll(base, order[..m], dirty, tgt);
                       !(c != "" && c in seen && Carries(seen[c], dirty[x].kind, dirty[x].identity)) {
        RivalIsSeen(base, order, dirty, tgt, x, m, c);
      }
    }
  }

  lemma {:induction false} StaysUpto(s: State, j: Journal, tgt: map<Id, Id>, k: nat)
    requires Stays(s, j) && Resolves(s, j, tgt) && k <= |Listing(j.dirty.Keys)|
    ensures OwnTargets(Listing(j.dirty.Keys)[..k], tgt)
  {
    if k > 0 {
      var order, base := Listing(j.dirty.Keys), DeleteFrom(s, j).nodes;
      StaysUpto(s, j, tgt, k - 1);
      assert ResolvedAt(base, order, j.dirty, tgt, k - 1);
      assert order[..k] == order[..k - 1] + [order[k - 1]];
      hide ResolvedAt, Rival, DeleteFrom;
      StaysStep(base, order, j.dirty, tgt, k - 1);
    }
  }

  lemma StaysOwn(s: State, j: Journal, tgt: map<Id, Id>)
    requires Stays(s, j) && Resolves(s, j, tgt)
    ensures forall x :: x in j.dirty ==> tgt[x] == x
  {
    var order := Listing(j.dirty.Keys);
    StaysUpto(s, j, tgt, |order|);
    assert order[..|order|] == order;
    ListingMembers(j.dirty.Keys);
  }

  // ----- with a rival some resolution moves a snapshot

  ghost predicate ResolvedUpto(base: map<Id, Node>, order: seq<Id>, dirty: map<Id, Snap>, tgt: map<Id, Id>, k: nat)
    requires k <= |order| && forall x :: x in order ==> x in dirty && x in tgt
  {
    forall i :: 0 <= i < k ==> ResolvedAt(base, order, dirty, tgt, i)
  }

  lemma {:induction false} WriteAllSame(nodes: map<Id, Node>, order: seq<Id>, dirty: map<Id, Snap>, tgt: map<Id, Id>,
                                        tgt': map<Id, Id>)
    requires forall x :: x in order ==> x in dirty && x in tgt && x in tgt' && tgt'[x] == tgt[x]
    ensures WriteAll(nodes, order, dirty, tgt') == WriteAll(nodes, order, dirty, tgt)
  {
    if order != [] {
      var n := |order| - 1;
      assert order == order[..n] + [order[n]];
      WriteAllSame(nodes, order[..n], dirty, tgt, tgt');
    }
  }

  lemma ResolvedSame(base: map<Id, Node>, order: seq<Id>, dirty: map<Id, Snap>, tgt: map<Id, Id>, tgt': map<Id, Id>,
                     i: nat)
    requires i < |order| && (forall x :: x in order ==> x in dirty && x in tgt && x in tgt')
    requires forall h :: 0 <= h <= i ==> tgt'[order[h]] == tgt[order[h]]
    requires ResolvedAt(base, order, dirty, tgt, i)
    ensures ResolvedAt(base, order, dirty, tgt', i)
  {
    hide BuiltAt, PickedFrom;
    var x := order[i];
    if LookedUp(base, dirty, x) {
      var m :| 0 <= m <= i && BuiltAt(base, order, dirty, x, m)
               && PickedFrom(WriteAll(base, order[..m], dirty, tgt), dirty[x], x, tgt[x]);
      WriteAllSame(base, order[..m], dirty, tgt, tgt');
    }
  }

  /** The next snapshot can be resolved; it can leave its id if it has a rival. */
  lemma ResolveNext(base: map<Id, Node>, order: seq<Id>, dirty: map<Id, Snap>, tgt: map<Id, Id>, k: nat) returns (t: Id)
    requires IsListing(order, dirty.Keys) && k < |order| && (forall x :: x in order ==> x in dirty && x in tgt)
    ensures ResolvedAt(base, order, dirty, tgt[order[k] := t], k)
    ensures OwnTargets(order[..k], tgt) && LookedUp(base, dirty, order[k])
            && (exists c :: Rival(base, dirty, order[k], c))
            ==> t != order[k]
  {
    hide Rival, BuiltAt, Carries;
    var x := order[k];
    t := x;
    if LookedUp(base, dirty, x) {
      var m := BuiltByThen(base, order, dirty, k);
      var seen := WriteAll(base, order[..m], dirty, tgt);
      if c :| c != "" && c in seen && Carries(seen[c], dirty[x].kind, dirty[x].identity) {
        t := c;
        assert OwnTargets(order[..k], tgt) ==> t != x by {
          WriteAllKeys(base, order[..m], dirty, tgt);
          assert x !in order[..m];
          assert order[..m] <= order[..k];
        }
      } else if OwnTargets(order[..k], tgt) {
        assert order[..k][..m] == order[..m];
        forall c ensures !Rival(base, dirty, x, c) {
          RivalIsSeen(base, order, dirty, tgt, x, m, c);
        }
      }
      PickedHere(base, order, dirty, tgt, k, m, t);
    }
  }

  lemma PickedHere(base: map<Id, Node>, order: seq<Id>, dirty: map<Id, Snap>, tgt: map<Id, Id>, k: nat, m: nat, t: Id)
    requires IsListing(order, dirty.Keys) && k < |order| && (forall x :: x in order ==> x in dirty && x in tgt)
    requires LookedUp(base, dirty, order[k]) && m <= k && BuiltAt(base, order, dirty, order[k], m)
    requires var x, seen := order[k], WriteAll(base, order[..m], dirty, tgt);
             if exists c :: c != "" && c in seen && Carries(seen[c], dirty[x].kind, dirty[x].identity)
             then t in seen && t != "" && Carries(seen[t], dirty[x].kind, dirty[x].identity)
             else t == x
    ensures ResolvedAt(base, order, dirty, tgt[order[k] := t], k)
  {
    hide BuiltAt, Carries;
    var x, next := order[k], tgt[order[k] := t];
    forall y | y in order[..m] ensures next[y] == tgt[y] && y in tgt && y in dirty {
      var i :| 0 <= i < m && order[i] == y;
    }
    WriteAllSame(base, order[..m], dirty, tgt, next);
    var seen := WriteAll(base, order[..m], dirty, next);
    if c :| c != "" && c in seen && Carries(seen[c], dirty[x].kind, dirty[x].identity) {
      assert t == if t == "" then x else t;
    } else if c :| c in seen && Carries(seen[c], dirty[x].kind, dirty[x].identity) {
      assert t == if c == "" then x else c;
    }
    assert PickedFrom(seen, dirty[x], x, t);
  }

  lemma {:induction false} ResolutionUpto(base: map<Id, Node>, order: seq<Id>, dirty: map<Id, Snap>, k: nat)
    returns (tgt: map<Id, Id>)
    requires IsListing(order, dirty.Keys) && k <= |order|
    ensures tgt.Keys == dirty.Keys && (forall x :: x in order ==> x in dirty && x in tgt)
    ensures ResolvedUpto(base, order, dirty, tgt, k)
    ensures OwnTargets(order[..k], tgt) ==> NoRivalUpto(base, order, dirty, k)
  {
    ListingDistinct(order, dirty.Keys);
    if k == 0 {
      tgt := map x | x in dirty :: x;
    } else {
      hide *;
      var before := ResolutionUpto(base, order, dirty, k - 1);
      tgt := ResolvedOneMore(base, order, dirty, before, k);
    }
  }

  lemma ResolvedOneMore(base: map<Id, Node>, order: seq<Id>, dirty: map<Id, Snap>, before: map<Id, Id>, k: nat)
    returns (tgt: map<Id, Id>)
    requires IsListing(order, dirty.Keys) && 0 < k <= |order|
    requires before.Keys == dirty.Keys && (forall x :: x in order ==> x in dirty && x in before)
    requires ResolvedUpto(base, order, dirty, before, k - 1)
    requires OwnTargets(order[..k - 1], before) ==> NoRivalUpto(base, order, dirty, k - 1)
    ensures tgt.Keys == dirty.Keys && (forall x :: x in order ==> x in dirty && x in tgt)
    ensures ResolvedUpto(base, order, dirty, tgt, k)
    ensures OwnTargets(order[..k], tgt) ==> NoRivalUpto(base, order, dirty, k)
  {
    hide ResolvedUpto, ResolvedAt, Rival, LookedUp, OwnTargets, IsListing;
    var t := ResolveNext(base, order, dirty, before, k - 1);
    tgt := before[order[k - 1] := t];
    assert Distinct(order) && order[k - 1] in order by {
      ListingDistinct(order, dirty.Keys);
    }
    ResolvedStep(base, order, dirty, before, t, k);
    OwnBefore(order, before, t, k);
  }

  ghost predicate NoRivalUpto(base: map<Id, Node>, order: seq<Id>, dirty: map<Id, Snap>, k: nat)
    requires k <= |order|
  {
    forall i, c :: 0 <= i < k && LookedUp(base, dirty, order[i]) ==> !Rival(base, dirty, order[i], c)
  }

  lemma ListingDistinct(order: seq<Id>, s: set<Id>)
    requires IsListing(order, s)
    ensures Distinct(order) && forall x :: x in order <==> x in s
  {
    forall x ensures x in order <==> x in s {
      assert x in order <==> x in Elements(order);
    }
  }

  lemma ResolvedStep(base: map<Id, Node>, order: seq<Id>, dirty: map<Id, Snap>, before: map<Id, Id>, t: Id, k: nat)
    requires 0 < k <= |order| && Distinct(order) && (forall x :: x in order ==> x in dirty && x in before)
    requires ResolvedUpto(base, order, dirty, before, k - 1)
    requires ResolvedAt(base, order, dirty, before[order[k - 1] := t], k - 1)
    ensures ResolvedUpto(base, order, dirty, before[order[k - 1] := t], k)
  {
    hide ResolvedAt;
    var tgt := before[order[k - 1] := t];
    forall i | 0 <= i < k - 1 ensures ResolvedAt(base, order, dirty, tgt, i) {
      assert ResolvedAt(base, order, dirty, before, i);
      ResolvedSame(base, order, dirty, before, tgt, i);
    }
  }

  lemma OwnBefore(order: seq<Id>, before: map<Id, Id>, t: Id, k: nat)
    requires 0 < k <= |order| && Distinct(order) && (forall x :: x in order ==> x in before)
    ensures OwnTargets(order[..k], before[order[k - 1] := t])
            ==> OwnTargets(order[..k - 1], before) && t == order[k - 1]
  {
    assert order[..k] == order[..k - 1] + [order[k - 1]];
    assert order[k - 1] !in order[..k - 1] by {
      assert forall i :: 0 <= i < k - 1 ==> order[i] != order[k - 1];
    }
    if OwnTargets(order[..k], before[order[k - 1] := t]) {
      assert order[k - 1] in order[..k];
      forall x | x in order[..k - 1] ensures before[x] == x {
        assert x in order[..k];
      }
    }
  }

  /** A merge always has an outcome, and if it must leave every id alone, nothing has a rival. */
  lemma SomeResolution(s: State, j: Journal) returns (tgt: map<Id, Id>)
    ensures Resolves(s, j, tgt)
    ensures (forall x :: x in j.dirty ==> tgt[x] == x) ==> Stays(s, j)
  {
    var base, order := DeleteFrom(s, j).nodes, Listing(j.dirty.Keys);
    tgt := ResolutionUpto(base, order, j.dirty, |order|);
    ListingMembers(j.dirty.Keys);
    assert order[..|order|] == order;
    if forall x :: x in j.dirty ==> tgt[x] == x {
      forall x, c | LookedUp(base, j.dirty, x) ensures !Rival(base, j.dirty, x, c) {
        assert x in order;
        var i :| 0 <= i < |order| && order[i] == x;
        assert LookedUp(base, j.dirty, order[i]);
      }
    }
  }

  /** Every resolution leaves every snapshot under its own id exactly when none has a rival. */
  lemma StaysIff(s: State, j: Journal)
    ensures Stays(s, j) <==> forall tgt :: Resolves(s, j, tgt) ==> OwnTargets(Listing(j.dirty.Keys), tgt)
  {
    ListingMembers(j.dirty.Keys);
    if Stays(s, j) {
      forall tgt | Resolves(s, j, tgt) ensures OwnTargets(Listing(j.dirty.Keys), tgt) {
        StaysOwn(s, j, tgt);
      }
    }
    hide Stays, ResolvedAt;
    var tgt := SomeResolution(s, j);
  }

  /** As long as no node has the empty id, every resolution moves a snapshot when one has a rival. */
  lemma RivalMoves(s: State, j: Journal, tgt: map<Id, Id>)
    requires Resolves(s, j, tgt) && "" !in s.nodes && "" !in j.dirty
    ensures (forall x :: x in j.dirty ==> tgt[x] == x) <==> Stays(s, j)
  {
    if Stays(s, j) {
      StaysOwn(s, j, tgt);
    } else if forall x :: x in j.dirty ==> tgt[x] == x {
      var base, order := DeleteFrom(s, j).nodes, Listing(j.dirty.Keys);
      var x, c :| LookedUp(base, j.dirty, x) && Rival(base, j.dirty, x, c);
      ListingMembers(j.dirty.Keys);
      var k :| 0 <= k < |order| && order[k] == x;
      hide Stays, Rival;
      RivalLeaves(base, order, j.dirty, tgt, k, c);
    }
  }

  /** A snapshot with a rival leaves its id if no earlier one left its own. */
  lemma RivalLeaves(base: map<Id, Node>, order: seq<Id>, dirty: map<Id, Snap>, tgt: map<Id, Id>, k: nat, c: Id)
    requires IsListing(order, dirty.Keys) && k < |order| && (forall x :: x in order ==> x in dirty && x in tgt)
    requires OwnTargets(order[..k], tgt) && "" !in base && "" !in order && LookedUp(base, dirty, order[k])
    requires Rival(base, dirty, order[k], c) && ResolvedAt(base, order, dirty, tgt, k)
    ensures tgt[order[k]] != order[k]
  {
    hide Rival, BuiltAt, Carries;
    var x := order[k];
    var m :| 0 <= m <= k && BuiltAt(base, order, dirty, x, m)
             && PickedFrom(WriteAll(base, order[..m], dirty, tgt), dirty[x], x, tgt[x]);
    assert order[..k][..m] == order[..m];
    RivalIsSeen(base, order, dirty, tgt, x, m, c);
    NotSeen(base, order, dirty, tgt, k, m);
    hide WriteAll, IsListing, LookedUp, OwnTargets;
    var seen := WriteAll(base, order[..m], dirty, tgt);
    if tgt[x] == x {
      PickedElse(seen, dirty[x], x, c);
    }
  }

  /** Neither the snapshot itself nor the empty id is in the index. */
  lemma NotSeen(base: map<Id, Node>, order: seq<Id>, dirty: map<Id, Snap>, tgt: map<Id, Id>, k: nat, m: nat)
    requires m <= k < |order| && Distinct(order) && (forall x :: x in order ==> x in dirty && x in tgt)
    requires OwnTargets(order[..m], tgt) && "" !in base && "" !in order && order[k] !in base
    ensures "" !in WriteAll(base, order[..m], dirty, tgt) && order[k] !in WriteAll(base, order[..m], dirty, tgt)
  {
    WriteAllKeys(base, order[..m], dirty, tgt);
    assert order[k] !in order[..m];
    forall y | y in order[..m] ensures y != "" {
      assert y in order;
    }
  }

  lemma PickedElse(nodes: map<Id, Node>, snap: Snap, x: Id, c: Id)
    requires "" !in nodes && x !in nodes && c in nodes && Carries(nodes[c], snap.kind, snap.identity)
    ensures !PickedFrom(nodes, snap, x, x)
  {
    hide Carries;
  }

  /** A condition a caller can check without the order of ids: a snapshot is stored under its id,
      has no identity, or no other stored node and no other pending snapshot carries its identity. */
  ghost predicate Unrivalled(s: State, j: Journal) {
    forall x :: LookedUp(DeleteFrom(s, j).nodes, j.dirty, x) ==> Alone(DeleteFrom(s, j).nodes, j.dirty, x)
  }

  ghost predicate Alone(base: map<Id, Node>, dirty: map<Id, Snap>, x: Id)
    requires x in dirty
  {
    && (forall c :: c in base ==> !Carries(base[c], dirty[x].kind, dirty[x].identity))
    && (forall y :: y in dirty && y != x ==> !Carries(Snapshot(y, dirty[y]), dirty[x].kind, dirty[x].identity))
  }

  lemma UnrivalledStays(s: State, j: Journal)
    requires Unrivalled(s, j)
    ensures Stays(s, j)
  {
    hide Carries;
    forall x, c | LookedUp(DeleteFrom(s, j).nodes, j.dirty, x) ensures !Rival(DeleteFrom(s, j).nodes, j.dirty, x, c) {
      assert Alone(DeleteFrom(s, j).nodes, j.dirty, x);
      assert SharesIndex(DeleteFrom(s, j).nodes, j.dirty, x, x);
    }
  }

  // ----- a moved snapshot is nowhere under its own id

  /** A snapshot that is moved lands on a node written or stored before. */
  lemma MovedOntoStored(base: map<Id, Node>, order: seq<Id>, dirty: map<Id, Snap>, tgt: map<Id, Id>, k: nat)
    returns (m: nat)
    requires k < |order| && (forall x :: x in order ==> x in dirty && x in tgt)
    requires ResolvedAt(base, order, dirty, tgt, k) && tgt[order[k]] != order[k]
    ensures m <= k && tgt[order[k]] in WriteAll(base, order[..m], dirty, tgt)
  {
    hide BuiltAt, Carries;
    var x := order[k];
    m :| 0 <= m <= k && PickedFrom(WriteAll(base, order[..m], dirty, tgt), dirty[x], x, tgt[x]);
    PickedStored(WriteAll(base, order[..m], dirty, tgt), dirty[x], x, tgt[x]);
  }

  lemma PickedStored(nodes: map<Id, Node>, snap: Snap, x: Id, t: Id)
    requires PickedFrom(nodes, snap, x, t) && t != x
    ensures t in nodes && Carries(nodes[t], snap.kind, snap.identity)
  {
  }

  lemma {:induction false} MovedNotWritten(base: map<Id, Node>, order: seq<Id>, dirty: map<Id, Snap>, tgt: map<Id, Id>,
                                           k: nat, n: Id)
    requires k <= |order| && (forall x :: x in order ==> x in dirty && x in tgt)
    requires ResolvedUpto(base, order, dirty, tgt, k) && n in WriteAll(base, order[..k], dirty, tgt)
    ensures n in base || (n in order[..k] && tgt[n] == n)
  {
    hide ResolvedAt;
    if k > 0 {
      var x := order[k - 1];
      assert order[..k] == order[..k - 1] + [x] && order[..k][..k - 1] == order[..k - 1];
      assert n == tgt[x] || n in WriteAll(base, order[..k - 1], dirty, tgt);
      if n in WriteAll(base, order[..k - 1], dirty, tgt) {
        MovedNotWritten(base, order, dirty, tgt, k - 1, n);
      } else if n != x {
        assert ResolvedAt(base, order, dirty, tgt, k - 1);
        var m := MovedOntoStored(base, order, dirty, tgt, k - 1);
        MovedNotWritten(base, order, dirty, tgt, m, n);
        assert forall y :: y in order[..m] ==> y in order[..k];
      }
    }
  }

  lemma MovedIsGone(s: State, j: Journal, tgt: map<Id, Id>, x: Id)
    requires Resolves(s, j, tgt) && x in j.dirty && tgt[x] != x
    ensures x !in MergedNodes(s, j, tgt)
  {
    var base, order := DeleteFrom(s, j).nodes, Listing(j.dirty.Keys);
    assert order[..|order|] == order;
    ListingMembers(j.dirty.Keys);
    var i :| 0 <= i < |order| && order[i] == x;
    assert ResolvedAt(base, order, j.dirty, tgt, i);
    if x in MergedNodes(s, j, tgt) {
      MovedNotWritten(base, order, j.dirty, tgt, |order|, x);
    }
  }
}
