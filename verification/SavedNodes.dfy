/** What identities the nodes of the file have after a save, whatever the pending changes were. */
module SavedNodes {
  import opened Order
  import opened Store
  import opened Identity
  import opened Absorption

  /** An identity: a node kind and the properties that tell its nodes apart. */
  datatype Key = Key(kind: string, identity: Props)

  function KeyOf(snap: Snap): Key {
    Key(snap.kind, snap.identity)
  }

  predicate Bears(n: Node, k: Key) {
    Carries(n, k.kind, k.identity)
  }

  ghost predicate Unique(keys: set<Key>, nodes: map<Id, Node>) {
    forall k, x, y :: k in keys && x in nodes && y in nodes && Bears(nodes[x], k) && Bears(nodes[y], k) ==> x == y
  }

  /** Every node has a non-empty id and knows it. */
  ghost predicate OwnIds(nodes: map<Id, Node>) {
    "" !in nodes && KnowIds(nodes)
  }

  /** Identities proper: some property, but neither the id nor the creation time. */
  predicate Proper(k: Key) {
    k.identity != map[] && "id" !in k.identity && "created_at" !in k.identity
  }

  /** The stored nodes with all pending ones laid over them. */
  function Overlaid(base: map<Id, Node>, dirty: map<Id, Snap>): map<Id, Node> {
    base + map x | x in dirty :: Snapshot(x, dirty[x])
  }

  /** The snapshot is looked up and there is a node to land on. */
  ghost predicate Moves(base: map<Id, Node>, dirty: map<Id, Snap>, x: Id) {
    LookedUp(base, dirty, x) && exists c :: Rival(base, dirty, x, c)
  }

  ghost predicate BearsOnly(keys: set<Key>, n: Node, k: Key) {
    k in keys && forall l :: l in keys ==> (Bears(n, l) <==> l == k)
  }

  /** A snapshot that lands on another node has its own identity and no other one of `keys`. */
  ghost predicate MoversIdentified(keys: set<Key>, base: map<Id, Node>, dirty: map<Id, Snap>) {
    && (forall x :: LookedUp(base, dirty, x) ==> KeyOf(dirty[x]) in keys || Get(dirty[x].identity, "id") == Text(x))
    && (forall x :: Moves(base, dirty, x) ==> BearsOnly(keys, Snapshot(x, dirty[x]), KeyOf(dirty[x])))
  }

  /** No node is landed on for two identities. */
  ghost predicate OneIdentityEach(base: map<Id, Node>, dirty: map<Id, Snap>) {
    forall x, y, c ::
      LookedUp(base, dirty, x) && LookedUp(base, dirty, y) && Rival(base, dirty, x, c) && Rival(base, dirty, y, c)
      ==> KeyOf(dirty[x]) == KeyOf(dirty[y])
  }

  /** Where a snapshot has a choice, all the nodes it may land on keep its identity and have no other. */
  ghost predicate ChoiceIsFree(keys: set<Key>, base: map<Id, Node>, dirty: map<Id, Snap>) {
    forall x, c, d ::
      LookedUp(base, dirty, x) && Rival(base, dirty, x, c) && Rival(base, dirty, x, d) && c != d
      ==> c in Overlaid(base, dirty) && BearsOnly(keys, Overlaid(base, dirty)[c], KeyOf(dirty[x]))
  }

  /** What is asked of a save that moves a snapshot. */
  ghost predicate Moving(keys: set<Key>, base: map<Id, Node>, dirty: map<Id, Snap>) {
    && (forall k :: k in keys ==> Proper(k))
    && OwnIds(base) && "" !in dirty
    && MoversIdentified(keys, base, dirty) && OneIdentityEach(base, dirty) && ChoiceIsFree(keys, base, dirty)
  }

  /** Nothing is asked of a save that moves nothing; pending changes of stored nodes are free. */
  ghost predicate Orderly(keys: set<Key>, base: map<Id, Node>, dirty: map<Id, Snap>) {
    (exists x :: Moves(base, dirty, x)) ==> Moving(keys, base, dirty)
  }

  /** Snapshot x lands on c, and c's own pending change, if any, is written before. */
  ghost predicate Overwrites(base: map<Id, Node>, dirty: map<Id, Snap>, x: Id, c: Id) {
    LookedUp(base, dirty, x) && Rival(base, dirty, x, c) && (c in dirty ==> Leq(c, x) && c != x)
  }

  /** What node n ends as: as the snapshot that lands on it last, else as pending, else as stored. */
  ghost function EndOf(base: map<Id, Node>, dirty: map<Id, Snap>, n: Id): Node
    requires n in Overlaid(base, dirty)
  {
    if exists x :: Overwrites(base, dirty, x, n)
    then var x :| Overwrites(base, dirty, x, n); Snapshot(x, dirty[x])
    else Overlaid(base, dirty)[n]
  }

  /** The nodes after the save, as far as identities go: stored ones, and new ones that do not move. */
  ghost function Ends(base: map<Id, Node>, dirty: map<Id, Snap>): map<Id, Node> {
    map n | n in Overlaid(base, dirty) && !Moves(base, dirty, n) :: EndOf(base, dirty, n)
  }

  // ----- who wrote a node last

  /** The nodes agree about all identities proper. */
  ghost predicate SameIdentities(a: Node, b: Node) {
    forall k :: Proper(k) ==> (Bears(a, k) <==> Bears(b, k))
  }

  lemma WrittenBears(nodes: map<Id, Node>, snap: Snap, x: Id, t: Id)
    ensures SameIdentities(Written(nodes, snap, x, t), Snapshot(x, snap))
  {
    var w, own := Written(nodes, snap, x, t), Snapshot(x, snap);
    forall k | Proper(k) ensures Bears(w, k) <==> Bears(own, k) {
      forall p | p in k.identity
        ensures p in w.props <==> p in own.props
        ensures p in own.props ==> w.props[p] == own.props[p]
      {
      }
    }
  }

  /** No one wrote node n: it is as it was stored. */
  ghost predicate Unwritten(base: map<Id, Node>, order: seq<Id>, tgt: map<Id, Id>, n: Id, now: Node)
    requires forall x :: x in order ==> x in tgt
  {
    n in base && now == base[n] && forall x :: x in order ==> tgt[x] != n
  }

  /** The p-th snapshot was the last one written at n. */
  ghost predicate LastAt(order: seq<Id>, dirty: map<Id, Snap>, tgt: map<Id, Id>, n: Id, now: Node, p: nat)
    requires forall x :: x in order ==> x in dirty && x in tgt
  {
    && p < |order| && tgt[order[p]] == n && SameIdentities(now, Snapshot(order[p], dirty[order[p]]))
    && forall q :: p < q < |order| ==> tgt[order[q]] != n
  }

  lemma {:induction false} LastWriter(base: map<Id, Node>, order: seq<Id>, dirty: map<Id, Snap>, tgt: map<Id, Id>,
                                      n: Id)
    requires forall x :: x in order ==> x in dirty && x in tgt
    requires n in WriteAll(base, order, dirty, tgt)
    ensures var now := WriteAll(base, order, dirty, tgt)[n];
            Unwritten(base, order, tgt, n, now) || exists p: nat :: LastAt(order, dirty, tgt, n, now, p)
  {
    if order != [] {
      var m := |order| - 1;
      var rest, last := order[..m], order[m];
      assert order == rest + [last];
      var before := WriteAll(base, rest, dirty, tgt);
      hide SameIdentities, Written, Snapshot;
      if tgt[last] == n {
        WrittenBears(before, dirty[last], last, n);
        assert LastAt(order, dirty, tgt, n, Written(before, dirty[last], last, n), m);
      } else {
        LastWriter(base, rest, dirty, tgt, n);
        if p: nat :| LastAt(rest, dirty, tgt, n, before[n], p) {
          assert LastAt(order, dirty, tgt, n, before[n], p);
        }
      }
    }
  }

  // ----- where each snapshot lands

  ghost predicate LandsRightly(base: map<Id, Node>, dirty: map<Id, Snap>, x: Id, t: Id)
    requires x in dirty
  {
    if Moves(base, dirty, x) then Rival(base, dirty, x, t) else t == x
  }

  ghost predicate LandUpto(base: map<Id, Node>, order: seq<Id>, dirty: map<Id, Snap>, tgt: map<Id, Id>, k: nat)
    requires k <= |order| && forall x :: x in order ==> x in dirty && x in tgt
  {
    forall i :: 0 <= i < k ==> LandsRightly(base, dirty, order[i], tgt[order[i]])
  }

  /** Snapshots of one identity are looked up in one index. */
  lemma SameKeyShares(base: map<Id, Node>, dirty: map<Id, Snap>, x: Id, y: Id)
    requires LookedUp(base, dirty, x) && LookedUp(base, dirty, y) && KeyOf(dirty[x]) == KeyOf(dirty[y])
    ensures SharesIndex(base, dirty, y, x)
  {
  }

  /** A pending node others can land on does not move itself. */
  lemma RivalStays(keys: set<Key>, base: map<Id, Node>, dirty: map<Id, Snap>, x: Id, c: Id)
    requires Moving(keys, base, dirty) && Moves(base, dirty, x) && Rival(base, dirty, x, c)
    ensures c in base || (c in dirty && !Moves(base, dirty, c))
  {
    hide Bears, Proper, OneIdentityEach, ChoiceIsFree;
    if c !in base && Moves(base, dirty, c) {
      assert BearsOnly(keys, Snapshot(c, dirty[c]), KeyOf(dirty[c])) && KeyOf(dirty[x]) in keys;
      RivalBears(base, dirty, x, c);
      SameKeyShares(base, dirty, x, c);
    }
  }

  lemma RivalBears(base: map<Id, Node>, dirty: map<Id, Snap>, x: Id, c: Id)
    requires x in dirty && Rival(base, dirty, x, c)
    ensures if c in dirty && Earlier(base, dirty, c, x) then Bears(Snapshot(c, dirty[c]), KeyOf(dirty[x]))
            else c in base && Bears(base[c], KeyOf(dirty[x]))
  {
  }

  /** A node that other snapshots were moved to before the index is built is nobody's rival there. */
  lemma MovedHereNoRival(keys: set<Key>, base: map<Id, Node>, dirty: map<Id, Snap>, x: Id, w: Id, c: Id, now: Node)
    requires Moving(keys, base, dirty) && LookedUp(base, dirty, x) && KeyOf(dirty[x]) in keys
    requires Moves(base, dirty, w) && Rival(base, dirty, w, c) && !SharesIndex(base, dirty, w, x)
    requires SameIdentities(now, Snapshot(w, dirty[w]))
    ensures !Bears(now, KeyOf(dirty[x])) && !Rival(base, dirty, x, c)
  {
    hide Bears, Proper, ChoiceIsFree, Rival, SharesIndex;
    assert KeyOf(dirty[w]) != KeyOf(dirty[x]) by {
      if KeyOf(dirty[w]) == KeyOf(dirty[x]) {
        SameKeyShares(base, dirty, x, w);
      }
    }
    assert BearsOnly(keys, Snapshot(w, dirty[w]), KeyOf(dirty[w]));
    assert Proper(KeyOf(dirty[x]));
  }

  /** What the index of x sees at a node is what makes that node a rival. */
  lemma SeenIsRival(keys: set<Key>, base: map<Id, Node>, order: seq<Id>, dirty: map<Id, Snap>, tgt: map<Id, Id>,
                    x: Id, m: nat, c: Id)
    requires Moving(keys, base, dirty) && IsListing(order, dirty.Keys)
    requires (forall y :: y in order ==> y in dirty && y in tgt) && m <= |order| && LandUpto(base, order, dirty, tgt, m)
    requires LookedUp(base, dirty, x) && BuiltAt(base, order, dirty, x, m) && KeyOf(dirty[x]) in keys
    requires c in WriteAll(base, order[..m], dirty, tgt) && c != ""
    ensures Bears(WriteAll(base, order[..m], dirty, tgt)[c], KeyOf(dirty[x])) <==> Rival(base, dirty, x, c)
  {
    var some := order[..m];
    var now := WriteAll(base, some, dirty, tgt)[c];
    LastWriter(base, some, dirty, tgt, c);
    WrittenEarlier(base, order, dirty, x, m, c);
    assert Proper(KeyOf(dirty[x]));
    hide WriteAll, IsListing, Proper, Moving, SameIdentities;
    if p: nat :| LastAt(some, dirty, tgt, c, now, p) {
      var w := some[p];
      assert w == order[p] && LandsRightly(base, dirty, w, tgt[w]);
      if w == c {
        assert w in some;
        SameAsSnapshot(now, Snapshot(c, dirty[c]), KeyOf(dirty[x]));
      } else {
        MovedHereNoRival(keys, base, dirty, x, w, c, now);
      }
    } else {
      hide Earlier, BuiltAt;
      if c in some {
        StoredStay(base, order, dirty, tgt, m, c);
      }
    }
  }

  lemma SameAsSnapshot(a: Node, b: Node, k: Key)
    requires SameIdentities(a, b) && Proper(k)
    ensures Bears(a, k) <==> Bears(b, k)
  {
  }

  /** A snapshot whose id is stored lands there. */
  lemma StoredStay(base: map<Id, Node>, order: seq<Id>, dirty: map<Id, Snap>, tgt: map<Id, Id>, m: nat, c: Id)
    requires (forall y :: y in order ==> y in dirty && y in tgt) && m <= |order| && LandUpto(base, order, dirty, tgt, m)
    requires c in order[..m] && c in base
    ensures tgt[c] == c
  {
    var i :| 0 <= i < m && order[i] == c;
    assert LandsRightly(base, dirty, order[i], tgt[order[i]]);
  }

  /** Every rival is there when the index is built. */
  lemma RivalIsThere(keys: set<Key>, base: map<Id, Node>, order: seq<Id>, dirty: map<Id, Snap>, tgt: map<Id, Id>,
                     x: Id, m: nat, c: Id)
    requires Moving(keys, base, dirty) && IsListing(order, dirty.Keys)
    requires (forall y :: y in order ==> y in dirty && y in tgt) && m <= |order| && LandUpto(base, order, dirty, tgt, m)
    requires LookedUp(base, dirty, x) && BuiltAt(base, order, dirty, x, m) && Rival(base, dirty, x, c)
    ensures c in WriteAll(base, order[..m], dirty, tgt)
  {
    WriteAllKeys(base, order[..m], dirty, tgt);
    RivalStays(keys, base, dirty, x, c);
    WrittenEarlier(base, order, dirty, x, m, c);
    hide Moving, IsListing, BuiltAt, Earlier, WriteAll;
    if c !in base {
      assert c in order[..m];
      var i :| 0 <= i < m && order[i] == c;
      assert LandsRightly(base, dirty, order[i], tgt[order[i]]);
    }
  }

  /** Own ids stay own ids while snapshots are written. */
  lemma OwnIdsStay(keys: set<Key>, base: map<Id, Node>, order: seq<Id>, dirty: map<Id, Snap>, tgt: map<Id, Id>, m: nat)
    requires Moving(keys, base, dirty) && (forall y :: y in order ==> y in dirty && y in tgt)
    requires m <= |order| && LandUpto(base, order, dirty, tgt, m)
    ensures OwnIds(WriteAll(base, order[..m], dirty, tgt))
  {
    WriteAllKnowsIds(base, order[..m], dirty, tgt);
    WriteAllKeys(base, order[..m], dirty, tgt);
    hide WriteAll, KnowIds, MoversIdentified, OneIdentityEach, ChoiceIsFree, Proper;
    forall y | y in order[..m] ensures tgt[y] != "" {
      var i :| 0 <= i < m && order[i] == y;
      assert LandsRightly(base, dirty, order[i], tgt[order[i]]);
    }
  }

  /** Nobody else carries an identity that names the id of x. */
  lemma OwnIdUnseen(seen: map<Id, Node>, x: Id, snap: Snap, c: Id)
    requires OwnIds(seen) && x !in seen && Get(snap.identity, "id") == Text(x) && c in seen
    ensures !Carries(seen[c], snap.kind, snap.identity)
  {
    assert Get(seen[c].props, "id") == Text(c) && c != x;
  }

  lemma NotYetThere(keys: set<Key>, base: map<Id, Node>, order: seq<Id>, dirty: map<Id, Snap>, tgt: map<Id, Id>,
                    m: nat, k: nat)
    requires Moving(keys, base, dirty) && IsListing(order, dirty.Keys) && m <= k < |order| && order[k] !in base
    requires (forall y :: y in order ==> y in dirty && y in tgt) && ResolvedUpto(base, order, dirty, tgt, m)
    ensures order[k] !in WriteAll(base, order[..m], dirty, tgt)
  {
    hide Moving, ResolvedUpto, WriteAll;
    assert order[k] !in order[..m];
    if order[k] in WriteAll(base, order[..m], dirty, tgt) {
      MovedNotWritten(base, order, dirty, tgt, m, order[k]);
    }
  }

  lemma PickedRightly(base: map<Id, Node>, dirty: map<Id, Snap>, seen: map<Id, Node>, x: Id, t: Id)
    requires LookedUp(base, dirty, x) && PickedFrom(seen, dirty[x], x, t) && "" !in seen && x !in seen
    requires forall c :: Rival(base, dirty, x, c) <==> c in seen && Bears(seen[c], KeyOf(dirty[x]))
    ensures LandsRightly(base, dirty, x, t)
  {
    hide Carries, Rival;
    if t != x {
      PickedStored(seen, dirty[x], x, t);
    } else if c :| c in seen && Bears(seen[c], KeyOf(dirty[x])) {
      PickedElse(seen, dirty[x], x, c);
    }
  }

  lemma LandsAt(keys: set<Key>, base: map<Id, Node>, order: seq<Id>, dirty: map<Id, Snap>, tgt: map<Id, Id>, k: nat,
                m: nat)
    requires Moving(keys, base, dirty) && IsListing(order, dirty.Keys) && m <= k < |order|
    requires (forall y :: y in order ==> y in dirty && y in tgt)
    requires LandUpto(base, order, dirty, tgt, m) && ResolvedUpto(base, order, dirty, tgt, m)
    requires LookedUp(base, dirty, order[k]) && BuiltAt(base, order, dirty, order[k], m)
    requires PickedFrom(WriteAll(base, order[..m], dirty, tgt), dirty[order[k]], order[k], tgt[order[k]])
    ensures LandsRightly(base, dirty, order[k], tgt[order[k]])
  {
    var x, seen := order[k], WriteAll(base, order[..m], dirty, tgt);
    OwnIdsStay(keys, base, order, dirty, tgt, m);
    NotYetThere(keys, base, order, dirty, tgt, m, k);
    hide WriteAll, Carries, BuiltAt, Rival, KnowIds, LandUpto, ResolvedUpto, OneIdentityEach, ChoiceIsFree, Proper;
    if KeyOf(dirty[x]) in keys {
      forall c ensures Rival(base, dirty, x, c) <==> c in seen && Bears(seen[c], KeyOf(dirty[x])) {
        if c in seen {
          SeenIsRival(keys, base, order, dirty, tgt, x, m, c);
        }
        if Rival(base, dirty, x, c) {
          RivalIsThere(keys, base, order, dirty, tgt, x, m, c);
        }
      }
      PickedRightly(base, dirty, seen, x, tgt[x]);
    } else {
      assert !Moves(base, dirty, x);
      forall c | c in seen ensures !Carries(seen[c], dirty[x].kind, dirty[x].identity) {
        OwnIdUnseen(seen, x, dirty[x], c);
      }
    }
  }

  lemma {:induction false} LandingUpto(keys: set<Key>, base: map<Id, Node>, order: seq<Id>, dirty: map<Id, Snap>,
                                       tgt: map<Id, Id>, k: nat)
    requires Moving(keys, base, dirty) && IsListing(order, dirty.Keys) && k <= |order|
    requires (forall y :: y in order ==> y in dirty && y in tgt) && ResolvedUpto(base, order, dirty, tgt, k)
    ensures LandUpto(base, order, dirty, tgt, k)
  {
    hide Moving, IsListing, BuiltAt, PickedFrom, WriteAll, Rival;
    if k > 0 {
      LandingUpto(keys, base, order, dirty, tgt, k - 1);
      var x := order[k - 1];
      assert ResolvedAt(base, order, dirty, tgt, k - 1);
      if LookedUp(base, dirty, x) {
        var m :| 0 <= m <= k - 1 && BuiltAt(base, order, dirty, x, m)
                 && PickedFrom(WriteAll(base, order[..m], dirty, tgt), dirty[x], x, tgt[x]);
        LandsAt(keys, base, order, dirty, tgt, k - 1, m);
      }
    }
  }

  // ----- the result

  /** The same nodes, and for each the same identities of `keys`. */
  ghost predicate AlikeFor(keys: set<Key>, a: map<Id, Node>, b: map<Id, Node>) {
    a.Keys == b.Keys && forall n, k :: n in a && k in keys ==> (Bears(a[n], k) <==> Bears(b[n], k))
  }

  lemma AlikeUnique(keys: set<Key>, a: map<Id, Node>, b: map<Id, Node>)
    requires AlikeFor(keys, a, b)
    ensures Unique(keys, a) <==> Unique(keys, b)
  {
    hide Bears;
  }

  /** Where x may land on n but did not, n bears the identity anyway. */
  lemma ChoiceLeft(keys: set<Key>, base: map<Id, Node>, dirty: map<Id, Snap>, x: Id, n: Id, t: Id)
    requires Moving(keys, base, dirty) && LookedUp(base, dirty, x) && Rival(base, dirty, x, n)
             && Rival(base, dirty, x, t) && t != n
    requires n in Overlaid(base, dirty)
    ensures forall k :: k in keys ==> (Bears(Overlaid(base, dirty)[n], k) <==> Bears(Snapshot(x, dirty[x]), k))
  {
    hide Bears, Proper, Rival, Overlaid;
    assert Moves(base, dirty, x);
  }

  /** Two snapshots that may land on n bear the same. */
  lemma BothLand(keys: set<Key>, base: map<Id, Node>, dirty: map<Id, Snap>, x: Id, y: Id, n: Id)
    requires Moving(keys, base, dirty) && LookedUp(base, dirty, x) && LookedUp(base, dirty, y)
    requires Rival(base, dirty, x, n) && Rival(base, dirty, y, n)
    ensures forall k :: k in keys ==> (Bears(Snapshot(x, dirty[x]), k) <==> Bears(Snapshot(y, dirty[y]), k))
  {
    hide Bears, Proper, Rival, ChoiceIsFree;
    assert Moves(base, dirty, x) && Moves(base, dirty, y);
  }

  /** If n is not written by a snapshot that may overwrite it, it bears what that snapshot bears. */
  lemma EndIs(keys: set<Key>, base: map<Id, Node>, dirty: map<Id, Snap>, n: Id, now: Node)
    requires Moving(keys, base, dirty) && n in Overlaid(base, dirty)
    requires (forall k :: k in keys ==> (Bears(now, k) <==> Bears(Overlaid(base, dirty)[n], k)))
             || exists w :: Overwrites(base, dirty, w, n) && SameIdentities(now, Snapshot(w, dirty[w]))
    requires (exists w :: Overwrites(base, dirty, w, n) && SameIdentities(now, Snapshot(w, dirty[w])))
             || forall x :: Overwrites(base, dirty, x, n) ==> exists t :: Rival(base, dirty, x, t) && t != n
    ensures forall k :: k in keys ==> (Bears(now, k) <==> Bears(EndOf(base, dirty, n), k))
  {
    var end := EndOf(base, dirty, n);
    hide Bears, Rival, Overlaid, OneIdentityEach, ChoiceIsFree, MoversIdentified, OwnIds;
    if x :| Overwrites(base, dirty, x, n) && end == Snapshot(x, dirty[x]) {
      if w :| Overwrites(base, dirty, w, n) && SameIdentities(now, Snapshot(w, dirty[w])) {
        BothLand(keys, base, dirty, x, w, n);
      } else {
        var t :| Rival(base, dirty, x, t) && t != n;
        ChoiceLeft(keys, base, dirty, x, n, t);
      }
    }
  }

  /** Everything known once all snapshots are written. */
  ghost predicate AllLanded(keys: set<Key>, base: map<Id, Node>, order: seq<Id>, dirty: map<Id, Snap>, tgt: map<Id, Id>)
  {
    && Moving(keys, base, dirty) && IsListing(order, dirty.Keys)
    && (forall x :: x in order <==> x in dirty) && tgt.Keys == dirty.Keys
    && forall x :: x in dirty ==> LandsRightly(base, dirty, x, tgt[x])
  }

  lemma EndUnwritten(keys: set<Key>, base: map<Id, Node>, order: seq<Id>, dirty: map<Id, Snap>, tgt: map<Id, Id>,
                     n: Id, now: Node)
    requires AllLanded(keys, base, order, dirty, tgt) && Unwritten(base, order, tgt, n, now)
    ensures n in Overlaid(base, dirty)
    ensures forall k :: k in keys ==> (Bears(now, k) <==> Bears(EndOf(base, dirty, n), k))
  {
    hide Bears, Rival, Moving, IsListing;
    assert n !in dirty;
    forall x | Overwrites(base, dirty, x, n) ensures Rival(base, dirty, x, tgt[x]) && tgt[x] != n {
      assert Moves(base, dirty, x);
    }
    EndIs(keys, base, dirty, n, now);
  }

  /** A node written last by its own snapshot: what may overwrite it landed elsewhere. */
  lemma EndOwn(keys: set<Key>, base: map<Id, Node>, order: seq<Id>, dirty: map<Id, Snap>, tgt: map<Id, Id>,
               n: Id, now: Node, p: nat)
    requires AllLanded(keys, base, order, dirty, tgt) && LastAt(order, dirty, tgt, n, now, p) && order[p] == n
    ensures n in Overlaid(base, dirty)
    ensures forall k :: k in keys ==> (Bears(now, k) <==> Bears(EndOf(base, dirty, n), k))
  {
    hide Bears, Rival, EndOf;
    forall x | Overwrites(base, dirty, x, n) ensures Rival(base, dirty, x, tgt[x]) && tgt[x] != n {
      assert Moves(base, dirty, x) && x in order;
      var q :| 0 <= q < |order| && order[q] == x;
      ComesAfter(order, p, q);
    }
    hide LandsRightly, IsListing, MoversIdentified, OneIdentityEach, ChoiceIsFree, OwnIds;
    EndIs(keys, base, dirty, n, now);
  }

  lemma ComesAfter(order: seq<Id>, p: nat, q: nat)
    requires Sorted(order) && p < |order| && q < |order| && Leq(order[p], order[q]) && order[p] != order[q]
    ensures p < q
  {
    if q < p {
      LeqAntisymmetric(order[p], order[q]);
    }
  }

  lemma EndMoved(keys: set<Key>, base: map<Id, Node>, order: seq<Id>, dirty: map<Id, Snap>, tgt: map<Id, Id>,
                 n: Id, now: Node, p: nat)
    requires AllLanded(keys, base, order, dirty, tgt) && LastAt(order, dirty, tgt, n, now, p) && order[p] != n
    ensures n in Overlaid(base, dirty)
    ensures forall k :: k in keys ==> (Bears(now, k) <==> Bears(EndOf(base, dirty, n), k))
  {
    MovedOverwrites(keys, base, order, dirty, tgt, n, now, p);
    assert SameIdentities(now, Snapshot(order[p], dirty[order[p]]));
    hide Bears, Rival, SameIdentities, EndOf, LandsRightly, IsListing, Overwrites, Overlaid, OwnIds;
    EndIs(keys, base, dirty, n, now);
  }

  lemma MovedOverwrites(keys: set<Key>, base: map<Id, Node>, order: seq<Id>, dirty: map<Id, Snap>, tgt: map<Id, Id>,
                        n: Id, now: Node, p: nat)
    requires AllLanded(keys, base, order, dirty, tgt) && LastAt(order, dirty, tgt, n, now, p) && order[p] != n
    ensures n in Overlaid(base, dirty) && order[p] in dirty && Overwrites(base, dirty, order[p], n)
  {
    var w := order[p];
    assert w in order && LandsRightly(base, dirty, w, tgt[w]);
    RivalStays(keys, base, dirty, w, n);
    hide Bears, Rival, Moving, SameIdentities;
    if n in dirty {
      assert n in order && LandsRightly(base, dirty, n, tgt[n]) && tgt[n] == n;
      var r :| 0 <= r < |order| && order[r] == n;
      assert r < p && Leq(order[r], order[p]);
    }
  }

  lemma EndsAs(keys: set<Key>, base: map<Id, Node>, order: seq<Id>, dirty: map<Id, Snap>, tgt: map<Id, Id>, n: Id)
    requires AllLanded(keys, base, order, dirty, tgt) && (forall x :: x in order ==> x in dirty && x in tgt)
    requires n in WriteAll(base, order, dirty, tgt)
    ensures n in Overlaid(base, dirty)
    ensures forall k :: k in keys ==> (Bears(WriteAll(base, order, dirty, tgt)[n], k)
                                       <==> Bears(EndOf(base, dirty, n), k))
  {
    var now := WriteAll(base, order, dirty, tgt)[n];
    LastWriter(base, order, dirty, tgt, n);
    hide *;
    if p: nat :| LastAt(order, dirty, tgt, n, now, p) {
      EndByWriter(keys, base, order, dirty, tgt, n, now, p);
    } else {
      EndUnwritten(keys, base, order, dirty, tgt, n, now);
    }
  }

  lemma EndByWriter(keys: set<Key>, base: map<Id, Node>, order: seq<Id>, dirty: map<Id, Snap>, tgt: map<Id, Id>,
                    n: Id, now: Node, p: nat)
    requires AllLanded(keys, base, order, dirty, tgt) && (forall x :: x in order ==> x in dirty && x in tgt)
    requires LastAt(order, dirty, tgt, n, now, p)
    ensures n in Overlaid(base, dirty)
    ensures forall k :: k in keys ==> (Bears(now, k) <==> Bears(EndOf(base, dirty, n), k))
  {
    assert p < |order|;
    hide *;
    if order[p] == n {
      EndOwn(keys, base, order, dirty, tgt, n, now, p);
    } else {
      EndMoved(keys, base, order, dirty, tgt, n, now, p);
    }
  }

  lemma EndsWhere(keys: set<Key>, base: map<Id, Node>, order: seq<Id>, dirty: map<Id, Snap>, tgt: map<Id, Id>)
    requires AllLanded(keys, base, order, dirty, tgt) && (forall x :: x in order ==> x in dirty && x in tgt)
    ensures WriteAll(base, order, dirty, tgt).Keys == Ends(base, dirty).Keys
  {
    WriteAllKeys(base, order, dirty, tgt);
    LandedWhere(keys, base, order, dirty, tgt);
    hide *;
    SameDomain(base.Keys, order, tgt, Ends(base, dirty).Keys);
  }

  lemma LandedWhere(keys: set<Key>, base: map<Id, Node>, order: seq<Id>, dirty: map<Id, Snap>, tgt: map<Id, Id>)
    requires AllLanded(keys, base, order, dirty, tgt)
    ensures base.Keys <= Ends(base, dirty).Keys
    ensures forall x :: x in order ==> x in tgt && tgt[x] in Ends(base, dirty).Keys
    ensures forall n :: n in Ends(base, dirty).Keys && n !in base ==> n in order && n in tgt && tgt[n] == n
  {
    EndKeys(base, dirty);
    hide Rival, Moving, IsListing, Ends, Moves;
    forall x | x in order ensures x in tgt && tgt[x] in Ends(base, dirty).Keys {
      LandsInEnds(keys, base, order, dirty, tgt, x);
    }
    forall n | n in Ends(base, dirty).Keys && n !in base ensures n in order && n in tgt && tgt[n] == n {
      assert LandsRightly(base, dirty, n, tgt[n]);
    }
  }

  lemma SameDomain(stored: set<Id>, order: seq<Id>, tgt: map<Id, Id>, ends: set<Id>)
    requires stored <= ends && forall x :: x in order ==> x in tgt && tgt[x] in ends
    requires forall n :: n in ends && n !in stored ==> n in order && tgt[n] == n
    ensures stored + (set x | x in order :: tgt[x]) == ends
  {
    var landed := set x | x in order :: tgt[x];
    forall n | n in ends && n !in stored ensures n in landed {
      assert n in order && tgt[n] == n;
    }
  }

  lemma EndKeys(base: map<Id, Node>, dirty: map<Id, Snap>)
    ensures forall n :: n in Ends(base, dirty) <==> (n in base || n in dirty) && !Moves(base, dirty, n)
    ensures forall n :: n in base ==> n in Ends(base, dirty)
  {
    hide EndOf, Rival;
  }

  lemma LandsInEnds(keys: set<Key>, base: map<Id, Node>, order: seq<Id>, dirty: map<Id, Snap>, tgt: map<Id, Id>, x: Id)
    requires AllLanded(keys, base, order, dirty, tgt) && x in dirty
    ensures tgt[x] in Ends(base, dirty)
  {
    assert LandsRightly(base, dirty, x, tgt[x]);
    EndKeys(base, dirty);
    hide Ends, Rival;
    if Moves(base, dirty, x) {
      RivalStays(keys, base, dirty, x, tgt[x]);
    }
  }

  lemma MovedAlike(keys: set<Key>, base: map<Id, Node>, order: seq<Id>, dirty: map<Id, Snap>, tgt: map<Id, Id>)
    requires AllLanded(keys, base, order, dirty, tgt) && (forall x :: x in order ==> x in dirty && x in tgt)
    ensures AlikeFor(keys, WriteAll(base, order, dirty, tgt), Ends(base, dirty))
  {
    EndsWhere(keys, base, order, dirty, tgt);
    hide Bears, Overlaid, EndOf, Moves, AllLanded, WriteAll;
    forall n | n in WriteAll(base, order, dirty, tgt)
      ensures forall k :: k in keys ==> (Bears(WriteAll(base, order, dirty, tgt)[n], k)
                                         <==> Bears(Ends(base, dirty)[n], k))
    {
      EndsAs(keys, base, order, dirty, tgt, n);
    }
  }

  /** A save that moves nothing leaves the stored nodes with all pending ones laid over them. */
  lemma UnmovedEnds(s: State, j: Journal, tgt: map<Id, Id>)
    requires Resolves(s, j, tgt) && forall x :: !Moves(DeleteFrom(s, j).nodes, j.dirty, x)
    ensures MergeWith(s, j, tgt).nodes == Ends(DeleteFrom(s, j).nodes, j.dirty)
  {
    var base := DeleteFrom(s, j).nodes;
    NoMoveStays(s, j);
    hide Stays, ResolvedAt, Moves, DeleteFrom, MergeWith;
    StaysIsPlain(s, j, tgt);
    PlainNodes(s, j);
    hide Plain;
    EndsUnmoved(base, j.dirty);
    assert Overlaid(base, j.dirty) == base + Snapshots(j);
  }

  lemma NoMoveStays(s: State, j: Journal)
    requires forall x :: !Moves(DeleteFrom(s, j).nodes, j.dirty, x)
    ensures Stays(s, j)
  {
    hide Rival, DeleteFrom;
    forall x | LookedUp(DeleteFrom(s, j).nodes, j.dirty, x)
      ensures forall c :: !Rival(DeleteFrom(s, j).nodes, j.dirty, x, c)
    {
      assert !Moves(DeleteFrom(s, j).nodes, j.dirty, x);
    }
  }

  lemma EndsUnmoved(base: map<Id, Node>, dirty: map<Id, Snap>)
    requires forall x :: !Moves(base, dirty, x)
    ensures Ends(base, dirty) == Overlaid(base, dirty)
  {
    hide Rival, Overlaid;
    forall n | n in Overlaid(base, dirty) ensures EndOf(base, dirty, n) == Overlaid(base, dirty)[n] {
      forall x ensures !Overwrites(base, dirty, x, n) {
        assert !Moves(base, dirty, x);
      }
    }
  }

  /** After any orderly save the nodes bear exactly the identities `Ends` says. */
  lemma SaveEndsAs(keys: set<Key>, s: State, j: Journal, tgt: map<Id, Id>)
    requires Orderly(keys, DeleteFrom(s, j).nodes, j.dirty) && Resolves(s, j, tgt)
    ensures AlikeFor(keys, MergeWith(s, j, tgt).nodes, Ends(DeleteFrom(s, j).nodes, j.dirty))
  {
    var base, order := DeleteFrom(s, j).nodes, Listing(j.dirty.Keys);
    ListingMembers(j.dirty.Keys);
    assert order[..|order|] == order && tgt.Keys == j.dirty.Keys;
    if exists x :: Moves(base, j.dirty, x) {
      hide Moving, ResolvedAt, Moves, WriteAll, LandsRightly, AlikeFor, DeleteFrom, Ends;
      LandingUpto(keys, base, order, j.dirty, tgt, |order|);
      forall x | x in j.dirty ensures LandsRightly(base, j.dirty, x, tgt[x]) {
        assert x in order;
        var i :| 0 <= i < |order| && order[i] == x;
        assert LandsRightly(base, j.dirty, order[i], tgt[order[i]]);
      }
      MovedAlike(keys, base, order, j.dirty, tgt);
    } else {
      hide ResolvedAt, Moves, WriteAll, Ends, MergeWith;
      UnmovedEnds(s, j, tgt);
    }
  }

  /** A save leaves at most one node per identity exactly when no two of the nodes bear one as
      they end: stored ones as pending, unless a new snapshot lands on them, and the new ones that
      do not land anywhere. */
  lemma SaveUniqueIff(keys: set<Key>, s: State, j: Journal, tgt: map<Id, Id>)
    requires Orderly(keys, DeleteFrom(s, j).nodes, j.dirty) && Resolves(s, j, tgt)
    ensures Unique(keys, MergeWith(s, j, tgt).nodes) <==> Unique(keys, Ends(DeleteFrom(s, j).nodes, j.dirty))
  {
    SaveEndsAs(keys, s, j, tgt);
    hide *;
    assert tgt.Keys == j.dirty.Keys by {
      ResolvedKeys(s, j, tgt);
    }
    AlikeUnique(keys, MergeWith(s, j, tgt).nodes, Ends(DeleteFrom(s, j).nodes, j.dirty));
  }

  lemma ResolvedKeys(s: State, j: Journal, tgt: map<Id, Id>)
    requires Resolves(s, j, tgt)
    ensures tgt.Keys == j.dirty.Keys
  {
  }

  /** In particular a save in which no snapshot has a rival: exactly when no two of the unchanged
      stored nodes and the pending ones bear one identity. */
  lemma UnmovedUniqueIff(keys: set<Key>, s: State, j: Journal, tgt: map<Id, Id>)
    requires Stays(s, j) && Resolves(s, j, tgt)
    ensures Unique(keys, MergeWith(s, j, tgt).nodes) <==> Unique(keys, Overlaid(DeleteFrom(s, j).nodes, j.dirty))
  {
    StaysIsPlain(s, j, tgt);
    PlainNodes(s, j);
    assert Overlaid(DeleteFrom(s, j).nodes, j.dirty) == DeleteFrom(s, j).nodes + Snapshots(j);
  }

  // ----- every save, given where its snapshots landed

  /** x is the last snapshot that landed on n. */
  ghost predicate LandsLast(dirty: map<Id, Snap>, tgt: map<Id, Id>, x: Id, n: Id)
    requires tgt.Keys == dirty.Keys
  {
    x in dirty && tgt[x] == n && forall y :: y in dirty && tgt[y] == n ==> Leq(y, x)
  }

  /** What node n is left as: as the last snapshot that landed on it, else as stored. */
  ghost function LeftAs(base: map<Id, Node>, dirty: map<Id, Snap>, tgt: map<Id, Id>, n: Id): Node
    requires tgt.Keys == dirty.Keys && (n in base || exists x :: LandsLast(dirty, tgt, x, n))
  {
    if exists x :: LandsLast(dirty, tgt, x, n) then var x :| LandsLast(dirty, tgt, x, n); Snapshot(x, dirty[x])
    else base[n]
  }

  lemma LandsLastOnce(dirty: map<Id, Snap>, tgt: map<Id, Id>, x: Id, y: Id, n: Id)
    requires tgt.Keys == dirty.Keys && LandsLast(dirty, tgt, x, n) && LandsLast(dirty, tgt, y, n)
    ensures x == y
  {
    LeqAntisymmetric(x, y);
  }

  lemma LastLands(order: seq<Id>, dirty: map<Id, Snap>, tgt: map<Id, Id>, n: Id, now: Node, p: nat)
    requires IsListing(order, dirty.Keys) && tgt.Keys == dirty.Keys && (forall x :: x in order <==> x in dirty)
    requires LastAt(order, dirty, tgt, n, now, p)
    ensures order[p] in dirty && LandsLast(dirty, tgt, order[p], n)
  {
    hide SameIdentities;
    assert order[p] in order;
    forall y | y in dirty && tgt[y] == n ensures Leq(y, order[p]) {
      assert y in order;
      var q :| 0 <= q < |order| && order[q] == y;
      if q == p {
        LeqReflexive(y);
      } else {
        assert q < p && Leq(order[q], order[p]);
      }
    }
  }

  lemma LeftByWriter(base: map<Id, Node>, order: seq<Id>, dirty: map<Id, Snap>, tgt: map<Id, Id>, n: Id)
    requires IsListing(order, dirty.Keys) && tgt.Keys == dirty.Keys && (forall x :: x in order <==> x in dirty)
    requires n in WriteAll(base, order, dirty, tgt)
    ensures n in base || exists x :: LandsLast(dirty, tgt, x, n)
    ensures SameIdentities(WriteAll(base, order, dirty, tgt)[n], LeftAs(base, dirty, tgt, n))
  {
    hide SameIdentities, WriteAll, IsListing, Snapshot;
    var now := WriteAll(base, order, dirty, tgt)[n];
    LastWriter(base, order, dirty, tgt, n);
    if p: nat :| LastAt(order, dirty, tgt, n, now, p) {
      LastLands(order, dirty, tgt, n, now, p);
      forall x | LandsLast(dirty, tgt, x, n) ensures x == order[p] {
        LandsLastOnce(dirty, tgt, x, order[p], n);
      }
    } else {
      assert forall x :: !LandsLast(dirty, tgt, x, n);
      SameAsSelf(now);
    }
  }

  lemma SameAsSelf(a: Node)
    ensures SameIdentities(a, a)
  {
  }

  /** No two of the nodes a save leaves, wherever its snapshots landed, bear one identity. */
  ghost predicate NoTwoLeft(keys: set<Key>, base: map<Id, Node>, dirty: map<Id, Snap>, tgt: map<Id, Id>)
    requires tgt.Keys == dirty.Keys
  {
    forall k, n, m :: k in keys && IsLeft(base, dirty, tgt, n) && IsLeft(base, dirty, tgt, m)
                      && Bears(LeftAs(base, dirty, tgt, n), k) && Bears(LeftAs(base, dirty, tgt, m), k)
                      ==> n == m
  }

  ghost predicate IsLeft(base: map<Id, Node>, dirty: map<Id, Snap>, tgt: map<Id, Id>, n: Id)
    requires tgt.Keys == dirty.Keys
  {
    n in base || exists x :: LandsLast(dirty, tgt, x, n)
  }

  /** Any save at all, whatever its snapshots carry and wherever they landed. */
  lemma AnySaveUniqueIff(keys: set<Key>, s: State, j: Journal, tgt: map<Id, Id>)
    requires Resolves(s, j, tgt) && forall k :: k in keys ==> Proper(k)
    ensures tgt.Keys == j.dirty.Keys
    ensures Unique(keys, MergeWith(s, j, tgt).nodes) <==> NoTwoLeft(keys, DeleteFrom(s, j).nodes, j.dirty, tgt)
  {
    hide *;
    ResolvedKeys(s, j, tgt);
    MergedNodesOf(s, j, tgt);
    AllLeft(keys, s, j, tgt);
    LeftUnique(keys, DeleteFrom(s, j).nodes, j.dirty, tgt, MergeWith(s, j, tgt).nodes);
  }

  lemma AllLeft(keys: set<Key>, s: State, j: Journal, tgt: map<Id, Id>)
    requires tgt.Keys == j.dirty.Keys && forall k :: k in keys ==> Proper(k)
    ensures LeftAlike(keys, DeleteFrom(s, j).nodes, j.dirty, tgt, MergeWith(s, j, tgt).nodes)
  {
    hide WriteAll, Bears, Proper, Snapshot, SameIdentities, LandsLast, IsListing, DeleteFrom;
    var base, order := DeleteFrom(s, j).nodes, Listing(j.dirty.Keys);
    ListingMembers(j.dirty.Keys);
    var nodes := WriteAll(base, order, j.dirty, tgt);
    WriteAllKeys(base, order, j.dirty, tgt);
    forall n ensures n in nodes <==> IsLeft(base, j.dirty, tgt, n) {
      if n in nodes {
        LeftByWriter(base, order, j.dirty, tgt, n);
      }
      if x :| LandsLast(j.dirty, tgt, x, n) {
        LandsThere(j.dirty, tgt, x, n);
        assert x in order;
      }
    }
    forall n, k | n in nodes && k in keys ensures Bears(nodes[n], k) <==> Bears(LeftAs(base, j.dirty, tgt, n), k) {
      LeftByWriter(base, order, j.dirty, tgt, n);
      SameAsSnapshot(nodes[n], LeftAs(base, j.dirty, tgt, n), k);
    }
  }

  lemma LandsThere(dirty: map<Id, Snap>, tgt: map<Id, Id>, x: Id, n: Id)
    requires tgt.Keys == dirty.Keys && LandsLast(dirty, tgt, x, n)
    ensures x in dirty && tgt[x] == n
  {
  }

  ghost predicate LeftAlike(keys: set<Key>, base: map<Id, Node>, dirty: map<Id, Snap>, tgt: map<Id, Id>,
                            nodes: map<Id, Node>)
    requires tgt.Keys == dirty.Keys
  {
    && (forall n :: n in nodes <==> IsLeft(base, dirty, tgt, n))
    && forall n, k :: n in nodes && k in keys ==> (Bears(nodes[n], k) <==> Bears(LeftAs(base, dirty, tgt, n), k))
  }

  lemma LeftUnique(keys: set<Key>, base: map<Id, Node>, dirty: map<Id, Snap>, tgt: map<Id, Id>, nodes: map<Id, Node>)
    requires tgt.Keys == dirty.Keys && LeftAlike(keys, base, dirty, tgt, nodes)
    ensures Unique(keys, nodes) <==> NoTwoLeft(keys, base, dirty, tgt)
  {
    hide Bears, LeftAs, LandsLast;
  }
}
