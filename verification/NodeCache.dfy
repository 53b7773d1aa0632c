/** The LRU in front of the persistent graph: `persistentCache`, node half. */
module NodeCache {
  import opened Order
  import opened Store

  const DEFAULT_CACHE_NODES: nat := 1024

  function Without(order: seq<Id>, id: Id): (r: seq<Id>)
    ensures forall x :: x in r <==> x in order && x != id
  {
    if order == [] then []
    else if order[0] == id then Without(order[1..], id)
    else [order[0]] + Without(order[1..], id)
  }

  function Newest(order: seq<Id>, max: nat): seq<Id> {
    if |order| <= max then order else order[|order| - max..]
  }

  /** A bounded recency list: use moves an id to the end, the oldest fall out at the front. */
  function Touch(order: seq<Id>, id: Id, max: nat): seq<Id> {
    Newest(Without(order, id) + [id], max)
  }

  lemma {:induction false} WithoutAbsent(order: seq<Id>, id: Id)
    requires id !in order
    ensures Without(order, id) == order
  {
    if order != [] {
      WithoutAbsent(order[1..], id);
    }
  }

  lemma {:induction false} WithoutConcat(a: seq<Id>, b: seq<Id>, id: Id)
    ensures Without(a + b, id) == Without(a, id) + Without(b, id)
  {
    if a == [] {
      assert a + b == b;
    } else {
      assert (a + b)[1..] == a[1..] + b;
      WithoutConcat(a[1..], b, id);
    }
  }

  lemma {:induction false} WithoutDistinct(order: seq<Id>, id: Id)
    requires Distinct(order)
    ensures Distinct(Without(order, id))
    ensures |Without(order, id)| == if id in order then |order| - 1 else |order|
  {
    if order != [] {
      assert Distinct(order[1..]);
      WithoutDistinct(order[1..], id);
      assert order[0] !in order[1..];
      if order[0] == id {
        WithoutAbsent(order[1..], id);
      }
    }
  }

  lemma WithoutAt(order: seq<Id>, i: nat)
    requires Distinct(order) && i < |order|
    ensures Without(order, order[i]) == order[..i] + order[i + 1..]
  {
    var id, a, b := order[i], order[..i], order[i + 1..];
    hide Without;
    forall k | 0 <= k < |a| ensures a[k] != id {
      assert order[k] == a[k];
    }
    forall k | 0 <= k < |b| ensures b[k] != id {
      assert order[i + 1 + k] == b[k];
    }
    WithoutMiddle(a, b, id);
    SplitAt(order, i);
  }

  lemma SplitAt(order: seq<Id>, i: nat)
    requires i < |order|
    ensures order == order[..i] + ([order[i]] + order[i + 1..])
  {
  }

  lemma {:induction false} WithoutMiddle(a: seq<Id>, b: seq<Id>, id: Id)
    requires id !in a && id !in b
    ensures Without(a + ([id] + b), id) == a + b
  {
    if a == [] {
      WithoutAbsent(b, id);
      assert a + ([id] + b) == [id] + b && ([id] + b)[1..] == b;
    } else {
      WithoutMiddle(a[1..], b, id);
      assert (a + ([id] + b))[1..] == a[1..] + ([id] + b);
    }
  }

  lemma TouchKnown(order: seq<Id>, id: Id, max: nat)
    requires Distinct(order) && id in order && |order| <= max
    ensures Touch(order, id, max) == Without(order, id) + [id]
  {
    WithoutDistinct(order, id);
  }

  lemma TouchFresh(order: seq<Id>, id: Id, max: nat)
    requires id !in order && |order| <= max && max > 0
    ensures Touch(order, id, max) == (if |order| == max then order[1..] else order) + [id]
  {
    WithoutAbsent(order, id);
  }

  class Cache {
    var nodes: map<Id, Node>
    var order: seq<Id>
    const maxNodes: nat

    /** No id twice, exactly the cached ids, never more than the bound. */
    ghost predicate Valid()
      reads this
    {
      maxNodes > 0 && Distinct(order) && Elements(order) == nodes.Keys && |order| <= maxNodes
    }

    constructor (max: int)
      ensures Valid() && nodes == map[] && order == []
      ensures maxNodes == if max <= 0 then DEFAULT_CACHE_NODES else max
    {
      maxNodes := if max <= 0 then DEFAULT_CACHE_NODES else max;
      nodes, order := map[], [];
    }

    lemma SizeIsKeys()
      requires Valid()
      ensures |nodes| == |order|
    {
      DistinctSize(order);
      assert |nodes| == |nodes.Keys|;
    }

    method Promote(id: Id)
      requires Valid()
      modifies `order
      ensures order == if id in old(order) then Without(old(order), id) + [id] else old(order)
    {
      for i := 0 to |order|
        invariant order == old(order) && id !in order[..i]
      {
        if order[i] == id {
          WithoutAt(order, i);
          order := order[..i] + order[i + 1..];
          order := order + [id];
          return;
        }
      }
    }

    method EvictOldest()
      requires Valid()
      modifies this
      ensures Valid() && order == if old(order) == [] then [] else old(order)[1..]
      ensures nodes == old(nodes) - if old(order) == [] then {} else {old(order)[0]}
    {
      if |order| == 0 {
        return;
      }
      var id := order[0];
      order := order[1..];
      nodes := nodes - {id};
      assert old(order) == [id] + order;
      assert Elements(old(order)) == {id} + Elements(order);
    }

    method Get(id: Id) returns (found: bool, n: Node)
      requires Valid()
      modifies this
      ensures Valid() && nodes == old(nodes) && found == (id in nodes) && (found ==> n == nodes[id])
      ensures order == if found then Touch(old(order), id, maxNodes) else old(order)
    {
      n := Node("", map[]);
      found := id in nodes;
      if found {
        assert id in Elements(order);
        WithoutDistinct(order, id);
        Promote(id);
        assert Elements(order) == Elements(old(order));
        n := nodes[id];
      }
    }

    method Put(id: Id, n: Node)
      requires Valid()
      modifies this
      ensures Valid() && order == Touch(old(order), id, maxNodes)
      ensures id in nodes && nodes[id] == n
      ensures forall x :: x in nodes && x != id ==> x in old(nodes) && nodes[x] == old(nodes)[x]
    {
      hide Without, Touch, Distinct, Elements;
      SizeIsKeys();
      InElements(order, id);
      if id in nodes {
        TouchKnown(order, id, maxNodes);
        Promote(id);
        SameElements(old(order), id);
        nodes := nodes[id := n];
        return;
      }
      TouchFresh(order, id, maxNodes);
      if |nodes| >= maxNodes {
        EvictOldest();
        InElements(order, id);
      }
      AppendElements(order, id);
      nodes := nodes[id := n];
      order := order + [id];
    }

    method Remove(id: Id)
      requires Valid()
      modifies this
      ensures Valid() && order == Without(old(order), id) && nodes == old(nodes) - {id}
    {
      WithoutDistinct(order, id);
      nodes := nodes - {id};
      ghost var was := order;
      var i := 0;
      while i < |order|
        invariant 0 <= i <= |order| && order == was && id !in order[..i]
      {
        if order[i] == id {
          WithoutAt(order, i);
          order := order[..i] + order[i + 1..];
          break;
        }
        i := i + 1;
      }
      if id !in was {
        WithoutAbsent(was, id);
      }
      assert order == Without(was, id);
      assert forall x :: x in Elements(order) <==> x in Elements(was) && x != id;
    }

    method Clear()
      modifies this
      requires maxNodes > 0
      ensures Valid() && nodes == map[] && order == []
    {
      nodes, order := map[], [];
    }
  }

  lemma SameElements(order: seq<Id>, id: Id)
    requires id in order && Distinct(order)
    ensures Elements(Without(order, id) + [id]) == Elements(order) && Distinct(Without(order, id) + [id])
    ensures |Without(order, id) + [id]| == |order|
  {
    WithoutDistinct(order, id);
    assert forall x :: x in Without(order, id) + [id] <==> x in order;
  }

  lemma InElements(order: seq<Id>, id: Id)
    ensures id in Elements(order) <==> id in order
  {
  }

  lemma AppendElements(order: seq<Id>, id: Id)
    ensures Elements(order + [id]) == Elements(order) + {id}
    ensures Distinct(order) && id !in order ==> Distinct(order + [id])
  {
    assert forall x :: x in order + [id] <==> x in order || x == id;
  }

  // ----- least recently used

  /** What happens to the cache: a put or a hit, a removal, or clearing it. */
  datatype Event = Use(id: Id) | Drop(id: Id) | Reset

  /** The cached ids after the given events of a fresh cache. */
  function After(evs: seq<Event>, max: nat): seq<Id> {
    if evs == [] then []
    else var before := After(evs[..|evs| - 1], max);
         match evs[|evs| - 1]
         case Use(id) => Touch(before, id, max)
         case Drop(id) => Without(before, id)
         case Reset => []
  }

  /** All ids used and not removed since, ordered by their last use. */
  function Live(evs: seq<Event>): seq<Id> {
    if evs == [] then []
    else var before := Live(evs[..|evs| - 1]);
         match evs[|evs| - 1]
         case Use(id) => Without(before, id) + [id]
         case Drop(id) => Without(before, id)
         case Reset => []
  }

  predicate Touches(e: Event, x: Id) {
    e == Use(x) || e == Drop(x) || e == Reset
  }

  /** x was used at i, and neither used again nor removed since. */
  ghost predicate LastUsedAt(evs: seq<Event>, x: Id, i: nat) {
    i < |evs| && evs[i] == Use(x) && forall k :: i < k < |evs| ==> !Touches(evs[k], x)
  }

  /** The list runs from the least to the most recently used id. */
  ghost predicate InLastUseOrder(evs: seq<Event>, order: seq<Id>) {
    forall a, b, i: nat, j: nat ::
      0 <= a < b < |order| && LastUsedAt(evs, order[a], i) && LastUsedAt(evs, order[b], j) ==> i < j
  }

  lemma LastUsedBefore(rest: seq<Event>, last: Event, x: Id, i: nat)
    requires !Touches(last, x)
    ensures LastUsedAt(rest + [last], x, i) <==> LastUsedAt(rest, x, i)
  {
    var evs := rest + [last];
    assert forall k :: 0 <= k < |rest| ==> evs[k] == rest[k];
    assert evs[|rest|] == last;
    if LastUsedAt(rest, x, i) {
      forall k | i < k < |evs| ensures !Touches(evs[k], x) {
        assert k < |rest| ==> !Touches(rest[k], x);
      }
    }
    if LastUsedAt(evs, x, i) {
      forall k | i < k < |rest| ensures !Touches(rest[k], x) {
        assert !Touches(evs[k], x);
      }
    }
  }

  lemma LastUsedNow(rest: seq<Event>, last: Event, x: Id, i: nat)
    requires Touches(last, x)
    ensures LastUsedAt(rest + [last], x, i) <==> last == Use(x) && i == |rest|
  {
    assert (rest + [last])[|rest|] == last;
  }

  lemma {:induction false} LiveMembers(evs: seq<Event>, x: Id)
    ensures x in Live(evs) <==> exists i: nat :: LastUsedAt(evs, x, i)
  {
    if evs != [] {
      var rest, last := evs[..|evs| - 1], evs[|evs| - 1];
      assert evs == rest + [last];
      if Touches(last, x) {
        LastUsedNow(rest, last, x, |rest|);
        forall i: nat ensures LastUsedAt(evs, x, i) <==> last == Use(x) && i == |rest| {
          LastUsedNow(rest, last, x, i);
        }
      } else {
        LiveMembers(rest, x);
        hide LastUsedAt;
        forall i: nat ensures LastUsedAt(evs, x, i) <==> LastUsedAt(rest, x, i) {
          LastUsedBefore(rest, last, x, i);
        }
      }
    }
  }

  lemma {:induction false} LiveOrder(evs: seq<Event>)
    ensures Distinct(Live(evs)) && InLastUseOrder(evs, Live(evs))
  {
    if evs != [] {
      var rest, last := evs[..|evs| - 1], evs[|evs| - 1];
      assert evs == rest + [last];
      LiveOrder(rest);
      if !last.Reset? {
        WithoutDistinct(Live(rest), last.id);
        LiveOrderStep(rest, last, Live(rest));
        assert Live(evs) == Without(Live(rest), last.id) + if last.Use? then [last.id] else [];
      }
    }
  }

  lemma LiveOrderStep(rest: seq<Event>, last: Event, order: seq<Id>)
    requires Distinct(order) && InLastUseOrder(rest, order) && !last.Reset?
    ensures InLastUseOrder(rest + [last], Without(order, last.id) + if last.Use? then [last.id] else [])
  {
    var w := Without(order, last.id);
    var r := w + if last.Use? then [last.id] else [];
    forall a, b, i: nat, j: nat | && 0 <= a < b < |r| && LastUsedAt(rest + [last], r[a], i)
                                  && LastUsedAt(rest + [last], r[b], j)
      ensures i < j
    {
      assert w[a] in w;
      LastUsedBefore(rest, last, r[a], i);
      if b < |w| {
        assert w[b] in w;
        LastUsedBefore(rest, last, r[b], j);
        var c, d := WithoutKeepsOrder(order, last.id, a, b);
        assert LastUsedAt(rest, order[c], i) && LastUsedAt(rest, order[d], j);
      } else {
        LastUsedNow(rest, last, r[b], j);
      }
    }
  }

  /** Removing an id keeps the relative order of the others. */
  lemma WithoutKeepsOrder(order: seq<Id>, id: Id, a: nat, b: nat) returns (c: nat, d: nat)
    requires Distinct(order) && a < b < |Without(order, id)|
    ensures c < d < |order| && order[c] == Without(order, id)[a] && order[d] == Without(order, id)[b]
  {
    if id in order {
      var i :| 0 <= i < |order| && order[i] == id;
      WithoutAt(order, i);
      c, d := if a < i then a else a + 1, if b < i then b else b + 1;
    } else {
      WithoutAbsent(order, id);
      c, d := a, b;
    }
  }

  ghost predicate EndsWith(whole: seq<Id>, end: seq<Id>) {
    |end| <= |whole| && whole[|whole| - |end|..] == end
  }

  lemma EndsWithout(whole: seq<Id>, end: seq<Id>, id: Id)
    requires EndsWith(whole, end)
    ensures EndsWith(Without(whole, id), Without(end, id))
  {
    var front := whole[..|whole| - |end|];
    assert whole == front + end;
    WithoutConcat(front, end, id);
  }

  lemma EndsWithMore(whole: seq<Id>, end: seq<Id>, id: Id, max: nat)
    requires EndsWith(whole, end)
    ensures EndsWith(whole + [id], Newest(end + [id], max))
  {
    var w, e := whole + [id], end + [id];
    var n := |whole| - |end|;
    assert w[n..] == e;
    if |e| > max {
      assert w[|w| - max..] == w[n..][|e| - max..];
    }
  }

  /** The cached ids are the last ones in the order of last use. */
  lemma {:induction false} CacheIsEnd(evs: seq<Event>, max: nat)
    ensures EndsWith(Live(evs), After(evs, max)) && |After(evs, max)| <= max
  {
    if evs != [] {
      var rest, last := evs[..|evs| - 1], evs[|evs| - 1];
      CacheIsEnd(rest, max);
      LiveOrder(rest);
      match last
      case Use(id) =>
        EndsWithout(Live(rest), After(rest, max), id);
        EndsWithMore(Without(Live(rest), id), Without(After(rest, max), id), id, max);
      case Drop(id) =>
        EndsWithout(Live(rest), After(rest, max), id);
        EndIsDistinct(Live(rest), After(rest, max));
        WithoutDistinct(After(rest, max), id);
      case Reset =>
    }
  }

  lemma EndIsDistinct(whole: seq<Id>, end: seq<Id>)
    requires Distinct(whole) && EndsWith(whole, end)
    ensures Distinct(end)
  {
    assert forall i :: 0 <= i < |end| ==> end[i] == whole[|whole| - |end| + i];
  }

  /** How many ids come after x. */
  function Later(order: seq<Id>, x: Id): nat {
    if order == [] || order[|order| - 1] == x then 0 else 1 + Later(order[..|order| - 1], x)
  }

  lemma {:induction false} LaterAt(order: seq<Id>, k: nat)
    requires Distinct(order) && k < |order|
    ensures Later(order, order[k]) == |order| - 1 - k
  {
    if k < |order| - 1 {
      LaterAt(order[..|order| - 1], k);
    }
  }

  lemma InEndIff(whole: seq<Id>, end: seq<Id>, x: Id)
    requires Distinct(whole) && EndsWith(whole, end) && x in whole
    ensures x in end <==> Later(whole, x) < |end|
  {
    var k :| 0 <= k < |whole| && whole[k] == x;
    var n := |whole| - |end|;
    LaterAt(whole, k);
    if x in end {
      var i :| 0 <= i < |end| && end[i] == x;
      assert whole[n + i] == x;
    }
    if n <= k {
      assert end[k - n] == x;
    }
  }

  lemma LaterWithout(order: seq<Id>, id: Id, x: Id)
    requires Distinct(order) && x in order && x != id
    ensures Later(Without(order, id), x) <= Later(order, x)
  {
    var k :| 0 <= k < |order| && order[k] == x;
    LaterAt(order, k);
    WithoutDistinct(order, id);
    if id in order {
      var i :| 0 <= i < |order| && order[i] == id;
      WithoutAt(order, i);
      var w := Without(order, id);
      LaterAt(w, if k < i then k else k - 1);
    } else {
      WithoutAbsent(order, id);
    }
  }

  /** From step i on, fewer than `max` ids used later than x are still there. */
  ghost predicate Within(evs: seq<Event>, max: nat, x: Id, i: nat) {
    forall k :: i < k <= |evs| ==> Later(Live(evs[..k]), x) < max
  }

  /** Since its last use, x never had as many ids used later and still there as the cache can hold. */
  ghost predicate Stayed(evs: seq<Event>, max: nat, x: Id) {
    exists i: nat :: LastUsedAt(evs, x, i) && Within(evs, max, x, i)
  }

  lemma WithinStep(rest: seq<Event>, last: Event, max: nat, x: Id, i: nat)
    requires i < |rest|
    ensures Within(rest + [last], max, x, i) <==> Within(rest, max, x, i) && Later(Live(rest + [last]), x) < max
  {
    var evs := rest + [last];
    assert evs[..|evs|] == evs;
    hide Live, Later;
    forall k | 0 <= k <= |rest| ensures evs[..k] == rest[..k] {
    }
  }

  lemma StayedStep(rest: seq<Event>, last: Event, max: nat, x: Id)
    requires !Touches(last, x)
    ensures Stayed(rest + [last], max, x) <==> Stayed(rest, max, x) && Later(Live(rest + [last]), x) < max
  {
    UsedWithin(rest, x);
    hide LastUsedAt, Live, Later, Touches, Within;
    forall i: nat
      ensures LastUsedAt(rest + [last], x, i) <==> LastUsedAt(rest, x, i)
      ensures i < |rest| ==> (Within(rest + [last], max, x, i)
                              <==> Within(rest, max, x, i) && Later(Live(rest + [last]), x) < max)
    {
      LastUsedBefore(rest, last, x, i);
      if i < |rest| {
        WithinStep(rest, last, max, x, i);
      }
    }
  }

  lemma UsedWithin(evs: seq<Event>, x: Id)
    ensures forall i: nat :: LastUsedAt(evs, x, i) ==> i < |evs|
  {
  }

  lemma StayedNow(rest: seq<Event>, last: Event, max: nat, x: Id)
    requires Touches(last, x) && max > 0
    ensures Stayed(rest + [last], max, x) <==> last == Use(x)
  {
    var evs := rest + [last];
    assert evs[..|evs|] == evs && evs[|evs| - 1] == last;
    forall i: nat ensures LastUsedAt(evs, x, i) <==> last == Use(x) && i == |rest| {
      LastUsedNow(rest, last, x, i);
    }
    if last == Use(x) {
      assert Later(Live(evs), x) == 0;
      assert LastUsedAt(evs, x, |rest|);
    }
  }

  /** An id is cached exactly if it was used, not removed since, and at no time since then as many
      ids as the cache can hold had been used later and were still there. */
  lemma {:induction false} CachedIff(evs: seq<Event>, max: nat, x: Id)
    requires max > 0
    ensures x in After(evs, max) <==> Stayed(evs, max, x)
  {
    if evs != [] {
      var rest, last := evs[..|evs| - 1], evs[|evs| - 1];
      assert evs == rest + [last];
      if Touches(last, x) {
        StayedNow(rest, last, max, x);
        hide Stayed;
        if last == Use(x) {
          TouchHolds(After(rest, max), x, max);
        }
      } else {
        CachedIff(rest, max, x);
        StayedStep(rest, last, max, x);
        hide Stayed;
        CachedStep(rest, last, max, x);
      }
    }
  }

  lemma TouchHolds(order: seq<Id>, x: Id, max: nat)
    requires max > 0
    ensures x in Touch(order, x, max)
  {
    var t := Touch(order, x, max);
    assert t[|t| - 1] == x;
  }

  lemma CachedStep(rest: seq<Event>, last: Event, max: nat, x: Id)
    requires !Touches(last, x)
    ensures x in After(rest + [last], max) <==> x in After(rest, max) && Later(Live(rest + [last]), x) < max
  {
    var evs := rest + [last];
    assert evs[..|evs| - 1] == rest && evs[|evs| - 1] == last;
    CacheIsEnd(rest, max);
    CacheIsEnd(evs, max);
    LiveOrder(rest);
    LiveOrder(evs);
    var live, cached := Live(rest), After(rest, max);
    EndMembers(live, cached, x);
    if last.Drop? {
      if x in cached {
        InEndIff(live, cached, x);
        LaterWithout(live, last.id, x);
      }
    } else {
      var kept := Without(cached, last.id);
      assert After(evs, max) == Newest(kept + [last.id], max);
      if x in cached {
        assert x in Live(evs);
        InEndIff(Live(evs), After(evs, max), x);
        if |kept + [last.id]| <= max {
          assert x in kept + [last.id];
        }
      } else {
        EndMembers(kept + [last.id], After(evs, max), x);
      }
    }
  }

  lemma EndMembers(whole: seq<Id>, end: seq<Id>, x: Id)
    requires EndsWith(whole, end)
    ensures x in end ==> x in whole
  {
  }

  /** Whatever was used and is still to be there, but was evicted, was last used before everything cached. */
  lemma EvictedWereOlder(evs: seq<Event>, max: nat, x: Id, y: Id, i: nat, j: nat)
    requires LastUsedAt(evs, x, i) && LastUsedAt(evs, y, j)
    requires x in After(evs, max) && y !in After(evs, max)
    ensures j < i
  {
    CacheIsEnd(evs, max);
    LiveOrder(evs);
    LiveMembers(evs, y);
    hide LastUsedAt, Live, After;
    var a, b := EndComesLast(Live(evs), After(evs, max), x, y);
    assert LastUsedAt(evs, Live(evs)[b], j) && LastUsedAt(evs, Live(evs)[a], i);
  }

  /** What the end holds comes after what it does not. */
  lemma EndComesLast(whole: seq<Id>, end: seq<Id>, x: Id, y: Id) returns (a: nat, b: nat)
    requires EndsWith(whole, end) && x in end && y in whole && y !in end
    ensures b < a < |whole| && whole[a] == x && whole[b] == y
  {
    var n := |whole| - |end|;
    var k :| 0 <= k < |end| && end[k] == x;
    a := n + k;
    b :| 0 <= b < |whole| && whole[b] == y;
    assert forall d :: n <= d < |whole| ==> whole[d] == end[d - n] && whole[d] in end;
  }
}
