/** `GraphQueryIndex`: derived lookup maps that must agree with a plain scan of the store. */
module QueryIndex {
  import opened Order
  import opened Store
  import opened Memory

  // ----- trimmed string properties

  function TrimLeft(s: string): string {
    if s != [] && IsSpace(s[0]) then TrimLeft(s[1..]) else s
  }

  function TrimRight(s: string): string {
    if s != [] && IsSpace(s[|s| - 1]) then TrimRight(s[..|s| - 1]) else s
  }

  /** t is s without the white space at both ends: none is left there, and nothing else is taken off. */
  ghost predicate IsTrimmed(s: string, t: string) {
    && (exists a, b :: s == a + t + b && (forall c :: c in a + b ==> IsSpace(c)))
    && (t != "" ==> !IsSpace(t[0]) && !IsSpace(t[|t| - 1]))
  }

  lemma {:induction false} TrimLeftIs(s: string)
    ensures exists a :: s == a + TrimLeft(s) && forall c :: c in a ==> IsSpace(c)
    ensures TrimLeft(s) != "" ==> !IsSpace(TrimLeft(s)[0])
  {
    hide IsSpace;
    if s != "" && IsSpace(s[0]) {
      TrimLeftIs(s[1..]);
      var a :| s[1..] == a + TrimLeft(s) && forall c :: c in a ==> IsSpace(c);
      assert s == ([s[0]] + a) + TrimLeft(s);
    } else {
      assert s == "" + TrimLeft(s);
    }
  }

  lemma {:induction false} TrimRightIs(s: string)
    ensures exists b :: s == TrimRight(s) + b && forall c :: c in b ==> IsSpace(c)
    ensures TrimRight(s) != "" ==> !IsSpace(TrimRight(s)[|TrimRight(s)| - 1])
    ensures TrimRight(s) <= s
  {
    hide IsSpace;
    if s != "" && IsSpace(s[|s| - 1]) {
      var n := |s| - 1;
      TrimRightIs(s[..n]);
      var b :| s[..n] == TrimRight(s) + b && forall c :: c in b ==> IsSpace(c);
      assert s == TrimRight(s) + (b + [s[n]]);
    } else {
      assert s == TrimRight(s) + "";
    }
  }

  lemma TrimIs(s: string)
    ensures IsTrimmed(s, TrimRight(TrimLeft(s)))
  {
    hide IsSpace, TrimLeft, TrimRight;
    var l := TrimLeft(s);
    var t := TrimRight(l);
    TrimLeftIs(s);
    TrimRightIs(l);
    var a :| s == a + l && forall c :: c in a ==> IsSpace(c);
    var b :| l == t + b && forall c :: c in b ==> IsSpace(c);
    assert s == a + t + b;
    assert t != "" ==> t[0] == l[0];
  }

  /** Where t lies in s: outside there is only white space. */
  lemma TrimmedAt(s: string, t: string) returns (i: nat)
    requires IsTrimmed(s, t)
    ensures i + |t| <= |s| && t == s[i..i + |t|]
    ensures forall k :: 0 <= k < |s| && (k < i || k >= i + |t|) ==> IsSpace(s[k])
  {
    hide IsSpace;
    var a, b :| s == a + t + b && forall c :: c in a + b ==> IsSpace(c);
    i := |a|;
    forall k | 0 <= k < |s| && (k < i || k >= i + |t|) ensures IsSpace(s[k]) {
      assert s[k] == if k < i then a[k] else b[k - i - |t|];
      assert s[k] in a + b;
    }
  }

  /** There is only one such t. */
  lemma TrimmedOnce(s: string, t: string, u: string)
    requires IsTrimmed(s, t) && IsTrimmed(s, u)
    ensures t == u
  {
    var i := TrimmedAt(s, t);
    var j := TrimmedAt(s, u);
    assert (t != "" ==> !IsSpace(t[0]) && !IsSpace(t[|t| - 1])) && (u != "" ==> !IsSpace(u[0]) && !IsSpace(u[|u| - 1]));
    hide *;
    assert t != "" ==> t[0] == s[i] && t[|t| - 1] == s[i + |t| - 1];
    assert u != "" ==> u[0] == s[j] && u[|u| - 1] == s[j + |u| - 1];
  }

  /** The node has a text under the property that is v once trimmed. */
  ghost predicate Reads(n: Node, property: string, v: string) {
    property in n.props && n.props[property].Text? && IsTrimmed(n.props[property].s, v)
  }

  function StrValue(v: Value): string {
    if v.Text? then TrimRight(TrimLeft(v.s)) else ""
  }

  function Prop(n: Node, k: string): string {
    StrValue(Get(n.props, k))
  }

  function NonEmpty(s: string): set<string> {
    if s == "" then {} else {s}
  }

  /** The lookups by one string. */
  datatype Lookup = ByKind | ByStableId | ByName | ByQualified | ByPath

  /** The keys a node is found under. */
  function Keys(l: Lookup, n: Node): set<string> {
    match l
    case ByKind => {n.kind}
    case ByStableId => NonEmpty(Prop(n, "stable_id"))
    case ByName => NonEmpty(Prop(n, "name"))
    case ByQualified => NonEmpty(Prop(n, "qualified_name"))
    case ByPath => NonEmpty(Prop(n, "path")) + NonEmpty(Prop(n, "rel_path")) + NonEmpty(Prop(n, "file_id"))
  }

  /** The same, property by property. */
  ghost predicate FoundUnder(l: Lookup, n: Node, key: string) {
    match l
    case ByKind => key == n.kind
    case ByStableId => key != "" && Reads(n, "stable_id", key)
    case ByName => key != "" && Reads(n, "name", key)
    case ByQualified => key != "" && Reads(n, "qualified_name", key)
    case ByPath => key != "" && (Reads(n, "path", key) || Reads(n, "rel_path", key) || Reads(n, "file_id", key))
  }

  lemma PropReads(n: Node, property: string, v: string)
    requires v != ""
    ensures Prop(n, property) == v <==> Reads(n, property, v)
  {
    hide IsTrimmed, TrimLeft, TrimRight;
    if property in n.props && n.props[property].Text? {
      var s := n.props[property].s;
      TrimIs(s);
      if IsTrimmed(s, v) {
        TrimmedOnce(s, v, TrimRight(TrimLeft(s)));
      }
    }
  }

  lemma KeysAre(l: Lookup, n: Node, key: string)
    ensures key in Keys(l, n) <==> FoundUnder(l, n, key)
  {
    hide Prop, Reads;
    if key != "" {
      PropReads(n, "stable_id", key);
      PropReads(n, "name", key);
      PropReads(n, "qualified_name", key);
      PropReads(n, "path", key);
      PropReads(n, "rel_path", key);
      PropReads(n, "file_id", key);
    }
  }

  // ----- the reference: a scan of the store restricted to one project

  predicate InProject(n: Node, project: string) {
    Prop(n, "project_id") == project
  }

  function Restricted(c: State, project: string): State {
    var nodes := map x | x in c.nodes && InProject(c.nodes[x], project) :: c.nodes[x];
    State(nodes, map e | e in c.edges && c.edges[e].from in nodes && c.edges[e].to in nodes :: c.edges[e])
  }

  ghost function ScanIds(v: State, l: Lookup, key: string): seq<Id> {
    Listing(set x | x in v.nodes && key in Keys(l, v.nodes[x]))
  }

  predicate HitLeq(a: EdgeNode, b: EdgeNode) {
    if a.edge.id != b.edge.id then Leq(a.edge.id, b.edge.id) else Leq(a.id, b.id)
  }

  predicate SortedHits(hits: seq<EdgeNode>) {
    forall i, j :: 0 <= i < j < |hits| ==> HitLeq(hits[i], hits[j])
  }

  /** hits is the sorted answer of the scan: every hit as often as it belongs there. */
  ghost predicate ScanHits(v: State, n: Id, kind: string, dir: Direction, hits: seq<EdgeNode>) {
    SortedHits(hits) && forall h :: multiset(hits)[h] == Times(v, n, kind, dir, h)
  }

  /** The scan of the project is the store's own plain scan, cut down to the project. */
  lemma ScanIsRestriction(c: State, project: string, n: Id, kind: string, dir: Direction, h: EdgeNode)
    requires Keyed(c)
    ensures Times(Restricted(c, project), n, kind, dir, h)
         == if n in c.nodes && InProject(c.nodes[n], project) && InProject(h.node, project)
            then Times(c, n, kind, dir, h) else 0
  {
    var v := Restricted(c, project);
    assert OutHit(v, n, kind, h) <==> OutHit(c, n, kind, h) && n in v.nodes && InProject(h.node, project);
    assert InHit(v, n, kind, h) <==> InHit(c, n, kind, h) && n in v.nodes && InProject(h.node, project);
  }

  // ----- lists in maps

  function Append<K, V>(m: map<K, seq<V>>, k: K, x: V): map<K, seq<V>> {
    m[k := At(m, k) + [x]]
  }

  /** Exactly the nodes in `done` are listed, each once under each of its keys. */
  ghost predicate Listed(m: map<string, seq<Id>>, nodes: map<Id, Node>, done: set<Id>, l: Lookup) {
    forall k :: Distinct(At(m, k)) && forall x :: x in At(m, k) <==> x in done && x in nodes && k in Keys(l, nodes[x])
  }

  /** The finished lookup: every list is the scan. */
  ghost predicate Indexed(m: map<string, seq<Id>>, v: State, l: Lookup) {
    forall k :: At(m, k) == ScanIds(v, l, k)
  }

  lemma AppendListed(m: map<string, seq<Id>>, nodes: map<Id, Node>, done: set<Id>, l: Lookup, x: Id, k: string)
    requires Listed(m, nodes, done, l) && x in nodes && x !in done && Keys(l, nodes[x]) == {k}
    ensures Listed(Append(m, k, x), nodes, done + {x}, l)
  {
    var r := Append(m, k, x);
    forall k'
      ensures Distinct(At(r, k')) && forall y :: y in At(r, k')
                                                 <==> y in done + {x} && y in nodes && k' in Keys(l, nodes[y])
    {
      assert At(r, k') == if k' == k then At(m, k) + [x] else At(m, k');
      assert x !in At(m, k);
    }
  }

  lemma SkipListed(m: map<string, seq<Id>>, nodes: map<Id, Node>, done: set<Id>, l: Lookup, x: Id)
    requires Listed(m, nodes, done, l) && x in nodes && Keys(l, nodes[x]) == {}
    ensures Listed(m, nodes, done + {x}, l)
  {
  }

  /** `append` under the property value, unless it is empty. */
  method AddOne(m: map<string, seq<Id>>, ghost nodes: map<Id, Node>, ghost done: set<Id>, ghost l: Lookup, x: Id,
                k: string)
    returns (r: map<string, seq<Id>>)
    requires Listed(m, nodes, done, l) && x in nodes && x !in done && Keys(l, nodes[x]) == NonEmpty(k)
    ensures Listed(r, nodes, done + {x}, l)
  {
    r := m;
    if k != "" {
      AppendListed(m, nodes, done, l, x, k);
      r := Append(m, k, x);
    } else {
      SkipListed(m, nodes, done, l, x);
    }
  }

  const PATH_PROPS: seq<string> := ["path", "rel_path", "file_id"]

  /** The distinct non-empty values of the first i path properties. */
  function PathsUpto(n: Node, i: nat): set<string>
    requires i <= |PATH_PROPS|
  {
    if i == 0 then {} else PathsUpto(n, i - 1) + NonEmpty(Prop(n, PATH_PROPS[i - 1]))
  }

  lemma PathKeys(n: Node)
    ensures PathsUpto(n, |PATH_PROPS|) == Keys(ByPath, n)
  {
    assert PathsUpto(n, 1) == NonEmpty(Prop(n, "path"));
    assert PathsUpto(n, 2) == PathsUpto(n, 1) + NonEmpty(Prop(n, "rel_path"));
    assert PathsUpto(n, 3) == PathsUpto(n, 2) + NonEmpty(Prop(n, "file_id"));
  }

  /** The lists of the seen keys have got x, the others are as before. */
  ghost predicate AppendedAt(m: map<string, seq<Id>>, r: map<string, seq<Id>>, seen: set<string>, x: Id) {
    forall k :: At(r, k) == if k in seen then At(m, k) + [x] else At(m, k)
  }

  lemma AppendManyListed(m: map<string, seq<Id>>, nodes: map<Id, Node>, done: set<Id>, l: Lookup, x: Id,
                         r: map<string, seq<Id>>, keys: set<string>)
    requires Listed(m, nodes, done, l) && x in nodes && x !in done && keys == Keys(l, nodes[x])
    requires AppendedAt(m, r, keys, x)
    ensures Listed(r, nodes, done + {x}, l)
  {
    hide Keys;
    forall k
      ensures Distinct(At(r, k)) && forall y :: y in At(r, k)
                                                <==> y in done + {x} && y in nodes && k in Keys(l, nodes[y])
    {
      var before, after := At(m, k), At(r, k);
      assert after == if k in keys then before + [x] else before;
      OnceMore(before, x);
    }
  }

  lemma OnceMore(ids: seq<Id>, x: Id)
    ensures (Distinct(ids) && x !in ids ==> Distinct(ids + [x])) && forall y :: y in ids + [x] <==> y in ids || y == x
  {
  }

  /** The loop over `pathKeys`: each distinct path value once. */
  method AddPaths(m: map<string, seq<Id>>, ghost nodes: map<Id, Node>, ghost done: set<Id>, x: Id, n: Node)
    returns (r: map<string, seq<Id>>)
    requires Listed(m, nodes, done, ByPath) && x in nodes && x !in done && nodes[x] == n
    ensures Listed(r, nodes, done + {x}, ByPath)
  {
    r := m;
    var seen: set<string> := {};
    PathKeys(n);
    assert AppendedAt(m, r, seen, x);
    hide Listed, Prop, AppendedAt, Keys;
    for i := 0 to |PATH_PROPS|
      invariant AppendedAt(m, r, seen, x) && seen == PathsUpto(n, i)
    {
      var value := Prop(n, PATH_PROPS[i]);
      if value != "" && value !in seen {
        AppendNext(m, r, seen, x, value);
        seen := seen + {value};
        r := Append(r, value, x);
      }
    }
    AppendManyListed(m, nodes, done, ByPath, x, r, Keys(ByPath, n));
  }

  lemma AppendNext(m: map<string, seq<Id>>, r: map<string, seq<Id>>, seen: set<string>, x: Id, value: string)
    requires AppendedAt(m, r, seen, x) && value !in seen
    ensures AppendedAt(m, Append(r, value, x), seen + {value}, x)
  {
  }

  /** Sorting every list of a complete lookup turns it into the scan. */
  method SortLists(m: map<string, seq<Id>>, ghost v: State, ghost l: Lookup) returns (r: map<string, seq<Id>>)
    requires Listed(m, v.nodes, v.nodes.Keys, l)
    ensures Indexed(r, v, l)
  {
    r := m;
    var todo := m.Keys;
    while todo != {}
      invariant todo <= m.Keys && r.Keys == m.Keys
      invariant forall k :: k in m ==> r[k] == if k in todo then m[k] else ScanIds(v, l, k)
      decreases |todo|
    {
      var k :| k in todo;
      todo := todo - {k};
      ListedIsScan(m, v, l, k);
      r := r[k := Sort(r[k])];
    }
    forall k ensures At(r, k) == ScanIds(v, l, k) {
      if k !in m {
        ListedIsScan(m, v, l, k);
      }
    }
  }

  lemma ListedIsScan(m: map<string, seq<Id>>, v: State, l: Lookup, k: string)
    requires Listed(m, v.nodes, v.nodes.Keys, l)
    ensures Sort(At(m, k)) == ScanIds(v, l, k)
  {
    var xs, s := At(m, k), set x | x in v.nodes && k in Keys(l, v.nodes[x]);
    DistinctFromMultiset(xs, Sort(xs));
    assert Elements(Sort(xs)) == s;
    ListingUnique(Sort(xs), s);
  }

  // ----- neighbour lists

  /** h is the hit of a stored edge in one direction. */
  predicate Hit(v: State, dir: Direction, h: EdgeNode) {
    && h.edge.id in v.edges && v.edges[h.edge.id] == h.edge && h.id in v.nodes && v.nodes[h.id] == h.node
    && match dir
       case Out => h.id == h.edge.to
       case In => h.id == h.edge.from
       case _ => false
  }

  function Near(dir: Direction, e: Edge): Id {
    if dir == Out then e.from else e.to
  }

  /** Exactly the hits of the edges in `done` are listed, each once, under its near end and kind. */
  ghost predicate HitsByKind(m: map<(Id, string), seq<EdgeNode>>, v: State, done: set<Id>, dir: Direction) {
    forall n, kind, h :: multiset(At(m, (n, kind)))[h]
                         == One(h.edge.id in done && Hit(v, dir, h) && Near(dir, h.edge) == n && h.edge.kind == kind)
  }

  ghost predicate HitsOfAll(m: map<Id, seq<EdgeNode>>, v: State, done: set<Id>, dir: Direction) {
    forall n, h :: multiset(At(m, n))[h] == One(h.edge.id in done && Hit(v, dir, h) && Near(dir, h.edge) == n)
  }

  lemma AppendCounts<K>(m: map<K, seq<EdgeNode>>, k: K, x: EdgeNode, k': K, h: EdgeNode)
    ensures multiset(At(Append(m, k, x), k'))[h] == multiset(At(m, k'))[h] + One(k' == k && h == x)
  {
    if k' == k {
      assert At(Append(m, k, x), k') == At(m, k) + [x];
    }
  }

  lemma AppendByKind(m: map<(Id, string), seq<EdgeNode>>, v: State, done: set<Id>, dir: Direction, h: EdgeNode)
    requires HitsByKind(m, v, done, dir) && Hit(v, dir, h) && h.edge.id !in done && Keyed(v)
    ensures HitsByKind(Append(m, (Near(dir, h.edge), h.edge.kind), h), v, done + {h.edge.id}, dir)
  {
    var key := (Near(dir, h.edge), h.edge.kind);
    forall n, kind, g
      ensures multiset(At(Append(m, key, h), (n, kind)))[g]
           == One(g.edge.id in done + {h.edge.id} && Hit(v, dir, g) && Near(dir, g.edge) == n && g.edge.kind == kind)
    {
      AppendCounts(m, key, h, (n, kind), g);
      assert Hit(v, dir, g) && g.edge.id == h.edge.id ==> g == h;
    }
  }

  lemma AppendOfAll(m: map<Id, seq<EdgeNode>>, v: State, done: set<Id>, dir: Direction, h: EdgeNode)
    requires HitsOfAll(m, v, done, dir) && Hit(v, dir, h) && h.edge.id !in done && Keyed(v)
    ensures HitsOfAll(Append(m, Near(dir, h.edge), h), v, done + {h.edge.id}, dir)
  {
    var key := Near(dir, h.edge);
    forall n, g
      ensures multiset(At(Append(m, key, h), n))[g]
           == One(g.edge.id in done + {h.edge.id} && Hit(v, dir, g) && Near(dir, g.edge) == n)
    {
      AppendCounts(m, key, h, n, g);
      assert Hit(v, dir, g) && g.edge.id == h.edge.id ==> g == h;
    }
  }

  // ----- sorting hits

  lemma HitLeqTotal(a: EdgeNode, b: EdgeNode)
    ensures HitLeq(a, b) || HitLeq(b, a)
  {
    LeqTotal(a.edge.id, b.edge.id);
    LeqTotal(a.id, b.id);
  }

  lemma HitLeqTransitive(a: EdgeNode, b: EdgeNode, c: EdgeNode)
    requires HitLeq(a, b) && HitLeq(b, c)
    ensures HitLeq(a, c)
  {
    if a.edge.id == b.edge.id == c.edge.id {
      LeqTransitive(a.id, b.id, c.id);
    } else {
      LeqTransitiveIds(a.edge.id, b.edge.id, c.edge.id);
    }
  }

  lemma LeqTransitiveIds(a: string, b: string, c: string)
    requires (a == b || Leq(a, b)) && (b == c || Leq(b, c)) && !(a == b == c)
    ensures a != c && Leq(a, c)
  {
    LeqReflexive(a);
    LeqReflexive(c);
    LeqTransitive(a, b, c);
    if a == c {
      LeqAntisymmetric(a, b);
    }
  }

  function InsertHit(h: EdgeNode, hits: seq<EdgeNode>): (r: seq<EdgeNode>)
    requires SortedHits(hits)
    ensures SortedHits(r) && multiset(r) == multiset{h} + multiset(hits)
  {
    if hits == [] then [h]
    else if HitLeq(h, hits[0]) then
      HitFront(h, hits);
      [h] + hits
    else
      var rest := InsertHit(h, hits[1..]);
      HitBehind(h, hits, rest);
      [hits[0]] + rest
  }

  lemma HitFront(h: EdgeNode, hits: seq<EdgeNode>)
    requires SortedHits(hits) && hits != [] && HitLeq(h, hits[0])
    ensures SortedHits([h] + hits)
  {
    hide HitLeq;
    forall j | 0 <= j < |hits| ensures HitLeq(h, hits[j]) {
      if j > 0 {
        HitLeqTransitive(h, hits[0], hits[j]);
      }
    }
  }

  lemma HitBehind(h: EdgeNode, hits: seq<EdgeNode>, rest: seq<EdgeNode>)
    requires hits != [] && SortedHits(hits) && SortedHits(rest) && !HitLeq(h, hits[0])
    requires multiset(rest) == multiset{h} + multiset(hits[1..])
    ensures SortedHits([hits[0]] + rest) && multiset([hits[0]] + rest) == multiset{h} + multiset(hits)
  {
    HitLeqTotal(h, hits[0]);
    hide HitLeq;
    assert hits == [hits[0]] + hits[1..];
    forall i | 0 <= i < |rest| ensures HitLeq(hits[0], rest[i]) {
      assert rest[i] in multiset(rest);
    }
  }

  /** `sortEdgeNodes`: by edge id, then node id. */
  function SortHits(hits: seq<EdgeNode>): (r: seq<EdgeNode>)
    ensures SortedHits(r) && multiset(r) == multiset(hits)
  {
    if hits == [] then []
    else
      assert hits == [hits[0]] + hits[1..];
      InsertHit(hits[0], SortHits(hits[1..]))
  }

  /** The sorted answer is unique: hits with the same ids are the same hit. */
  lemma {:induction false} ScanUnique(v: State, n: Id, kind: string, dir: Direction, a: seq<EdgeNode>, b: seq<EdgeNode>)
    requires SortedHits(a) && SortedHits(b) && multiset(a) == multiset(b)
    requires forall h :: h in a ==> Times(v, n, kind, dir, h) > 0
    ensures a == b
  {
    SameMultiset(a, b);
    hide Times, SortedHits;
    if a != [] {
      assert a[0] in b && b[0] in a;
      FirstSame(v, n, kind, dir, a, b);
      Tails(a, b);
      ScanUnique(v, n, kind, dir, a[1..], b[1..]);
      assert a == [a[0]] + a[1..] && b == [b[0]] + b[1..];
    }
  }

  lemma Tails(a: seq<EdgeNode>, b: seq<EdgeNode>)
    requires a != [] && b != [] && a[0] == b[0] && multiset(a) == multiset(b) && SortedHits(a) && SortedHits(b)
    ensures SortedHits(a[1..]) && SortedHits(b[1..]) && multiset(a[1..]) == multiset(b[1..])
  {
    assert a == [a[0]] + a[1..] && b == [b[0]] + b[1..];
    assert multiset(a[1..]) == multiset(a) - multiset{a[0]};
    assert multiset(b[1..]) == multiset(b) - multiset{b[0]};
  }

  lemma FirstSame(v: State, n: Id, kind: string, dir: Direction, a: seq<EdgeNode>, b: seq<EdgeNode>)
    requires a != [] && b != [] && SortedHits(a) && SortedHits(b) && a[0] in b && b[0] in a
    requires forall h :: h in a ==> Times(v, n, kind, dir, h) > 0
    ensures a[0] == b[0]
  {
    var x, y := a[0], b[0];
    LeqReflexive(x.edge.id);
    LeqReflexive(x.id);
    assert HitLeq(x, y) && HitLeq(y, x);
    if x.edge.id != y.edge.id {
      LeqAntisymmetric(x.edge.id, y.edge.id);
    } else {
      LeqAntisymmetric(x.id, y.id);
      HitDetermined(v, n, kind, dir, x, y);
    }
  }

  lemma HitDetermined(v: State, n: Id, kind: string, dir: Direction, x: EdgeNode, y: EdgeNode)
    requires Times(v, n, kind, dir, x) > 0 && Times(v, n, kind, dir, y) > 0 && x.edge.id == y.edge.id && x.id == y.id
    ensures x == y
  {
  }

  // ----- the index

  datatype IndexState = Ready | Partial | Rebuilding | Stale | Failed

  ghost predicate SortedByKind(m: map<(Id, string), seq<EdgeNode>>, v: State, dir: Direction) {
    (forall n, kind :: SortedHits(At(m, (n, kind)))) && HitsByKind(m, v, v.edges.Keys, dir)
  }

  ghost predicate SortedOfAll(m: map<Id, seq<EdgeNode>>, v: State, dir: Direction) {
    (forall n :: SortedHits(At(m, n))) && HitsOfAll(m, v, v.edges.Keys, dir)
  }

  ghost predicate ValuesSorted<K(!new)>(m: map<K, seq<EdgeNode>>, r: map<K, seq<EdgeNode>>) {
    forall k :: multiset(At(r, k)) == multiset(At(m, k)) && SortedHits(At(r, k))
  }

  /** `sortEdgeNodes` on every list of a map. */
  method SortValues<K(!new, ==)>(m: map<K, seq<EdgeNode>>) returns (r: map<K, seq<EdgeNode>>)
    ensures ValuesSorted(m, r)
  {
    r := m;
    var todo := m.Keys;
    hide SortedHits;
    EmptySorted();
    while todo != {}
      invariant todo <= m.Keys && r.Keys == m.Keys
      invariant forall k :: k in m ==> multiset(r[k]) == multiset(m[k]) && (k !in todo ==> SortedHits(r[k]))
      decreases |todo|
    {
      var k :| k in todo;
      todo := todo - {k};
      r := r[k := SortHits(r[k])];
    }
  }

  lemma EmptySorted()
    ensures SortedHits([])
  {
  }

  /** The ten derived maps. */
  datatype Maps = Maps(nodesByID: map<Id, Node>,
                       nodesByKind: map<string, seq<Id>>, stableByID: map<string, seq<Id>>,
                       byName: map<string, seq<Id>>,
                       byQualified: map<string, seq<Id>>, byPath: map<string, seq<Id>>,
                       outgoing: map<(Id, string), seq<EdgeNode>>, incoming: map<(Id, string), seq<EdgeNode>>,
                       outgoingAll: map<Id, seq<EdgeNode>>, incomingAll: map<Id, seq<EdgeNode>>)

  const EMPTY_MAPS := Maps(map[], map[], map[], map[], map[], map[], map[], map[], map[], map[])

  /** All ten maps agree with the scan of v. */
  ghost predicate Agree(m: Maps, v: State) {
    && m.nodesByID == v.nodes
    && Indexed(m.nodesByKind, v, ByKind) && Indexed(m.stableByID, v, ByStableId) && Indexed(m.byName, v, ByName)
    && Indexed(m.byQualified, v, ByQualified) && Indexed(m.byPath, v, ByPath)
    && SortedByKind(m.outgoing, v, Out) && SortedByKind(m.incoming, v, In)
    && SortedOfAll(m.outgoingAll, v, Out) && SortedOfAll(m.incomingAll, v, In)
  }

  /** The node half of `replaceLocked`, before sorting. */
  ghost predicate NodesListed(m: Maps, v: State, done: set<Id>) {
    && Listed(m.nodesByKind, v.nodes, done, ByKind) && Listed(m.stableByID, v.nodes, done, ByStableId)
    && Listed(m.byName, v.nodes, done, ByName) && Listed(m.byQualified, v.nodes, done, ByQualified)
    && Listed(m.byPath, v.nodes, done, ByPath)
  }

  /** One node of the snapshot enters the node maps. */
  method AddNode(m: Maps, ghost v: State, ghost done: set<Id>, x: Id, n: Node) returns (r: Maps)
    requires NodesListed(m, v, done) && x in v.nodes && v.nodes[x] == n && x !in done
    ensures NodesListed(r, v, done + {x})
    ensures r.nodesByID == m.nodesByID[x := n] && r.outgoing == m.outgoing && r.incoming == m.incoming
    ensures r.outgoingAll == m.outgoingAll && r.incomingAll == m.incomingAll
  {
    hide Listed, Prop;
    AppendListed(m.nodesByKind, v.nodes, done, ByKind, x, n.kind);
    var kinds := Append(m.nodesByKind, n.kind, x);
    var stable := AddOne(m.stableByID, v.nodes, done, ByStableId, x, Prop(n, "stable_id"));
    var names := AddOne(m.byName, v.nodes, done, ByName, x, Prop(n, "name"));
    var quals := AddOne(m.byQualified, v.nodes, done, ByQualified, x, Prop(n, "qualified_name"));
    var paths := AddPaths(m.byPath, v.nodes, done, x, n);
    r := m.(nodesByID := m.nodesByID[x := n], nodesByKind := kinds, stableByID := stable, byName := names,
            byQualified := quals, byPath := paths);
  }

  lemma RestrictedNodes(c: State, project: string)
    ensures forall x :: x in Restricted(c, project).nodes <==> x in c.nodes && InProject(c.nodes[x], project)
    ensures forall x :: x in Restricted(c, project).nodes ==> Restricted(c, project).nodes[x] == c.nodes[x]
  {
  }

  /** The loop over the nodes of the snapshot that belong to the project. */
  method IndexNodes(ns: seq<Id>, copy: State, project: string) returns (m: Maps)
    requires ns == Listing(copy.nodes.Keys)
    ensures var v := Restricted(copy, project);
            NodesListed(m, v, v.nodes.Keys) && m.nodesByID == v.nodes
            && m.outgoing == m.incoming == map[] && m.outgoingAll == m.incomingAll == map[]
  {
    ghost var v := Restricted(copy, project);
    m := EMPTY_MAPS;
    ListingMembers(copy.nodes.Keys);
    ghost var done: set<Id> := {};
    EmptyListed(v);
    RestrictedNodes(copy, project);
    hide NodesListed, InProject, Restricted, Distinct;
    for i := 0 to |ns|
      invariant NodesListed(m, v, done) && m.nodesByID.Keys == done
      invariant forall x :: x in done <==> x in ns[..i] && x in v.nodes
      invariant forall x :: x in done ==> m.nodesByID[x] == v.nodes[x]
      invariant m.outgoing == m.incoming == map[] && m.outgoingAll == m.incomingAll == map[]
    {
      var x := ns[i];
      NextOf(ns, i);
      if InProject(copy.nodes[x], project) {
        m := AddNode(m, v, done, x, copy.nodes[x]);
        done := done + {x};
      }
    }
    assert ns[..|ns|] == ns;
    assert done == v.nodes.Keys;
  }

  lemma NextOf(xs: seq<Id>, i: nat)
    requires Distinct(xs) && i < |xs|
    ensures xs[i] in xs && xs[i] !in xs[..i] && forall x :: x in xs[..i + 1] <==> x in xs[..i] || x == xs[i]
  {
    assert xs[..i + 1] == xs[..i] + [xs[i]];
  }

  lemma EmptyListed(v: State)
    ensures NodesListed(EMPTY_MAPS, v, {})
  {
  }

  ghost predicate EdgesListed(m: Maps, v: State, done: set<Id>) {
    && HitsByKind(m.outgoing, v, done, Out) && HitsByKind(m.incoming, v, done, In)
    && HitsOfAll(m.outgoingAll, v, done, Out) && HitsOfAll(m.incomingAll, v, done, In)
  }

  lemma EmptyHits(m: Maps, v: State)
    requires m.outgoing == m.incoming == map[] && m.outgoingAll == m.incomingAll == map[]
    ensures EdgesListed(m, v, {})
  {
  }

  /** One edge of the snapshot enters the four neighbour maps. */
  method AddEdgeHits(m: Maps, ghost v: State, ghost done: set<Id>, edge: Edge) returns (r: Maps)
    requires EdgesListed(m, v, done) && Keyed(v) && m.nodesByID == v.nodes
    requires edge.id in v.edges && v.edges[edge.id] == edge && edge.id !in done && edge.from in v.nodes
             && edge.to in v.nodes
    ensures EdgesListed(r, v, done + {edge.id})
    ensures r == m.(outgoing := r.outgoing, incoming := r.incoming, outgoingAll := r.outgoingAll,
                    incomingAll := r.incomingAll)
  {
    var out := EdgeNode(edge, edge.to, m.nodesByID[edge.to]);
    var inc := EdgeNode(edge, edge.from, m.nodesByID[edge.from]);
    assert Hit(v, Out, out) && Hit(v, In, inc);
    hide HitsByKind, HitsOfAll, Hit;
    AppendByKind(m.outgoing, v, done, Out, out);
    AppendByKind(m.incoming, v, done, In, inc);
    AppendOfAll(m.outgoingAll, v, done, Out, out);
    AppendOfAll(m.incomingAll, v, done, In, inc);
    r := m.(outgoing := Append(m.outgoing, (edge.from, edge.kind), out),
            incoming := Append(m.incoming, (edge.to, edge.kind), inc),
            outgoingAll := Append(m.outgoingAll, edge.from, out),
            incomingAll := Append(m.incomingAll, edge.to, inc));
  }

  /** The loop over the edges of the snapshot whose ends are both in the project. */
  method IndexEdges(m0: Maps, es: seq<Id>, copy: State, project: string) returns (m: Maps)
    requires es == Listing(copy.edges.Keys) && Keyed(copy)
    requires var v := Restricted(copy, project);
             m0.nodesByID == v.nodes && m0.outgoing == m0.incoming == map[] && m0.outgoingAll == m0.incomingAll == map[]
    ensures var v := Restricted(copy, project); EdgesListed(m, v, v.edges.Keys)
    ensures m == m0.(outgoing := m.outgoing, incoming := m.incoming, outgoingAll := m.outgoingAll,
                     incomingAll := m.incomingAll)
  {
    ghost var v := Restricted(copy, project);
    m := m0;
    ListingMembers(copy.edges.Keys);
    ghost var done: set<Id> := {};
    EmptyHits(m, v);
    hide EdgesListed;
    for i := 0 to |es|
      invariant EdgesListed(m, v, done) && m.nodesByID == v.nodes
      invariant forall e :: e in done <==> e in es[..i] && e in v.edges
      invariant m == m0.(outgoing := m.outgoing, incoming := m.incoming, outgoingAll := m.outgoingAll,
                         incomingAll := m.incomingAll)
    {
      var edge := copy.edges[es[i]];
      assert es[i] in es && es[i] !in es[..i] && edge.id == es[i];
      assert es[..i + 1] == es[..i] + [es[i]];
      if edge.from in m.nodesByID && edge.to in m.nodesByID {
        m := AddEdgeHits(m, v, done, edge);
        done := done + {edge.id};
      }
    }
    assert es[..|es|] == es;
    assert done == v.edges.Keys;
  }

  /** The end of `replaceLocked`: every list is sorted. */
  method SortMaps(m: Maps, ghost v: State) returns (r: Maps)
    requires NodesListed(m, v, v.nodes.Keys) && EdgesListed(m, v, v.edges.Keys) && m.nodesByID == v.nodes
    ensures Agree(r, v)
  {
    hide Listed, Indexed, HitsByKind, HitsOfAll, SortedByKind, SortedOfAll, ValuesSorted;
    var kinds := SortLists(m.nodesByKind, v, ByKind);
    var stable := SortLists(m.stableByID, v, ByStableId);
    var names := SortLists(m.byName, v, ByName);
    var quals := SortLists(m.byQualified, v, ByQualified);
    var paths := SortLists(m.byPath, v, ByPath);
    var outgoing := SortValues(m.outgoing);
    var incoming := SortValues(m.incoming);
    var outgoingAll := SortValues(m.outgoingAll);
    var incomingAll := SortValues(m.incomingAll);
    SortedKinds(m.outgoing, outgoing, v, Out);
    SortedKinds(m.incoming, incoming, v, In);
    SortedAll(m.outgoingAll, outgoingAll, v, Out);
    SortedAll(m.incomingAll, incomingAll, v, In);
    r := Maps(m.nodesByID, kinds, stable, names, quals, paths, outgoing, incoming, outgoingAll, incomingAll);
  }

  lemma SortedKinds(m: map<(Id, string), seq<EdgeNode>>, r: map<(Id, string), seq<EdgeNode>>, v: State, dir: Direction)
    requires HitsByKind(m, v, v.edges.Keys, dir)
    requires ValuesSorted(m, r)
    ensures SortedByKind(r, v, dir)
  {
    hide SortedHits, Hit;
  }

  lemma SortedAll(m: map<Id, seq<EdgeNode>>, r: map<Id, seq<EdgeNode>>, v: State, dir: Direction)
    requires HitsOfAll(m, v, v.edges.Keys, dir)
    requires ValuesSorted(m, r)
    ensures SortedOfAll(r, v, dir)
  {
    hide SortedHits, Hit;
  }

  class GraphQueryIndex {
    const repo: MemoryRepository
    const projectID: string
    var maps: Maps
    var graphGeneration: nat
    var indexGeneration: nat
    var state: IndexState

    /** A ready index of the store's own generation agrees with the store. */
    ghost predicate Valid()
      reads this, repo
    {
      && Keyed(repo.Contents()) && (state == Ready ==> projectID != "")
      && InSync(projectID, AsSystem())
    }

    ghost function AsSystem(): System
      reads this, repo
    {
      System(repo.Contents(), repo.generation, maps, graphGeneration, indexGeneration, state)
    }

    /** The store restricted to the index's project. */
    ghost function View(): State
      reads this, repo
    {
      Restricted(repo.Contents(), projectID)
    }

    constructor (repo: MemoryRepository, projectID: string)
      requires Keyed(repo.Contents())
      ensures this.repo == repo && this.projectID == projectID && Valid() && state == Stale
    {
      this.repo, this.projectID := repo, projectID;
      maps, graphGeneration, indexGeneration, state := EMPTY_MAPS, 0, 0, Stale;
    }

    method Rebuild() returns (ok: bool)
      requires Valid()
      modifies this
      ensures Valid() && ok == (projectID != "")
      ensures if ok then state == Ready && graphGeneration == repo.generation
                         && indexGeneration == old(indexGeneration) + 1
              else state == Failed && maps == old(maps) && graphGeneration == old(graphGeneration)
                   && indexGeneration == old(indexGeneration)
      ensures Next(projectID, old(AsSystem()), AsSystem(), Event.Rebuild)
    {
      if projectID == "" {
        state := Failed;
        return false;
      }
      state := Rebuilding;
      var ns, es, copy, gen := repo.GraphSnapshot();
      hide NodesListed, EdgesListed, Agree;
      var m := IndexNodes(ns, copy, projectID);
      m := IndexEdges(m, es, copy, projectID);
      EdgesKeepNodes(m, View());
      maps := SortMaps(m, View());
      graphGeneration := gen;
      indexGeneration := indexGeneration + 1;
      state := Ready;
      return true;
    }

    /** Rebuilds unless the index is ready and the store's generation has not moved. */
    method Refresh() returns (ok: bool)
      requires Valid()
      modifies this
      ensures Valid() && ok == (projectID != "")
      ensures ok ==> state == Ready && Agree(maps, View())
      ensures Next(projectID, old(AsSystem()), AsSystem(), Event.Refresh)
    {
      hide Agree;
      if state == Ready && repo.generation == graphGeneration {
        return true;
      }
      ok := Rebuild();
    }

    method Invalidate()
      requires Valid()
      modifies this
      ensures Valid() && Next(projectID, old(AsSystem()), AsSystem(), Event.Invalidate)
    {
      state := Stale;
      indexGeneration := indexGeneration + 1;
    }

    /** A call of the store, whichever it was, is an event of the history and leaves the index valid. */
    twostate lemma StoreCallKeepsValid()
      requires old(Valid()) && unchanged(this)
      requires StoreStep(old(repo.Contents()), old(repo.generation), repo.Contents(), repo.generation)
      ensures Valid()
      ensures Next(projectID, old(AsSystem()), AsSystem(), if repo.generation > old(repo.generation) then Mutate
                                                           else Reject)
    {
      hide Agree;
    }

    method Node(id: Id) returns (found: bool, n: Node)
      requires Valid()
      modifies this
      ensures Valid() && found == (projectID != "" && id in View().nodes) && (found ==> n == View().nodes[id])
      ensures found <==> projectID != "" && id in repo.nodes && Reads(repo.nodes[id], "project_id", projectID)
      ensures found ==> n == repo.nodes[id]
      ensures Next(projectID, old(AsSystem()), AsSystem(), Event.Refresh)
    {
      hide Reads, Prop;
      n := Store.Node("", map[]);
      if projectID != "" && id in repo.nodes {
        PropReads(repo.nodes[id], "project_id", projectID);
      }
      var ok := Refresh();
      found := ok && id in maps.nodesByID;
      if found {
        n := maps.nodesByID[id];
      }
    }

    /** StableIDs, ByName, ByQualifiedName, ByPath and the ids of NodesByKind. */
    method Find(l: Lookup, key: string) returns (ids: seq<Id>)
      requires Valid()
      modifies this
      ensures Valid() && ids == if projectID == "" then [] else ScanIds(View(), l, key)
      ensures forall x :: x in ids
                          <==> && projectID != "" && x in repo.nodes && Reads(repo.nodes[x], "project_id", projectID)
                               && FoundUnder(l, repo.nodes[x], key)
      ensures forall i, k :: 0 <= i < k < |ids| ==> ids[i] != ids[k] && Leq(ids[i], ids[k])
      ensures Next(projectID, old(AsSystem()), AsSystem(), Event.Refresh)
    {
      hide FoundUnder, Reads, Keys, Prop, ScanIds;
      var ok := Refresh();
      if !ok {
        return [];
      }
      ScanFinds(repo.Contents(), projectID, l, key);
      match l
      case ByKind => ids := At(maps.nodesByKind, key);
      case ByStableId => ids := At(maps.stableByID, key);
      case ByName => ids := At(maps.byName, key);
      case ByQualified => ids := At(maps.byQualified, key);
      case ByPath => ids := At(maps.byPath, key);
    }

    method Neighbors(n: Id, kind: string, dir: Direction) returns (hits: seq<EdgeNode>, ok: bool)
      requires Valid()
      modifies this
      ensures Valid() && ok == (projectID != "") && (!ok ==> hits == [])
      ensures ok ==> ScanHits(View(), n, kind, dir, hits)
      ensures ok ==> forall h :: h in hits
                                 <==> && IsNeighbor(repo.Contents(), n, kind, dir, h) && n in repo.nodes
                                      && Reads(repo.nodes[n], "project_id", projectID)
                                      && Reads(h.node, "project_id", projectID)
      ensures Next(projectID, old(AsSystem()), AsSystem(), Event.Refresh)
    {
      hide Reads, IsNeighbor, Agree, ScanHits;
      ok := Refresh();
      if !ok {
        return [], false;
      }
      var out, inc;
      if kind == "" {
        out, inc := At(maps.outgoingAll, n), At(maps.incomingAll, n);
      } else {
        out, inc := At(maps.outgoing, (n, kind)), At(maps.incoming, (n, kind));
      }
      ListsAreHits(maps, View(), n, kind, out, inc);
      hits := HitsTowards(View(), n, kind, dir, out, inc);
      ScanNeighbors(repo.Contents(), projectID, n, kind, dir, hits);
    }
  }

  /** The lists of the direction asked for, sorted. */
  method HitsTowards(ghost v: State, n: Id, kind: string, dir: Direction, out: seq<EdgeNode>, inc: seq<EdgeNode>)
    returns (hits: seq<EdgeNode>)
    requires forall h :: multiset(out)[h] == One(OutHit(v, n, kind, h)) && multiset(inc)[h] == One(InHit(v, n, kind, h))
    ensures ScanHits(v, n, kind, dir, hits)
  {
    hide OutHit, InHit, SortedHits;
    EmptySorted();
    match dir {
      case Out => hits := out;
      case In => hits := inc;
      case Both => hits := out + inc;
      case Other => return [];
    }
    hits := SortHits(hits);
  }

  lemma ScanNeighbors(c: State, project: string, n: Id, kind: string, dir: Direction, hits: seq<EdgeNode>)
    requires Keyed(c) && project != ""
    requires ScanHits(Restricted(c, project), n, kind, dir, hits)
    ensures forall h :: h in hits
                        <==> && IsNeighbor(c, n, kind, dir, h) && n in c.nodes
                             && Reads(c.nodes[n], "project_id", project) && Reads(h.node, "project_id", project)
  {
    hide Reads, IsNeighbor, Times, Restricted, Prop, SortedHits;
    forall h ensures h in hits <==> && IsNeighbor(c, n, kind, dir, h) && n in c.nodes
                                    && Reads(c.nodes[n], "project_id", project) && Reads(h.node, "project_id", project)
    {
      assert h in hits <==> multiset(hits)[h] > 0;
      ScanIsRestriction(c, project, n, kind, dir, h);
      NeighborTimes(c, n, kind, dir, h);
      if n in c.nodes {
        PropReads(c.nodes[n], "project_id", project);
      }
      PropReads(h.node, "project_id", project);
    }
  }

  lemma ScanFinds(c: State, project: string, l: Lookup, key: string)
    requires project != ""
    ensures var ids := ScanIds(Restricted(c, project), l, key);
            && (forall x :: x in ids <==> && x in c.nodes && Reads(c.nodes[x], "project_id", project)
                                          && FoundUnder(l, c.nodes[x], key))
            && forall i, k :: 0 <= i < k < |ids| ==> ids[i] != ids[k] && Leq(ids[i], ids[k])
  {
    hide FoundUnder, Reads, Keys, Prop, Leq;
    var v := Restricted(c, project);
    ListingMembers(set x | x in v.nodes && key in Keys(l, v.nodes[x]));
    forall x | x in c.nodes
      ensures InProject(c.nodes[x], project) <==> Reads(c.nodes[x], "project_id", project)
      ensures key in Keys(l, c.nodes[x]) <==> FoundUnder(l, c.nodes[x], key)
    {
      PropReads(c.nodes[x], "project_id", project);
      KeysAre(l, c.nodes[x], key);
    }
  }

  lemma EdgesKeepNodes(m: Maps, v: State)
    requires exists m0 :: NodesListed(m0, v, v.nodes.Keys)
                          && m == m0.(outgoing := m.outgoing, incoming := m.incoming, outgoingAll := m.outgoingAll,
                                      incomingAll := m.incomingAll)
    ensures NodesListed(m, v, v.nodes.Keys)
  {
  }

  lemma ListsAreHits(m: Maps, v: State, n: Id, kind: string, out: seq<EdgeNode>, inc: seq<EdgeNode>)
    requires Agree(m, v)
    requires if kind == "" then out == At(m.outgoingAll, n) && inc == At(m.incomingAll, n)
             else out == At(m.outgoing, (n, kind)) && inc == At(m.incoming, (n, kind))
    ensures forall h :: multiset(out)[h] == One(OutHit(v, n, kind, h)) && multiset(inc)[h] == One(InHit(v, n, kind, h))
  {
    hide Indexed, SortedHits;
    if kind == "" {
      AllListed(m.outgoingAll, v, Out, n);
      AllListed(m.incomingAll, v, In, n);
    } else {
      KindListed(m.outgoing, v, Out, n, kind);
      KindListed(m.incoming, v, In, n, kind);
    }
    hide SortedByKind, SortedOfAll, Hit;
    forall h ensures multiset(out)[h] == One(OutHit(v, n, kind, h)) && multiset(inc)[h] == One(InHit(v, n, kind, h)) {
      HitForms(v, n, kind, h);
    }
  }

  lemma AllListed(m: map<Id, seq<EdgeNode>>, v: State, dir: Direction, n: Id)
    requires SortedOfAll(m, v, dir)
    ensures forall h :: multiset(At(m, n))[h] == One(Hit(v, dir, h) && Near(dir, h.edge) == n)
  {
    hide SortedHits;
  }

  lemma KindListed(m: map<(Id, string), seq<EdgeNode>>, v: State, dir: Direction, n: Id, kind: string)
    requires SortedByKind(m, v, dir)
    ensures forall h :: multiset(At(m, (n, kind)))[h] == One(Hit(v, dir, h) && Near(dir, h.edge) == n
                                                             && h.edge.kind == kind)
  {
    hide SortedHits;
  }

  lemma HitForms(v: State, n: Id, kind: string, h: EdgeNode)
    ensures OutHit(v, n, kind, h) <==> Hit(v, Out, h) && Near(Out, h.edge) == n && KindOk(h.edge, kind)
    ensures InHit(v, n, kind, h) <==> Hit(v, In, h) && Near(In, h.edge) == n && KindOk(h.edge, kind)
  {
  }

  // ----- every run

  datatype System = System(store: State, generation: nat, maps: Maps, graphGeneration: nat, indexGeneration: nat,
                           state: IndexState)

  ghost predicate InSync(project: string, s: System) {
    && s.graphGeneration <= s.generation
    && (s.state == Ready && s.graphGeneration == s.generation ==> Agree(s.maps, Restricted(s.store, project)))
  }

  datatype Event = Mutate | Reject | Rebuild | Refresh | Invalidate

  /** Store calls as `StoreStep` says, index calls as the methods of the index ensure. */
  ghost predicate Next(project: string, a: System, b: System, ev: Event) {
    match ev
    case Mutate => b.generation > a.generation && b == a.(store := b.store, generation := b.generation)
    case Reject => b == a
    case Rebuild => Rebuilt(project, a, b)
    case Refresh => if a.state == Ready && a.generation == a.graphGeneration then b == a else Rebuilt(project, a, b)
    case Invalidate => b == a.(state := Stale, indexGeneration := a.indexGeneration + 1)
  }

  ghost predicate Rebuilt(project: string, a: System, b: System) {
    if project == "" then b == a.(state := Failed)
    else b == a.(maps := b.maps, graphGeneration := a.generation, indexGeneration := a.indexGeneration + 1,
                 state := Ready)
         && Agree(b.maps, Restricted(a.store, project))
  }

  ghost predicate IsHistory(project: string, h: seq<System>, evs: seq<Event>) {
    |h| == |evs| + 1 && forall i :: 0 <= i < |evs| ==> Next(project, h[i], h[i + 1], evs[i])
  }

  lemma {:induction false} AlwaysInSync(project: string, h: seq<System>, evs: seq<Event>, i: nat)
    requires IsHistory(project, h, evs) && h[0].state == Stale && h[0].graphGeneration == 0 && i < |h|
    ensures InSync(project, h[i])
  {
    if i > 0 {
      AlwaysInSync(project, h, evs, i - 1);
      hide Agree;
      assert Next(project, h[i - 1], h[i - 1 + 1], evs[i - 1]);
    }
  }

  /** After any run, a successful refresh leaves an index that agrees with the store as it is now,
      even when the refresh did nothing: equal generations mean unchanged contents. */
  lemma RefreshedAgrees(project: string, h: seq<System>, evs: seq<Event>, i: nat)
    requires IsHistory(project, h, evs) && h[0].state == Stale && h[0].graphGeneration == 0
    requires i < |evs| && evs[i] == Refresh && project != ""
    ensures h[i + 1].state == Ready && h[i + 1].store == h[i].store
    ensures Agree(h[i + 1].maps, Restricted(h[i + 1].store, project))
  {
    AlwaysInSync(project, h, evs, i);
    hide Agree;
    assert Next(project, h[i], h[i + 1], evs[i]);
  }
}
