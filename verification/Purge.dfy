/** Which cache entries a purge keeps: per project, the newest ones. */
module Purge {
  import opened Order
  import opened Store

  type Nodes = map<Id, Node>

  predicate Special(n: Node) {
    StrProp(n, "tool_name") in {"__privacy_state__", "__privacy_policy__", "__pseudonym_snapshot__"}
  }

  predicate IsRegular(n: Node) {
    n.kind == "CacheEntry" && !Special(n)
  }

  function Project(nodes: Nodes, x: Id): string {
    if x in nodes then StrProp(nodes[x], "project_id") else ""
  }

  function Stamp(nodes: Nodes, x: Id): string {
    if x in nodes then StrProp(nodes[x], "updated_at") else ""
  }

  ghost function Regular(nodes: Nodes): set<Id> {
    set x | x in nodes && IsRegular(nodes[x])
  }

  /** Those of the entries that belong to the project. */
  ghost function Of(nodes: Nodes, entries: set<Id>, project: string): set<Id> {
    set x | x in entries && Project(nodes, x) == project
  }

  // ----- newest first

  /** a is at least as new as b; equal stamps go by id. */
  predicate Newer(nodes: Nodes, a: Id, b: Id) {
    if Stamp(nodes, a) == Stamp(nodes, b) then Leq(a, b) else Leq(Stamp(nodes, b), Stamp(nodes, a))
  }

  lemma NewerTotal(nodes: Nodes, a: Id, b: Id)
    ensures Newer(nodes, a, b) || Newer(nodes, b, a)
  {
    LeqTotal(a, b);
    LeqTotal(Stamp(nodes, a), Stamp(nodes, b));
  }

  lemma NewerTransitive(nodes: Nodes, a: Id, b: Id, c: Id)
    requires Newer(nodes, a, b) && Newer(nodes, b, c)
    ensures Newer(nodes, a, c)
  {
    var x, y, z := Stamp(nodes, a), Stamp(nodes, b), Stamp(nodes, c);
    if x == y == z {
      LeqTransitive(a, b, c);
    } else if x != y && y != z {
      LeqTransitive(z, y, x);
      if x == z {
        LeqAntisymmetric(x, y);
      }
    }
  }

  ghost predicate NewestFirst(nodes: Nodes, xs: seq<Id>) {
    forall i, j :: 0 <= i < j < |xs| ==> Newer(nodes, xs[i], xs[j])
  }

  function InsertNewer(nodes: Nodes, x: Id, xs: seq<Id>): (r: seq<Id>)
    ensures multiset(r) == multiset{x} + multiset(xs)
  {
    if xs == [] then [x]
    else
      assert xs == [xs[0]] + xs[1..];
      if Newer(nodes, x, xs[0]) then [x] + xs else [xs[0]] + InsertNewer(nodes, x, xs[1..])
  }

  /** `sort.Slice` by its contract. */
  function SortNewest(nodes: Nodes, xs: seq<Id>): (r: seq<Id>)
    ensures multiset(r) == multiset(xs)
  {
    if xs == [] then []
    else
      assert xs == [xs[0]] + xs[1..];
      InsertNewer(nodes, xs[0], SortNewest(nodes, xs[1..]))
  }

  lemma PrependNewest(nodes: Nodes, x: Id, xs: seq<Id>)
    requires NewestFirst(nodes, xs) && forall j :: 0 <= j < |xs| ==> Newer(nodes, x, xs[j])
    ensures NewestFirst(nodes, [x] + xs)
  {
    hide Newer;
  }

  lemma {:induction false} InsertKeepsNewest(nodes: Nodes, x: Id, xs: seq<Id>)
    requires NewestFirst(nodes, xs)
    ensures NewestFirst(nodes, InsertNewer(nodes, x, xs))
  {
    hide Newer;
    if xs != [] {
      if Newer(nodes, x, xs[0]) {
        forall j | 0 <= j < |xs| ensures Newer(nodes, x, xs[j]) {
          if j > 0 {
            NewerTransitive(nodes, x, xs[0], xs[j]);
          }
        }
        PrependNewest(nodes, x, xs);
      } else {
        NewerTotal(nodes, x, xs[0]);
        var rest := InsertNewer(nodes, x, xs[1..]);
        forall j | 0 <= j < |rest| ensures Newer(nodes, xs[0], rest[j]) {
          assert rest[j] in multiset(rest);
          assert rest[j] == x || rest[j] in multiset(xs[1..]);
        }
        InsertKeepsNewest(nodes, x, xs[1..]);
        PrependNewest(nodes, xs[0], rest);
      }
    }
  }

  lemma {:induction false} SortedNewestFirst(nodes: Nodes, xs: seq<Id>)
    ensures NewestFirst(nodes, SortNewest(nodes, xs))
  {
    if xs != [] {
      SortedNewestFirst(nodes, xs[1..]);
      InsertKeepsNewest(nodes, xs[0], SortNewest(nodes, xs[1..]));
    }
  }

  // ----- what a purge leaves

  ghost function RegularIn(nodes: Nodes, projects: set<string>): set<Id> {
    set x | x in Regular(nodes) && Project(nodes, x) in projects
  }

  ghost predicate NewerKept(nodes: Nodes, kept: set<Id>, gone: set<Id>) {
    forall x, y :: x in kept && y in gone && Project(nodes, x) == Project(nodes, y) ==> Newer(nodes, x, y)
  }

  ghost predicate Parts(nodes: Nodes, projects: set<string>, kept: set<Id>, gone: set<Id>) {
    kept !! gone && kept + gone == RegularIn(nodes, projects)
  }

  ghost predicate Sizes(nodes: Nodes, n: nat, kept: set<Id>, gone: set<Id>) {
    && (forall p :: |Of(nodes, kept, p)| <= n)
    && (forall y :: y in gone ==> |Of(nodes, kept, Project(nodes, y))| == n)
  }

  /** `kept` and `gone` split the regular entries of the projects: per project at most n stay,
      each newer than every one that goes, and nothing goes unless n stay. */
  ghost predicate Split(nodes: Nodes, projects: set<string>, n: nat, kept: set<Id>, gone: set<Id>) {
    Parts(nodes, projects, kept, gone) && Sizes(nodes, n, kept, gone) && NewerKept(nodes, kept, gone)
  }

  /** The same with every project done. */
  ghost predicate Purged(nodes: Nodes, n: nat, gone: set<Id>) {
    && gone <= Regular(nodes) && Sizes(nodes, n, Regular(nodes) - gone, gone)
    && NewerKept(nodes, Regular(nodes) - gone, gone)
  }

  // ----- the same, read off the entries

  /** An entry that is not reserved. */
  ghost predicate IsEntry(n: Node) {
    && n.kind == "CacheEntry"
    && !HasText(n, "tool_name", "__privacy_state__") && !HasText(n, "tool_name", "__privacy_policy__")
    && !HasText(n, "tool_name", "__pseudonym_snapshot__")
  }

  ghost function EntriesIn(nodes: Nodes, p: string): set<Id> {
    set x | x in nodes && IsEntry(nodes[x]) && HasText(nodes[x], "project_id", p)
  }

  /** x was updated later than y, or at the same time and comes first by id. */
  ghost predicate Fresher(nodes: Nodes, x: Id, y: Id)
    requires x in nodes && y in nodes
  {
    forall s, t :: HasText(nodes[x], "updated_at", s) && HasText(nodes[y], "updated_at", t)
                   ==> if s == t then Leq(x, y) else Leq(t, s)
  }

  /** Only entries go; at most n of each project stay, exactly n if any of its entries goes, and those are
      fresher than the ones that go. */
  ghost predicate PurgeDone(nodes: Nodes, n: nat, gone: set<Id>) {
    && (forall y :: y in gone ==> y in nodes && IsEntry(nodes[y]))
    && (forall p :: |EntriesIn(nodes - gone, p)| <= n)
    && (forall y, p :: y in gone && HasText(nodes[y], "project_id", p)
                       ==> && |EntriesIn(nodes - gone, p)| == n
                           && forall x :: x in EntriesIn(nodes - gone, p) ==> x in nodes && Fresher(nodes, x, y))
  }

  lemma IsEntryIff(n: Node)
    ensures IsRegular(n) <==> IsEntry(n)
  {
  }

  lemma EntriesLeft(nodes: Nodes, gone: set<Id>, p: string)
    ensures EntriesIn(nodes - gone, p) == Of(nodes, Regular(nodes) - gone, p)
  {
    hide IsEntry, IsRegular;
    forall n: Node ensures IsRegular(n) <==> IsEntry(n) {
      IsEntryIff(n);
    }
  }

  lemma NewerFresher(nodes: Nodes, x: Id, y: Id)
    requires x in nodes && y in nodes && Newer(nodes, x, y)
    ensures Fresher(nodes, x, y)
  {
    hide Leq;
  }

  lemma ProjectText(nodes: Nodes, y: Id, p: string)
    requires y in nodes && HasText(nodes[y], "project_id", p)
    ensures Project(nodes, y) == p
  {
  }

  lemma PurgedDone(nodes: Nodes, n: nat, gone: set<Id>)
    requires Purged(nodes, n, gone)
    ensures PurgeDone(nodes, n, gone)
  {
    hide IsEntry, IsRegular, Newer, Fresher, HasText, Project;
    forall y | y in gone ensures y in nodes && IsEntry(nodes[y]) {
      assert y in Regular(nodes);
      IsEntryIff(nodes[y]);
    }
    forall p ensures |EntriesIn(nodes - gone, p)| <= n {
      EntriesLeft(nodes, gone, p);
    }
    forall y, p | y in gone && HasText(nodes[y], "project_id", p)
      ensures |EntriesIn(nodes - gone, p)| == n
      ensures forall x :: x in EntriesIn(nodes - gone, p) ==> x in nodes && Fresher(nodes, x, y)
    {
      ProjectText(nodes, y, p);
      EntriesLeft(nodes, gone, p);
      forall x | x in EntriesIn(nodes - gone, p) ensures x in nodes && Fresher(nodes, x, y) {
        assert x in Regular(nodes) - gone && Project(nodes, x) == p;
        NewerFresher(nodes, x, y);
      }
    }
  }

  lemma AllSplit(nodes: Nodes, projects: set<string>, n: nat, kept: set<Id>, gone: set<Id>)
    requires Split(nodes, projects, n, kept, gone) && forall x :: x in Regular(nodes) ==> Project(nodes, x) in projects
    ensures Purged(nodes, n, gone) && kept == Regular(nodes) - gone
  {
    hide Sizes, NewerKept;
    assert RegularIn(nodes, projects) == Regular(nodes);
  }

  /** The newest m of a project, and the others. */
  lemma CutParts(nodes: Nodes, xs: seq<Id>, m: nat)
    requires Distinct(xs) && NewestFirst(nodes, xs) && m <= |xs|
    ensures var more, less := Elements(xs[..m]), Elements(xs[m..]);
            && more !! less && |more| == m && |less| == |xs| - m && (forall x :: x in xs <==> x in more || x in less)
            && (forall x, y :: x in more && y in less ==> Newer(nodes, x, y))
  {
    hide Newer;
    var more, less := Elements(xs[..m]), Elements(xs[m..]);
    assert xs == xs[..m] + xs[m..];
    DistinctSize(xs[..m]);
    DistinctSize(xs[m..]);
    forall x, y | x in more && y in less ensures Newer(nodes, x, y) {
      var i :| 0 <= i < m && xs[..m][i] == x;
      var j :| 0 <= j < |xs| - m && xs[m..][j] == y;
      assert xs[i] == x && xs[m + j] == y;
    }
    forall x | x in more ensures x !in less {
      var i :| 0 <= i < m && xs[..m][i] == x;
      assert forall j :: 0 <= j < |xs| - m ==> xs[m..][j] == xs[m + j];
    }
  }

  lemma OfMore(nodes: Nodes, kept: set<Id>, more: set<Id>, p: string, done: set<string>, q: string)
    requires (forall x :: x in more ==> Project(nodes, x) == p) && p !in done
             && forall x :: x in kept ==> Project(nodes, x) in done
    ensures Of(nodes, kept + more, q) == if q == p then more else Of(nodes, kept, q)
  {
    hide Project;
    if q == p {
      assert Of(nodes, kept + more, q) == more;
    } else {
      assert Of(nodes, kept + more, q) == Of(nodes, kept, q);
    }
  }

  lemma Rearranged<T>(a: set<T>, b: set<T>, c: set<T>, d: set<T>)
    requires a + b !! c + d && a !! b && c !! d
    ensures (a + c) + (b + d) == (a + b) + (c + d) && (a + c) !! (b + d) && a !! c && b !! d
  {
  }

  lemma SplitParts(nodes: Nodes, done: set<string>, kept: set<Id>, gone: set<Id>, p: string, more: set<Id>,
                   less: set<Id>)
    requires Parts(nodes, done, kept, gone) && Parts(nodes, {p}, more, less) && p !in done
    ensures Parts(nodes, done + {p}, kept + more, gone + less) && kept !! more && gone !! less
  {
    hide Project, Regular;
    assert RegularIn(nodes, done + {p}) == RegularIn(nodes, done) + RegularIn(nodes, {p});
    assert RegularIn(nodes, done) !! RegularIn(nodes, {p});
    hide RegularIn;
    Rearranged(kept, gone, more, less);
  }

  /** Where the entries of both parts belong. */
  lemma InProjects(nodes: Nodes, projects: set<string>, kept: set<Id>, gone: set<Id>)
    requires Parts(nodes, projects, kept, gone)
    ensures forall x :: x in kept ==> Project(nodes, x) in projects
    ensures forall x :: x in gone ==> Project(nodes, x) in projects
  {
    forall x | x in kept || x in gone ensures Project(nodes, x) in projects {
      assert x in kept + gone;
    }
  }

  lemma SplitSizes(nodes: Nodes, done: set<string>, n: nat, kept: set<Id>, gone: set<Id>, p: string, more: set<Id>,
                   less: set<Id>)
    requires Parts(nodes, done, kept, gone) && Parts(nodes, {p}, more, less) && p !in done
    requires Sizes(nodes, n, kept, gone) && |more| <= n && (less != {} ==> |more| == n)
    ensures Sizes(nodes, n, kept + more, gone + less)
  {
    hide Parts, Sizes;
    forall q ensures |Of(nodes, kept + more, q)| <= n {
      SplitSize(nodes, done, n, kept, gone, p, more, less, q);
    }
    forall y | y in gone + less ensures |Of(nodes, kept + more, Project(nodes, y))| == n {
      SplitFull(nodes, done, n, kept, gone, p, more, less, y);
    }
    SizesAre(nodes, n, kept + more, gone + less);
  }

  lemma SizesAre(nodes: Nodes, n: nat, kept: set<Id>, gone: set<Id>)
    requires forall q :: |Of(nodes, kept, q)| <= n
    requires forall y :: y in gone ==> |Of(nodes, kept, Project(nodes, y))| == n
    ensures Sizes(nodes, n, kept, gone)
  {
    hide Of, Project;
  }

  lemma SplitSize(nodes: Nodes, done: set<string>, n: nat, kept: set<Id>, gone: set<Id>, p: string, more: set<Id>,
                  less: set<Id>, q: string)
    requires Parts(nodes, done, kept, gone) && Parts(nodes, {p}, more, less) && p !in done
    requires Sizes(nodes, n, kept, gone) && |more| <= n
    ensures |Of(nodes, kept + more, q)| <= n
  {
    InProjects(nodes, done, kept, gone);
    InProjects(nodes, {p}, more, less);
    hide Project, Of, Parts, Sizes;
    OfMore(nodes, kept, more, p, done, q);
    SizeOf(nodes, n, kept, gone, q);
  }

  lemma SplitFull(nodes: Nodes, done: set<string>, n: nat, kept: set<Id>, gone: set<Id>, p: string, more: set<Id>,
                  less: set<Id>, y: Id)
    requires Parts(nodes, done, kept, gone) && Parts(nodes, {p}, more, less) && p !in done
    requires Sizes(nodes, n, kept, gone) && (less != {} ==> |more| == n) && y in gone + less
    ensures |Of(nodes, kept + more, Project(nodes, y))| == n
  {
    InProjects(nodes, done, kept, gone);
    InProjects(nodes, {p}, more, less);
    hide Project, Of, Parts, Sizes;
    OfMore(nodes, kept, more, p, done, Project(nodes, y));
    if y in gone {
      FullOf(nodes, n, kept, gone, y);
    }
  }

  lemma SizeOf(nodes: Nodes, n: nat, kept: set<Id>, gone: set<Id>, q: string)
    requires Sizes(nodes, n, kept, gone)
    ensures |Of(nodes, kept, q)| <= n
  {
    hide Of;
  }

  lemma FullOf(nodes: Nodes, n: nat, kept: set<Id>, gone: set<Id>, y: Id)
    requires Sizes(nodes, n, kept, gone) && y in gone
    ensures |Of(nodes, kept, Project(nodes, y))| == n
  {
    hide Of, Project;
  }

  lemma SplitNewer(nodes: Nodes, done: set<string>, kept: set<Id>, gone: set<Id>, p: string, more: set<Id>,
                   less: set<Id>)
    requires Parts(nodes, done, kept, gone) && Parts(nodes, {p}, more, less) && p !in done
    requires NewerKept(nodes, kept, gone) && NewerKept(nodes, more, less)
    ensures NewerKept(nodes, kept + more, gone + less)
  {
    InProjects(nodes, done, kept, gone);
    InProjects(nodes, {p}, more, less);
    hide Project, Newer, Parts;
  }

  /** One more project is split: at most n of its entries stay, and n if any goes. */
  lemma SplitOne(nodes: Nodes, done: set<string>, n: nat, kept: set<Id>, gone: set<Id>, p: string, more: set<Id>,
                 less: set<Id>)
    requires Split(nodes, done, n, kept, gone) && p !in done
    requires Parts(nodes, {p}, more, less) && NewerKept(nodes, more, less) && |more| <= n
             && (less != {} ==> |more| == n)
    ensures Split(nodes, done + {p}, n, kept + more, gone + less)
    ensures kept !! more && gone !! less
  {
    hide Parts, Sizes, NewerKept;
    SplitParts(nodes, done, kept, gone, p, more, less);
    SplitSizes(nodes, done, n, kept, gone, p, more, less);
    SplitNewer(nodes, done, kept, gone, p, more, less);
  }
}
