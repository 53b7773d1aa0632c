/** `editDistance` and `symbolIndex.suggest`: Levenshtein distance for rename hints. */
module EditDistance {
  import opened Order

  function Max(a: nat, b: nat): nat {
    if a <= b then b else a
  }

  // ----- the recursive definition

  /** Levenshtein distance, peeling the last characters. */
  ghost function Lev(a: string, b: string): nat
    decreases |a| + |b|
  {
    if a == [] then |b|
    else if b == [] then |a|
    else
      var a', b' := a[..|a| - 1], b[..|b| - 1];
      Min(Min(Lev(a', b) + 1, Lev(a, b') + 1), Lev(a', b') + if a[|a| - 1] == b[|b| - 1] then 0 else 1)
  }

  lemma FirstCell(a: string, b: string, i: nat)
    requires i <= |a|
    ensures Lev(a[..i], b[..0]) == i
  {
  }

  lemma NextCell(a: string, b: string, i: nat, j: nat)
    requires 1 <= i <= |a| && 1 <= j <= |b|
    ensures Lev(a[..i], b[..j])
         == Min(Min(Lev(a[..i - 1], b[..j]) + 1, Lev(a[..i], b[..j - 1]) + 1),
                Lev(a[..i - 1], b[..j - 1]) + if a[i - 1] == b[j - 1] then 0 else 1)
  {
    hide Lev;
    assert a[..i] == a[..i - 1] + [a[i - 1]] && b[..j] == b[..j - 1] + [b[j - 1]];
    LevStep(a[..i - 1], b[..j - 1], a[i - 1], b[j - 1]);
  }

  lemma LevStep(a: string, b: string, c: char, d: char)
    ensures Lev(a + [c], b + [d]) == Min(Min(Lev(a, b + [d]) + 1, Lev(a + [c], b) + 1), 
                                         Lev(a, b) + if c == d then 0 else 1)
  {
    assert (a + [c])[..|a|] == a && (b + [d])[..|b|] == b;
  }

  /** Row i of the table: distances of the first i characters of a to the prefixes of b. */
  ghost predicate IsRow(row: array<nat>, a: string, b: string, i: nat)
    reads row
  {
    row.Length == |b| + 1 && i <= |a| && forall k :: 0 <= k <= |b| ==> row[k] == Lev(a[..i], b[..k])
  }

  /** The body of the outer loop: row i from row i - 1. */
  method NextRow(a: string, b: string, i: nat, prev: array<nat>) returns (cur: array<nat>)
    requires 1 <= i <= |a| && IsRow(prev, a, b, i - 1)
    ensures fresh(cur) && IsRow(cur, a, b, i)
  {
    hide Lev;
    cur := new nat[|b| + 1];
    cur[0] := i;
    FirstCell(a, b, i);
    for j := 1 to |b| + 1
      invariant forall k :: 0 <= k < j ==> cur[k] == Lev(a[..i], b[..k])
    {
      NextCell(a, b, i, j);
      var cost := 1;
      if a[i - 1] == b[j - 1] {
        cost := 0;
      }
      cur[j] := Min(Min(prev[j] + 1, cur[j - 1] + 1), prev[j - 1] + cost);
    }
  }

  /** The two-row table. */
  method Distance(a: string, b: string) returns (d: nat)
    ensures d == Lev(a, b)
  {
    var prev := new nat[|b| + 1];
    for j := 0 to prev.Length
      invariant forall k :: 0 <= k < j ==> prev[k] == k
    {
      prev[j] := j;
    }
    assert IsRow(prev, a, b, 0);
    for i := 1 to |a| + 1
      invariant IsRow(prev, a, b, i - 1)
    {
      prev := NextRow(a, b, i, prev);
    }
    assert a[..|a|] == a && b[..|b|] == b;
    d := prev[|b|];
  }

  // ----- the meaning: least cost of an edit script

  datatype Edit = Keep(c: char) | Replace(from: char, to: char) | Delete(c: char) | Insert(c: char)

  function Consumed(e: Edit): string {
    match e
    case Keep(c) => [c]
    case Replace(from, _) => [from]
    case Delete(c) => [c]
    case Insert(_) => []
  }

  function Produced(e: Edit): string {
    match e
    case Keep(c) => [c]
    case Replace(_, to) => [to]
    case Delete(_) => []
    case Insert(c) => [c]
  }

  ghost function Source(s: seq<Edit>): string {
    if s == [] then [] else Source(s[..|s| - 1]) + Consumed(s[|s| - 1])
  }

  ghost function Target(s: seq<Edit>): string {
    if s == [] then [] else Target(s[..|s| - 1]) + Produced(s[|s| - 1])
  }

  ghost function Cost(s: seq<Edit>): nat {
    if s == [] then 0 else Cost(s[..|s| - 1]) + if s[|s| - 1].Keep? then 0 else 1
  }

  ghost predicate Turns(s: seq<Edit>, a: string, b: string) {
    Source(s) == a && Target(s) == b
  }

  lemma Append(s: seq<Edit>, e: Edit)
    ensures Source(s + [e]) == Source(s) + Consumed(e) && Target(s + [e]) == Target(s) + Produced(e)
    ensures Cost(s + [e]) == Cost(s) + if e.Keep? then 0 else 1
  {
    assert (s + [e])[..|s|] == s;
  }

  lemma LevGrows(a: string, b: string, c: char, d: char)
    ensures Lev(a + [c], b) <= Lev(a, b) + 1
    ensures Lev(a, b + [d]) <= Lev(a, b) + 1
    ensures Lev(a + [c], b + [d]) <= Lev(a, b) + if c == d then 0 else 1
  {
    assert (a + [c])[..|a|] == a && (b + [d])[..|b|] == b;
  }

  /** No script is cheaper than the distance. */
  lemma {:induction false} NoScriptIsCheaper(s: seq<Edit>)
    ensures Lev(Source(s), Target(s)) <= Cost(s)
    decreases |s|
  {
    if s != [] {
      var s', e := s[..|s| - 1], s[|s| - 1];
      NoScriptIsCheaper(s');
      var a, b := Source(s'), Target(s');
      match e
      case Keep(c) => LevGrows(a, b, c, c);
      case Replace(c, d) => LevGrows(a, b, c, d);
      case Delete(c) => LevGrows(a, b, c, c);
        assert Target(s) == b;
      case Insert(d) => LevGrows(a, b, d, d);
        assert Source(s) == a;
    }
  }

  lemma SplitLast(w: string)
    requires w != []
    ensures w == w[..|w| - 1] + [w[|w| - 1]]
  {
  }

  lemma LevLast(a: string, b: string)
    requires a != [] && b != []
    ensures var a', b' := a[..|a| - 1], b[..|b| - 1];
            || Lev(a, b) == Lev(a', b) + 1
            || Lev(a, b) == Lev(a, b') + 1
            || Lev(a, b) == Lev(a', b') + if a[|a| - 1] == b[|b| - 1] then 0 else 1
  {
  }

  lemma LevEmpty(a: string)
    ensures Lev(a, []) == |a| && Lev([], a) == |a|
  {
  }

  /** Some script costs exactly the distance. */
  lemma {:induction false} BestScript(a: string, b: string) returns (s: seq<Edit>)
    ensures Turns(s, a, b) && Cost(s) == Lev(a, b)
    decreases |a| + |b|
  {
    if a == [] && b == [] {
      s := [];
      return;
    }
    hide Lev, Source, Target, Cost;
    if a != [] {
      SplitLast(a);
      LevEmpty(a);
      LevEmpty(a[..|a| - 1]);
    }
    if b != [] {
      SplitLast(b);
      LevEmpty(b);
      LevEmpty(b[..|b| - 1]);
    }
    if a != [] && b != [] {
      LevLast(a, b);
    }
    var e;
    if a != [] && (b == [] || Lev(a, b) == Lev(a[..|a| - 1], b) + 1) {
      s := BestScript(a[..|a| - 1], b);
      e := Delete(a[|a| - 1]);
    } else if a == [] || Lev(a, b) == Lev(a, b[..|b| - 1]) + 1 {
      s := BestScript(a, b[..|b| - 1]);
      e := Insert(b[|b| - 1]);
    } else {
      s := BestScript(a[..|a| - 1], b[..|b| - 1]);
      e := if a[|a| - 1] == b[|b| - 1] then Keep(b[|b| - 1]) else Replace(a[|a| - 1], b[|b| - 1]);
    }
    Append(s, e);
    s := s + [e];
  }

  /** The distance is the least cost of any script turning a into b. */
  lemma DistanceIsLeastCost(a: string, b: string)
    ensures exists s :: Turns(s, a, b) && Cost(s) == Lev(a, b)
    ensures forall s :: Turns(s, a, b) ==> Lev(a, b) <= Cost(s)
  {
    var s := BestScript(a, b);
    forall t | Turns(t, a, b) ensures Lev(a, b) <= Cost(t) {
      NoScriptIsCheaper(t);
    }
  }

  // ----- the metric

  lemma {:induction false} FreeScriptKeeps(s: seq<Edit>)
    requires Cost(s) == 0
    ensures Source(s) == Target(s)
    decreases |s|
  {
    if s != [] {
      FreeScriptKeeps(s[..|s| - 1]);
    }
  }

  lemma {:induction false} LevSelf(a: string)
    ensures Lev(a, a) == 0
    decreases |a|
  {
    if a != [] {
      LevSelf(a[..|a| - 1]);
    }
  }

  /** Two names are at distance zero exactly when they are equal. */
  lemma {:induction false} ZeroIffEqual(a: string, b: string)
    ensures Lev(a, b) == 0 <==> a == b
  {
    if Lev(a, b) == 0 {
      var s := BestScript(a, b);
      FreeScriptKeeps(s);
    }
    LevSelf(a);
  }

  lemma {:induction false} Symmetric(a: string, b: string)
    ensures Lev(a, b) == Lev(b, a)
    decreases |a| + |b|
  {
    if a != [] && b != [] {
      var a', b' := a[..|a| - 1], b[..|b| - 1];
      Symmetric(a', b);
      Symmetric(a, b');
      Symmetric(a', b');
    }
  }

  /** Two edits in a row, where the second consumes what the first produced. */
  function Fuse(e: Edit, f: Edit): seq<Edit>
    requires !e.Delete? && !f.Insert? && Produced(e) == Consumed(f)
  {
    match f
    case Keep(_) => [e]
    case Replace(_, to) => if e.Insert? then [Insert(to)] else [Replace(Consumed(e)[0], to)]
    case Delete(_) => if e.Insert? then [] else [Delete(Consumed(e)[0])]
  }

  lemma LastEdit(s: seq<Edit>)
    requires s != []
    ensures var s', e := s[..|s| - 1], s[|s| - 1];
            Source(s) == Source(s') + Consumed(e) && Target(s) == Target(s') + Produced(e)
            && Cost(s) == Cost(s') + if e.Keep? then 0 else 1
  {
  }

  lemma AppendAll(q: seq<Edit>, fused: seq<Edit>) returns (r: seq<Edit>)
    requires |fused| <= 1
    ensures Source(r) == Source(q) + if fused == [] then [] else Consumed(fused[0])
    ensures Target(r) == Target(q) + if fused == [] then [] else Produced(fused[0])
    ensures Cost(r) <= Cost(q) + if fused == [] || fused[0].Keep? then 0 else 1
  {
    r := q + fused;
    if fused != [] {
      Append(q, fused[0]);
    } else {
      assert r == q;
    }
  }

  /** Running s and then t is one script, no dearer than both together. */
  lemma {:induction false} Compose(s: seq<Edit>, t: seq<Edit>) returns (r: seq<Edit>)
    requires Target(s) == Source(t)
    ensures Turns(r, Source(s), Target(t)) && Cost(r) <= Cost(s) + Cost(t)
    decreases |s| + |t|
  {
    if t == [] && s == [] {
      r := [];
      return;
    }
    hide Source, Target, Cost;
    if t != [] {
      LastEdit(t);
    }
    if s != [] {
      LastEdit(s);
    }
    if t != [] && t[|t| - 1].Insert? {
      r := Compose(s, t[..|t| - 1]);
      r := AppendAll(r, [t[|t| - 1]]);
    } else if s != [] && s[|s| - 1].Delete? {
      r := Compose(s[..|s| - 1], t);
      r := AppendAll(r, [s[|s| - 1]]);
    } else {
      ProducesLast(s, t);
      r := Compose(s[..|s| - 1], t[..|t| - 1]);
      r := AppendAll(r, Fuse(s[|s| - 1], t[|t| - 1]));
    }
  }

  lemma ProducesLast(s: seq<Edit>, t: seq<Edit>)
    requires Target(s) == Source(t) && (s != [] || t != [])
    requires (t != [] ==> !t[|t| - 1].Insert?) && (s != [] ==> !s[|s| - 1].Delete?)
    ensures s != [] && t != []
    ensures Produced(s[|s| - 1]) == Consumed(t[|t| - 1]) && Target(s[..|s| - 1]) == Source(t[..|t| - 1])
  {
    assert s != [] ==> |Target(s)| > 0;
    assert t != [] ==> |Source(t)| > 0;
    var w := Target(s);
    assert w[..|w| - 1] == Target(s[..|s| - 1]) && w[..|w| - 1] == Source(t[..|t| - 1]);
    assert w[|w| - 1] == Produced(s[|s| - 1])[0] && w[|w| - 1] == Consumed(t[|t| - 1])[0];
  }

  lemma {:induction false} Triangle(a: string, b: string, c: string)
    ensures Lev(a, c) <= Lev(a, b) + Lev(b, c)
  {
    var s := BestScript(a, b);
    var t := BestScript(b, c);
    var r := Compose(s, t);
    NoScriptIsCheaper(r);
  }

  lemma {:induction false} Bounds(a: string, b: string)
    ensures Lev(a, b) <= Max(|a|, |b|)
    ensures |a| - |b| <= Lev(a, b) && |b| - |a| <= Lev(a, b)
    decreases |a| + |b|
  {
    if a != [] && b != [] {
      var a', b' := a[..|a| - 1], b[..|b| - 1];
      Bounds(a', b);
      Bounds(a, b');
      Bounds(a', b');
    }
  }

  // ----- the rename hint

  const FAR: nat := 0x4000_0000

  predicate Exact(known: string, name: string, lower: string -> string) {
    lower(known) == lower(name)
  }

  /** Only long names are compared by distance. */
  predicate Comparable(known: string, name: string) {
    |known| >= 6 && |name| >= 6
  }

  ghost function Far(known: string, name: string, lower: string -> string): nat {
    Lev(lower(name), lower(known))
  }

  /** x is a better hint than y: nearer, or as near and earlier in the alphabet. */
  ghost predicate NoWorse(x: string, y: string, name: string, lower: string -> string) {
    Far(x, name, lower) < Far(y, name, lower) || (Far(x, name, lower) == Far(y, name, lower) && Leq(x, y))
  }

  ghost predicate Nearest(names: set<string>, name: string, lower: string -> string, x: string) {
    && x in names && Comparable(x, name) && Far(x, name, lower) < FAR
    && forall y :: y in names && Comparable(y, name) ==> NoWorse(x, y, name, lower)
  }

  ghost predicate NearMiss(names: set<string>, name: string, lower: string -> string, x: string) {
    Nearest(names, name, lower, x) && 5 * Far(x, name, lower) < |name|
  }

  /** r may be the answer for some iteration order of the known names. */
  ghost predicate Answer(names: set<string>, name: string, lower: string -> string, r: string) {
    if exists k :: k in names && Exact(k, name, lower) then r in names && Exact(r, name, lower)
    else if exists k :: NearMiss(names, name, lower, k) then NearMiss(names, name, lower, r)
    else r == ""
  }

  /** The best hint among the names seen so far, with its distance. */
  ghost predicate BestOf(seen: set<string>, name: string, lower: string -> string, best: string, bestD: nat) {
    if best == "" then bestD == FAR && forall y :: y in seen && Comparable(y, name) ==> FAR <= Far(y, name, lower)
    else
      && best in seen && Comparable(best, name) && bestD == Far(best, name, lower) < FAR
      && forall y :: y in seen && Comparable(y, name) ==> NoWorse(best, y, name, lower)
  }

  lemma BestNext(seen: set<string>, name: string, lower: string -> string, best: string, bestD: nat, known: string)
    requires BestOf(seen, name, lower, best, bestD) && Comparable(known, name)
    ensures var d := Far(known, name, lower);
            if d < bestD || (d == bestD && Leq(known, best) && known != best)
            then BestOf(seen + {known}, name, lower, known, d) else BestOf(seen + {known}, name, lower, best, bestD)
  {
    hide Far;
    LeqReflexive(known);
    LeqTotal(known, best);
    forall y | Leq(best, y) && Leq(known, best) ensures Leq(known, y) {
      LeqTransitive(known, best, y);
    }
  }

  lemma BestSame(seen: set<string>, name: string, lower: string -> string, best: string, bestD: nat, known: string)
    requires BestOf(seen, name, lower, best, bestD) && !Comparable(known, name)
    ensures BestOf(seen + {known}, name, lower, best, bestD)
  {
    hide Far;
  }

  method Suggest(names: set<string>, name: string, lower: string -> string) returns (r: string)
    ensures Answer(names, name, lower, r)
  {
    var low := lower(name);
    var best: string, bestD: nat := "", FAR;
    var todo := names;
    assert BestOf(names - todo, name, lower, best, bestD);
    hide BestOf, Lev, Leq, Answer;
    while todo != {}
      invariant todo <= names
      invariant forall k :: k in names - todo ==> !Exact(k, name, lower)
      invariant BestOf(names - todo, name, lower, best, bestD)
      decreases |todo|
    {
      var known :| known in todo;
      todo := todo - {known};
      if lower(known) == low {
        return known;
      }
      if |known| >= 6 && |name| >= 6 {
        var d := Distance(low, lower(known));
        BestNext(names - todo - {known}, name, lower, best, bestD, known);
        assert names - todo - {known} + {known} == names - todo;
        if d < bestD || (d == bestD && Leq(known, best) && known != best) {
          best, bestD := known, d;
        }
      } else {
        BestSame(names - todo - {known}, name, lower, best, bestD, known);
        assert names - todo - {known} + {known} == names - todo;
      }
    }
    assert names - todo == names;
    BestIsAnswer(names, name, lower, best, bestD);
    if best != "" && bestD * 5 < |name| {
      return best;
    }
    return "";
  }

  lemma BestIsAnswer(names: set<string>, name: string, lower: string -> string, best: string, bestD: nat)
    requires BestOf(names, name, lower, best, bestD) && forall k :: k in names ==> !Exact(k, name, lower)
    ensures Answer(names, name, lower, if best != "" && bestD * 5 < |name| then best else "")
  {
    hide Far, Leq;
    forall k | NearMiss(names, name, lower, k) ensures best != "" && NoWorse(best, k, name, lower) {
    }
  }

  lemma NearestUnique(names: set<string>, name: string, lower: string -> string, x: string, y: string)
    requires Nearest(names, name, lower, x) && Nearest(names, name, lower, y)
    ensures x == y
  {
    assert NoWorse(x, y, name, lower) && NoWorse(y, x, name, lower);
    LeqAntisymmetric(x, y);
  }

  // ----- every iteration order

  /** What the loop returns when it meets the names in this order. */
  ghost function Scan(order: seq<string>, name: string, lower: string -> string, best: string, bestD: nat): string {
    if order == [] then (if best != "" && bestD * 5 < |name| then best else "")
    else
      var known := order[0];
      var d := Far(known, name, lower);
      if Exact(known, name, lower) then known
      else if Comparable(known, name) && (d < bestD || (d == bestD && Leq(known, best) && known != best))
      then Scan(order[1..], name, lower, known, d)
      else Scan(order[1..], name, lower, best, bestD)
  }

  ghost predicate OrderOf(order: seq<string>, names: set<string>) {
    Distinct(order) && Elements(order) == names
  }

  lemma {:induction false} ScanAnswers(order: seq<string>, seen: set<string>, name: string, lower: string -> string,
                                       best: string, bestD: nat)
    requires BestOf(seen, name, lower, best, bestD) && forall k :: k in seen ==> !Exact(k, name, lower)
    ensures Answer(seen + Elements(order), name, lower, Scan(order, name, lower, best, bestD))
  {
    if order == [] {
      assert seen + Elements(order) == seen;
      BestIsAnswer(seen, name, lower, best, bestD);
    } else {
      var known, rest := order[0], order[1..];
      assert order == [known] + rest;
      assert seen + Elements(order) == seen + {known} + Elements(rest);
      hide BestOf, Far, Leq, Elements, Exact;
      if Exact(known, name, lower) {
        ExactAnswers(seen + {known} + Elements(rest), name, lower, known);
      } else {
        hide Answer;
        BestAfter(seen, name, lower, best, bestD, known);
        var d := Far(known, name, lower);
        if Comparable(known, name) && (d < bestD || (d == bestD && Leq(known, best) && known != best)) {
          ScanAnswers(rest, seen + {known}, name, lower, known, d);
        } else {
          ScanAnswers(rest, seen + {known}, name, lower, best, bestD);
        }
      }
    }
  }

  lemma ExactAnswers(names: set<string>, name: string, lower: string -> string, known: string)
    requires known in names && Exact(known, name, lower)
    ensures Answer(names, name, lower, known)
  {
  }

  lemma BestAfter(seen: set<string>, name: string, lower: string -> string, best: string, bestD: nat, known: string)
    requires BestOf(seen, name, lower, best, bestD)
    ensures var d := Far(known, name, lower);
            if Comparable(known, name) && (d < bestD || (d == bestD && Leq(known, best) && known != best))
            then BestOf(seen + {known}, name, lower, known, d) else BestOf(seen + {known}, name, lower, best, bestD)
  {
    hide BestOf, Far, Leq;
    if Comparable(known, name) {
      BestNext(seen, name, lower, best, bestD, known);
    } else {
      BestSame(seen, name, lower, best, bestD, known);
    }
  }

  lemma OrderIsAnswer(order: seq<string>, names: set<string>, name: string, lower: string -> string)
    requires OrderOf(order, names)
    ensures Answer(names, name, lower, Scan(order, name, lower, "", FAR))
  {
    ScanAnswers(order, {}, name, lower, "", FAR);
    assert {} + Elements(order) == names;
  }

  /** Some order starts with the name. */
  lemma OrderFrom(names: set<string>, first: string) returns (order: seq<string>)
    requires first in names
    ensures OrderOf(order, names) && order[..1] == [first]
  {
    var rest := Listing(names - {first});
    order := [first] + rest;
    assert first !in rest by {
      assert first in rest ==> first in Elements(rest);
    }
    assert Elements(order) == {first} + Elements(rest);
  }

  /** The answers allowed are exactly those some iteration order leads to. */
  lemma AnswerIff(names: set<string>, name: string, lower: string -> string, r: string)
    ensures Answer(names, name, lower, r)
            <==> exists order :: OrderOf(order, names) && Scan(order, name, lower, "", FAR) == r
  {
    if Answer(names, name, lower, r) {
      if exists k :: k in names && Exact(k, name, lower) {
        var order := OrderFrom(names, r);
        assert order[0] == order[..1][0];
        assert Scan(order, name, lower, "", FAR) == r;
      } else {
        var order := Listing(names);
        OrderIsAnswer(order, names, name, lower);
        OneAnswer(names, name, lower, r, Scan(order, name, lower, "", FAR));
        assert OrderOf(order, names);
      }
    }
    forall order | OrderOf(order, names) ensures Answer(names, name, lower, Scan(order, name, lower, "", FAR)) {
      OrderIsAnswer(order, names, name, lower);
    }
  }

  lemma OneAnswer(names: set<string>, name: string, lower: string -> string, r1: string, r2: string)
    requires Answer(names, name, lower, r1) && Answer(names, name, lower, r2)
    requires forall k, l :: k in names && l in names && Exact(k, name, lower) && Exact(l, name, lower) ==> k == l
    ensures r1 == r2
  {
    if (!exists k :: k in names && Exact(k, name, lower)) && exists k :: NearMiss(names, name, lower, k) {
      NearestUnique(names, name, lower, r1, r2);
    }
  }

  /** All iteration orders lead to the same hint exactly when at most one known name equals the
      wanted one up to case. */
  lemma SuggestOrderIndependent(names: set<string>, name: string, lower: string -> string)
    ensures (forall a, b :: OrderOf(a, names) && OrderOf(b, names)
                            ==> Scan(a, name, lower, "", FAR) == Scan(b, name, lower, "", FAR))
       <==> (forall k, l :: k in names && l in names && Exact(k, name, lower) && Exact(l, name, lower) ==> k == l)
  {
    if forall k, l :: k in names && l in names && Exact(k, name, lower) && Exact(l, name, lower) ==> k == l {
      forall a, b | OrderOf(a, names) && OrderOf(b, names)
        ensures Scan(a, name, lower, "", FAR) == Scan(b, name, lower, "", FAR)
      {
        OrderIsAnswer(a, names, name, lower);
        OrderIsAnswer(b, names, name, lower);
        OneAnswer(names, name, lower, Scan(a, name, lower, "", FAR), Scan(b, name, lower, "", FAR));
      }
    } else {
      var k, l :| k in names && l in names && Exact(k, name, lower) && Exact(l, name, lower) && k != l;
      var a := OrderFrom(names, k);
      var b := OrderFrom(names, l);
      assert a[0] == a[..1][0] && b[0] == b[..1][0];
      assert Scan(a, name, lower, "", FAR) == k && Scan(b, name, lower, "", FAR) == l;
    }
  }
}
