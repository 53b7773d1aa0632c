/** Which functions a recorded call name means: `pickTargets` and the owner fallback of `ResolveCalls`. */
module CallRule {
  import opened Order
  import opened Store

  // ----- the functions of a project

  datatype Fn = Fn(id: Id, name: string, owner: string, path: string, calls: seq<string>)

  function StrSlice(v: Value): seq<string> {
    if v.Texts? then v.items else []
  }

  function FnOf(id: Id, n: Node): Fn {
    Fn(id, StrProp(n, "name"), StrProp(n, "owner"), StrProp(n, "path"), StrSlice(Get(n.props, "calls")))
  }

  function FnsOf(nodes: map<Id, Node>, ids: seq<Id>): seq<Fn>
    requires forall x :: x in ids ==> x in nodes
  {
    seq(|ids|, i requires 0 <= i < |ids| => assert ids[i] in ids; FnOf(ids[i], nodes[ids[i]]))
  }

  // ----- which functions a call name means

  const CONF_SAME_FILE := 0.9
  const CONF_UNIQUE_NAME := 0.8
  const CONF_AMBIGUOUS := 0.5
  const OWNER_PENALTY := 0.8
  const MAX_AMBIGUOUS_FAN := 3

  predicate AsmLinkable(g: string) {
    g in {"c", ".go", ".rs"}
  }

  predicate GroupsCompatible(a: string, b: string) {
    a == b || (a == "asm" && AsmLinkable(b)) || (b == "asm" && AsmLinkable(a))
  }

  /** Functions with this name, in order; nameless functions are not indexed. */
  function Named(fns: seq<Fn>, name: string): seq<Id> {
    if fns == [] then []
    else Named(fns[..|fns| - 1], name)
         + if fns[|fns| - 1].name == name && name != "" then [fns[|fns| - 1].id] else []
  }

  function QualifiedName(f: Fn): string {
    f.owner + "." + f.name
  }

  predicate GoesBy(f: Fn, name: string) {
    f.name != "" && f.owner != "" && QualifiedName(f) == name
  }

  function Qualified(fns: seq<Fn>, name: string): seq<Id> {
    if fns == [] then []
    else Qualified(fns[..|fns| - 1], name) + if GoesBy(fns[|fns| - 1], name) then [fns[|fns| - 1].id] else []
  }

  function PathIn(fns: seq<Fn>, id: Id): string {
    if fns == [] then ""
    else if fns[|fns| - 1].id == id && fns[|fns| - 1].name != "" then fns[|fns| - 1].path
    else PathIn(fns[..|fns| - 1], id)
  }

  datatype Scope = Scope(fns: seq<Fn>, group: string -> string)

  predicate Linkable(s: Scope, id: Id, callerPath: string) {
    GroupsCompatible(s.group(PathIn(s.fns, id)), s.group(callerPath))
  }

  function Linkables(s: Scope, ids: seq<Id>, callerPath: string): seq<Id> {
    if ids == [] then []
    else Linkables(s, ids[..|ids| - 1], callerPath)
         + if Linkable(s, ids[|ids| - 1], callerPath) then [ids[|ids| - 1]] else []
  }

  function InFile(s: Scope, ids: seq<Id>, path: string): seq<Id> {
    if ids == [] then []
    else InFile(s, ids[..|ids| - 1], path) + if PathIn(s.fns, ids[|ids| - 1]) == path then [ids[|ids| - 1]] else []
  }

  /** The targets among the candidates and the confidence of the match. */
  function Pick(s: Scope, candidates: seq<Id>, callerPath: string): (seq<Id>, real) {
    var ok := Linkables(s, candidates, callerPath);
    var same := InFile(s, ok, callerPath);
    if ok == [] then ([], 0.0)
    else if same != [] then (same, CONF_SAME_FILE)
    else if |ok| == 1 then (ok, CONF_UNIQUE_NAME)
    else if |ok| <= MAX_AMBIGUOUS_FAN then (ok, CONF_AMBIGUOUS)
    else ([], 0.0)
  }

  function LastDot(call: string): int {
    if call == [] then -1
    else if call[|call| - 1] == '.' then |call| - 1 else LastDot(call[..|call| - 1])
  }

  /** k is the place of the last dot, or -1. */
  predicate LastAt(call: string, k: int) {
    -1 <= k < |call| && (k >= 0 ==> call[k] == '.') && forall i :: k < i < |call| ==> call[i] != '.'
  }

  lemma {:induction false} LastDotIs(call: string)
    ensures LastAt(call, LastDot(call))
  {
    if call != [] && call[|call| - 1] != '.' {
      LastDotIs(call[..|call| - 1]);
    }
  }

  function Bare(call: string): string {
    LastDotIs(call);
    call[LastDot(call) + 1..]
  }

  /** The targets of one recorded call: by owner and name, else by bare name. */
  function CallTargets(s: Scope, caller: Fn, call: string): (seq<Id>, real) {
    var from := PathIn(s.fns, caller.id);
    if '.' !in call then Pick(s, Named(s.fns, call), from)
    else if Qualified(s.fns, call) == [] then Pick(s, Named(s.fns, Bare(call)), from)
    else
      var p := Pick(s, Qualified(s.fns, call), from);
      if p.0 != [] then p
      else var q := Pick(s, Named(s.fns, Bare(call)), from);
           (q.0, q.1 * OWNER_PENALTY)
  }

  /** The CALLS targets a function should have: a function of the recorded names alone. */
  ghost function Desired(s: Scope, caller: Fn): set<Id> {
    set call, t | call in caller.calls && t in CallTargets(s, caller, call).0 && t != caller.id :: t
  }

  lemma PickConfidence(s: Scope, candidates: seq<Id>, callerPath: string)
    ensures var p := Pick(s, candidates, callerPath); p.1 >= 0.0 && (p.1 > 0.0 <==> p.0 != [])
  {
  }

  lemma CallConfidence(s: Scope, caller: Fn, call: string)
    ensures var p := CallTargets(s, caller, call); p.1 >= 0.0 && (p.1 > 0.0 <==> p.0 != [])
  {
    var from := PathIn(s.fns, caller.id);
    PickConfidence(s, Named(s.fns, call), from);
    PickConfidence(s, Qualified(s.fns, call), from);
    PickConfidence(s, Named(s.fns, Bare(call)), from);
  }

  // ----- what the rule means, whatever the order of the candidates

  lemma {:induction false} LinkablesMembers(s: Scope, ids: seq<Id>, path: string)
    ensures forall x :: x in Linkables(s, ids, path) <==> x in ids && Linkable(s, x, path)
    ensures Distinct(ids) ==> Distinct(Linkables(s, ids, path))
  {
    if ids != [] {
      assert ids == ids[..|ids| - 1] + [ids[|ids| - 1]];
      LinkablesMembers(s, ids[..|ids| - 1], path);
      hide Linkable;
    }
  }

  lemma {:induction false} InFileMembers(s: Scope, ids: seq<Id>, path: string)
    ensures forall x :: x in InFile(s, ids, path) <==> x in ids && PathIn(s.fns, x) == path
  {
    if ids != [] {
      assert ids == ids[..|ids| - 1] + [ids[|ids| - 1]];
      InFileMembers(s, ids[..|ids| - 1], path);
    }
  }

  ghost function LinkableSet(s: Scope, ids: set<Id>, path: string): set<Id> {
    set x | x in ids && Linkable(s, x, path)
  }

  ghost function InFileSet(s: Scope, ids: set<Id>, path: string): set<Id> {
    set x | x in ids && Linkable(s, x, path) && PathIn(s.fns, x) == path
  }

  /** The picked targets are a function of the set of candidates: those of the caller's file if
      there are any, else all linkable ones unless there are more than three. */
  lemma PickIsBySet(s: Scope, ids: seq<Id>, path: string)
    requires Distinct(ids)
    ensures var ok, same := LinkableSet(s, Elements(ids), path), InFileSet(s, Elements(ids), path);
            Elements(Pick(s, ids, path).0) == if same != {} then same else if |ok| <= MAX_AMBIGUOUS_FAN then ok else {}
  {
    var oks := Linkables(s, ids, path);
    LinkablesMembers(s, ids, path);
    InFileMembers(s, oks, path);
    var ok, same := LinkableSet(s, Elements(ids), path), InFileSet(s, Elements(ids), path);
    assert Elements(oks) == ok;
    assert Elements(InFile(s, oks, path)) == same;
    assert oks != [] ==> oks[0] in oks && oks[0] in ok;
    assert InFile(s, oks, path) != [] ==> InFile(s, oks, path)[0] in same;
    DistinctSize(oks);
  }

  // ----- distinct functions

  ghost predicate DistinctIds(fns: seq<Fn>) {
    forall i, j :: 0 <= i < j < |fns| ==> fns[i].id != fns[j].id
  }

  // ----- the rule yields functions of the project

  lemma {:induction false} NamedAreFunctions(fns: seq<Fn>, k: string)
    ensures forall x :: x in Named(fns, k) ==> exists i :: 0 <= i < |fns| && fns[i].id == x
    ensures forall x :: x in Qualified(fns, k) ==> exists i :: 0 <= i < |fns| && fns[i].id == x
  {
    hide GoesBy;
    if fns != [] {
      NamedAreFunctions(fns[..|fns| - 1], k);
    }
  }

  lemma PickedAreCandidates(s: Scope, ids: seq<Id>, path: string)
    ensures forall x :: x in Pick(s, ids, path).0 ==> x in ids
  {
    LinkablesMembers(s, ids, path);
    InFileMembers(s, Linkables(s, ids, path), path);
  }

  lemma DesiredAreFunctions(s: Scope, f: Fn)
    ensures forall t :: t in Desired(s, f) ==> exists i :: 0 <= i < |s.fns| && s.fns[i].id == t
  {
    var from := PathIn(s.fns, f.id);
    forall call | call in f.calls
      ensures forall t :: t in CallTargets(s, f, call).0 ==> exists i :: 0 <= i < |s.fns| && s.fns[i].id == t
    {
      hide Pick;
      PickedAreCandidates(s, Named(s.fns, call), from);
      PickedAreCandidates(s, Qualified(s.fns, call), from);
      PickedAreCandidates(s, Named(s.fns, Bare(call)), from);
      NamedAreFunctions(s.fns, call);
      NamedAreFunctions(s.fns, Bare(call));
    }
    hide CallTargets;
  }

  // ----- the rule does not depend on the order of the functions

  ghost function NamedSet(all: set<Fn>, k: string): set<Id> {
    set f | f in all && f.name == k && k != "" :: f.id
  }

  ghost function QualifiedSet(all: set<Fn>, k: string): set<Id> {
    set f | f in all && GoesBy(f, k) :: f.id
  }

  lemma {:induction false} NamedIsSet(fns: seq<Fn>, k: string)
    requires DistinctIds(fns)
    ensures Elements(Named(fns, k)) == NamedSet(Elements(fns), k) && Distinct(Named(fns, k))
  {
    if fns != [] {
      var rest, f := fns[..|fns| - 1], fns[|fns| - 1];
      assert fns == rest + [f];
      NamedIsSet(rest, k);
      NamedAreFunctions(rest, k);
      assert f.id !in Named(rest, k);
      assert Elements(fns) == Elements(rest) + {f};
      assert Elements(Named(fns, k)) == Elements(Named(rest, k)) + if f.name == k && k != "" then {f.id} else {};
    }
  }

  lemma {:induction false} QualifiedIsSet(fns: seq<Fn>, k: string)
    requires DistinctIds(fns)
    ensures Elements(Qualified(fns, k)) == QualifiedSet(Elements(fns), k) && Distinct(Qualified(fns, k))
  {
    hide GoesBy;
    if fns != [] {
      var rest, f := fns[..|fns| - 1], fns[|fns| - 1];
      assert fns == rest + [f];
      QualifiedIsSet(rest, k);
      NamedAreFunctions(rest, k);
      assert f.id !in Qualified(rest, k);
      assert Elements(fns) == Elements(rest) + {f};
      var more := if GoesBy(f, k) then {f.id} else {};
      assert Elements(Qualified(fns, k)) == Elements(Qualified(rest, k)) + more;
    }
  }

  lemma {:induction false} PathIsBySet(fns: seq<Fn>, x: Id)
    requires DistinctIds(fns)
    ensures forall f :: f in fns && f.id == x && f.name != "" ==> PathIn(fns, x) == f.path
    ensures (forall f :: f in fns && f.id == x ==> f.name == "") ==> PathIn(fns, x) == ""
  {
    if fns != [] {
      var rest, f := fns[..|fns| - 1], fns[|fns| - 1];
      assert fns == rest + [f];
      PathIsBySet(rest, x);
      assert forall g :: g in rest ==> g.id != f.id;
    }
  }

  ghost predicate SameFunctions(s: Scope, r: Scope) {
    && DistinctIds(s.fns) && DistinctIds(r.fns) && Elements(s.fns) == Elements(r.fns)
    && s.group == r.group
  }

  lemma SamePath(s: Scope, r: Scope, x: Id)
    requires SameFunctions(s, r)
    ensures PathIn(s.fns, x) == PathIn(r.fns, x)
  {
    PathIsBySet(s.fns, x);
    PathIsBySet(r.fns, x);
    assert forall f :: f in s.fns <==> f in Elements(s.fns);
    assert forall f :: f in r.fns <==> f in Elements(r.fns);
    if f :| f in s.fns && f.id == x && f.name != "" {
      assert f in r.fns;
    }
  }

  lemma SamePick(s: Scope, r: Scope, ids: seq<Id>, other: seq<Id>, path: string)
    requires SameFunctions(s, r) && Distinct(ids) && Distinct(other) && Elements(ids) == Elements(other)
    ensures Elements(Pick(s, ids, path).0) == Elements(Pick(r, other, path).0)
  {
    forall x ensures PathIn(s.fns, x) == PathIn(r.fns, x) {
      SamePath(s, r, x);
    }
    PickIsBySet(s, ids, path);
    PickIsBySet(r, other, path);
    hide Pick;
    assert LinkableSet(s, Elements(ids), path) == LinkableSet(r, Elements(other), path);
    assert InFileSet(s, Elements(ids), path) == InFileSet(r, Elements(other), path);
  }

  lemma EmptyElements<T>(xs: seq<T>)
    ensures xs == [] <==> Elements(xs) == {}
  {
    assert xs != [] ==> xs[0] in Elements(xs);
  }

  lemma SameCallTargets(s: Scope, r: Scope, f: Fn, call: string)
    requires SameFunctions(s, r)
    ensures Elements(CallTargets(s, f, call).0) == Elements(CallTargets(r, f, call).0)
  {
    var from := PathIn(s.fns, f.id);
    SamePath(s, r, f.id);
    forall k ensures Elements(Pick(s, Named(s.fns, k), from).0) == Elements(Pick(r, Named(r.fns, k), from).0) {
      NamedIsSet(s.fns, k);
      NamedIsSet(r.fns, k);
      SamePick(s, r, Named(s.fns, k), Named(r.fns, k), from);
    }
    QualifiedIsSet(s.fns, call);
    QualifiedIsSet(r.fns, call);
    SamePick(s, r, Qualified(s.fns, call), Qualified(r.fns, call), from);
    EmptyElements(Qualified(s.fns, call));
    EmptyElements(Qualified(r.fns, call));
    EmptyElements(Pick(s, Qualified(s.fns, call), from).0);
    EmptyElements(Pick(r, Qualified(r.fns, call), from).0);
    hide Pick, SameFunctions;
  }

  /** The desired targets depend on the set of functions alone, not on the order they come in. */
  lemma DesiredIgnoresOrder(s: Scope, r: Scope, f: Fn)
    requires SameFunctions(s, r)
    ensures Desired(s, f) == Desired(r, f)
  {
    forall call, t ensures t in CallTargets(s, f, call).0 <==> t in CallTargets(r, f, call).0 {
      SameCallTargets(s, r, f, call);
      assert t in CallTargets(s, f, call).0 <==> t in Elements(CallTargets(s, f, call).0);
      assert t in CallTargets(r, f, call).0 <==> t in Elements(CallTargets(r, f, call).0);
    }
    hide CallTargets, SameFunctions;
  }

  // ----- the rule again, read off names, owners and files

  /** A call in the file `from` may link to a function in the file `to`: their groups are equal, or one
      is assembly and the other C, Go or Rust. */
  predicate MayLink(group: string -> string, to: string, from: string) {
    var (a, b) := (group(to), group(from));
    a == b || (a == "asm" && b in {"c", ".go", ".rs"}) || (b == "asm" && a in {"c", ".go", ".rs"})
  }

  /** The call is owner, dot and name of the function. */
  predicate IsFullName(call: string, f: Fn) {
    f.name != "" && f.owner != "" && call == f.owner + "." + f.name
  }

  /** The name of the function is the call, or what follows its last dot. */
  ghost predicate IsLastName(call: string, f: Fn) {
    f.name != "" && '.' !in f.name && (call == f.name || exists owner :: call == owner + ("." + f.name))
  }

  ghost predicate NamedBy(call: string, f: Fn, full: bool) {
    if full then IsFullName(call, f) else IsLastName(call, f)
  }

  /** The functions of that name which a call in the file `from` may link to. */
  ghost function May(s: Scope, from: string, call: string, full: bool): set<Id> {
    set f | f in s.fns && NamedBy(call, f, full) && MayLink(s.group, f.path, from) :: f.id
  }

  /** Those of them in the same file. */
  ghost function Near(s: Scope, from: string, call: string, full: bool): set<Id> {
    set f | f in s.fns && NamedBy(call, f, full) && MayLink(s.group, f.path, from) && f.path == from :: f.id
  }

  /** The file rule: those in the same file if there are any, else all unless there are more than three. */
  ghost function Chosen(s: Scope, from: string, call: string, full: bool): set<Id> {
    if Near(s, from, call, full) != {} then Near(s, from, call, full)
    else if |May(s, from, call, full)| <= 3 then May(s, from, call, full) else {}
  }

  ghost function Rate(s: Scope, from: string, call: string, full: bool): real {
    if Near(s, from, call, full) != {} then 0.9 else if |May(s, from, call, full)| == 1 then 0.8 else 0.5
  }

  /** A nameless caller has no file. */
  function CallerFile(f: Fn): string {
    if f.name == "" then "" else f.path
  }

  /** What a recorded call means: the functions chosen by full name, and only if there are none those
      chosen by the last name. */
  ghost function Meaning(s: Scope, caller: Fn, call: string): set<Id> {
    var from := CallerFile(caller);
    if Chosen(s, from, call, true) != {} then Chosen(s, from, call, true) else Chosen(s, from, call, false)
  }

  /** How sure that is: less sure if the full name is known and none of its functions was chosen. */
  ghost function Rating(s: Scope, caller: Fn, call: string): real {
    var from := CallerFile(caller);
    if Chosen(s, from, call, true) != {} then Rate(s, from, call, true)
    else if exists f :: f in s.fns && IsFullName(call, f) then Rate(s, from, call, false) * 0.8
    else Rate(s, from, call, false)
  }

  lemma CutAt(call: string, k: int)
    requires LastAt(call, k) && k >= 0
    ensures '.' in call && '.' !in call[k + 1..] && call == call[..k] + ("." + call[k + 1..])
  {
    assert call[k] in call;
  }

  lemma DotInLater(a: string, m: string, b: string, n: string)
    requires a + ("." + m) == b + ("." + n) && |a| < |b|
    ensures '.' in m
  {
    var x := a + ("." + m);
    assert x[|b|] == (b + ("." + n))[|b|] == '.' && x[|b|] == m[|b| - |a| - 1];
  }

  lemma LastPartUnique(a: string, m: string, b: string, n: string)
    requires a + ("." + m) == b + ("." + n) && '.' !in m && '.' !in n
    ensures m == n
  {
    if |a| != |b| {
      if |a| < |b| {
        DotInLater(a, m, b, n);
      } else {
        DotInLater(b, n, a, m);
      }
    } else {
      assert (a + ("." + m))[|a| + 1..] == m && (b + ("." + n))[|b| + 1..] == n;
    }
  }

  lemma DotIsIn(call: string, k: int)
    requires LastAt(call, k)
    ensures k >= 0 ==> '.' in call
  {
  }

  lemma LastNameOf(call: string, f: Fn, k: int)
    requires LastAt(call, k) && IsLastName(call, f)
    ensures f.name == call[k + 1..]
  {
    if call == f.name {
      DotIsIn(call, k);
    } else {
      var owner :| call == owner + ("." + f.name);
      assert call[|owner|] == '.';
      CutAt(call, k);
      LastPartUnique(owner, f.name, call[..k], call[k + 1..]);
    }
  }

  lemma BareIsLast(call: string, f: Fn, k: int)
    requires LastAt(call, k) && f.name == call[k + 1..] && f.name != ""
    ensures IsLastName(call, f)
  {
    if k >= 0 {
      CutAt(call, k);
    } else {
      assert call[k + 1..] == call;
    }
  }

  lemma LastNameAt(call: string, f: Fn, k: int)
    requires LastAt(call, k)
    ensures IsLastName(call, f) <==> f.name == call[k + 1..] && f.name != ""
  {
    if IsLastName(call, f) {
      LastNameOf(call, f, k);
    }
    if f.name == call[k + 1..] && f.name != "" {
      BareIsLast(call, f, k);
    }
  }

  /** The bare name of a call is the last name of the functions it leads to. */
  lemma LastNameIff(call: string, f: Fn)
    ensures IsLastName(call, f) <==> f.name == Bare(call) && f.name != ""
  {
    hide IsLastName, LastDot;
    LastDotIs(call);
    LastNameAt(call, f, LastDot(call));
  }

  /** The picked targets are the chosen functions, with their rate. */
  lemma PickMeans(s: Scope, ids: seq<Id>, from: string, call: string, full: bool)
    requires DistinctIds(s.fns) && Distinct(ids)
    requires forall x :: x in ids <==> exists f :: f in s.fns && NamedBy(call, f, full) && f.id == x
    ensures Elements(Pick(s, ids, from).0) == Chosen(s, from, call, full)
    ensures Pick(s, ids, from).0 != [] ==> Pick(s, ids, from).1 == Rate(s, from, call, full)
  {
    var ok, same := LinkableSet(s, Elements(ids), from), InFileSet(s, Elements(ids), from);
    forall f | f in s.fns && NamedBy(call, f, full) ensures PathIn(s.fns, f.id) == f.path {
      PathIsBySet(s.fns, f.id);
    }
    hide NamedBy, PathIn, Pick, DistinctIds;
    forall f | f in s.fns && NamedBy(call, f, full)
      ensures Linkable(s, f.id, from) == MayLink(s.group, f.path, from)
    {
    }
    hide Linkable, MayLink;
    assert ok == May(s, from, call, full) && same == Near(s, from, call, full);
    PickIsBySet(s, ids, from);
    PickRate(s, ids, from);
    EmptyElements(Pick(s, ids, from).0);
  }

  lemma PickRate(s: Scope, ids: seq<Id>, path: string)
    requires Distinct(ids)
    ensures var ok, same := LinkableSet(s, Elements(ids), path), InFileSet(s, Elements(ids), path);
            Pick(s, ids, path).0 != []
            ==> Pick(s, ids, path).1 == if same != {} then 0.9 else if |ok| == 1 then 0.8 else 0.5
  {
    var oks := Linkables(s, ids, path);
    LinkablesMembers(s, ids, path);
    InFileMembers(s, oks, path);
    var ok, same := LinkableSet(s, Elements(ids), path), InFileSet(s, Elements(ids), path);
    assert Elements(oks) == ok;
    assert Elements(InFile(s, oks, path)) == same;
    EmptyElements(InFile(s, oks, path));
    DistinctSize(oks);
  }

  lemma PickLast(s: Scope, from: string, call: string)
    requires DistinctIds(s.fns)
    ensures var p := Pick(s, Named(s.fns, Bare(call)), from);
            Elements(p.0) == Chosen(s, from, call, false) && (p.0 != [] ==> p.1 == Rate(s, from, call, false))
  {
    NamedIsSet(s.fns, Bare(call));
    forall f ensures IsLastName(call, f) <==> f.name == Bare(call) && f.name != "" {
      LastNameIff(call, f);
    }
    hide IsLastName, Pick, Bare, Named;
    ElementsAre(Named(s.fns, Bare(call)), NamedSet(Elements(s.fns), Bare(call)));
    PickMeans(s, Named(s.fns, Bare(call)), from, call, false);
  }

  lemma PickFull(s: Scope, from: string, call: string)
    requires DistinctIds(s.fns)
    ensures var p := Pick(s, Qualified(s.fns, call), from);
            Elements(p.0) == Chosen(s, from, call, true) && (p.0 != [] ==> p.1 == Rate(s, from, call, true))
    ensures Qualified(s.fns, call) != [] <==> exists f :: f in s.fns && IsFullName(call, f)
  {
    QualifiedIsSet(s.fns, call);
    EmptyElements(Qualified(s.fns, call));
    hide Pick, Qualified;
    ElementsAre(Qualified(s.fns, call), QualifiedSet(Elements(s.fns), call));
    assert forall f :: GoesBy(f, call) <==> IsFullName(call, f);
    hide GoesBy, IsFullName;
    if f :| f in s.fns && IsFullName(call, f) {
      assert f.id in QualifiedSet(Elements(s.fns), call);
    }
    PickMeans(s, Qualified(s.fns, call), from, call, true);
  }

  lemma ElementsAre<T>(xs: seq<T>, all: set<T>)
    requires Elements(xs) == all
    ensures forall x :: x in xs <==> x in all
  {
  }

  lemma BareWhole(call: string)
    requires '.' !in call
    ensures Bare(call) == call
  {
    LastDotIs(call);
    assert LastDot(call) == -1;
  }

  /** The targets of a recorded call are its meaning, with its rating. */
  lemma CallMeans(s: Scope, caller: Fn, call: string)
    requires DistinctIds(s.fns) && caller in s.fns
    ensures var (targets, conf) := CallTargets(s, caller, call);
            Elements(targets) == Meaning(s, caller, call) && (targets != [] ==> conf == Rating(s, caller, call))
  {
    var from := PathIn(s.fns, caller.id);
    CallerPath(s, caller);
    PickFull(s, from, call);
    PickLast(s, from, call);
    if '.' !in call {
      BareWhole(call);
    }
    EmptyElements(Pick(s, Qualified(s.fns, call), from).0);
    assert '.' !in call ==> forall f :: !IsFullName(call, f) by {
      forall f | IsFullName(call, f) ensures '.' in call {
        assert call[|f.owner|] == '.';
      }
    }
    assert Qualified(s.fns, call) == [] ==> Pick(s, Qualified(s.fns, call), from).0 == [];
    hide Pick, Qualified, Named, Chosen, Rate, IsFullName, DistinctIds, Elements, PathIn;
  }

  lemma CallerPath(s: Scope, caller: Fn)
    requires DistinctIds(s.fns) && caller in s.fns
    ensures PathIn(s.fns, caller.id) == CallerFile(caller)
  {
    PathIsBySet(s.fns, caller.id);
    if caller.name == "" {
      assert forall f :: f in s.fns && f.id == caller.id ==> f == caller;
    }
  }

  /** Some recorded call means t, and t is not the caller itself. */
  ghost predicate Wanted(s: Scope, caller: Fn, t: Id) {
    t != caller.id && exists call :: call in caller.calls && t in Meaning(s, caller, call)
  }

  /** The best rating among the recorded calls that mean t. */
  ghost predicate BestRating(s: Scope, caller: Fn, t: Id, c: real) {
    && (exists call :: call in caller.calls && t in Meaning(s, caller, call) && Rating(s, caller, call) == c)
    && (forall call :: call in caller.calls && t in Meaning(s, caller, call) ==> Rating(s, caller, call) <= c)
  }

  /** t is a target of the call, so what the call means and how sure that is are known. */
  lemma TargetMeant(s: Scope, caller: Fn, call: string, t: Id)
    requires DistinctIds(s.fns) && caller in s.fns
    ensures t in CallTargets(s, caller, call).0 <==> t in Meaning(s, caller, call)
    ensures t in Meaning(s, caller, call) ==> CallTargets(s, caller, call).1 == Rating(s, caller, call)
  {
    hide CallTargets, Meaning, Rating;
    CallMeans(s, caller, call);
    ElementsAre(CallTargets(s, caller, call).0, Meaning(s, caller, call));
  }

  lemma DesiredMeans(s: Scope, caller: Fn)
    requires DistinctIds(s.fns) && caller in s.fns
    ensures forall t :: t in Desired(s, caller) <==> Wanted(s, caller, t)
  {
    hide CallTargets, Meaning, Rating, DistinctIds;
    forall call, t ensures t in CallTargets(s, caller, call).0 <==> t in Meaning(s, caller, call) {
      TargetMeant(s, caller, call, t);
    }
  }
}
