/** The loops of `ResolveCalls`: the name maps, the targets of one call and the targets of one function. */
module Calls {
  import opened Order
  import opened Store
  import opened CallRule

  // ----- the loops

  /** byName, byQualified and pathOf, as the maps the resolver fills. */
  datatype Maps = Maps(byName: map<string, seq<Id>>, byQualified: map<string, seq<Id>>, pathOf: map<Id, string>)

  function PathAt(m: map<Id, string>, id: Id): string {
    if id in m then m[id] else ""
  }

  ghost predicate MapsOf(m: Maps, fns: seq<Fn>) {
    && (forall k :: At(m.byName, k) == Named(fns, k))
    && (forall k :: At(m.byQualified, k) == Qualified(fns, k))
    && (forall x :: PathAt(m.pathOf, x) == PathIn(fns, x))
  }

  lemma MapsAt(m: Maps, fns: seq<Fn>)
    requires MapsOf(m, fns)
    ensures (forall k :: At(m.byName, k) == Named(fns, k)) && (forall k :: At(m.byQualified, k) == Qualified(fns, k))
    ensures forall x :: PathAt(m.pathOf, x) == PathIn(fns, x)
  {
  }

  lemma AppendFn(fns: seq<Fn>, f: Fn)
    ensures forall k :: Named(fns + [f], k) == Named(fns, k) + if f.name == k && k != "" then [f.id] else []
    ensures forall k :: Qualified(fns + [f], k) == Qualified(fns, k) + if GoesBy(f, k) then [f.id] else []
    ensures forall x :: PathIn(fns + [f], x) == if f.id == x && f.name != "" then f.path else PathIn(fns, x)
  {
    assert (fns + [f])[..|fns|] == fns;
  }

  /** One function enters the maps. */
  method AddFn(m: Maps, f: Fn, ghost fns: seq<Fn>) returns (r: Maps)
    requires MapsOf(m, fns)
    ensures MapsOf(r, fns + [f])
  {
    AppendFn(fns, f);
    hide Named, Qualified, PathIn, QualifiedName, Push, At;
    r := m;
    if f.name == "" {
      return;
    }
    PushAt(r.byName, f.name, f.id);
    r := r.(byName := Push(r.byName, f.name, f.id));
    if f.owner != "" {
      PushAt(r.byQualified, QualifiedName(f), f.id);
      r := r.(byQualified := Push(r.byQualified, QualifiedName(f), f.id));
    }
    r := r.(pathOf := r.pathOf[f.id := f.path]);
  }

  function Push(m: map<string, seq<Id>>, k: string, x: Id): map<string, seq<Id>> {
    m[k := At(m, k) + [x]]
  }

  lemma PushAt(m: map<string, seq<Id>>, k: string, x: Id)
    ensures forall l :: At(Push(m, k, x), l) == At(m, l) + if l == k then [x] else []
  {
  }

  method BuildMaps(fns: seq<Fn>) returns (m: Maps)
    ensures MapsOf(m, fns)
  {
    m := Maps(map[], map[], map[]);
    assert MapsOf(m, fns[..0]);
    hide MapsOf;
    for i := 0 to |fns|
      invariant MapsOf(m, fns[..i])
    {
      assert fns[..i + 1] == fns[..i] + [fns[i]];
      m := AddFn(m, fns[i], fns[..i]);
    }
    assert fns[..|fns|] == fns;
  }

  method FilterLinkable(candidates: seq<Id>, pathOf: map<Id, string>, callerPath: string, s: Scope)
    returns (filtered: seq<Id>)
    requires forall x :: PathAt(pathOf, x) == PathIn(s.fns, x)
    ensures filtered == Linkables(s, candidates, callerPath)
  {
    var group := s.group(callerPath);
    filtered := [];
    hide PathAt, PathIn, GroupsCompatible;
    for i := 0 to |candidates|
      invariant filtered == Linkables(s, candidates[..i], callerPath)
    {
      assert candidates[..i + 1][..i] == candidates[..i];
      if GroupsCompatible(s.group(PathAt(pathOf, candidates[i])), group) {
        filtered := filtered + [candidates[i]];
      }
    }
    assert candidates[..|candidates|] == candidates;
  }

  method FilterInFile(candidates: seq<Id>, pathOf: map<Id, string>, callerPath: string, s: Scope)
    returns (same: seq<Id>)
    requires forall x :: PathAt(pathOf, x) == PathIn(s.fns, x)
    ensures same == InFile(s, candidates, callerPath)
  {
    same := [];
    hide PathAt, PathIn;
    for i := 0 to |candidates|
      invariant same == InFile(s, candidates[..i], callerPath)
    {
      assert candidates[..i + 1][..i] == candidates[..i];
      if PathAt(pathOf, candidates[i]) == callerPath {
        same := same + [candidates[i]];
      }
    }
    assert candidates[..|candidates|] == candidates;
  }

  method PickTargets(candidates: seq<Id>, pathOf: map<Id, string>, callerPath: string, s: Scope)
    returns (targets: seq<Id>, conf: real)
    requires forall x :: PathAt(pathOf, x) == PathIn(s.fns, x)
    ensures (targets, conf) == Pick(s, candidates, callerPath)
  {
    var filtered := FilterLinkable(candidates, pathOf, callerPath, s);
    if |filtered| == 0 {
      return [], 0.0;
    }
    var same := FilterInFile(filtered, pathOf, callerPath, s);
    hide Linkables, InFile;
    if |same| > 0 {
      return same, CONF_SAME_FILE;
    }
    if |filtered| == 1 {
      return filtered, CONF_UNIQUE_NAME;
    }
    if |filtered| <= MAX_AMBIGUOUS_FAN {
      return filtered, CONF_AMBIGUOUS;
    }
    return [], 0.0;
  }

  /** The targets of one recorded call, with the owner fallback. */
  method ResolveCall(m: Maps, s: Scope, caller: Fn, call: string) returns (targets: seq<Id>, conf: real)
    requires MapsOf(m, s.fns)
    ensures (targets, conf) == CallTargets(s, caller, call)
    ensures DistinctIds(s.fns) && caller in s.fns
            ==> Elements(targets) == Meaning(s, caller, call) && (targets != [] ==> conf == Rating(s, caller, call))
  {
    hide Pick, Meaning, Rating, DistinctIds, Elements, MapsOf;
    if DistinctIds(s.fns) && caller in s.fns {
      CallMeans(s, caller, call);
    }
    MapsAt(m, s.fns);
    var from := PathAt(m.pathOf, caller.id);
    if '.' in call {
      var ids := At(m.byQualified, call);
      if |ids| > 0 {
        targets, conf := PickTargets(ids, m.pathOf, from, s);
        if |targets| == 0 {
          targets, conf := PickTargets(At(m.byName, Bare(call)), m.pathOf, from, s);
          conf := conf * OWNER_PENALTY;
        }
      } else {
        targets, conf := PickTargets(At(m.byName, Bare(call)), m.pathOf, from, s);
      }
    } else {
      targets, conf := PickTargets(At(m.byName, call), m.pathOf, from, s);
    }
  }

  function Score(desired: map<Id, real>, id: Id): real {
    if id in desired then desired[id] else 0.0
  }

  /** The targets of one call are folded in, the better confidence winning. */
  method FoldTargets(start: map<Id, real>, targets: seq<Id>, conf: real, callerId: Id) returns (desired: map<Id, real>)
    requires (forall t :: t in start ==> start[t] > 0.0) && callerId !in start && (targets != [] ==> conf > 0.0)
    ensures desired.Keys == start.Keys + Elements(targets) - {callerId} && forall t :: t in desired ==> desired[t] > 0.0
    ensures forall t :: t in desired ==> desired[t] == if t in targets && conf > Score(start, t) then conf
                                                       else Score(start, t)
  {
    desired := start;
    for j := 0 to |targets|
      invariant desired.Keys == start.Keys + Elements(targets[..j]) - {callerId}
      invariant forall t :: t in desired ==> desired[t] > 0.0
      invariant forall t :: t in desired ==> desired[t] == if t in targets[..j] && conf > Score(start, t) then conf
                                                           else Score(start, t)
    {
      var id := targets[j];
      assert Elements(targets[..j + 1]) == Elements(targets[..j]) + {id} by {
        assert targets[..j + 1] == targets[..j] + [id];
      }
      if id != callerId && conf > Score(desired, id) {
        desired := desired[id := conf];
      }
    }
    assert targets[..|targets|] == targets;
  }

  ghost function DesiredUpto(s: Scope, caller: Fn, i: nat): set<Id>
    requires i <= |caller.calls|
  {
    if i == 0 then {}
    else DesiredUpto(s, caller, i - 1) + Elements(CallTargets(s, caller, caller.calls[i - 1]).0) - {caller.id}
  }

  lemma {:induction false} DesiredUptoMembers(s: Scope, caller: Fn, i: nat)
    requires i <= |caller.calls|
    ensures forall t :: t in DesiredUpto(s, caller, i)
                        <==> t != caller.id && exists k :: 0 <= k < i && t in CallTargets(s, caller, caller.calls[k]).0
  {
    hide CallTargets;
    if i > 0 {
      DesiredUptoMembers(s, caller, i - 1);
    }
  }

  lemma DesiredIsUpto(s: Scope, caller: Fn)
    ensures DesiredUpto(s, caller, |caller.calls|) == Desired(s, caller)
  {
    DesiredUptoMembers(s, caller, |caller.calls|);
    hide CallTargets;
    assert forall k :: 0 <= k < |caller.calls| ==> caller.calls[k] in caller.calls;
  }

  /** c is the best confidence of the first i calls that resolve to t. */
  ghost predicate BestUpto(s: Scope, caller: Fn, i: nat, t: Id, c: real)
    requires i <= |caller.calls|
  {
    && (exists k :: 0 <= k < i && t in CallTargets(s, caller, caller.calls[k]).0
                    && CallTargets(s, caller, caller.calls[k]).1 == c)
    && (forall k :: 0 <= k < i && t in CallTargets(s, caller, caller.calls[k]).0
                    ==> CallTargets(s, caller, caller.calls[k]).1 <= c)
  }

  lemma BestMore(s: Scope, caller: Fn, i: nat, t: Id, c: real)
    requires i < |caller.calls| && BestUpto(s, caller, i, t, c)
    ensures var (targets, conf) := CallTargets(s, caller, caller.calls[i]);
            BestUpto(s, caller, i + 1, t, if t in targets && conf > c then conf else c)
  {
    hide CallTargets;
    var k :| 0 <= k < i && t in CallTargets(s, caller, caller.calls[k]).0
             && CallTargets(s, caller, caller.calls[k]).1 == c;
  }

  lemma BestFirst(s: Scope, caller: Fn, i: nat, t: Id)
    requires i < |caller.calls| && t in CallTargets(s, caller, caller.calls[i]).0
    requires forall k :: 0 <= k < i ==> t !in CallTargets(s, caller, caller.calls[k]).0
    ensures BestUpto(s, caller, i + 1, t, CallTargets(s, caller, caller.calls[i]).1)
  {
    hide CallTargets;
  }

  /** The best so far, after one more call is folded in. */
  lemma BestNext(s: Scope, caller: Fn, i: nat, before: map<Id, real>, t: Id, targets: seq<Id>, conf: real)
    requires i < |caller.calls| && before.Keys == DesiredUpto(s, caller, i) && t != caller.id
    requires t in before ==> BestUpto(s, caller, i, t, before[t])
    requires (targets, conf) == CallTargets(s, caller, caller.calls[i]) && (t in before || t in targets)
             && (targets != [] ==> conf > 0.0)
    ensures BestUpto(s, caller, i + 1, t, if t in targets && conf > Score(before, t) then conf else Score(before, t))
  {
    DesiredUptoMembers(s, caller, i);
    hide CallTargets, DesiredUpto, BestUpto;
    if t in before {
      BestMore(s, caller, i, t, before[t]);
    } else {
      BestFirst(s, caller, i, t);
    }
  }

  /** `desired` for one caller. */
  method DesiredOf(m: Maps, s: Scope, caller: Fn) returns (desired: map<Id, real>)
    requires MapsOf(m, s.fns)
    ensures desired.Keys == Desired(s, caller) && forall t :: t in desired ==> desired[t] > 0.0
    ensures forall t :: t in desired ==> BestUpto(s, caller, |caller.calls|, t, desired[t])
    ensures DistinctIds(s.fns) && caller in s.fns
            ==> && (forall t :: t in desired <==> Wanted(s, caller, t))
                && (forall t :: t in desired ==> BestRating(s, caller, t, desired[t]))
  {
    hide CallTargets, MapsOf, BestUpto, Meaning, Rating, DistinctIds, Wanted, BestRating, Desired;
    desired := map[];
    for i := 0 to |caller.calls|
      invariant desired.Keys == DesiredUpto(s, caller, i) && caller.id !in desired
                && forall t :: t in desired ==> desired[t] > 0.0
      invariant forall t :: t in desired ==> BestUpto(s, caller, i, t, desired[t])
    {
      var targets, conf := ResolveCall(m, s, caller, caller.calls[i]);
      CallConfidence(s, caller, caller.calls[i]);
      ghost var before := desired;
      desired := FoldTargets(desired, targets, conf, caller.id);
      forall t | t in desired ensures BestUpto(s, caller, i + 1, t, desired[t]) {
        BestNext(s, caller, i, before, t, targets, conf);
      }
    }
    DesiredIsUpto(s, caller);
    if DistinctIds(s.fns) && caller in s.fns {
      DesiredMeans(s, caller);
      forall t | t in desired ensures BestRating(s, caller, t, desired[t]) {
        BestMeans(s, caller, t, desired[t]);
      }
    }
  }

  /** The best confidence is the best rating. */
  lemma BestMeans(s: Scope, caller: Fn, t: Id, c: real)
    requires DistinctIds(s.fns) && caller in s.fns && BestUpto(s, caller, |caller.calls|, t, c)
    ensures BestRating(s, caller, t, c)
  {
    hide CallTargets, Meaning, Rating, DistinctIds;
    forall call
      ensures t in CallTargets(s, caller, call).0 <==> t in Meaning(s, caller, call)
      ensures t in Meaning(s, caller, call) ==> CallTargets(s, caller, call).1 == Rating(s, caller, call)
    {
      TargetMeant(s, caller, call, t);
    }
    var k :| 0 <= k < |caller.calls| && t in CallTargets(s, caller, caller.calls[k]).0
             && CallTargets(s, caller, caller.calls[k]).1 == c;
    assert caller.calls[k] in caller.calls;
  }
}
