/** `mergeHooks` and `removeHooks`: codergag's entries in another program's settings tree. */
module Hooks {

  datatype Json =
    | Null
    | Bool(b: bool)
    | Num(n: real)
    | Str(s: string)
    | List(items: seq<Json>)
    | Obj(fields: map<string, Json>)

  type Tree = map<string, Json>

  const HOOK_MARKER := "codergag hook"
  const FIRST_EVENT := "SessionStart"
  const SECOND_EVENT := "UserPromptSubmit"

  predicate Contains(s: string, part: string) {
    exists i :: 0 <= i <= |s| - |part| && s[i..][..|part|] == part
  }

  predicate IsOurs(h: Json) {
    h.Obj? && "command" in h.fields && h.fields["command"].Str? && Contains(h.fields["command"].s, HOOK_MARKER)
  }

  /** The hook commands of an entry; anything of another shape has none. */
  function Inner(entry: Json): seq<Json> {
    if entry.Obj? && "hooks" in entry.fields && entry.fields["hooks"].List? then entry.fields["hooks"].items else []
  }

  predicate HasOurs(entry: Json) {
    exists h :: h in Inner(entry) && IsOurs(h)
  }

  function Entries(hooks: Tree, ev: string): seq<Json> {
    if ev in hooks && hooks[ev].List? then hooks[ev].items else []
  }

  predicate Installed(hooks: Tree, ev: string) {
    exists e :: e in Entries(hooks, ev) && HasOurs(e)
  }

  function HooksOf(settings: Tree): Tree {
    if "hooks" in settings && settings["hooks"].Obj? then settings["hooks"].fields else map[]
  }

  // ----- installing

  function OurHook(ev: string): Json {
    Obj(map["type" := Str("command"), "command" := Str(HOOK_MARKER + " " + ev)])
  }

  function OurEntry(ev: string): Json {
    Obj(map["hooks" := List([OurHook(ev)])])
  }

  function AddTo(hooks: Tree, ev: string): Tree {
    if Installed(hooks, ev) then hooks else hooks[ev := List(Entries(hooks, ev) + [OurEntry(ev)])]
  }

  predicate Complete(hooks: Tree) {
    Installed(hooks, FIRST_EVENT) && Installed(hooks, SECOND_EVENT)
  }

  function Merged(settings: Tree): Tree {
    var hooks := HooksOf(settings);
    if Complete(hooks) then settings else settings["hooks" := Obj(AddTo(AddTo(hooks, FIRST_EVENT), SECOND_EVENT))]
  }

  // ----- uninstalling

  function Foreign(inner: seq<Json>): seq<Json> {
    if inner == [] then []
    else Foreign(inner[..|inner| - 1]) + if IsOurs(inner[|inner| - 1]) then [] else [inner[|inner| - 1]]
  }

  /** What is left of an entry: all of it, the entry with the other commands, or nothing. */
  function Left(entry: Json): seq<Json> {
    var inner := Inner(entry);
    var keep := Foreign(inner);
    if |keep| == |inner| then [entry]
    else if |keep| > 0 && entry.Obj? then [Obj(entry.fields["hooks" := List(keep)])]
    else []
  }

  function LeftOf(entries: seq<Json>): seq<Json> {
    if entries == [] then [] else LeftOf(entries[..|entries| - 1]) + Left(entries[|entries| - 1])
  }

  /** An event disappears when it had entries and none is left. */
  predicate Emptied(hooks: Tree, ev: string) {
    Entries(hooks, ev) != [] && LeftOf(Entries(hooks, ev)) == []
  }

  function Stripped(hooks: Tree): Tree {
    map ev | ev in hooks && !Emptied(hooks, ev) :: if hooks[ev].List? then List(LeftOf(hooks[ev].items)) else hooks[ev]
  }

  /** Some event holds one of our commands. */
  ghost predicate Marked(settings: Tree) {
    exists ev :: ev in HooksOf(settings) && Installed(HooksOf(settings), ev)
  }

  ghost function Removed(settings: Tree): Tree {
    var hooks := HooksOf(settings);
    if !Marked(settings) then settings
    else if Stripped(hooks) == map[] then settings - {"hooks"}
    else settings["hooks" := Obj(Stripped(hooks))]
  }

  // ----- what stripping does

  lemma {:induction false} ForeignLength(inner: seq<Json>)
    ensures |Foreign(inner)| <= |inner| && (|Foreign(inner)| == |inner| <==> forall h :: h in inner ==> !IsOurs(h))
    ensures (forall h :: h in inner ==> !IsOurs(h)) ==> Foreign(inner) == inner
    ensures forall h :: h in Foreign(inner) <==> h in inner && !IsOurs(h)
  {
    hide IsOurs;
    if inner != [] {
      assert inner == inner[..|inner| - 1] + [inner[|inner| - 1]];
      ForeignLength(inner[..|inner| - 1]);
    }
  }

  lemma LeftFacts(entry: Json)
    ensures !HasOurs(entry) ==> Left(entry) == [entry]
    ensures forall e :: e in Left(entry) ==> !HasOurs(e)
  {
    ForeignLength(Inner(entry));
    hide IsOurs, Foreign;
  }

  lemma {:induction false} LeftOfFacts(entries: seq<Json>)
    ensures (forall e :: e in entries ==> !HasOurs(e)) ==> LeftOf(entries) == entries
    ensures forall e :: e in LeftOf(entries) ==> !HasOurs(e)
  {
    hide Left, HasOurs;
    if entries != [] {
      assert entries == entries[..|entries| - 1] + [entries[|entries| - 1]];
      LeftOfFacts(entries[..|entries| - 1]);
      LeftFacts(entries[|entries| - 1]);
    }
  }

  /** Nothing is marked after stripping, and what is not marked stays as it is. */
  lemma StrippedFacts(hooks: Tree)
    ensures forall ev :: !Installed(Stripped(hooks), ev)
    ensures (forall ev :: ev in hooks ==> !Installed(hooks, ev)) ==> Stripped(hooks) == hooks
  {
    forall ev ensures !Installed(Stripped(hooks), ev) {
      LeftOfFacts(Entries(hooks, ev));
    }
    forall ev | ev in hooks && !Installed(hooks, ev) ensures ev in Stripped(hooks) && Stripped(hooks)[ev] == hooks[ev] {
      LeftOfFacts(Entries(hooks, ev));
    }
    if forall ev :: ev in hooks ==> !Installed(hooks, ev) {
      assert Stripped(hooks).Keys == hooks.Keys;
    }
  }

  // ----- idempotence

  lemma OursIsMarked(ev: string)
    ensures IsOurs(OurHook(ev)) && HasOurs(OurEntry(ev)) && Left(OurEntry(ev)) == []
  {
    var s := HOOK_MARKER + " " + ev;
    assert s[0..][..|HOOK_MARKER|] == HOOK_MARKER;
    assert OurHook(ev) in Inner(OurEntry(ev));
    assert Foreign([OurHook(ev)]) == [];
  }

  lemma AddInstalls(hooks: Tree, ev: string)
    ensures Installed(AddTo(hooks, ev), ev)
    ensures forall other :: other != ev ==> Installed(AddTo(hooks, ev), other) == Installed(hooks, other)
  {
    OursIsMarked(ev);
    hide HasOurs, OurEntry;
    if !Installed(hooks, ev) {
      assert OurEntry(ev) in Entries(AddTo(hooks, ev), ev);
    }
    forall other | other != ev ensures Installed(AddTo(hooks, ev), other) == Installed(hooks, other) {
      assert Entries(AddTo(hooks, ev), other) == Entries(hooks, other);
    }
  }

  lemma MergedIsComplete(settings: Tree)
    ensures Complete(HooksOf(Merged(settings)))
  {
    var hooks := HooksOf(settings);
    AddInstalls(hooks, FIRST_EVENT);
    AddInstalls(AddTo(hooks, FIRST_EVENT), SECOND_EVENT);
    hide Installed, AddTo;
  }

  lemma InstallTwice(settings: Tree)
    ensures Merged(Merged(settings)) == Merged(settings)
  {
    MergedIsComplete(settings);
    hide Complete, AddTo;
  }

  lemma RemovedIsUnmarked(settings: Tree)
    ensures !Marked(Removed(settings))
  {
    var hooks := HooksOf(settings);
    StrippedFacts(hooks);
    hide Installed, Stripped;
    if Marked(settings) {
      assert HooksOf(Removed(settings)) == if Stripped(hooks) == map[] then map[] else Stripped(hooks);
    }
  }

  lemma UninstallTwice(settings: Tree)
    ensures Removed(Removed(settings)) == Removed(settings)
  {
    RemovedIsUnmarked(settings);
    hide Marked, Stripped;
  }

  // ----- install, then uninstall

  /** No marker, no empty or misshapen hooks value, no empty or misshapen managed event. */
  ghost predicate Restorable(settings: Tree) {
    && !Marked(settings)
    && ("hooks" in settings ==> HooksOf(settings) != map[])
    && FreshOrFull(HooksOf(settings), FIRST_EVENT) && FreshOrFull(HooksOf(settings), SECOND_EVENT)
  }

  predicate FreshOrFull(hooks: Tree, ev: string) {
    ev in hooks ==> Entries(hooks, ev) != []
  }

  lemma LeftOfAppend(entries: seq<Json>, e: Json)
    ensures LeftOf(entries + [e]) == LeftOf(entries) + Left(e)
  {
    assert (entries + [e])[..|entries|] == entries;
  }

  /** An unmarked event after both steps: gone if it was absent, empty or misshapen, else as before. */
  lemma AddedThenStripped(hooks: Tree, ev: string)
    requires !Installed(hooks, ev)
    ensures var r := Stripped(hooks[ev := List(Entries(hooks, ev) + [OurEntry(ev)])]);
            if Entries(hooks, ev) == [] then ev !in r else ev in r && r[ev] == hooks[ev]
  {
    var entries := Entries(hooks, ev);
    LeftOfFacts(entries);
    OursIsMarked(ev);
    LeftOfAppend(entries, OurEntry(ev));
    hide HasOurs, OurEntry, LeftOf, Left;
    var r := hooks[ev := List(entries + [OurEntry(ev)])];
    assert Entries(r, ev) == entries + [OurEntry(ev)] && LeftOf(Entries(r, ev)) == entries;
  }

  predicate SameAt(a: Tree, b: Tree, ev: string) {
    (ev in a <==> ev in b) && (ev in a ==> a[ev] == b[ev])
  }

  lemma StrippedSameAt(a: Tree, b: Tree, ev: string)
    requires SameAt(a, b, ev)
    ensures SameAt(Stripped(a), Stripped(b), ev)
  {
    hide LeftOf;
  }

  lemma AddElsewhere(hooks: Tree, added: string, ev: string)
    requires added != ev
    ensures SameAt(AddTo(hooks, added), hooks, ev)
  {
    hide Installed, Entries, OurEntry;
  }

  lemma AddHere(hooks: Tree, ev: string)
    requires !Installed(hooks, ev)
    ensures var r := Stripped(AddTo(hooks, ev));
            if Entries(hooks, ev) == [] then ev !in r else ev in r && r[ev] == hooks[ev]
  {
    AddedThenStripped(hooks, ev);
    hide Installed, Entries, OurEntry, Stripped;
  }

  /** What both steps do to one event of an unmarked tree. */
  lemma RoundTripAt(hooks: Tree, ev: string)
    requires forall other :: !Installed(hooks, other)
    ensures var r := Stripped(AddTo(AddTo(hooks, FIRST_EVENT), SECOND_EVENT));
            if (ev == FIRST_EVENT || ev == SECOND_EVENT) && Entries(hooks, ev) == [] then ev !in r
            else SameAt(r, hooks, ev)
  {
    var once := AddTo(hooks, FIRST_EVENT);
    var twice := AddTo(once, SECOND_EVENT);
    AddInstalls(hooks, FIRST_EVENT);
    AddElsewhere(once, SECOND_EVENT, FIRST_EVENT);
    AddElsewhere(hooks, FIRST_EVENT, SECOND_EVENT);
    if ev == FIRST_EVENT {
      AddHere(hooks, ev);
      StrippedSameAt(twice, once, ev);
    } else if ev == SECOND_EVENT {
      AddHere(once, ev);
      assert Entries(once, ev) == Entries(hooks, ev);
    } else {
      AddElsewhere(hooks, FIRST_EVENT, ev);
      AddElsewhere(once, SECOND_EVENT, ev);
      StrippedFacts(hooks);
      StrippedSameAt(twice, hooks, ev);
    }
    hide Installed, Stripped, AddTo;
    assert Entries(hooks, ev) != [] ==> ev in hooks;
  }

  /** Installing and uninstalling gives the tree back exactly when it was restorable. */
  lemma RestoresIff(settings: Tree)
    ensures Removed(Merged(settings)) == settings <==> Restorable(settings)
  {
    if Marked(settings) {
      RemovedIsUnmarked(Merged(settings));
    } else {
      RoundTrip(settings);
    }
  }

  /** An unmarked tree gets both entries. */
  lemma MergedIsMarked(settings: Tree)
    requires !Marked(settings)
    ensures Marked(Merged(settings))
    ensures Merged(settings) == settings["hooks" := Obj(AddTo(AddTo(HooksOf(settings), FIRST_EVENT), SECOND_EVENT))]
  {
    var hooks := HooksOf(settings);
    assert !Installed(hooks, FIRST_EVENT);
    MergedIsComplete(settings);
    hide AddTo, HasOurs;
    assert FIRST_EVENT in HooksOf(Merged(settings));
  }

  lemma BackIff(hooks: Tree, back: Tree)
    requires forall ev :: if (ev == FIRST_EVENT || ev == SECOND_EVENT) && Entries(hooks, ev) == [] then ev !in back
                          else SameAt(back, hooks, ev)
    ensures back == hooks <==> FreshOrFull(hooks, FIRST_EVENT) && FreshOrFull(hooks, SECOND_EVENT)
  {
    hide Entries;
    if FreshOrFull(hooks, FIRST_EVENT) && FreshOrFull(hooks, SECOND_EVENT) {
      forall ev ensures SameAt(back, hooks, ev) {
      }
      assert back.Keys == hooks.Keys;
    }
  }

  /** Putting `back` in place of the hooks gives the same settings. */
  lemma PutBackIff(settings: Tree, back: Tree, whole: bool)
    requires HooksOf(settings) == map[] ==> whole
    requires back == HooksOf(settings) <==> whole
    ensures var r := if back == map[] then settings - {"hooks"} else settings["hooks" := Obj(back)];
            r == settings <==> whole && ("hooks" in settings ==> HooksOf(settings) != map[])
  {
    var r := if back == map[] then settings - {"hooks"} else settings["hooks" := Obj(back)];
    if back == map[] {
      assert "hooks" in settings ==> r != settings;
      assert "hooks" !in settings ==> r == settings;
    } else {
      assert r == settings <==> "hooks" in settings && settings["hooks"] == Obj(back);
    }
  }

  /** The hooks of an unmarked tree after both steps. */
  function Back(settings: Tree): Tree {
    Stripped(AddTo(AddTo(HooksOf(settings), FIRST_EVENT), SECOND_EVENT))
  }

  lemma RemovedMerged(settings: Tree)
    requires !Marked(settings)
    ensures Removed(Merged(settings)) == if Back(settings) == map[] then settings - {"hooks"}
                                         else settings["hooks" := Obj(Back(settings))]
  {
    MergedIsMarked(settings);
    var merged := AddTo(AddTo(HooksOf(settings), FIRST_EVENT), SECOND_EVENT);
    assert HooksOf(Merged(settings)) == merged;
    Overwritten(settings, Obj(merged), Obj(Stripped(merged)));
    hide Marked, Merged, AddTo, Stripped, HooksOf;
  }

  lemma Overwritten(settings: Tree, a: Json, b: Json)
    ensures settings["hooks" := a] - {"hooks"} == settings - {"hooks"}
            && settings["hooks" := a]["hooks" := b] == settings["hooks" := b]
  {
  }

  lemma RoundTrip(settings: Tree)
    requires !Marked(settings)
    ensures Removed(Merged(settings)) == settings <==> Restorable(settings)
  {
    var hooks, back := HooksOf(settings), Back(settings);
    assert forall other :: !Installed(hooks, other);
    forall ev
      ensures if (ev == FIRST_EVENT || ev == SECOND_EVENT) && Entries(hooks, ev) == [] then ev !in back
              else SameAt(back, hooks, ev)
    {
      RoundTripAt(hooks, ev);
    }
    RemovedMerged(settings);
    assert hooks == map[] ==> FreshOrFull(hooks, FIRST_EVENT) && FreshOrFull(hooks, SECOND_EVENT);
    hide Installed, Stripped, AddTo, Marked, Entries, SameAt, HooksOf, Merged, Removed, Back, FreshOrFull;
    BackIff(hooks, back);
    PutBackIff(settings, back, FreshOrFull(hooks, FIRST_EVENT) && FreshOrFull(hooks, SECOND_EVENT));
  }

  // ----- other tools' commands

  /** The commands of other tools below an event, in order. */
  function Others(entries: seq<Json>): seq<Json> {
    if entries == [] then [] else Others(entries[..|entries| - 1]) + Foreign(Inner(entries[|entries| - 1]))
  }

  lemma OthersAppend(entries: seq<Json>, e: Json)
    ensures Others(entries + [e]) == Others(entries) + Foreign(Inner(e))
  {
    assert (entries + [e])[..|entries|] == entries;
  }

  lemma {:induction false} ForeignTwice(inner: seq<Json>)
    ensures Foreign(Foreign(inner)) == Foreign(inner)
  {
    ForeignLength(inner);
    ForeignLength(Foreign(inner));
  }

  lemma {:induction false} LeftKeepsOthers(entries: seq<Json>)
    ensures Others(LeftOf(entries)) == Others(entries)
  {
    hide IsOurs, Foreign;
    if entries != [] {
      var rest, e := entries[..|entries| - 1], entries[|entries| - 1];
      assert entries == rest + [e];
      LeftKeepsOthers(rest);
      ForeignTwice(Inner(e));
      ForeignLength(Inner(e));
      if Left(e) != [] {
        OthersAppend(LeftOf(rest), Left(e)[0]);
        assert LeftOf(entries) == LeftOf(rest) + [Left(e)[0]];
        assert Foreign(Inner(Left(e)[0])) == Foreign(Inner(e));
      } else {
        assert Foreign(Inner(e)) == [] && LeftOf(entries) == LeftOf(rest);
      }
    }
  }

  /** Neither operation touches another tool's command, or any setting besides the hooks. */
  lemma OthersUntouched(settings: Tree, ev: string)
    ensures Others(Entries(HooksOf(Merged(settings)), ev)) == Others(Entries(HooksOf(settings), ev))
    ensures Others(Entries(HooksOf(Removed(settings)), ev)) == Others(Entries(HooksOf(settings), ev))
    ensures Merged(settings) - {"hooks"} == settings - {"hooks"} == Removed(settings) - {"hooks"}
  {
    var hooks := HooksOf(settings);
    MergeKeepsOthers(hooks, FIRST_EVENT, ev);
    MergeKeepsOthers(AddTo(hooks, FIRST_EVENT), SECOND_EVENT, ev);
    StripKeepsOthers(hooks, ev);
    MergedAndRemoved(settings);
    hide *;
  }

  lemma MergedAndRemoved(settings: Tree)
    ensures var hooks := HooksOf(settings);
            || HooksOf(Merged(settings)) == hooks
            || HooksOf(Merged(settings)) == AddTo(AddTo(hooks, FIRST_EVENT), SECOND_EVENT)
    ensures HooksOf(Removed(settings)) == HooksOf(settings) || HooksOf(Removed(settings)) == Stripped(HooksOf(settings))
    ensures Merged(settings) - {"hooks"} == settings - {"hooks"} == Removed(settings) - {"hooks"}
  {
    hide AddTo, Complete, Marked, Stripped;
  }

  lemma MergeKeepsOthers(hooks: Tree, added: string, ev: string)
    ensures Others(Entries(AddTo(hooks, added), ev)) == Others(Entries(hooks, ev))
  {
    if ev == added {
      var entries := Entries(hooks, ev);
      OursIsMarked(ev);
      OthersAppend(entries, OurEntry(ev));
      assert Foreign(Inner(OurEntry(ev))) == [];
      hide Others, OurEntry, Foreign, Installed;
      assert Others(entries) + [] == Others(entries);
    } else {
      AddElsewhere(hooks, added, ev);
      hide Others, AddTo;
    }
  }

  lemma StripKeepsOthers(hooks: Tree, ev: string)
    ensures Others(Entries(Stripped(hooks), ev)) == Others(Entries(hooks, ev))
  {
    LeftKeepsOthers(Entries(hooks, ev));
    hide LeftOf;
  }

  // ----- the same, read off the settings tree

  /** A hook whose command holds the marker. */
  ghost predicate IsMarked(h: Json) {
    && h.Obj? && "command" in h.fields && h.fields["command"].Str?
    && exists before, after :: h.fields["command"].s == before + ("codergag hook" + after)
  }

  /** A hook of the entry is marked. */
  ghost predicate HoldsMarked(entry: Json) {
    && entry.Obj? && "hooks" in entry.fields && entry.fields["hooks"].List?
    && exists h :: h in entry.fields["hooks"].items && IsMarked(h)
  }

  /** The value below an event, if there is one. */
  ghost predicate HasEvent(settings: Tree, ev: string, v: Json) {
    "hooks" in settings && settings["hooks"].Obj? && ev in settings["hooks"].fields && settings["hooks"].fields[ev] == v
  }

  ghost predicate HoldsOurs(v: Json) {
    v.List? && exists e :: e in v.items && HoldsMarked(e)
  }

  /** The entry that belongs below a managed event. */
  function ManagedEntry(ev: string): Json {
    Obj(map["hooks" := List([Obj(map["type" := Str("command"), "command" := Str("codergag hook" + (" " + ev))])])])
  }

  /** Below an event: an entry of ours already, so the value stays; or ours behind the entries there were. */
  ghost predicate EventMerged(before: Tree, after: Tree, ev: string) {
    if exists v :: HasEvent(before, ev, v) && HoldsOurs(v)
    then forall v :: HasEvent(before, ev, v) ==> HasEvent(after, ev, v)
    else exists were :: HasEvent(after, ev, List(were + [ManagedEntry(ev)]))
                       && (forall items :: HasEvent(before, ev, List(items)) ==> were == items)
                       && ((forall items :: !HasEvent(before, ev, List(items))) ==> were == [])
  }

  /** Both managed events are merged; nothing else changes. */
  ghost predicate MergeDone(before: Tree, after: Tree) {
    && (forall ev :: ev in {"SessionStart", "UserPromptSubmit"} ==> EventMerged(before, after, ev))
    && (forall ev, v :: ev !in {"SessionStart", "UserPromptSubmit"}
                        ==> (HasEvent(before, ev, v) <==> HasEvent(after, ev, v)))
    && (forall k :: k != "hooks" ==> (k in before <==> k in after) && (k in before ==> before[k] == after[k]))
  }

  /** left is the entry without its marked hooks, and some are left. */
  ghost predicate Thinned(entry: Json, left: Json) {
    && entry.Obj? && "hooks" in entry.fields && entry.fields["hooks"].List?
    && left.Obj? && "hooks" in left.fields && left.fields["hooks"].List?
    && left == Obj(entry.fields["hooks" := left.fields["hooks"]]) && left.fields["hooks"].items != []
    && forall h :: h in left.fields["hooks"].items <==> h in entry.fields["hooks"].items && !IsMarked(h)
  }

  ghost predicate HoldsOther(entry: Json) {
    && entry.Obj? && "hooks" in entry.fields && entry.fields["hooks"].List?
    && exists h :: h in entry.fields["hooks"].items && !IsMarked(h)
  }

  /** No entry of ours is left. Below an event without any the value stays, every entry without a marked hook
      is still below its event, one with other hooks too is there without the marked ones, and no other
      setting changes. */
  ghost predicate RemoveDone(before: Tree, after: Tree) {
    && (forall ev, v :: HasEvent(after, ev, v) ==> !HoldsOurs(v))
    && (forall ev, v :: HasEvent(before, ev, v) && !HoldsOurs(v) ==> HasEvent(after, ev, v))
    && (forall ev, items, e :: HasEvent(before, ev, List(items)) && e in items && !HoldsMarked(e)
                               ==> exists left :: HasEvent(after, ev, List(left)) && e in left)
    && (forall ev, items, e :: HasEvent(before, ev, List(items)) && e in items && HoldsMarked(e) && HoldsOther(e)
                               ==> exists left, thin :: HasEvent(after, ev, List(left)) && thin in left
                                                        && Thinned(e, thin))
    && (forall k :: k != "hooks" ==> (k in before <==> k in after) && (k in before ==> before[k] == after[k]))
  }

  lemma ContainsIff(s: string, part: string)
    ensures Contains(s, part) <==> exists before, after :: s == before + (part + after)
  {
    if Contains(s, part) {
      var i :| 0 <= i <= |s| - |part| && s[i..][..|part|] == part;
      assert s[i..] == part + s[i..][|part|..];
      assert s == s[..i] + (part + s[i..][|part|..]);
    }
    if before, after :| s == before + (part + after) {
      assert s[|before|..] == part + after;
      assert s[|before|..][..|part|] == part;
    }
  }

  lemma OursMarked(h: Json)
    ensures IsOurs(h) <==> IsMarked(h)
  {
    if h.Obj? && "command" in h.fields && h.fields["command"].Str? {
      ContainsIff(h.fields["command"].s, HOOK_MARKER);
    }
    hide Contains;
  }

  lemma HasOursMarked(entry: Json)
    ensures HasOurs(entry) <==> HoldsMarked(entry)
  {
    hide IsOurs, IsMarked;
    forall h ensures IsOurs(h) <==> IsMarked(h) {
      OursMarked(h);
    }
  }

  lemma EventAt(settings: Tree, ev: string)
    ensures forall v :: HasEvent(settings, ev, v) <==> ev in HooksOf(settings) && HooksOf(settings)[ev] == v
    ensures Installed(HooksOf(settings), ev) <==> exists v :: HasEvent(settings, ev, v) && HoldsOurs(v)
    ensures forall items :: HasEvent(settings, ev, List(items)) ==> Entries(HooksOf(settings), ev) == items
    ensures (forall items :: !HasEvent(settings, ev, List(items))) ==> Entries(HooksOf(settings), ev) == []
  {
    hide HasOurs, HoldsMarked;
    forall e ensures HasOurs(e) <==> HoldsMarked(e) {
      HasOursMarked(e);
    }
    var hooks := HooksOf(settings);
    if ev in hooks {
      assert HasEvent(settings, ev, hooks[ev]);
      assert hooks[ev].List? ==> HasEvent(settings, ev, List(hooks[ev].items));
      assert Installed(hooks, ev) <==> HoldsOurs(hooks[ev]);
    }
  }

  lemma AddMerges(before: Tree, after: Tree, hooks: Tree, ev: string)
    requires SameAt(HooksOf(after), AddTo(hooks, ev), ev) && SameAt(HooksOf(before), hooks, ev)
    ensures EventMerged(before, after, ev)
  {
    hide HasEvent, HoldsOurs, Installed, ManagedEntry, HooksOf;
    EventAt(before, ev);
    EventAt(after, ev);
    SameInstalled(HooksOf(before), hooks, ev);
    OurEntryIs(ev);
    if !Installed(hooks, ev) {
      var were := Entries(hooks, ev);
      assert HasEvent(after, ev, List(were + [ManagedEntry(ev)]));
    }
  }

  lemma SameInstalled(a: Tree, b: Tree, ev: string)
    requires SameAt(a, b, ev)
    ensures Installed(a, ev) == Installed(b, ev) && Entries(a, ev) == Entries(b, ev)
  {
    hide HasOurs;
  }

  lemma OurEntryIs(ev: string)
    ensures OurEntry(ev) == ManagedEntry(ev)
  {
    assert HOOK_MARKER + " " + ev == "codergag hook" + (" " + ev);
  }

  lemma MergedIsDone(settings: Tree)
    ensures MergeDone(settings, Merged(settings))
  {
    hide Installed, EventMerged, HasEvent, AddTo;
    var hooks, after := HooksOf(settings), Merged(settings);
    var once := AddTo(hooks, FIRST_EVENT);
    var twice := AddTo(once, SECOND_EVENT);
    MergedHooks(settings);
    AddElsewhere(once, SECOND_EVENT, FIRST_EVENT);
    AddElsewhere(hooks, FIRST_EVENT, SECOND_EVENT);
    AddMerges(settings, after, hooks, FIRST_EVENT);
    AddMerges(settings, after, once, SECOND_EVENT);
    forall ev, v | ev !in {FIRST_EVENT, SECOND_EVENT} ensures HasEvent(settings, ev, v) <==> HasEvent(after, ev, v) {
      AddElsewhere(hooks, FIRST_EVENT, ev);
      AddElsewhere(once, SECOND_EVENT, ev);
      EventAt(settings, ev);
      EventAt(after, ev);
    }
    MergedAndRemoved(settings);
    OtherSettings(settings, after);
  }

  lemma MergedHooks(settings: Tree)
    ensures HooksOf(Merged(settings)) == AddTo(AddTo(HooksOf(settings), FIRST_EVENT), SECOND_EVENT)
  {
    hide Installed;
  }

  lemma OtherSettings(before: Tree, after: Tree)
    requires before - {"hooks"} == after - {"hooks"}
    ensures forall k :: k != "hooks" ==> (k in before <==> k in after) && (k in before ==> before[k] == after[k])
  {
    forall k | k != "hooks" ensures (k in before <==> k in after) && (k in before ==> before[k] == after[k]) {
      assert k in before <==> k in before - {"hooks"};
      assert k in after <==> k in after - {"hooks"};
      assert k in before ==> before[k] == (before - {"hooks"})[k];
      assert k in after ==> after[k] == (after - {"hooks"})[k];
    }
  }

  lemma {:induction false} LeftOfKeeps(entries: seq<Json>)
    ensures forall e :: e in entries && !HasOurs(e) ==> e in LeftOf(entries)
  {
    hide Left, HasOurs;
    if entries != [] {
      assert entries == entries[..|entries| - 1] + [entries[|entries| - 1]];
      LeftOfKeeps(entries[..|entries| - 1]);
      LeftFacts(entries[|entries| - 1]);
    }
  }

  lemma RemovedHooks(settings: Tree)
    ensures HooksOf(Removed(settings)) == Stripped(HooksOf(settings))
  {
    StrippedFacts(HooksOf(settings));
    hide Installed, Stripped;
  }

  lemma StrippedKeeps(hooks: Tree, ev: string)
    ensures ev in hooks && !Installed(hooks, ev) ==> ev in Stripped(hooks) && Stripped(hooks)[ev] == hooks[ev]
    ensures forall e :: e in Entries(hooks, ev) && !HasOurs(e) ==> e in Entries(Stripped(hooks), ev)
  {
    hide HasOurs;
    LeftOfFacts(Entries(hooks, ev));
    LeftOfKeeps(Entries(hooks, ev));
  }

  lemma RemovedIsDone(settings: Tree)
    ensures RemoveDone(settings, Removed(settings))
  {
    hide Installed, HasEvent, HoldsOurs, Stripped, Removed, HooksOf, HasOurs, HoldsMarked;
    var hooks, after := HooksOf(settings), Removed(settings);
    RemovedHooks(settings);
    StrippedFacts(hooks);
    forall ev, v | HasEvent(after, ev, v) ensures !HoldsOurs(v) {
      EventAt(after, ev);
    }
    forall ev, v | HasEvent(settings, ev, v) && !HoldsOurs(v) ensures HasEvent(after, ev, v) {
      EventAt(settings, ev);
      EventAt(after, ev);
      StrippedKeeps(hooks, ev);
    }
    forall ev, items, e | HasEvent(settings, ev, List(items)) && e in items && !HoldsMarked(e)
      ensures exists left :: HasEvent(after, ev, List(left)) && e in left
    {
      HasOursMarked(e);
      EventAt(settings, ev);
      StrippedKeeps(hooks, ev);
      EntryStays(after, ev, e);
    }
    forall ev, items, e | HasEvent(settings, ev, List(items)) && e in items && HoldsMarked(e) && HoldsOther(e)
      ensures exists left, thin :: HasEvent(after, ev, List(left)) && thin in left && Thinned(e, thin)
    {
      HasOursMarked(e);
      EventAt(settings, ev);
      var thin := LeftThinned(e);
      LeftStays(Entries(hooks, ev), e);
      StrippedEntries(hooks, ev);
      EntryStays(after, ev, thin);
    }
    MergedAndRemoved(settings);
    OtherSettings(settings, after);
  }

  lemma LeftThinned(e: Json) returns (thin: Json)
    requires HasOurs(e) && HoldsOther(e)
    ensures Left(e) == [thin] && Thinned(e, thin)
  {
    hide IsOurs, IsMarked, Foreign;
    forall h ensures IsOurs(h) <==> IsMarked(h) {
      OursMarked(h);
    }
    ForeignLength(Inner(e));
    var h :| h in e.fields["hooks"].items && !IsMarked(h);
    assert h in Foreign(Inner(e));
    thin := Left(e)[0];
  }

  lemma {:induction false} LeftStays(entries: seq<Json>, e: Json)
    requires e in entries
    ensures forall l :: l in Left(e) ==> l in LeftOf(entries)
  {
    hide Left, HasOurs;
    var n := |entries| - 1;
    assert entries == entries[..n] + [entries[n]];
    if e != entries[n] {
      LeftStays(entries[..n], e);
    }
  }

  lemma StrippedEntries(hooks: Tree, ev: string)
    ensures Entries(Stripped(hooks), ev) == LeftOf(Entries(hooks, ev))
  {
  }

  lemma EntryStays(settings: Tree, ev: string, e: Json)
    requires e in Entries(HooksOf(settings), ev)
    ensures exists left :: HasEvent(settings, ev, List(left)) && e in left
  {
    assert HasEvent(settings, ev, List(Entries(HooksOf(settings), ev)));
  }

  lemma MergeChanges(settings: Tree)
    ensures Merged(settings) != settings <==> !Complete(HooksOf(settings))
  {
    hide Installed, AddTo;
    MergedIsComplete(settings);
  }

  lemma RemoveChanges(settings: Tree)
    ensures Removed(settings) != settings <==> Marked(settings)
  {
    hide Installed, Stripped;
    RemovedIsUnmarked(settings);
  }

  // ----- the settings, changed in place

  class Settings {
    var tree: Tree

    constructor (tree: Tree)
      ensures this.tree == tree
    {
      this.tree := tree;
    }

    method MergeHooks() returns (changed: bool)
      modifies this
      ensures tree == Merged(old(tree)) && (changed <==> !Complete(HooksOf(old(tree))))
      ensures MergeDone(old(tree), tree) && (changed <==> tree != old(tree))
    {
      hide MergeDone;
      MergedIsDone(tree);
      MergeChanges(tree);
      var hooks := HooksOf(tree);
      ghost var first := AddTo(hooks, FIRST_EVENT);
      AddInstalls(hooks, FIRST_EVENT);
      ghost var second := AddTo(first, SECOND_EVENT);
      assert Complete(HooksOf(tree)) ==> second == hooks;
      var added;
      hooks, changed := AddEvent(hooks, FIRST_EVENT);
      hooks, added := AddEvent(hooks, SECOND_EVENT);
      changed := changed || added;
      hide AddTo, Installed;
      if changed {
        tree := tree["hooks" := Obj(hooks)];
      }
    }

    /** The entries of an event share their maps with the tree: what is left of them replaces them. */
    method RemoveHooks() returns (changed: bool)
      modifies this
      ensures tree == Removed(old(tree)) && (changed <==> Marked(old(tree)))
      ensures RemoveDone(old(tree), tree) && (changed <==> tree != old(tree))
    {
      hide RemoveDone;
      RemovedIsDone(tree);
      RemoveChanges(tree);
      hide Stripped, Installed, SameAt;
      ghost var before := HooksOf(tree);
      var hooks := HooksOf(tree);
      changed := false;
      var todo := hooks.Keys;
      SameAsItself(before);
      while todo != {}
        invariant tree == old(tree) && todo <= before.Keys && hooks.Keys <= before.Keys
        invariant forall ev :: ev in before ==> SameAt(hooks, if ev in todo then before else Stripped(before), ev)
        invariant changed <==> exists ev :: ev in before && Installed(before, ev) && ev !in todo
        decreases |todo|
      {
        var ev :| ev in todo;
        todo := todo - {ev};
        ghost var was := hooks;
        var ours;
        hooks, ours := StripEvent(hooks, before, ev);
        changed := changed || ours;
        OnlyAt(was, hooks, before, ev, todo);
      }
      AllStripped(before, hooks);
      assert |hooks| == 0 <==> hooks == map[];
      if changed && |hooks| == 0 {
        tree := tree - {"hooks"};
      } else if changed {
        tree := tree["hooks" := Obj(hooks)];
      }
    }
  }

  /** One event is stripped; nothing else changes. */
  method StripEvent(hooks: Tree, ghost before: Tree, ev: string) returns (r: Tree, ours: bool)
    requires ev in before && SameAt(hooks, before, ev)
    ensures r - {ev} == hooks - {ev} && SameAt(r, Stripped(before), ev) && (ours <==> Installed(before, ev))
  {
    var entries := Entries(hooks, ev);
    assert entries == Entries(before, ev);
    var kept;
    kept, ours := StripEntries(entries);
    hide LeftOf, HasOurs;
    r := hooks;
    if |kept| == 0 && |entries| > 0 {
      r := hooks - {ev};
    } else if hooks[ev].List? {
      r := hooks[ev := List(kept)];
    }
  }

  method StripEntries(entries: seq<Json>) returns (kept: seq<Json>, ours: bool)
    ensures kept == LeftOf(entries) && (ours <==> exists e :: e in entries && HasOurs(e))
  {
    kept, ours := [], false;
    hide Left, HasOurs;
    for i := 0 to |entries|
      invariant kept == LeftOf(entries[..i]) && (ours <==> exists e :: e in entries[..i] && HasOurs(e))
    {
      assert entries[..i + 1] == entries[..i] + [entries[i]];
      LeftOfAppend(entries[..i], entries[i]);
      var left, touched := StripEntry(entries[i]);
      kept := kept + left;
      ours := ours || touched;
    }
    assert entries[..|entries|] == entries;
  }

  method StripEntry(entry: Json) returns (left: seq<Json>, ours: bool)
    ensures left == Left(entry) && (ours <==> HasOurs(entry))
  {
    var inner := Inner(entry);
    var keepInner := DropOurs(inner);
    ForeignLength(inner);
    hide IsOurs, Foreign;
    ours := |keepInner| != |inner|;
    if |keepInner| == |inner| {
      left := [entry];
    } else if |keepInner| > 0 && entry.Obj? {
      left := [Obj(entry.fields["hooks" := List(keepInner)])];
    } else {
      left := [];
    }
  }

  method DropOurs(inner: seq<Json>) returns (keepInner: seq<Json>)
    ensures keepInner == Foreign(inner)
  {
    keepInner := [];
    hide IsOurs;
    for i := 0 to |inner|
      invariant keepInner == Foreign(inner[..i])
    {
      assert inner[..i + 1][..i] == inner[..i];
      if !IsOurs(inner[i]) {
        keepInner := keepInner + [inner[i]];
      }
    }
    assert inner[..|inner|] == inner;
  }

  lemma SameAsItself(hooks: Tree)
    ensures forall ev :: SameAt(hooks, hooks, ev)
  {
  }

  lemma OnlyAt(was: Tree, now: Tree, before: Tree, ev: string, todo: set<string>)
    requires was - {ev} == now - {ev} && SameAt(now, Stripped(before), ev) && ev !in todo && ev in before
    requires was.Keys <= before.Keys
    requires forall x :: x in before ==> SameAt(was, if x in todo + {ev} then before else Stripped(before), x)
    ensures now.Keys <= before.Keys
    ensures forall x :: x in before ==> SameAt(now, if x in todo then before else Stripped(before), x)
  {
    hide Stripped;
    forall x | x != ev ensures SameAt(now, was, x) {
      assert x in was <==> x in was - {ev};
      assert x in now <==> x in now - {ev};
      assert x in was ==> was[x] == (was - {ev})[x];
      assert x in now ==> now[x] == (now - {ev})[x];
    }
    forall x | x in before ensures SameAt(now, if x in todo then before else Stripped(before), x) {
      assert SameAt(was, if x in todo + {ev} then before else Stripped(before), x);
      assert x != ev ==> SameAt(now, was, x);
    }
    forall x | x in now ensures x in before {
      assert x != ev ==> SameAt(now, was, x);
    }
  }

  lemma AllStripped(before: Tree, hooks: Tree)
    requires hooks.Keys <= before.Keys && forall ev :: ev in before ==> SameAt(hooks, Stripped(before), ev)
    ensures hooks == Stripped(before)
  {
    assert Stripped(before).Keys <= before.Keys;
    hide Stripped;
    assert forall ev :: ev in hooks ==> SameAt(hooks, Stripped(before), ev);
    assert forall ev :: ev in Stripped(before) ==> SameAt(hooks, Stripped(before), ev);
    assert hooks.Keys == Stripped(before).Keys;
  }

  /** One round of the loop over the managed events. */
  method AddEvent(hooks: Tree, ev: string) returns (r: Tree, changed: bool)
    ensures r == AddTo(hooks, ev) && (changed <==> !Installed(hooks, ev))
  {
    var entries := Entries(hooks, ev);
    var have := AnyOurs(entries);
    r, changed := hooks, !have;
    if !have {
      r := hooks[ev := List(entries + [OurEntry(ev)])];
    }
  }

  /** Looks for an entry with one of our commands. */
  method AnyOurs(entries: seq<Json>) returns (have: bool)
    ensures have <==> exists e :: e in entries && HasOurs(e)
  {
    for i := 0 to |entries|
      invariant forall j :: 0 <= j < i ==> !HasOurs(entries[j])
    {
      if HasOurs(entries[i]) {
        return true;
      }
    }
    return false;
  }
}
