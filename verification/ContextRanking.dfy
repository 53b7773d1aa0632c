/** Ranking across blocks and the token budget of the context compiler. */
module ContextRanking {
  import opened Order
  import opened ContextPipeline

  const DEFAULT_SCORE := 0.1
  const ITEM_OVERHEAD := 20

  function Scored(i: Item): Item {
    if i.score == 0.0 then i.(score := DEFAULT_SCORE) else i
  }

  /** An item with the index of its block. */
  datatype Entry = Entry(block: nat, item: Item)

  function ItemsOf(es: seq<Entry>): seq<Item> {
    seq(|es|, i requires 0 <= i < |es| => es[i].item)
  }

  // ----- the sort

  ghost predicate Descending(es: seq<Entry>) {
    forall i, j :: 0 <= i < j < |es| ==> es[i].item.score >= es[j].item.score
  }

  function WithScore(es: seq<Entry>, score: real): seq<Entry> {
    if es == [] then []
    else WithScore(es[..|es| - 1], score) + if es[|es| - 1].item.score == score then [es[|es| - 1]] else []
  }

  /** Places an entry after all that score at least as much. */
  function Place(es: seq<Entry>, e: Entry): (r: seq<Entry>)
    ensures multiset(r) == multiset(es) + multiset{e}
  {
    if es == [] then [e]
    else
      var last := es[|es| - 1];
      assert es == es[..|es| - 1] + [last];
      if last.item.score >= e.item.score then es + [e] else Place(es[..|es| - 1], e) + [last]
  }

  /** `sort.SliceStable` by descending score. */
  function SortStable(es: seq<Entry>): (r: seq<Entry>)
    ensures multiset(r) == multiset(es)
  {
    if es == [] then []
    else
      assert es == es[..|es| - 1] + [es[|es| - 1]];
      Place(SortStable(es[..|es| - 1]), es[|es| - 1])
  }

  lemma AppendDescending(es: seq<Entry>, e: Entry)
    requires Descending(es) && forall x :: x in es ==> x.item.score >= e.item.score
    ensures Descending(es + [e])
  {
  }

  lemma {:induction false} PlaceDescends(es: seq<Entry>, e: Entry)
    requires Descending(es)
    ensures Descending(Place(es, e))
  {
    if es != [] {
      var rest, last := es[..|es| - 1], es[|es| - 1];
      assert forall i :: 0 <= i < |es| ==> es[i].item.score >= last.item.score;
      if last.item.score >= e.item.score {
        AppendDescending(es, e);
      } else {
        PlaceDescends(rest, e);
        forall x | x in Place(rest, e) ensures x.item.score >= last.item.score {
          assert x in multiset(Place(rest, e));
          assert x == e || x in multiset(rest);
        }
        AppendDescending(Place(rest, e), last);
      }
    }
  }

  lemma {:induction false} SortDescends(es: seq<Entry>)
    ensures Descending(SortStable(es))
  {
    if es != [] {
      SortDescends(es[..|es| - 1]);
      PlaceDescends(SortStable(es[..|es| - 1]), es[|es| - 1]);
    }
  }

  lemma WithScoreAppend(es: seq<Entry>, e: Entry, score: real)
    ensures WithScore(es + [e], score) == WithScore(es, score) + if e.item.score == score then [e] else []
  {
    assert (es + [e])[..|es|] == es;
  }

  lemma {:induction false} PlaceKeepsOrder(es: seq<Entry>, e: Entry, score: real)
    requires Descending(es)
    ensures WithScore(Place(es, e), score) == WithScore(es, score) + if e.item.score == score then [e] else []
  {
    if es == [] {
      WithScoreAppend([], e, score);
    } else {
      hide WithScore;
      var rest, last := es[..|es| - 1], es[|es| - 1];
      assert es == rest + [last];
      if last.item.score >= e.item.score {
        WithScoreAppend(es, e, score);
      } else {
        PlaceKeepsOrder(rest, e, score);
        WithScoreAppend(Place(rest, e), last, score);
        WithScoreAppend(rest, last, score);
      }
    }
  }

  /** Entries with the same score keep their order. */
  lemma {:induction false} SortIsStable(es: seq<Entry>, score: real)
    ensures WithScore(SortStable(es), score) == WithScore(es, score)
  {
    if es != [] {
      var rest := es[..|es| - 1];
      SortIsStable(rest, score);
      SortDescends(rest);
      PlaceKeepsOrder(SortStable(rest), es[|es| - 1], score);
    }
  }

  // ----- rebuilding the blocks

  /** The items picked from one block, in ranked order. */
  function Picked(top: seq<Entry>, block: nat): seq<Item> {
    if top == [] then []
    else Picked(top[..|top| - 1], block) + if top[|top| - 1].block == block then [top[|top| - 1].item] else []
  }

  function Rebuilt(blocks: seq<Block>, top: seq<Entry>, n: nat): seq<Block>
    requires n <= |blocks|
  {
    if n == 0 then []
    else Rebuilt(blocks, top, n - 1) + if Picked(top, n - 1) == [] then []
                                       else [Block(blocks[n - 1].section, Picked(top, n - 1))]
  }

  function PickedUpto(top: seq<Entry>, n: nat): seq<Item> {
    if n == 0 then [] else PickedUpto(top, n - 1) + Picked(top, n - 1)
  }

  lemma FlattenMore(blocks: seq<Block>, b: Block)
    ensures Flatten(blocks + [b]) == Flatten(blocks) + b.items
  {
    assert (blocks + [b])[..|blocks|] == blocks;
  }

  lemma RebuiltNext(blocks: seq<Block>, top: seq<Entry>, n: nat)
    requires 0 < n <= |blocks|
    ensures Rebuilt(blocks, top, n) == if Picked(top, n - 1) == [] then Rebuilt(blocks, top, n - 1)
                                       else Rebuilt(blocks, top, n - 1)
                                            + [Block(blocks[n - 1].section, Picked(top, n - 1))]
  {
    hide Picked;
  }

  lemma {:induction false} RebuiltItems(blocks: seq<Block>, top: seq<Entry>, n: nat)
    requires n <= |blocks|
    ensures Flatten(Rebuilt(blocks, top, n)) == PickedUpto(top, n)
  {
    if n == 0 {
      RebuiltNone(blocks, top);
    } else {
      RebuiltItems(blocks, top, n - 1);
      RebuiltNext(blocks, top, n);
      PickedNext(top, n);
      hide Flatten, Picked, Rebuilt, PickedUpto;
      var before, items := Rebuilt(blocks, top, n - 1), Picked(top, n - 1);
      FlattenMore(before, Block(blocks[n - 1].section, items));
      NothingMore(PickedUpto(top, n - 1), items);
    }
  }

  lemma RebuiltNone(blocks: seq<Block>, top: seq<Entry>)
    ensures Flatten(Rebuilt(blocks, top, 0)) == PickedUpto(top, 0)
  {
  }

  lemma PickedNext(top: seq<Entry>, n: nat)
    requires n > 0
    ensures PickedUpto(top, n) == PickedUpto(top, n - 1) + Picked(top, n - 1)
  {
    hide Picked;
  }

  lemma NothingMore(items: seq<Item>, more: seq<Item>)
    ensures more == [] ==> items + more == items
  {
  }

  /** How often an item is picked from one block, and from the first n blocks. */
  function CountAt(top: seq<Entry>, block: nat, x: Item): nat {
    multiset(Picked(top, block))[x]
  }

  function CountUpto(top: seq<Entry>, n: nat, x: Item): nat {
    multiset(PickedUpto(top, n))[x]
  }

  /** Whether the entry is this item, from a block in the range. */
  function One(e: Entry, from: nat, to: nat, x: Item): nat {
    if from <= e.block < to && e.item == x then 1 else 0
  }

  lemma CountAtMore(top: seq<Entry>, e: Entry, n: nat, x: Item)
    ensures CountAt(top + [e], n, x) == CountAt(top, n, x) + One(e, n, n + 1, x)
  {
    assert (top + [e])[..|top|] == top;
  }

  lemma CountUptoSplit(top: seq<Entry>, n: nat, x: Item)
    ensures CountUpto(top, n + 1, x) == CountUpto(top, n, x) + CountAt(top, n, x)
  {
    hide Picked;
  }

  lemma CountNone(top: seq<Entry>, x: Item)
    ensures CountUpto(top, 0, x) == 0
  {
  }

  lemma {:induction false} CountUptoMore(top: seq<Entry>, e: Entry, n: nat, x: Item)
    ensures CountUpto(top + [e], n, x) == CountUpto(top, n, x) + One(e, 0, n, x)
  {
    hide CountUpto, CountAt, PickedUpto, Picked;
    if n == 0 {
      CountNone(top, x);
      CountNone(top + [e], x);
    } else {
      var more := top + [e];
      CountUptoMore(top, e, n - 1, x);
      CountAtMore(top, e, n - 1, x);
      CountUptoSplit(more, n - 1, x);
      CountUptoSplit(top, n - 1, x);
    }
  }

  function CountItem(es: seq<Entry>, x: Item): nat {
    multiset(ItemsOf(es))[x]
  }

  lemma CountItemMore(es: seq<Entry>, e: Entry, x: Item)
    ensures CountItem(es + [e], x) == CountItem(es, x) + One(e, 0, e.block + 1, x)
  {
    assert ItemsOf(es + [e]) == ItemsOf(es) + [e.item];
  }

  lemma CountEmpty(n: nat, x: Item)
    ensures CountUpto([], n, x) == CountItem([], x)
  {
    PickedNone(n);
  }

  lemma {:induction false} CountAll(top: seq<Entry>, n: nat, x: Item)
    requires forall e :: e in top ==> e.block < n
    ensures CountUpto(top, n, x) == CountItem(top, x)
  {
    hide CountUpto, CountItem, PickedUpto, ItemsOf;
    if top == [] {
      CountEmpty(n, x);
    } else {
      var rest, last := top[..|top| - 1], top[|top| - 1];
      assert top == rest + [last] && last in top;
      CountAll(rest, n, x);
      CountUptoMore(rest, last, n, x);
      CountItemMore(rest, last, x);
    }
  }

  /** Spreading the top entries over their blocks neither loses nor repeats any. */
  lemma PickedUptoAll(top: seq<Entry>, n: nat)
    requires forall e :: e in top ==> e.block < n
    ensures multiset(PickedUpto(top, n)) == multiset(ItemsOf(top))
  {
    forall x ensures multiset(PickedUpto(top, n))[x] == multiset(ItemsOf(top))[x] {
      CountAll(top, n, x);
    }
    hide PickedUpto, ItemsOf;
  }

  lemma {:induction false} PickedNone(n: nat)
    ensures PickedUpto([], n) == []
  {
    if n > 0 {
      PickedNone(n - 1);
    }
  }

  // ----- the method

  /** Every item with its block, in order. */
  function Entries(blocks: seq<Block>, n: nat): seq<Entry>
    requires n <= |blocks|
  {
    if n == 0 then [] else Entries(blocks, n - 1) + EntriesOf(blocks[n - 1].items, n - 1)
  }

  function EntriesOf(items: seq<Item>, block: nat): seq<Entry> {
    seq(|items|, i requires 0 <= i < |items| => Entry(block, Scored(items[i])))
  }

  ghost predicate EntriesFit(blocks: seq<Block>, n: nat, es: seq<Entry>)
    requires n <= |blocks|
  {
    forall e :: e in es ==> e.block < n && Rewrites(Scored, e.item, blocks[e.block].items)
  }

  lemma {:induction false} EntriesAreItems(blocks: seq<Block>, n: nat)
    requires n <= |blocks|
    ensures EntriesFit(blocks, n, Entries(blocks, n))
    ensures ItemsOf(Entries(blocks, n)) == AllScored(Flatten(blocks[..n]))
  {
    if n > 0 {
      EntriesAreItems(blocks, n - 1);
      var items := blocks[n - 1].items;
      assert blocks[..n] == blocks[..n - 1] + [blocks[n - 1]];
      FlattenMore(blocks[..n - 1], blocks[n - 1]);
      EntriesOfBlock(items, n - 1);
      ItemsAppend(Entries(blocks, n - 1), EntriesOf(items, n - 1));
      AllScoredAppend(Flatten(blocks[..n - 1]), items);
      hide Scored, Rewrites, Flatten, ItemsOf, AllScored, EntriesOf;
    }
  }

  lemma EntriesOfBlock(items: seq<Item>, block: nat)
    ensures forall e :: e in EntriesOf(items, block) ==> e.block == block && Rewrites(Scored, e.item, items)
    ensures ItemsOf(EntriesOf(items, block)) == AllScored(items)
  {
    forall e | e in EntriesOf(items, block) ensures e.block == block && Rewrites(Scored, e.item, items) {
      var k :| 0 <= k < |items| && e == Entry(block, Scored(items[k]));
      assert items[k] in items;
    }
  }

  lemma AllScoredAppend(a: seq<Item>, b: seq<Item>)
    ensures AllScored(a + b) == AllScored(a) + AllScored(b)
  {
    hide Scored;
  }

  function AllScored(items: seq<Item>): seq<Item> {
    seq(|items|, i requires 0 <= i < |items| => Scored(items[i]))
  }

  lemma {:induction false} RebuiltWithin(blocks: seq<Block>, top: seq<Entry>, n: nat)
    requires n <= |blocks| && forall e :: e in top
                                          ==> e.block < |blocks| && Rewrites(Scored, e.item, blocks[e.block].items)
    ensures Within(Scored, Rebuilt(blocks, top, n), blocks[..n])
  {
    if n > 0 {
      RebuiltWithin(blocks, top, n - 1);
      assert blocks[..n] == blocks[..n - 1] + [blocks[n - 1]];
      PickedFrom(top, n - 1);
      RebuiltNext(blocks, top, n);
      var b := Block(blocks[n - 1].section, Picked(top, n - 1));
      hide Rewrites, Scored, Within, Rebuilt, Picked;
      assert FromBlock(Scored, b, blocks[n - 1]);
      if Picked(top, n - 1) == [] {
        WithinDrop(Scored, Rebuilt(blocks, top, n - 1), blocks[..n - 1], blocks[n - 1]);
      } else {
        WithinKeep(Scored, Rebuilt(blocks, top, n - 1), blocks[..n - 1], b, blocks[n - 1]);
      }
    }
  }

  lemma {:induction false} PickedFrom(top: seq<Entry>, block: nat)
    ensures forall x :: x in Picked(top, block) ==> Entry(block, x) in top
  {
    if top != [] {
      PickedFrom(top[..|top| - 1], block);
    }
  }

  /** `out` holds the best items: at most `limit`, and none that was dropped scores higher than a kept one. */
  ghost predicate Best(items: seq<Item>, limit: int, kept: seq<Item>, dropped: seq<Item>) {
    && multiset(kept) + multiset(dropped) == multiset(AllScored(items))
    && |kept| == (if limit <= 0 || limit > |items| then |items| else limit)
    && forall x, y :: x in kept && y in dropped ==> x.score >= y.score
  }

  lemma ItemsAppend(a: seq<Entry>, b: seq<Entry>)
    ensures ItemsOf(a + b) == ItemsOf(a) + ItemsOf(b)
  {
  }

  lemma {:induction false} PlaceItems(es: seq<Entry>, e: Entry)
    ensures multiset(ItemsOf(Place(es, e))) == multiset(ItemsOf(es)) + multiset{e.item}
  {
    if es == [] {
      assert ItemsOf([e]) == [e.item];
    } else {
      var rest, last := es[..|es| - 1], es[|es| - 1];
      assert es == rest + [last];
      ItemsAppend(rest, [last]);
      ItemsAppend(es, [e]);
      ItemsAppend(Place(rest, e), [last]);
      PlaceItems(rest, e);
      assert ItemsOf([last]) == [last.item] && ItemsOf([e]) == [e.item];
      hide ItemsOf;
    }
  }

  lemma {:induction false} SortItems(es: seq<Entry>)
    ensures multiset(ItemsOf(SortStable(es))) == multiset(ItemsOf(es)) && |SortStable(es)| == |es|
  {
    SameMultiset(SortStable(es), es);
    if es != [] {
      var rest, last := es[..|es| - 1], es[|es| - 1];
      assert es == rest + [last];
      ItemsAppend(rest, [last]);
      assert ItemsOf([last]) == [last.item];
      SortItems(rest);
      PlaceItems(SortStable(rest), last);
      hide ItemsOf, Place;
    }
  }

  lemma TopScores(sorted: seq<Entry>, n: nat)
    requires Descending(sorted) && n <= |sorted|
    ensures forall x, y :: x in ItemsOf(sorted[..n]) && y in ItemsOf(sorted[n..]) ==> x.score >= y.score
  {
    var best, others := ItemsOf(sorted[..n]), ItemsOf(sorted[n..]);
    forall x, y | x in best && y in others ensures x.score >= y.score {
      var i :| 0 <= i < n && best[i] == x;
      var j :| 0 <= j < |others| && others[j] == y;
      assert sorted[i].item == x && sorted[n + j].item == y;
    }
  }

  lemma BestOfSorted(items: seq<Item>, all: seq<Entry>, n: nat, limit: int, kept: seq<Item>)
    requires ItemsOf(all) == AllScored(items) && n == (if limit <= 0 || limit > |items| then |items| else limit)
    requires |SortStable(all)| == |items| && multiset(kept) == multiset(ItemsOf(SortStable(all)[..n]))
    ensures Best(items, limit, kept, ItemsOf(SortStable(all)[n..]))
  {
    var sorted := SortStable(all);
    var best, others := ItemsOf(sorted[..n]), ItemsOf(sorted[n..]);
    SortItems(all);
    SortDescends(all);
    assert sorted == sorted[..n] + sorted[n..];
    ItemsAppend(sorted[..n], sorted[n..]);
    TopScores(sorted, n);
    hide AllScored, SortStable;
    SameMultiset(kept, best);
    hide ItemsOf, Descending;
  }

  method Collect(blocks: seq<Block>) returns (all: seq<Entry>)
    ensures all == Entries(blocks, |blocks|)
  {
    all := [];
    for bi := 0 to |blocks|
      invariant all == Entries(blocks, bi)
    {
      ghost var before := all;
      for k := 0 to |blocks[bi].items|
        invariant all == before + EntriesOf(blocks[bi].items, bi)[..k]
      {
        all := all + [Entry(bi, Scored(blocks[bi].items[k]))];
      }
      assert EntriesOf(blocks[bi].items, bi)[..|blocks[bi].items|] == EntriesOf(blocks[bi].items, bi);
    }
  }

  ghost predicate KeptIs(kept: map<nat, seq<Item>>, top: seq<Entry>) {
    forall b: nat :: (b in kept <==> Picked(top, b) != []) && (b in kept ==> kept[b] == Picked(top, b))
  }

  /** Distributes the first n entries over their blocks. */
  method KeepTop(all: seq<Entry>, n: nat) returns (kept: map<nat, seq<Item>>)
    requires n <= |all|
    ensures KeptIs(kept, all[..n])
  {
    kept := map[];
    for i := 0 to n
      invariant KeptIs(kept, all[..i])
    {
      var s := all[i];
      assert all[..i + 1] == all[..i] + [s];
      assert (all[..i] + [s])[..i] == all[..i];
      kept := kept[s.block := (if s.block in kept then kept[s.block] else []) + [s.item]];
    }
  }

  method Rebuild(blocks: seq<Block>, kept: map<nat, seq<Item>>, ghost top: seq<Entry>) returns (out: seq<Block>)
    requires KeptIs(kept, top)
    ensures out == Rebuilt(blocks, top, |blocks|)
  {
    out := [];
    for i := 0 to |blocks|
      invariant out == Rebuilt(blocks, top, i)
    {
      if i in kept {
        out := out + [Block(blocks[i].section, kept[i])];
      }
    }
  }

  lemma {:induction false} RebuiltNonEmpty(blocks: seq<Block>, top: seq<Entry>, n: nat)
    requires n <= |blocks|
    ensures forall b :: b in Rebuilt(blocks, top, n) ==> b.items != []
  {
    if n == 0 {
      RebuiltNone(blocks, top);
    } else {
      hide Rebuilt, Picked;
      RebuiltNonEmpty(blocks, top, n - 1);
      RebuiltNext(blocks, top, n);
      var before, now := Rebuilt(blocks, top, n - 1), Rebuilt(blocks, top, n);
      forall b | b in now ensures b.items != [] {
        if b !in before {
          assert b == Block(blocks[n - 1].section, Picked(top, n - 1));
        }
      }
    }
  }

  /** The chosen entries name blocks and items of those blocks. */
  lemma TopFits(blocks: seq<Block>, n: nat)
    requires n <= |SortStable(Entries(blocks, |blocks|))|
    ensures EntriesFit(blocks, |blocks|, SortStable(Entries(blocks, |blocks|))[..n])
  {
    var all := Entries(blocks, |blocks|);
    var sorted := SortStable(all);
    assert multiset(sorted) == multiset(all);
    hide Rewrites, SortStable, Entries;
    EntriesAreItems(blocks, |blocks|);
    SameMultiset(sorted, all);
    forall e | e in sorted[..n] ensures e in all {
      assert e in sorted;
    }
  }

  /** `rankBlocks`: the best items over all blocks, back in their sections. */
  method RankBlocks(blocks: seq<Block>, limit: int) returns (out: seq<Block>, ghost dropped: seq<Item>)
    ensures Best(Flatten(blocks), limit, Flatten(out), dropped) && Within(Scored, out, blocks)
    ensures forall b :: b in out ==> b.items != []
  {
    var all := Collect(blocks);
    ghost var items := Flatten(blocks);
    assert blocks[..|blocks|] == blocks;
    EntriesAreItems(blocks, |blocks|);
    assert |all| == |ItemsOf(all)| == |items|;
    SortItems(all);
    var sorted := SortStable(all);
    var n := if limit <= 0 || limit > |sorted| then |sorted| else limit;
    TopFits(blocks, n);
    var kept := KeepTop(sorted, n);
    hide SortStable, Entries, AllScored, Flatten, Within, Best, Rebuilt, Picked, PickedUpto;
    ghost var top := sorted[..n];
    out := Rebuild(blocks, kept, top);
    dropped := ItemsOf(sorted[n..]);
    RebuiltItems(blocks, top, |blocks|);
    PickedUptoAll(top, |blocks|);
    BestOfSorted(items, all, n, limit, Flatten(out));
    RebuiltWithin(blocks, top, |blocks|);
    RebuiltNonEmpty(blocks, top, |blocks|);
  }

  // ----- the budget

  function Cost(tokens: string -> nat, items: seq<Item>): nat {
    if items == [] then 0 else Cost(tokens, items[..|items| - 1]) + tokens(items[|items| - 1].text) + ITEM_OVERHEAD
  }

  lemma CostMore(tokens: string -> nat, items: seq<Item>, x: Item)
    ensures Cost(tokens, items + [x]) == Cost(tokens, items) + tokens(x.text) + ITEM_OVERHEAD
  {
    assert (items + [x])[..|items|] == items;
  }

  function TokenSum(tokens: string -> nat, items: seq<Item>): nat {
    if items == [] then 0 else tokens(items[0].text) + TokenSum(tokens, items[1..])
  }

  lemma {:induction false} TokenSumMore(tokens: string -> nat, items: seq<Item>, x: Item)
    ensures TokenSum(tokens, items + [x]) == TokenSum(tokens, items) + tokens(x.text)
  {
    if items == [] {
      assert [] + [x] == [x];
    } else {
      assert (items + [x])[1..] == items[1..] + [x];
      TokenSumMore(tokens, items[1..], x);
    }
  }

  /** The cost is the tokens of all texts and twenty for each item. */
  lemma {:induction false} CostIsSum(tokens: string -> nat, items: seq<Item>)
    ensures Cost(tokens, items) == TokenSum(tokens, items) + 20 * |items|
  {
    if items != [] {
      var n := |items| - 1;
      assert items == items[..n] + [items[n]];
      CostIsSum(tokens, items[..n]);
      TokenSumMore(tokens, items[..n], items[n]);
    }
  }

  function Same(i: Item): Item {
    i
  }

  /** What the three stages make of an item: its words with single blanks, and a score of 0.1 if it had none. */
  predicate StagedAs(i: Item, r: Item) {
    && r.kind == i.kind && r.id == i.id && r.source == i.source && r.text == Join(Fields(i.text))
    && r.score == if i.score == 0.0 then 0.1 else i.score
  }

  lemma StagesRewrite(i: Item)
    ensures StagedAs(i, Then(Then(Norm, Scored), Same)(i))
  {
    assert Then(Norm, Scored)(i) == Scored(Norm(i));
    assert Then(Then(Norm, Scored), Same)(i) == Scored(Norm(i));
  }

  /** The longest prefix of the items, over all blocks, whose cost fits. */
  ghost predicate Fits(tokens: string -> nat, items: seq<Item>, maxTokens: nat, kept: seq<Item>) {
    && kept <= items && Cost(tokens, kept) <= maxTokens
    && (kept != items ==> Cost(tokens, items[..|kept| + 1]) > maxTokens)
  }

  /** One block against what is left of the budget. */
  method TrimBlock(tokens: string -> nat, b: Block, start: nat, maxTokens: nat, ghost before: seq<Item>)
    returns (kept: seq<Item>, used: nat, truncated: bool)
    requires start == Cost(tokens, before) <= maxTokens
    ensures kept <= b.items && (truncated <==> kept != b.items) && FromBlock(Same, Block(b.section, kept), b)
    ensures used == Cost(tokens, before + kept) <= maxTokens
    ensures truncated ==> Cost(tokens, before + b.items[..|kept| + 1]) > maxTokens
  {
    kept, used, truncated := [], start, false;
    assert before + kept == before;
    for i := 0 to |b.items|
      invariant kept == b.items[..i] && used == Cost(tokens, before + kept) <= maxTokens && !truncated
    {
      var item := b.items[i];
      var cost := tokens(item.text) + ITEM_OVERHEAD;
      CostMore(tokens, before + kept, item);
      assert b.items[..i + 1] == kept + [item];
      assert before + (kept + [item]) == (before + kept) + [item];
      if used + cost > maxTokens {
        truncated := true;
        break;
      }
      kept := kept + [item];
      used := used + cost;
    }
    forall x | x in kept ensures Rewrites(Same, x, b.items) {
      assert x in b.items && x == Same(x);
    }
  }

  lemma {:induction false} WithinNothing(f: Item -> Item, blocks: seq<Block>)
    ensures Within(f, [], blocks)
  {
    if blocks != [] {
      WithinNothing(f, blocks[..|blocks| - 1]);
    }
  }

  lemma {:induction false} WithinPrefix(f: Item -> Item, out: seq<Block>, blocks: seq<Block>, i: nat)
    requires i <= |blocks| && Within(f, out, blocks[..i])
    ensures Within(f, out, blocks)
    decreases |blocks| - i
  {
    if i < |blocks| {
      assert blocks[..i + 1] == blocks[..i] + [blocks[i]];
      WithinDrop(f, out, blocks[..i], blocks[i]);
      WithinPrefix(f, out, blocks, i + 1);
    } else {
      assert blocks[..i] == blocks;
    }
  }

  lemma {:induction false} FlattenPrefix(blocks: seq<Block>, i: nat)
    requires i <= |blocks|
    ensures Flatten(blocks[..i]) <= Flatten(blocks)
    decreases |blocks| - i
  {
    if i < |blocks| {
      assert blocks[..i + 1] == blocks[..i] + [blocks[i]];
      FlattenMore(blocks[..i], blocks[i]);
      FlattenPrefix(blocks, i + 1);
    } else {
      assert blocks[..i] == blocks;
    }
  }

  /** `applyBudget`: items are kept in order until one does not fit. */
  method ApplyBudget(tokens: string -> nat, blocks: seq<Block>, maxTokens: nat)
    returns (out: seq<Block>, truncated: bool)
    ensures Within(Same, out, blocks) && Fits(tokens, Flatten(blocks), maxTokens, Flatten(out))
    ensures truncated <==> Flatten(out) != Flatten(blocks)
  {
    var used := 0;
    out, truncated := [], false;
    assert Flatten([]) == [] && Cost(tokens, []) == 0 && Within(Same, [], []) && blocks[..0] == [];
    hide Within, FromBlock, Flatten, Cost;
    for i := 0 to |blocks|
      invariant !truncated && Flatten(out) == Flatten(blocks[..i]) && Within(Same, out, blocks[..i])
      invariant used == Cost(tokens, Flatten(out)) <= maxTokens
    {
      var b := blocks[i];
      ghost var before := Flatten(out);
      var kept;
      kept, used, truncated := TrimBlock(tokens, b, used, maxTokens, before);
      assert blocks[..i + 1] == blocks[..i] + [b];
      FlattenMore(blocks[..i], b);
      FlattenPrefix(blocks, i + 1);
      FlattenMore(out, Block(b.section, kept));
      if |kept| > 0 {
        WithinKeep(Same, out, blocks[..i], Block(b.section, kept), b);
        out := out + [Block(b.section, kept)];
      } else {
        WithinDrop(Same, out, blocks[..i], b);
        assert before + kept == before;
      }
      if truncated {
        Cut(tokens, before, b.items, kept, Flatten(blocks), maxTokens);
        WithinPrefix(Same, out, blocks, i + 1);
        return;
      }
    }
    assert blocks[..|blocks|] == blocks;
  }

  lemma Cut(tokens: string -> nat, before: seq<Item>, items: seq<Item>, kept: seq<Item>, all: seq<Item>, maxTokens: nat)
    requires before + items <= all && kept <= items && kept != items
    requires Cost(tokens, before + kept) <= maxTokens < Cost(tokens, before + items[..|kept| + 1])
    ensures Fits(tokens, all, maxTokens, before + kept) && before + kept != all
  {
    assert all[..|before + kept| + 1] == before + items[..|kept| + 1];
    hide Cost;
  }

  // ----- all three

  lemma BestNoRepeats(items: seq<Item>, limit: int, kept: seq<Item>, dropped: seq<Item>)
    requires NoRepeats(items) && Best(items, limit, kept, dropped)
    ensures NoRepeats(kept)
  {
    var all := AllScored(items);
    assert NoRepeats(all);
    assert Distinct(all);
    hide Key, Scored, AllScored;
    DistinctCounts(all);
    forall i, j | 0 <= i < j < |kept| ensures Key(kept[i]) != Key(kept[j]) {
      RepeatCounts(kept, i, j);
      assert multiset(kept)[kept[i]] <= multiset(all)[kept[i]] && multiset(kept)[kept[j]] <= multiset(all)[kept[j]];
      assert kept[i] in multiset(kept) && kept[j] in multiset(kept);
      var k :| 0 <= k < |all| && all[k] == kept[i];
      var l :| 0 <= l < |all| && all[l] == kept[j];
    }
  }

  /** The pipeline at the ranked level, with a positive limit and budget. */
  method Compile(tokens: string -> nat, blocks: seq<Block>, limit: int, maxTokens: nat)
    returns (out: seq<Block>, truncated: bool, ghost ranked: seq<Block>, ghost dropped: seq<Item>)
    requires limit > 0 && maxTokens > 0
    ensures NoRepeats(Flatten(out)) && |Flatten(out)| <= limit && Cost(tokens, Flatten(out)) <= maxTokens
    ensures Within(Then(Then(Norm, Scored), Same), out, blocks)
    ensures Best(Firsts(Flatten(blocks)), limit, Flatten(ranked), dropped)
    ensures Fits(tokens, Flatten(ranked), maxTokens, Flatten(out)) && (truncated <==> Flatten(out) != Flatten(ranked))
    ensures TokenSum(tokens, Flatten(out)) + 20 * |Flatten(out)| <= maxTokens
    ensures forall i, r :: Then(Then(Norm, Scored), Same)(i) == r ==> StagedAs(i, r)
  {
    var compact := CompactBlocks(blocks);
    var best;
    best, dropped := RankBlocks(compact, limit);
    ranked := best;
    out, truncated := ApplyBudget(tokens, best, maxTokens);
    FirstsNoRepeats(Flatten(blocks));
    BestNoRepeats(Flatten(compact), limit, Flatten(best), dropped);
    WithinTwice(Norm, Scored, best, compact, blocks);
    WithinTwice(Then(Norm, Scored), Same, out, best, blocks);
    CostIsSum(tokens, Flatten(out));
    forall i ensures StagedAs(i, Then(Then(Norm, Scored), Same)(i)) {
      StagesRewrite(i);
    }
    hide *;
    PrefixFacts(tokens, Firsts(Flatten(blocks)), limit, Flatten(best), dropped, maxTokens, Flatten(out));
  }

  lemma PrefixFacts(tokens: string -> nat, items: seq<Item>, limit: int, ranked: seq<Item>, dropped: seq<Item>,
                    maxTokens: nat, kept: seq<Item>)
    requires limit > 0 && NoRepeats(ranked) && Best(items, limit, ranked, dropped)
             && Fits(tokens, ranked, maxTokens, kept)
    ensures NoRepeats(kept) && |kept| <= limit && Cost(tokens, kept) <= maxTokens
  {
    hide Key, Cost;
  }
}
