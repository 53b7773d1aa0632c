/** The context compiler's pipeline: compact, rank and trim blocks of evidence. */
module ContextPipeline {
  import opened Order

  datatype Item = Item(kind: string, id: string, text: string, source: string, score: real)

  datatype Block = Block(section: string, items: seq<Item>)

  function Flatten(blocks: seq<Block>): seq<Item> {
    if blocks == [] then [] else Flatten(blocks[..|blocks| - 1]) + blocks[|blocks| - 1].items
  }

  lemma {:induction false} FlattenConcat(a: seq<Block>, b: seq<Block>)
    ensures Flatten(a + b) == Flatten(a) + Flatten(b)
  {
    if b == [] {
      assert a + b == a;
    } else {
      assert (a + b)[..|a + b| - 1] == a + b[..|b| - 1];
      FlattenConcat(a, b[..|b| - 1]);
    }
  }

  // ----- what a stage may do to the blocks

  /** The block's items all come from the other block, rewritten by f. */
  ghost predicate FromBlock(f: Item -> Item, o: Block, b: Block) {
    o.section == b.section && forall x :: x in o.items ==> Rewrites(f, x, b.items)
  }

  ghost predicate Rewrites(f: Item -> Item, x: Item, items: seq<Item>) {
    exists y :: y in items && x == f(y)
  }

  /** Blocks are dropped and items rewritten, but sections keep their order and items their section. */
  ghost predicate Within(f: Item -> Item, out: seq<Block>, blocks: seq<Block>)
    decreases |blocks|
  {
    if blocks == [] then out == []
    else
      || Within(f, out, blocks[..|blocks| - 1])
      || (out != [] && FromBlock(f, out[|out| - 1], blocks[|blocks| - 1])
          && Within(f, out[..|out| - 1], blocks[..|blocks| - 1]))
  }

  function Then(f: Item -> Item, g: Item -> Item): Item -> Item {
    x => g(f(x))
  }

  lemma FromBlockGrow(f: Item -> Item, section: string, items: seq<Item>, b: Block, k: nat)
    requires FromBlock(f, Block(section, items), b) && k < |b.items|
    ensures FromBlock(f, Block(section, items + [f(b.items[k])]), b)
  {
    assert Rewrites(f, f(b.items[k]), b.items);
    hide Rewrites;
  }

  lemma FromBlockTwice(f: Item -> Item, g: Item -> Item, o: Block, m: Block, b: Block)
    requires FromBlock(f, m, b) && FromBlock(g, o, m)
    ensures FromBlock(Then(f, g), o, b)
  {
    forall x | x in o.items ensures Rewrites(Then(f, g), x, b.items) {
      assert Rewrites(g, x, m.items);
      var y :| y in m.items && x == g(y);
      assert Rewrites(f, y, b.items);
      var z :| z in b.items && y == f(z);
    }
  }

  lemma {:induction false} WithinTwice(f: Item -> Item, g: Item -> Item, out: seq<Block>, mid: seq<Block>,
                                       blocks: seq<Block>)
    requires Within(f, mid, blocks) && Within(g, out, mid)
    ensures Within(Then(f, g), out, blocks)
    decreases |blocks|
  {
    if blocks != [] {
      var b, rest := blocks[|blocks| - 1], blocks[..|blocks| - 1];
      if Within(f, mid, rest) {
        WithinTwice(f, g, out, mid, rest);
      } else {
        var m, before := mid[|mid| - 1], mid[..|mid| - 1];
        if Within(g, out, before) {
          WithinTwice(f, g, out, before, rest);
        } else {
          WithinTwice(f, g, out[..|out| - 1], before, rest);
          FromBlockTwice(f, g, out[|out| - 1], m, b);
        }
      }
    }
  }

  lemma WithinKeep(f: Item -> Item, out: seq<Block>, blocks: seq<Block>, o: Block, b: Block)
    requires Within(f, out, blocks) && FromBlock(f, o, b)
    ensures Within(f, out + [o], blocks + [b])
  {
    assert (out + [o])[..|out + [o]| - 1] == out && (blocks + [b])[..|blocks + [b]| - 1] == blocks;
  }

  lemma WithinDrop(f: Item -> Item, out: seq<Block>, blocks: seq<Block>, b: Block)
    requires Within(f, out, blocks)
    ensures Within(f, out, blocks + [b])
  {
    assert (blocks + [b])[..|blocks + [b]| - 1] == blocks;
  }

  // ----- compaction

  predicate IsWord(w: string) {
    w != [] && forall c :: c in w ==> !IsSpace(c)
  }

  /** `strings.Fields`: the maximal runs without white space. */
  function Fields(text: string): (words: seq<string>)
    ensures forall w :: w in words ==> IsWord(w)
    ensures text != [] && !IsSpace(text[|text| - 1]) ==> words != []
  {
    if text == [] then []
    else
      var n := |text| - 1;
      var words := Fields(text[..n]);
      if IsSpace(text[n]) then words
      else if n == 0 || IsSpace(text[n - 1]) then words + [[text[n]]]
      else
        assert words[|words| - 1] in words;
        words[..|words| - 1] + [words[|words| - 1] + [text[n]]]
  }

  /** `strings.Join` with single blanks. */
  function Join(words: seq<string>): string {
    if words == [] then []
    else if |words| == 1 then words[0]
    else Join(words[..|words| - 1]) + [' '] + words[|words| - 1]
  }

  lemma FieldsGrow(text: string, c: char)
    requires !IsSpace(c)
    ensures text == [] || IsSpace(text[|text| - 1]) ==> Fields(text + [c]) == Fields(text) + [[c]]
    ensures text != [] && !IsSpace(text[|text| - 1])
            ==> Fields(text + [c]) == Fields(text)[..|Fields(text)| - 1] + [Fields(text)[|Fields(text)| - 1] + [c]]
  {
    assert (text + [c])[..|text|] == text;
  }

  lemma FieldsBlank(text: string)
    ensures IsSpace(' ') && Fields(text + [' ']) == Fields(text)
  {
    assert (text + [' '])[..|text|] == text;
  }

  lemma JoinMore(words: seq<string>, w: string)
    ensures Join(words + [w]) == if words == [] then w else Join(words) + [' '] + w
  {
    assert (words + [w])[..|words|] == words;
  }

  /** The words of joined words are those words. */
  lemma {:induction false} FieldsOfJoin(words: seq<string>)
    requires forall w :: w in words ==> IsWord(w)
    ensures Fields(Join(words)) == words
    ensures words != [] ==> Join(words) != [] && !IsSpace(Join(words)[|Join(words)| - 1])
    decreases |words|, if words == [] then 0 else |words[|words| - 1]|
  {
    assert Fields(Join([])) == [] && Join([]) == [];
    hide IsSpace, Fields, Join;
    if words != [] {
      var init, w := words[..|words| - 1], words[|words| - 1];
      assert words == init + [w] && IsWord(w);
      var v, c := w[..|w| - 1], w[|w| - 1];
      assert w == v + [c] && !IsSpace(c);
      JoinMore(init, w);
      if v == [] {
        FieldsOfJoin(init);
        StartWord(init, c);
      } else {
        var shorter := init + [v];
        assert forall x :: x in shorter ==> IsWord(x);
        FieldsOfJoin(shorter);
        JoinMore(init, v);
        ContinueWord(init, v, c);
      }
    }
  }

  lemma StartWord(init: seq<string>, c: char)
    requires Fields(Join(init)) == init && !IsSpace(c)
    ensures var text := if init == [] then [c] else Join(init) + [' '] + [c];
            Fields(text) == init + [[c]] && text[|text| - 1] == c
  {
    var before := if init == [] then [] else Join(init) + [' '];
    assert Fields([]) == [] && Join([]) == [];
    FieldsBlank(Join(init));
    hide Fields, Join, IsSpace;
    assert Fields(before) == init;
    FieldsGrow(before, c);
    assert before == [] ==> before + [c] == [c];
  }

  lemma ContinueWord(init: seq<string>, v: string, c: char)
    requires v != [] && !IsSpace(c) && Fields(Join(init + [v])) == init + [v]
    requires Join(init + [v]) != [] && !IsSpace(Join(init + [v])[|Join(init + [v])| - 1])
    requires Join(init + [v]) == if init == [] then v else Join(init) + [' '] + v
    ensures var text := if init == [] then v + [c] else Join(init) + [' '] + (v + [c]);
            Fields(text) == init + [v + [c]] && text[|text| - 1] == c
  {
    hide Fields, Join, IsSpace;
    FieldsGrow(Join(init + [v]), c);
    assert Join(init + [v]) + [c] == if init == [] then v + [c] else Join(init) + [' '] + (v + [c]);
    assert (init + [v])[..|init|] == init;
  }

  /** A white space character ends a word wherever it stands. */
  lemma {:induction false} FieldsSplit(a: string, s: char, b: string)
    requires IsSpace(s)
    ensures Fields(a + [s] + b) == Fields(a) + Fields(b)
  {
    var text := a + [s] + b;
    if b == [] {
      assert text == a + [s] && (a + [s])[..|a|] == a;
    } else {
      var n := |b| - 1;
      var front, c := a + [s] + b[..n], b[n];
      assert text == front + [c] && b == b[..n] + [c] && text[..|text| - 1] == front;
      FieldsSplit(a, s, b[..n]);
      hide IsSpace;
      if !IsSpace(c) {
        FieldsGrow(front, c);
        FieldsGrow(b[..n], c);
        AppendWord(Fields(a), Fields(b[..n]), c);
      }
    }
  }

  lemma AppendWord(a: seq<string>, b: seq<string>, c: char)
    ensures b != [] ==> (a + b)[..|a + b| - 1] + [(a + b)[|a + b| - 1] + [c]] == a + (b[..|b| - 1] + [b[|b| - 1] + [c]])
  {
  }

  /** A word is its only word. With `FieldsSplit` this says what the words of any text are. */
  lemma {:induction false} FieldsWord(w: string)
    requires IsWord(w)
    ensures Fields(w) == [w]
    decreases |w|
  {
    hide IsSpace;
    var n := |w| - 1;
    assert w == w[..n] + [w[n]];
    if n > 0 {
      FieldsWord(w[..n]);
    }
  }

  function Norm(i: Item): Item {
    i.(text := Join(Fields(i.text)))
  }

  lemma NormTwice(i: Item)
    ensures Norm(Norm(i)) == Norm(i)
  {
    FieldsOfJoin(Fields(i.text));
  }

  function Key(i: Item): string {
    i.kind + ['\0'] + i.text
  }

  function Keys(items: seq<Item>): set<string> {
    set i | i in items :: Key(i)
  }

  lemma KeysGrow(items: seq<Item>, x: Item)
    ensures Keys(items + [x]) == Keys(items) + {Key(x)}
  {
    hide Key;
  }

  /** No two items with the same kind and text. */
  ghost predicate NoRepeats(items: seq<Item>) {
    forall i, j :: 0 <= i < j < |items| ==> Key(items[i]) != Key(items[j])
  }

  /** The normalised items with some text, each at its first occurrence. */
  function Firsts(items: seq<Item>): seq<Item> {
    if items == [] then []
    else
      var r, x := Firsts(items[..|items| - 1]), Norm(items[|items| - 1]);
      if x.text == [] || Key(x) in Keys(r) then r else r + [x]
  }

  lemma {:induction false} FirstsNoRepeats(items: seq<Item>)
    ensures NoRepeats(Firsts(items))
  {
    hide Key, Norm;
    if items != [] {
      FirstsNoRepeats(items[..|items| - 1]);
    }
  }

  ghost predicate FirstAt(items: seq<Item>, k: nat, x: Item)
    requires k < |items|
  {
    Norm(items[k]) == x && x.text != [] && forall j :: 0 <= j < k && Norm(items[j]).text != []
                                                       ==> Key(Norm(items[j])) != Key(x)
  }

  ghost predicate OccursFirst(items: seq<Item>, x: Item) {
    exists k :: 0 <= k < |items| && FirstAt(items, k, x)
  }

  lemma OccursLater(items: seq<Item>, last: Item, x: Item)
    requires OccursFirst(items, x)
    ensures OccursFirst(items + [last], x)
  {
    hide Norm, Key;
    var k :| 0 <= k < |items| && FirstAt(items, k, x);
    assert FirstAt(items + [last], k, x);
  }

  lemma OccursNow(items: seq<Item>, last: Item)
    requires Norm(last).text != []
    requires forall j :: 0 <= j < |items| && Norm(items[j]).text != [] ==> Key(Norm(items[j])) != Key(Norm(last))
    ensures OccursFirst(items + [last], Norm(last))
  {
    hide Norm, Key;
    assert FirstAt(items + [last], |items|, Norm(last));
  }

  /** Nothing with text is lost. */
  lemma FirstsCover(items: seq<Item>)
    ensures forall k :: 0 <= k < |items| && Norm(items[k]).text != [] ==> Key(Norm(items[k])) in Keys(Firsts(items))
  {
    hide Norm, Key, Keys, Firsts;
    forall k | 0 <= k < |items| && Norm(items[k]).text != [] ensures Key(Norm(items[k])) in Keys(Firsts(items)) {
      ItemCovered(items, k);
    }
  }

  lemma {:induction false} ItemCovered(items: seq<Item>, k: nat)
    requires k < |items| && Norm(items[k]).text != []
    ensures Key(Norm(items[k])) in Keys(Firsts(items))
    decreases |items|
  {
    hide *;
    var n := |items| - 1;
    FirstsLast(items);
    if k < n {
      assert items[..n][k] == items[k];
      ItemCovered(items[..n], k);
    }
  }

  lemma FirstsLast(items: seq<Item>)
    requires items != []
    ensures var last := Norm(items[|items| - 1]);
            && Keys(Firsts(items[..|items| - 1])) <= Keys(Firsts(items))
            && (last.text != [] ==> Key(last) in Keys(Firsts(items)))
  {
    hide Norm, Key, Keys;
    var n := |items| - 1;
    KeysGrow(Firsts(items[..n]), Norm(items[n]));
  }

  /** What is kept is normalised, and the first occurrence of its key. */
  lemma {:induction false} FirstsAreFirst(items: seq<Item>)
    ensures forall x :: x in Firsts(items) ==> OccursFirst(items, x)
  {
    if items != [] {
      var n := |items| - 1;
      var rest := items[..n];
      assert items == rest + [items[n]];
      FirstsAreFirst(rest);
      FirstsCover(rest);
      hide Norm, Key, Keys, OccursFirst;
      forall x | x in Firsts(items) ensures OccursFirst(items, x) {
        if x in Firsts(rest) {
          OccursLater(rest, items[n], x);
        } else {
          OccursNow(rest, items[n]);
        }
      }
    }
  }

  predicate SameText(a: Item, b: Item) {
    a.kind == b.kind && a.text == b.text
  }

  /** Kinds without a zero character make the joined key unambiguous. */
  lemma KeyDetermines(a: Item, b: Item)
    requires Key(a) == Key(b) && '\0' !in a.kind && '\0' !in b.kind
    ensures SameText(a, b)
  {
    var k := Key(a);
    assert k[|a.kind|] == '\0' && k[|b.kind|] == '\0';
    assert forall i :: 0 <= i < |a.kind| ==> k[i] == a.kind[i] && k[i] != '\0';
    assert forall i :: 0 <= i < |b.kind| ==> k[i] == b.kind[i] && k[i] != '\0';
    assert |a.kind| == |b.kind|;
    assert a.kind == k[..|a.kind|] == b.kind;
    assert a.text == k[|a.kind| + 1..] == b.text;
  }

  /** Some kept item has the kind and text. */
  ghost predicate IsKept(items: seq<Item>, x: Item) {
    exists y :: y in Firsts(items) && SameText(y, x)
  }

  ghost predicate Unambiguous(items: seq<Item>) {
    forall i, j :: (0 <= i < |items| && 0 <= j < |items| && Norm(items[i]).text != [] && Norm(items[j]).text != []
                    && Key(Norm(items[i])) == Key(Norm(items[j])))
                   ==> SameText(Norm(items[i]), Norm(items[j]))
  }

  lemma KeptOfKey(items: seq<Item>, k: nat) returns (y: Item)
    requires k < |items| && Norm(items[k]).text != []
    ensures y in Firsts(items) && Key(y) == Key(Norm(items[k]))
    ensures exists i :: 0 <= i < |items| && Norm(items[i]) == y && y.text != []
  {
    FirstsCover(items);
    FirstsAreFirst(items);
    hide Norm, Key, Firsts;
    y :| y in Firsts(items) && Key(y) == Key(Norm(items[k]));
    assert OccursFirst(items, y);
  }

  /** Every kind and text of the input is kept exactly when no two items are told apart only by
      where the separating zero character of the key stands. */
  lemma NothingLostIff(items: seq<Item>)
    ensures (forall k :: 0 <= k < |items| && Norm(items[k]).text != [] ==> IsKept(items, Norm(items[k])))
            <==> Unambiguous(items)
  {
    if Unambiguous(items) {
      forall k | 0 <= k < |items| && Norm(items[k]).text != [] ensures IsKept(items, Norm(items[k])) {
        var y := KeptOfKey(items, k);
        hide Norm, Key, Firsts;
      }
    }
    if forall k :: 0 <= k < |items| && Norm(items[k]).text != [] ==> IsKept(items, Norm(items[k])) {
      forall i, j | 0 <= i < |items| && 0 <= j < |items| && Norm(items[i]).text != [] && Norm(items[j]).text != []
                    && Key(Norm(items[i])) == Key(Norm(items[j]))
        ensures SameText(Norm(items[i]), Norm(items[j]))
      {
        hide Norm, Firsts;
        var x :| x in Firsts(items) && SameText(x, Norm(items[i]));
        var y :| y in Firsts(items) && SameText(y, Norm(items[j]));
        FirstsNoRepeats(items);
        OneOfKey(Firsts(items), x, y);
      }
    }
  }

  lemma OneOfKey(items: seq<Item>, x: Item, y: Item)
    requires NoRepeats(items) && x in items && y in items && Key(x) == Key(y)
    ensures x == y
  {
    hide Key;
    var i :| 0 <= i < |items| && items[i] == x;
    var j :| 0 <= j < |items| && items[j] == y;
  }

  lemma FirstsGrow(items: seq<Item>, item: Item)
    ensures var r, x := Firsts(items), Norm(item);
            Firsts(items + [item]) == if x.text == [] || Key(x) in Keys(r) then r else r + [x]
  {
    assert (items + [item])[..|items|] == items;
  }

  /** After the first i items of a block. */
  ghost predicate Compacted(b: Block, before: seq<Item>, i: nat, items: seq<Item>, seen: set<string>)
    requires i <= |b.items|
  {
    && Firsts(before + b.items[..i]) == Firsts(before) + items && seen == Keys(Firsts(before) + items)
    && FromBlock(Norm, Block(b.section, items), b)
  }

  lemma CompactedNext(b: Block, before: seq<Item>, i: nat, items: seq<Item>, seen: set<string>)
    requires i < |b.items| && Compacted(b, before, i, items, seen)
    ensures var x := Norm(b.items[i]);
            if x.text == [] || Key(x) in seen then Compacted(b, before, i + 1, items, seen)
            else Compacted(b, before, i + 1, items + [x], seen + {Key(x)})
  {
    var x, r := Norm(b.items[i]), Firsts(before);
    assert before + b.items[..i + 1] == (before + b.items[..i]) + [b.items[i]];
    FirstsGrow(before + b.items[..i], b.items[i]);
    hide Norm, Key, Keys, Firsts, FromBlock;
    KeysGrow(r + items, x);
    assert r + (items + [x]) == (r + items) + [x];
    FromBlockGrow(Norm, b.section, items, b, i);
  }

  /** One block's items, less those that were seen. */
  method CompactItems(b: Block, start: set<string>, ghost before: seq<Item>)
    returns (items: seq<Item>, seen: set<string>)
    requires start == Keys(Firsts(before))
    ensures Firsts(before + b.items) == Firsts(before) + items && seen == Keys(Firsts(before + b.items))
    ensures FromBlock(Norm, Block(b.section, items), b)
  {
    seen, items := start, [];
    assert Compacted(b, before, 0, items, seen) by {
      assert before + b.items[..0] == before && Firsts(before) + [] == Firsts(before);
    }
    hide *;
    for i := 0 to |b.items|
      invariant Compacted(b, before, i, items, seen)
    {
      var item := Norm(b.items[i]);
      CompactedNext(b, before, i, items, seen);
      if item.text != "" && Key(item) !in seen {
        seen := seen + {Key(item)};
        items := items + [item];
      }
    }
    CompactedDone(b, before, items, seen);
  }

  lemma CompactedDone(b: Block, before: seq<Item>, items: seq<Item>, seen: set<string>)
    requires Compacted(b, before, |b.items|, items, seen)
    ensures Firsts(before + b.items) == Firsts(before) + items && seen == Keys(Firsts(before + b.items))
    ensures FromBlock(Norm, Block(b.section, items), b)
  {
    assert b.items[..|b.items|] == b.items;
  }

  /** `compactBlocks`: white space is normalised, repeats and blocks without items are dropped. */
  method CompactBlocks(blocks: seq<Block>) returns (out: seq<Block>)
    ensures Flatten(out) == Firsts(Flatten(blocks)) && Within(Norm, out, blocks)
    ensures forall b :: b in out ==> b.items != []
  {
    out := [];
    var seen: set<string> := {};
    assert Firsts([]) == [] && Keys([]) == {} && Within(Norm, [], []);
    hide Norm, FromBlock, Within, Firsts, Keys, Key;
    for i := 0 to |blocks|
      invariant Flatten(out) == Firsts(Flatten(blocks[..i])) && seen == Keys(Flatten(out))
      invariant Within(Norm, out, blocks[..i]) && forall b :: b in out ==> b.items != []
    {
      var b := blocks[i];
      assert blocks[..i + 1] == blocks[..i] + [b];
      assert blocks[..i + 1][..i] == blocks[..i];
      ghost var before := Flatten(blocks[..i]);
      var items;
      items, seen := CompactItems(b, seen, before);
      assert Flatten(blocks[..i + 1]) == before + b.items;
      if |items| > 0 {
        WithinKeep(Norm, out, blocks[..i], Block(b.section, items), b);
        assert (out + [Block(b.section, items)])[..|out|] == out;
        out := out + [Block(b.section, items)];
      } else {
        WithinDrop(Norm, out, blocks[..i], b);
      }
    }
    assert blocks[..|blocks|] == blocks;
  }

  /** Compacting once is enough. */
  lemma {:induction false} FirstsTwice(items: seq<Item>)
    requires NoRepeats(items) && forall x :: x in items ==> Norm(x) == x && x.text != []
    ensures Firsts(items) == items
  {
    hide Norm, Key;
    if items != [] {
      var n := |items| - 1;
      var rest, x := items[..n], items[n];
      FirstsTwice(rest);
      assert items == rest + [x] && x in items;
      FirstsGrow(rest, x);
      assert forall y :: y in rest ==> Key(y) != Key(x);
      assert Key(x) !in Keys(rest);
      hide Firsts, Keys;
    }
  }

  lemma CompactIdempotent(blocks: seq<Block>, once: seq<Block>, twice: seq<Block>)
    requires Flatten(once) == Firsts(Flatten(blocks)) && Flatten(twice) == Firsts(Flatten(once))
    ensures Flatten(twice) == Flatten(once)
  {
    var items := Flatten(blocks);
    FirstsNoRepeats(items);
    FirstsAreFirst(items);
    forall x | x in Firsts(items) ensures Norm(x) == x && x.text != [] {
      assert OccursFirst(items, x);
      var k :| 0 <= k < |items| && FirstAt(items, k, x);
      NormTwice(items[k]);
    }
    FirstsTwice(Firsts(items));
  }
}
