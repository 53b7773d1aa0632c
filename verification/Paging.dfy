/** `callPaginated` and `applyBudget`: pages of a ranked list under a token budget. */
module Paging {
  import opened Order

  const DEFAULT_LIMIT := 20
  const MAX_LIMIT := 200
  const MAX_FETCH := 1000

  /** A row is told apart by its id; shaping may rewrite its content only. */
  datatype Row = Row(id: string, content: string)

  /** The arguments that matter for paging. */
  datatype Query = Query(limit: Option<int>, internalFetch: bool, maxTokens: int, fullDetail: bool)

  /** How the registry shapes a page and estimates the size of a row. */
  datatype Shaping = Shaping(shape: seq<Row> -> seq<Row>, tokens: Row -> nat)

  ghost predicate KeepsIds(sh: Shaping) {
    forall page :: SameIds(sh.shape(page), page)
  }

  predicate SameIds(a: seq<Row>, b: seq<Row>) {
    |a| == |b| && forall i :: 0 <= i < |a| ==> a[i].id == b[i].id
  }

  datatype Response = TooDeep | Page(rows: seq<Row>, offset: nat, hasMore: bool, nextOffset: nat, truncated: bool)

  function LimitOf(q: Query): (n: nat)
    ensures 1 <= n <= if q.internalFetch then MAX_FETCH else MAX_LIMIT
    ensures q.limit.Some? && 1 <= q.limit.value <= (if q.internalFetch then MAX_FETCH else MAX_LIMIT)
            ==> n == q.limit.value
    ensures q.limit.None? || q.limit.value <= 0 ==> n == 20
    ensures q.limit.Some? && q.limit.value > (if q.internalFetch then 1000 else 200)
            ==> n == if q.internalFetch then 1000 else 200
  {
    var n := if q.limit.Some? then q.limit.value else DEFAULT_LIMIT;
    var max := if q.internalFetch then MAX_FETCH else MAX_LIMIT;
    if n <= 0 then DEFAULT_LIMIT else if n > max then max else n
  }

  // ----- the budget

  function Total(sh: Shaping, rows: seq<Row>): nat {
    if rows == [] then 0 else Total(sh, rows[..|rows| - 1]) + sh.tokens(rows[|rows| - 1])
  }

  lemma {:induction false} TotalGrows(sh: Shaping, rows: seq<Row>, i: nat, j: nat)
    requires i <= j <= |rows|
    ensures Total(sh, rows[..i]) <= Total(sh, rows[..j])
  {
    if i < j {
      assert rows[..j][..j - 1] == rows[..j - 1];
      TotalGrows(sh, rows, i, j - 1);
    }
  }

  /** The total is the sum of the tokens of the rows, however they are split. */
  lemma {:induction false} TotalIsSum(sh: Shaping, a: seq<Row>, b: seq<Row>, x: Row)
    ensures Total(sh, a + b) == Total(sh, a) + Total(sh, b) && Total(sh, [x]) == sh.tokens(x)
  {
    assert [x][..0] == [];
    if b == [] {
      assert a + b == a;
    } else {
      assert (a + b)[..|a + b| - 1] == a + b[..|b| - 1];
      TotalIsSum(sh, a, b[..|b| - 1], x);
    }
  }

  /** A prefix of k rows fits, or is the one row that is never cut. */
  predicate Allowed(sh: Shaping, rows: seq<Row>, maxTokens: int, k: nat)
    requires k <= |rows|
  {
    maxTokens <= 0 || k <= 1 || Total(sh, rows[..k]) <= maxTokens
  }

  /** The longest allowed prefix. */
  ghost predicate LongestAllowed(sh: Shaping, rows: seq<Row>, maxTokens: int, k: nat) {
    k <= |rows| && Allowed(sh, rows, maxTokens, k) && forall j :: k < j <= |rows| ==> !Allowed(sh, rows, maxTokens, j)
  }

  lemma LongestIsUnique(sh: Shaping, rows: seq<Row>, maxTokens: int, k: nat, l: nat)
    requires LongestAllowed(sh, rows, maxTokens, k) && LongestAllowed(sh, rows, maxTokens, l)
    ensures k == l
  {
    hide Allowed;
  }

  /** `applyBudget`: the longest prefix that fits, but at least one row if there is any. */
  method ApplyBudget(sh: Shaping, rows: seq<Row>, maxTokens: int) returns (kept: seq<Row>, cut: bool)
    ensures kept <= rows && LongestAllowed(sh, rows, maxTokens, |kept|)
    ensures cut <==> kept != rows
    ensures rows != [] ==> kept != []
  {
    if maxTokens <= 0 {
      return rows, false;
    }
    var used := 0;
    for i := 0 to |rows|
      invariant used == Total(sh, rows[..i]) && Allowed(sh, rows, maxTokens, i)
    {
      assert rows[..i + 1][..i] == rows[..i];
      used := used + sh.tokens(rows[i]);
      if used > maxTokens && i > 0 {
        forall j | i < j <= |rows| ensures !Allowed(sh, rows, maxTokens, j) {
          TotalGrows(sh, rows, i + 1, j);
        }
        return rows[..i], true;
      }
    }
    return rows, false;
  }

  /** A budget cut exists for every page. */
  lemma {:induction false} LongestExists(sh: Shaping, rows: seq<Row>, maxTokens: int, k: nat)
    requires k <= |rows| && forall j :: k < j <= |rows| ==> !Allowed(sh, rows, maxTokens, j)
    ensures exists l: nat :: l <= k && LongestAllowed(sh, rows, maxTokens, l)
    decreases k
  {
    if Allowed(sh, rows, maxTokens, k) {
      assert LongestAllowed(sh, rows, maxTokens, k);
    } else {
      LongestExists(sh, rows, maxTokens, k - 1);
    }
  }

  // ----- one page

  /** The page at an offset of the ranked list, cut after k rows. */
  ghost predicate IsPage(sh: Shaping, q: Query, ranked: seq<Row>, offset: nat, r: Response) {
    if offset + LimitOf(q) + 1 > MAX_FETCH then r == TooDeep
    else
      var window := Window(q, ranked, offset);
      var shaped := if q.fullDetail then window else sh.shape(window);
      && r.Page? && r.offset == Start(ranked, offset) && r.rows <= shaped
      && LongestAllowed(sh, shaped, q.maxTokens, |r.rows|)
      && r.nextOffset == r.offset + |r.rows|
      && (r.hasMore <==> r.nextOffset < |ranked|)
      && (r.truncated <==> |r.rows| < |shaped|)
  }

  /** The same, row by row: refused past the depth limit; else the rows from the offset on, as many as asked
      for or left, fewer only for the budget, and told where to go on. */
  ghost predicate PageIs(q: Query, ranked: seq<Row>, offset: nat, r: Response) {
    if offset + LimitOf(q) > 999 then r == TooDeep
    else
      && r.Page? && r.offset == Min(offset, |ranked|)
      && var full := Min(LimitOf(q), |ranked| - r.offset);
      && |r.rows| <= full && r.nextOffset == r.offset + |r.rows|
      && (forall i :: 0 <= i < |r.rows| ==> && r.rows[i].id == ranked[r.offset + i].id
                                            && (q.fullDetail ==> r.rows[i] == ranked[r.offset + i]))
      && (q.maxTokens <= 0 ==> |r.rows| == full) && (full > 0 ==> |r.rows| > 0)
      && (r.truncated <==> |r.rows| < full) && (r.hasMore <==> r.nextOffset < |ranked|)
  }

  /** Without a budget nothing is cut, and the first row never is. */
  lemma CutOnlyForBudget(sh: Shaping, rows: seq<Row>, maxTokens: int, k: nat)
    requires LongestAllowed(sh, rows, maxTokens, k)
    ensures (maxTokens <= 0 ==> k == |rows|) && (rows != [] ==> k > 0)
  {
    assert k < |rows| ==> !Allowed(sh, rows, maxTokens, k + 1);
  }

  function Shaped(sh: Shaping, q: Query, ranked: seq<Row>, offset: nat): seq<Row> {
    if q.fullDetail then Window(q, ranked, offset) else sh.shape(Window(q, ranked, offset))
  }

  /** Shaping a window leaves as many rows, with the ids of the ranking. */
  lemma ShapedRows(sh: Shaping, q: Query, ranked: seq<Row>, offset: nat)
    requires KeepsIds(sh)
    ensures var rows, from := Shaped(sh, q, ranked, offset), Min(offset, |ranked|);
            && |rows| == Min(LimitOf(q), |ranked| - from)
            && forall i :: 0 <= i < |rows| ==> && rows[i].id == ranked[from + i].id
                                               && (q.fullDetail ==> rows[i] == ranked[from + i])
  {
    hide LimitOf;
    var window := Window(q, ranked, offset);
    assert SameIds(sh.shape(window), window);
    assert forall i :: 0 <= i < |window| ==> window[i] == ranked[Start(ranked, offset) + i];
  }

  lemma PageMeans(sh: Shaping, q: Query, ranked: seq<Row>, offset: nat, r: Response)
    requires KeepsIds(sh) && IsPage(sh, q, ranked, offset, r)
    ensures PageIs(q, ranked, offset, r)
  {
    hide LongestAllowed, Allowed, LimitOf, Window, KeepsIds;
    if offset + LimitOf(q) + 1 <= MAX_FETCH {
      var rows := Shaped(sh, q, ranked, offset);
      ShapedRows(sh, q, ranked, offset);
      CutOnlyForBudget(sh, rows, q.maxTokens, |r.rows|);
      assert forall i :: 0 <= i < |r.rows| ==> r.rows[i] == rows[i];
    }
  }

  function Start(ranked: seq<Row>, offset: nat): nat {
    if offset > |ranked| then |ranked| else offset
  }

  function Window(q: Query, ranked: seq<Row>, offset: nat): seq<Row> {
    var from := Start(ranked, offset);
    ranked[from..Start(ranked, from + LimitOf(q))]
  }

  /** A tool's handler answers with the first `limit` rows of its ranking. */
  function Handler(ranked: seq<Row>, limit: nat): seq<Row> {
    ranked[..Start(ranked, limit)]
  }

  /** `callPaginated`: one more row than asked for is fetched to tell whether there are more. */
  method CallPaginated(sh: Shaping, q: Query, ranked: seq<Row>, requested: int) returns (r: Response)
    requires KeepsIds(sh)
    ensures IsPage(sh, q, ranked, if requested < 0 then 0 else requested, r)
    ensures PageIs(q, ranked, if requested < 0 then 0 else requested, r)
  {
    var from := if requested < 0 then 0 else requested;
    r := FetchPage(sh, q, ranked, from);
    hide IsPage, PageIs;
    PageMeans(sh, q, ranked, from, r);
  }

  /** The page at an offset that is not negative. */
  method FetchPage(sh: Shaping, q: Query, ranked: seq<Row>, requested: nat) returns (r: Response)
    requires KeepsIds(sh)
    ensures IsPage(sh, q, ranked, requested, r)
  {
    var offset := requested;
    var limit := LimitOf(q);
    if offset + limit + 1 > MAX_FETCH {
      return TooDeep;
    }
    var list := Handler(ranked, LimitOf(Query(Some(offset + limit + 1), true, q.maxTokens, q.fullDetail)));
    var hasMore := |list| > offset + limit;
    if offset > |list| {
      offset := |list|;
    }
    var end := offset + limit;
    if end > |list| {
      end := |list|;
    }
    var page := list[offset..end];
    assert page == Window(q, ranked, offset);
    if !q.fullDetail {
      assert SameIds(sh.shape(page), page);
      page := sh.shape(page);
    }
    var kept, cut := ApplyBudget(sh, page, q.maxTokens);
    if cut {
      page := kept;
      end := offset + |kept|;
      hasMore := true;
    }
    r := Page(page, offset, hasMore, end, cut);
  }

  // ----- walking by next_offset

  lemma PageFacts(sh: Shaping, q: Query, ranked: seq<Row>, offset: nat, r: Response)
    requires KeepsIds(sh) && IsPage(sh, q, ranked, offset, r) && r.Page?
    ensures r.offset <= r.nextOffset <= |ranked| && SameIds(r.rows, ranked[r.offset..r.nextOffset])
    ensures r.offset == Start(ranked, offset) && if r.hasMore then r.nextOffset > offset else r.nextOffset == |ranked|
  {
    var window := Window(q, ranked, offset);
    assert SameIds(sh.shape(window), window);
    var shaped := if q.fullDetail then window else sh.shape(window);
    assert window != [] ==> Allowed(sh, shaped, q.maxTokens, 1);
    assert forall i :: 0 <= i < |r.rows| ==> r.rows[i] == shaped[i] && ranked[r.offset..r.nextOffset][i] == window[i];
  }

  /** The pages a caller gets by following next_offset from an offset. */
  ghost predicate IsWalk(sh: Shaping, q: Query, ranked: seq<Row>, offset: nat, pages: seq<Response>)
    decreases |pages|
  {
    && pages != [] && IsPage(sh, q, ranked, offset, pages[0])
    && if pages[0].Page? && pages[0].hasMore then IsWalk(sh, q, ranked, pages[0].nextOffset, pages[1..])
       else |pages| == 1
  }

  /** The rows of all pages. */
  function AllRows(pages: seq<Response>): seq<Row> {
    if pages == [] then []
    else (if pages[0].Page? then pages[0].rows else []) + AllRows(pages[1..])
  }

  /** Offsets along a walk strictly increase and stay below the depth limit, so there are at most MAX_FETCH pages. */
  lemma {:induction false} WalkAdvances(sh: Shaping, q: Query, ranked: seq<Row>, offset: nat, pages: seq<Response>)
    requires KeepsIds(sh) && IsWalk(sh, q, ranked, offset, pages)
    ensures forall i :: 0 <= i < |pages| && pages[i].Page? && (i > 0 || offset <= |ranked|)
                        ==> pages[i].offset >= offset
    ensures forall i, j :: 0 <= i < j < |pages| && pages[j].Page?
                           ==> pages[i].Page? && pages[i].offset < pages[j].offset
    ensures offset <= MAX_FETCH ==> |pages| <= MAX_FETCH - offset + 1
    decreases |pages|
  {
    if pages[0].Page? && pages[0].hasMore {
      PageFacts(sh, q, ranked, offset, pages[0]);
      WalkAdvances(sh, q, ranked, pages[0].nextOffset, pages[1..]);
    }
  }

  /** The pages of a walk join up: no row is missing or repeated up to where the walk ends, and it ends
      at the end of the list or where the depth limit refuses the next page. */
  lemma {:induction false} WalkCovers(sh: Shaping, q: Query, ranked: seq<Row>, offset: nat, pages: seq<Response>)
    returns (covered: nat)
    requires KeepsIds(sh) && IsWalk(sh, q, ranked, offset, pages) && offset <= |ranked|
    ensures offset <= covered <= |ranked| && SameIds(AllRows(pages), ranked[offset..covered])
    ensures if pages[|pages| - 1] == TooDeep then covered + LimitOf(q) + 1 > MAX_FETCH else covered == |ranked|
    decreases |pages|
  {
    hide IsPage, LimitOf, SameIds, Window, KeepsIds;
    var r, rest := pages[0], pages[1..];
    if r.Page? && r.hasMore {
      PageFacts(sh, q, ranked, offset, r);
      covered := WalkCovers(sh, q, ranked, r.nextOffset, rest);
      assert rest[|rest| - 1] == pages[|pages| - 1];
      JoinPage(r.rows, AllRows(rest), ranked, offset, r.nextOffset, covered);
    } else {
      covered := LastCovers(sh, q, ranked, offset, r);
      assert AllRows(rest) == [];
    }
  }

  lemma JoinPage(a: seq<Row>, b: seq<Row>, ranked: seq<Row>, i: nat, j: nat, k: nat)
    requires i <= j <= k <= |ranked| && SameIds(a, ranked[i..j]) && SameIds(b, ranked[j..k])
    ensures SameIds(a + b, ranked[i..k])
  {
    assert ranked[i..j] + ranked[j..k] == ranked[i..k];
  }

  lemma LastCovers(sh: Shaping, q: Query, ranked: seq<Row>, offset: nat, r: Response) returns (covered: nat)
    requires KeepsIds(sh) && IsPage(sh, q, ranked, offset, r) && !(r.Page? && r.hasMore) && offset <= |ranked|
    ensures offset <= covered <= |ranked| && SameIds((if r.Page? then r.rows else []) + [], ranked[offset..covered])
    ensures if r == TooDeep then covered + LimitOf(q) + 1 > MAX_FETCH else covered == |ranked|
  {
    if r.Page? {
      PageFacts(sh, q, ranked, offset, r);
      covered := r.nextOffset;
      assert r.rows + [] == r.rows;
    } else {
      covered := offset;
    }
  }

  /** Following next_offset comes to an end from every offset. */
  lemma {:induction false} WalkEnds(sh: Shaping, q: Query, ranked: seq<Row>, offset: nat)
    requires KeepsIds(sh)
    ensures exists pages :: IsWalk(sh, q, ranked, offset, pages)
    decreases if offset <= MAX_FETCH then MAX_FETCH - offset else 0
  {
    if offset + LimitOf(q) + 1 > MAX_FETCH {
      assert IsWalk(sh, q, ranked, offset, [TooDeep]);
    } else {
      var r := SomePage(sh, q, ranked, offset);
      PageFacts(sh, q, ranked, offset, r);
      if r.hasMore {
        WalkEnds(sh, q, ranked, r.nextOffset);
        var rest :| IsWalk(sh, q, ranked, r.nextOffset, rest);
        assert ([r] + rest)[1..] == rest;
        assert IsWalk(sh, q, ranked, offset, [r] + rest);
      } else {
        assert IsWalk(sh, q, ranked, offset, [r]);
      }
    }
  }

  lemma SomePage(sh: Shaping, q: Query, ranked: seq<Row>, offset: nat) returns (r: Response)
    requires KeepsIds(sh) && offset + LimitOf(q) + 1 <= MAX_FETCH
    ensures r.Page? && IsPage(sh, q, ranked, offset, r)
  {
    var window := Window(q, ranked, offset);
    assert SameIds(sh.shape(window), window);
    var shaped := if q.fullDetail then window else sh.shape(window);
    LongestExists(sh, shaped, q.maxTokens, |shaped|);
    hide Allowed;
    var l: nat :| l <= |shaped| && LongestAllowed(sh, shaped, q.maxTokens, l);
    var from := Start(ranked, offset);
    r := Page(shaped[..l], from, from + l < |ranked|, from + l, l < |shaped|);
  }
}
