/** Page parameters, page metadata, and a reader who follows the pages. */
module Pagination {
  import opened Common

  const DEFAULT_PAGE := 1
  const DEFAULT_LIMIT := 20
  const MAX_LIMIT := 100

  datatype Params = Params(page: int, limit: int, offset: int)

  datatype Meta = Meta(page: int, limit: int, totalCount: int, totalPages: int, hasMore: bool)

  /** None is a query value that is missing or not a number. */
  function IntOr(query: Option<int>, default: int): int {
    if query.Some? then query.value else default
  }

  function Parse(pageQuery: Option<int>, limitQuery: Option<int>): Params {
    var page := IntOr(pageQuery, DEFAULT_PAGE);
    var limit := IntOr(limitQuery, DEFAULT_LIMIT);
    var page1 := if page < 1 then DEFAULT_PAGE else page;
    var limit1 := if limit < 1 then DEFAULT_LIMIT else limit;
    var limit2 := if limit1 > MAX_LIMIT then MAX_LIMIT else limit1;
    Params(page1, limit2, (page1 - 1) * limit2)
  }

  function Describe(p: Params, totalCount: nat): Meta
    requires p.limit > 0
  {
    var whole := totalCount / p.limit;
    var totalPages := if totalCount % p.limit > 0 then whole + 1 else whole;
    Meta(p.page, p.limit, totalCount, totalPages, p.page < totalPages)
  }

  /** Whatever the query says, the parameters are usable, and the offset counts the earlier pages. */
  lemma ParseIsUsable(pageQuery: Option<int>, limitQuery: Option<int>)
    ensures var p := Parse(pageQuery, limitQuery);
            && p.page >= 1 && 1 <= p.limit <= MAX_LIMIT && p.offset >= 0 && p.offset == (p.page - 1) * p.limit
            && (pageQuery.Some? && pageQuery.value >= 1 ==> p.page == pageQuery.value)
            && (limitQuery.Some? && 1 <= limitQuery.value <= MAX_LIMIT ==> p.limit == limitQuery.value)
    ensures var p := Parse(pageQuery, limitQuery);
            && (pageQuery.None? || pageQuery.value < 1 ==> p.page == 1)
            && (limitQuery.None? || limitQuery.value < 1 ==> p.limit == 20)
            && (limitQuery.Some? && limitQuery.value > 100 ==> p.limit == 100)
  {
    var p := Parse(pageQuery, limitQuery);
    ScaleUp(0, p.page - 1, p.limit);
  }

  lemma CeilingOfQuotient(total: nat, limit: nat, page: int)
    requires limit > 0
    ensures var pages := total / limit + if total % limit > 0 then 1 else 0;
            page < pages <==> page * limit < total
  {
    var q := total / limit;
    QuotientBounds(total, limit);
    if page < q {
      ScaleUp(page + 1, q, limit);
      OneMore(page, limit);
    } else if page > q {
      ScaleUp(q + 1, page, limit);
      OneMore(q, limit);
    }
  }

  /** There is more exactly when the list goes on after this page. */
  lemma HasMoreExactly(p: Params, total: nat)
    requires p.limit > 0 && p.offset == (p.page - 1) * p.limit
    ensures Describe(p, total).hasMore <==> p.offset + p.limit < total
  {
    CeilingOfQuotient(total, p.limit, p.page);
    OneMore(p.page - 1, p.limit);
  }

  // ---- reading a list page by page ----

  function PageOf<T>(items: seq<T>, p: Params): seq<T>
    requires p.limit > 0 && p.offset >= 0
  {
    var from := Min(p.offset, |items|);
    items[from..Min(from + p.limit, |items|)]
  }

  /**
   The query skips offset rows and hands out at most limit of those that follow, which are
   scanned one by one; the count is that of all rows.
   */
  method GetHistory<T>(ordered: seq<T>, p: Params) returns (rows: seq<T>, total: nat)
    requires p.limit > 0 && p.offset >= 0
    ensures |rows| == Max(0, Min(p.limit, |ordered| - p.offset)) && total == |ordered|
    ensures forall i | 0 <= i < |rows| :: rows[i] == ordered[p.offset + i]
    ensures rows == PageOf(ordered, p)
  {
    rows := [];
    var next := p.offset;
    while next < |ordered| && |rows| < p.limit
      invariant next == p.offset + |rows| && |rows| <= Max(0, Min(p.limit, |ordered| - p.offset))
      invariant forall i | 0 <= i < |rows| :: rows[i] == ordered[p.offset + i]
      decreases |ordered| - next
    {
      rows := rows + [ordered[next]];
      next := next + 1;
    }
    total := |ordered|;
  }

  function Flatten<T>(pages: seq<seq<T>>): seq<T> {
    if pages == [] then [] else pages[0] + Flatten(pages[1..])
  }

  /** How one page's parameters stand to the next one's. */
  lemma NextPage(page: nat, limitQuery: Option<int>, total: nat)
    requires page >= 1
    ensures var p, next := Parse(Some(page), limitQuery), Parse(Some(page + 1), limitQuery);
            && p.limit == next.limit > 0 && p.offset >= 0 && next.offset == p.offset + p.limit
            && p.page == page && (page == 1 ==> p.offset == 0)
            && (Describe(p, total).hasMore <==> next.offset < total)
            && Describe(p, total).totalPages == Describe(next, total).totalPages
  {
    var p := Parse(Some(page), limitQuery);
    ParseIsUsable(Some(page), limitQuery);
    ParseIsUsable(Some(page + 1), limitQuery);
    HasMoreExactly(p, total);
    OneMore(page - 1, p.limit);
  }

  /** The pages a reader gets who asks for this page and goes on while there is more. */
  function ReadFrom<T>(items: seq<T>, page: nat, limitQuery: Option<int>): seq<seq<T>>
    requires page >= 1
    decreases |items| - Parse(Some(page), limitQuery).offset
  {
    var p := Parse(Some(page), limitQuery);
    NextPage(page, limitQuery, |items|);
    [PageOf(items, p)] + if Describe(p, |items|).hasMore then ReadFrom(items, page + 1, limitQuery) else []
  }

  lemma PageAndRest<T>(items: seq<T>, p: Params)
    requires p.limit > 0 && 0 <= p.offset <= |items|
    ensures PageOf(items, p) + items[Min(p.offset + p.limit, |items|)..] == items[p.offset..]
  {
  }

  lemma {:induction false} ReadFromIsTheRest<T>(items: seq<T>, page: nat, limitQuery: Option<int>)
    requires page >= 1 && (page == 1 || Parse(Some(page), limitQuery).offset < |items|)
    ensures var p := Parse(Some(page), limitQuery);
            0 <= p.offset <= |items| && Flatten(ReadFrom(items, page, limitQuery)) == items[p.offset..]
    decreases |items| - Parse(Some(page), limitQuery).offset
  {
    var p := Parse(Some(page), limitQuery);
    NextPage(page, limitQuery, |items|);
    PageAndRest(items, p);
    var pages := ReadFrom(items, page, limitQuery);
    if Describe(p, |items|).hasMore {
      ReadFromIsTheRest(items, page + 1, limitQuery);
      assert pages[1..] == ReadFrom(items, page + 1, limitQuery);
    } else {
      assert Flatten(pages[1..]) == [];
    }
  }

  lemma {:induction false} ReadFromCounts<T>(items: seq<T>, page: nat, limitQuery: Option<int>)
    requires page >= 1 && (page == 1 || Parse(Some(page), limitQuery).offset < |items|)
    ensures |ReadFrom(items, page, limitQuery)|
            == Max(1, Describe(Parse(Some(page), limitQuery), |items|).totalPages) + 1 - page
    decreases |items| - Parse(Some(page), limitQuery).offset
  {
    var p := Parse(Some(page), limitQuery);
    NextPage(page, limitQuery, |items|);
    if Describe(p, |items|).hasMore {
      ReadFromCounts(items, page + 1, limitQuery);
    } else if page > 1 {
      NextPage(page - 1, limitQuery, |items|);
    }
  }

  /**
   Over a list that does not change, a reader who starts at page 1 and goes on while there is
   more sees every item once and in order, in as many pages as the metadata announces (one,
   empty, for an empty list).
   */
  lemma PagesPartitionTheList<T>(items: seq<T>, limitQuery: Option<int>)
    ensures Flatten(ReadFrom(items, 1, limitQuery)) == items
    ensures |ReadFrom(items, 1, limitQuery)| == Max(1, Describe(Parse(Some(1), limitQuery), |items|).totalPages)
  {
    NextPage(1, limitQuery, |items|);
    ReadFromIsTheRest(items, 1, limitQuery);
    ReadFromCounts(items, 1, limitQuery);
  }
}
