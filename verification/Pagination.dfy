/** Page parameters, the page of a list, and the summary built around it. */
module Pagination {
  import opened Prelude

  datatype Params = Params(page: int, limit: int)

  /** `parsePagination` on parameters that are absent or whole numbers: usable values pass, others are clamped. */
  function ParsePagination(page: Option<int>, limit: Option<int>): (p: Params)
    ensures p.page >= 1 && 1 <= p.limit <= 100
    ensures page.Some? && page.value >= 1 ==> p.page == page.value
    ensures page.None? || page.value < 1 ==> p.page == 1
    ensures limit.None? ==> p.limit == 20
    ensures limit.Some? && limit.value < 1 ==> p.limit == 1
    ensures limit.Some? && 1 <= limit.value <= 100 ==> p.limit == limit.value
    ensures limit.Some? && limit.value > 100 ==> p.limit == 100
  {
    Params(Max(1, if page.Some? then page.value else 1),
           Min(100, Max(1, if limit.Some? then limit.value else 20)))
  }

  datatype Summary = Summary(page: int, limit: int, total: nat, totalPages: int, hasNext: bool, hasPrevious: bool)

  /** The summary of `buildPaginatedResponse`; the quotient is rounded up. */
  function Summarize(total: nat, p: Params): Summary
    requires p.limit > 0
  {
    var totalPages := (total + p.limit - 1) / p.limit;
    Summary(p.page, p.limit, total, totalPages, p.page < totalPages, p.page > 1)
  }

  /** `skip: (page - 1) * limit, take: limit`, as every listing asks the database. */
  function Page<T>(rows: seq<T>, p: Params): seq<T>
    requires p.page >= 1 && p.limit > 0
  {
    var skip := (p.page - 1) * p.limit;
    if skip <= |rows| then rows[skip..Min(|rows|, skip + p.limit)]
    else []
  }

  /** Pages 1 to `n`, one after the other. */
  function FirstPages<T>(rows: seq<T>, limit: int, n: nat): seq<T>
    requires limit > 0
  {
    if n == 0 then [] else FirstPages(rows, limit, n - 1) + Page(rows, Params(n, limit))
  }

  lemma {:induction false} FirstPagesArePrefix<T>(rows: seq<T>, limit: int, n: nat)
    requires limit > 0
    ensures n * limit >= 0 && FirstPages(rows, limit, n) == rows[..Min(|rows|, n * limit)]
  {
    if n > 0 {
      FirstPagesArePrefix(rows, limit, n - 1);
      assert n * limit == (n - 1) * limit + limit;
    }
  }

  lemma {:induction false} AtLeastOne(n: nat, limit: nat)
    ensures n * limit >= 0 && (n >= 1 ==> n * limit >= limit)
  {
    if n > 1 {
      AtLeastOne(n - 1, limit);
      assert n * limit == (n - 1) * limit + limit;
    }
  }

  lemma {:induction false} Multiples(a: int, b: int, limit: nat)
    ensures a <= b ==> a * limit <= b * limit
    ensures a < b ==> a * limit + limit <= b * limit
  {
    if a <= b {
      AtLeastOne(b - a, limit);
      assert b * limit == a * limit + (b - a) * limit;
    }
  }

  lemma QuotientBounds(i: nat, limit: int)
    requires limit > 0
    ensures i / limit >= 0 && i / limit * limit <= i < i / limit * limit + limit
  {
  }

  lemma {:induction false} RoundedUp(total: nat, limit: int)
    requires limit > 0
    ensures var pages := (total + limit - 1) / limit;
            pages >= 0 && total <= pages * limit < total + limit && (total == 0 <==> pages == 0)
  {
    var pages := (total + limit - 1) / limit;
    QuotientBounds(total + limit - 1, limit);
    AtLeastOne(pages, limit);
  }

  /** How many of the first `n` pages it takes to cover `total` rows. */
  lemma {:induction false} CoveredFrom(total: nat, limit: int, n: int)
    requires limit > 0
    ensures n * limit >= total <==> n >= (total + limit - 1) / limit
  {
    var pages := (total + limit - 1) / limit;
    RoundedUp(total, limit);
    Multiples(pages, n, limit);
    Multiples(n, pages, limit);
  }

  /**
   Pagination is exact for every list and every limit: the pages up to `totalPages` put together
   are the list, later pages are empty, and `hasNext` holds just when items remain.
   */
  lemma {:induction false} PagesRestoreTheList<T>(rows: seq<T>, p: Params)
    requires p.page >= 1 && p.limit > 0
    ensures var s := Summarize(|rows|, p);
            && s.totalPages >= 0 && FirstPages(rows, p.limit, s.totalPages) == rows
            && (p.page > s.totalPages <==> Page(rows, p) == [])
            && (s.hasNext <==> FirstPages(rows, p.limit, p.page) != rows)
  {
    var pages := Summarize(|rows|, p).totalPages;
    RoundedUp(|rows|, p.limit);
    FirstPagesArePrefix(rows, p.limit, pages);
    FirstPagesArePrefix(rows, p.limit, p.page);
    CoveredFrom(|rows|, p.limit, p.page);
    CoveredFrom(|rows|, p.limit, p.page - 1);
    AtLeastOne(p.page - 1, p.limit);
  }

  /** Item `i` of the list is on page `page` exactly when that page is number `i / limit + 1`. */
  lemma {:induction false} EachItemOnOnePage<T>(rows: seq<T>, limit: int, page: int, i: nat)
    requires limit > 0 && page >= 1 && i < |rows|
    ensures (page - 1) * limit <= i < (page - 1) * limit + limit <==> page == i / limit + 1
    ensures var at := i - (page - 1) * limit;
            page == i / limit + 1 ==>
              0 <= at < |Page(rows, Params(page, limit))| && Page(rows, Params(page, limit))[at] == rows[i]
  {
    var q := i / limit;
    QuotientBounds(i, limit);
    Multiples(page - 1, q, limit);
    Multiples(q, page - 1, limit);
    if page == q + 1 {
      AtLeastOne(q, limit);
    }
  }
}
