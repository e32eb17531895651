/** The pure part of the home page handler (proyecto/main.go, lines 92-111):
    defaulting and validating the requested page, the page count, the
    out-of-range guard and the LIMIT/OFFSET window it asks the database for. */
module Pagination {

  import opened Wrappers

  /** Number of products listed on one page. */
  const PageSize: nat := 5

  function Min(a: int, b: int): (m: int)
    ensures m <= a && m <= b
    ensures m == a || m == b
  {
    if a <= b then a else b
  }

  /** The `page` query value after it went through `strconv.Atoi`.
      `Query().Get` answers "" for a missing key, so a missing and an empty
      parameter are the same case. */
  datatype PageQuery =
    | Blank            // absent or empty: the handler substitutes "1"
    | Parsed(n: int)   // Atoi accepted the text and returned n
    | Unparsable       // Atoi reported an error

  /** The page number the handler goes on with, or None when it answers
      "Invalid page number" (400). */
  function RequestedPage(q: PageQuery): (p: Option<int>)
    ensures q.Blank? ==> p == Some(1)
    ensures q.Unparsable? ==> p == None
    ensures q.Parsed? ==> (p.Some? <==> q.n >= 1)
    ensures q.Parsed? && p.Some? ==> p.value == q.n
    ensures p.Some? ==> p.value >= 1
  {
    match q
    case Blank => Some(1)
    case Unparsable => None
    case Parsed(n) => if n < 1 then None else Some(n)
  }

  /** Number of pages for `total` products: integer ceiling division.
      Both operands are non-negative, so Go's truncating division and
      Dafny's Euclidean division agree. */
  function TotalPages(total: nat): (k: nat)
    ensures PageSize * k >= total
    ensures k == 0 || PageSize * (k - 1) < total
    ensures k == 0 <==> total == 0
  {
    (total + PageSize - 1) / PageSize
  }

  /** TotalPages is the least number of pages that holds every product. */
  lemma TotalPagesIsLeast(total: nat, j: nat)
    requires PageSize * j >= total
    ensures j >= TotalPages(total)
  {
  }

  /** First row of a page, as the handler computes it. */
  function Offset(page: int): (o: int)
    ensures page >= 1 ==> o >= 0 && o % PageSize == 0
    ensures o / PageSize == page - 1
  {
    (page - 1) * PageSize
  }

  /** What the handler decides before it queries the rows. */
  datatype Decision =
    | InvalidPage     // 400 "Invalid page number"
    | PageNotFound    // 404 "Page not found"
    | Fetch(offset: nat, limit: nat, currentPage: nat, totalPages: nat)

  /** The decision for a page query when the table holds `total` products. */
  function Decide(q: PageQuery, total: nat): (d: Decision)
    ensures d == InvalidPage <==> RequestedPage(q) == None
    ensures d == PageNotFound <==>
      RequestedPage(q).Some? && RequestedPage(q).value > TotalPages(total) > 0
    ensures d.Fetch? ==>
      && d.currentPage == RequestedPage(q).value
      && d.currentPage >= 1
      && d.totalPages == TotalPages(total)
      && d.limit == PageSize
      && d.offset == PageSize * (d.currentPage - 1)
  {
    match RequestedPage(q)
    case None => InvalidPage
    case Some(page) =>
      var totalPages := TotalPages(total);
      if page > totalPages && totalPages > 0 then PageNotFound
      else Fetch(Offset(page), PageSize, page, totalPages)
  }

  /** Validation does not depend on the table: a page that is rejected as
      invalid is rejected whatever the count. */
  lemma InvalidPageIgnoresCount(q: PageQuery, total1: nat, total2: nat)
    ensures Decide(q, total1) == InvalidPage <==> Decide(q, total2) == InvalidPage
  {
  }

  /** A valid page is out of range exactly when the table is not empty and
      the page's first row lies at or beyond its end. */
  lemma {:induction false} NotFoundExactly(page: int, total: nat)
    requires page >= 1
    ensures Decide(Parsed(page), total) == PageNotFound <==>
      total > 0 && PageSize * (page - 1) >= total
  {
    var k := TotalPages(total);
    if total > 0 && PageSize * (page - 1) >= total {
      assert PageSize * (page - 1) >= PageSize * k by {
        assert PageSize * (k - 1) < total;
      }
    }
  }

  /** On an empty table the guard never fires: every valid page is served. */
  lemma EmptyTableServesEveryPage(q: PageQuery)
    requires RequestedPage(q).Some?
    ensures Decide(q, 0).Fetch?
    ensures Decide(q, 0).totalPages == 0
  {
  }

  /** Rows `offset .. offset + limit` of `rows`, clamped to its end: the
      answer of `LIMIT limit OFFSET offset` on a table in that order. */
  function Window<T>(rows: seq<T>, offset: nat, limit: nat): (w: seq<T>)
    ensures |w| <= limit
    ensures |w| == if offset >= |rows| then 0 else Min(limit, |rows| - offset)
    ensures forall i :: 0 <= i < |w| ==> w[i] == rows[offset + i]
  {
    rows[Min(offset, |rows|)..Min(offset + limit, |rows|)]
  }

  /** The rows shown on page `page` (1-based). */
  function PageOf<T>(rows: seq<T>, page: nat): (p: seq<T>)
    requires page >= 1
    ensures |p| <= PageSize
  {
    Window(rows, Offset(page), PageSize)
  }

  /** A page within range is never empty and holds min(5, n - offset) rows. */
  lemma PageInRangeSize<T>(rows: seq<T>, page: nat)
    requires 1 <= page <= TotalPages(|rows|)
    ensures |PageOf(rows, page)| == Min(PageSize, |rows| - Offset(page))
    ensures 0 < |PageOf(rows, page)| <= PageSize
  {
    assert Offset(page) < |rows| by {
      assert PageSize * (TotalPages(|rows|) - 1) < |rows|;
    }
  }

  /** Pages 1 .. k one after the other. */
  function Pages<T>(rows: seq<T>, k: nat): (s: seq<T>) {
    if k == 0 then [] else Pages(rows, k - 1) + PageOf(rows, k)
  }

  lemma {:induction false} PagesArePrefix<T>(rows: seq<T>, k: nat)
    ensures Pages(rows, k) == rows[..Min(PageSize * k, |rows|)]
  {
    if k > 0 {
      PagesArePrefix(rows, k - 1);
      var lo := Min(PageSize * (k - 1), |rows|);
      var hi := Min(PageSize * k, |rows|);
      var w := PageOf(rows, k);
      assert w == rows[lo..hi] by {
        assert |w| == hi - lo;
        forall i | 0 <= i < |w| ensures w[i] == rows[lo..hi][i] {
        }
      }
      assert rows[..lo] + rows[lo..hi] == rows[..hi];
    }
  }

  /** Paging through 1 .. TotalPages lists every product of the table
      exactly once and in the table's order. */
  lemma PagesCoverTable<T>(rows: seq<T>)
    ensures Pages(rows, TotalPages(|rows|)) == rows
  {
    PagesArePrefix(rows, TotalPages(|rows|));
  }

  /** Three products: page 1 shows all of them, page 2 is not found. */
  lemma ThreeProducts<T>(rows: seq<T>)
    requires |rows| == 3
    ensures Decide(Parsed(1), |rows|) == Fetch(0, PageSize, 1, 1)
    ensures PageOf(rows, 1) == rows
    ensures Decide(Parsed(2), |rows|) == PageNotFound
  {
  }

  /** Twelve products: three pages, the last of which shows two. */
  lemma TwelveProducts<T>(rows: seq<T>)
    requires |rows| == 12
    ensures TotalPages(|rows|) == 3
    ensures Decide(Parsed(3), |rows|) == Fetch(10, PageSize, 3, 3)
    ensures PageOf(rows, 3) == rows[10..]
  {
  }
}
