/** The product listing behind `GET /?page=N` (proyecto/main.go): counting
    the products, fetching one page of them and collecting the scanned rows
    into the data handed to the page template. The SQLite database is an
    abstract `Store`; everything else it does is not part of this model. */
module Inventory {

  import opened Wrappers
  import opened Pagination

  /** One product of the inventory. `price` is a float64 in the program;
      it is only carried through here. */
  datatype Product = Product(id: int, name: string, price: real, quantity: int, category: string)

  /** A row of the products table. `Scan` into a Product fails on a row
      whose columns do not convert (a NULL text column, say). */
  datatype Row = Stored(product: Product) | Unscannable

  /** What the template receives. */
  datatype PageData = PageData(products: seq<Product>, currentPage: int, totalPages: int)

  /** The products table in its natural order; whether the count query and
      the page query fail when issued; and, when the result cursor hits an
      error while iterating, after how many rows `rows.Next()` gives up. The
      handler never consults `rows.Err()`, so such an error only shortens
      the page. */
  datatype Store = Store(rows: seq<Row>, countFails: bool, fetchFails: bool, nextFailsAfter: Option<nat>)

  /** The handler's answer: an HTTP error, or the page data to render. */
  datatype Response = HttpError(status: int, message: string) | Render(data: PageData)

  const BadRequest := 400
  const NotFound := 404
  const InternalServerError := 500

  /** The total the handler works with: the number of rows, or 0 when the
      count query fails. */
  function CountOf(db: Store): (n: nat)
    ensures !db.countFails ==> n == |db.rows|
    ensures db.countFails ==> n == 0
  {
    if db.countFails then 0 else |db.rows|
  }

  /** Number of products, with the fallback to 0 when the count query
      fails (the failure is only logged). */
  method GetTotalProducts(db: Store) returns (count: nat)
    ensures !db.countFails ==> count == |db.rows|
    ensures db.countFails ==> count == 0
    ensures count == CountOf(db)
  {
    if db.countFails {
      count := 0;
    } else {
      count := |db.rows|;
    }
  }

  /** Specification of scanning a cursor: the products of the rows, in
      order, or None as soon as one row does not scan. */
  function ProductsOf(cursor: seq<Row>): (r: Option<seq<Product>>)
    ensures r.Some? <==> forall i :: 0 <= i < |cursor| ==> cursor[i].Stored?
    ensures r.Some? ==> |r.value| == |cursor|
    ensures r.Some? ==> forall i :: 0 <= i < |cursor| ==> r.value[i] == cursor[i].product
  {
    if cursor == [] then Some([])
    else if cursor[0].Unscannable? then None
    else match ProductsOf(cursor[1..])
      case None => None
      case Some(rest) => Some([cursor[0].product] + rest)
  }

  /** The `for rows.Next()` loop: scans each row of the cursor and appends
      it to the product list, stopping at the first row that fails. */
  method ScanRows(cursor: seq<Row>) returns (products: Option<seq<Product>>)
    ensures products == ProductsOf(cursor)
  {
    var acc: seq<Product> := [];
    var i := 0;
    while i < |cursor|
      invariant 0 <= i <= |cursor|
      invariant |acc| == i
      invariant forall j :: 0 <= j < i ==> cursor[j].Stored? && acc[j] == cursor[j].product
    {
      if cursor[i].Unscannable? {
        return None;
      }
      acc := acc + [cursor[i].product];
      i := i + 1;
    }
    assert acc == ProductsOf(cursor).value;
    products := Some(acc);
  }

  /** The rows `rows.Next()` hands out for `LIMIT limit OFFSET offset`:
      the whole window, or its first rows up to an iteration error. */
  function Cursor(db: Store, offset: nat, limit: nat): (c: seq<Row>)
    ensures c <= Window(db.rows, offset, limit)
    ensures db.nextFailsAfter.None? ==> c == Window(db.rows, offset, limit)
    ensures db.nextFailsAfter.Some? ==>
      |c| == Min(db.nextFailsAfter.value, |Window(db.rows, offset, limit)|)
  {
    var w := Window(db.rows, offset, limit);
    match db.nextFailsAfter
    case None => w
    case Some(k) => w[..Min(k, |w|)]
  }

  /** What the handler answers for a page query against the store. */
  function Handle(q: PageQuery, db: Store): (r: Response)
    ensures r.HttpError? ==> r.status in {BadRequest, NotFound, InternalServerError}
    ensures r.Render? ==> RequestedPage(q).Some? && r.data.currentPage >= 1 && r.data.totalPages >= 0
  {
    match Decide(q, CountOf(db))
    case InvalidPage => HttpError(BadRequest, "Invalid page number")
    case PageNotFound => HttpError(NotFound, "Page not found")
    case Fetch(offset, limit, page, totalPages) =>
      if db.fetchFails then HttpError(InternalServerError, "Error fetching products")
      else match ProductsOf(Cursor(db, offset, limit))
        case None => HttpError(InternalServerError, "Error scanning products")
        case Some(products) => Render(PageData(products, page, totalPages))
  }

  /** The home page handler, statement by statement. */
  method HomeHandler(q: PageQuery, db: Store) returns (r: Response)
    ensures r == Handle(q, db)
  {
    var page: int;
    match q {
      case Blank => page := 1;
      case Parsed(n) => page := n;
      case Unparsable => return HttpError(BadRequest, "Invalid page number");
    }
    if page < 1 {
      return HttpError(BadRequest, "Invalid page number");
    }
    var totalProducts := GetTotalProducts(db);
    var totalPages := (totalProducts + PageSize - 1) / PageSize;
    if page > totalPages && totalPages > 0 {
      return HttpError(NotFound, "Page not found");
    }
    if db.fetchFails {
      return HttpError(InternalServerError, "Error fetching products");
    }
    var cursor := Cursor(db, (page - 1) * PageSize, PageSize);
    var products := ScanRows(cursor);
    if products.None? {
      return HttpError(InternalServerError, "Error scanning products");
    }
    r := Render(PageData(products.value, page, totalPages));
  }

  /** An unparsable or non-positive page is a 400, whatever the store
      holds and whether or not its queries would fail; a missing page is
      page 1. */
  lemma InvalidPageIsBadRequest(q: PageQuery, db: Store)
    ensures RequestedPage(q).None? <==> Handle(q, db) == HttpError(BadRequest, "Invalid page number")
    ensures q.Blank? ==> Handle(q, db) == Handle(Parsed(1), db)
  {
  }

  /** 404 exactly when the count succeeded, the table is not empty and the
      page starts at or past its end. */
  lemma {:induction false} NotFoundWhenPastEnd(page: int, db: Store)
    requires page >= 1
    ensures Handle(Parsed(page), db).HttpError? && Handle(Parsed(page), db).status == NotFound
      <==> !db.countFails && |db.rows| > 0 && PageSize * (page - 1) >= |db.rows|
  {
    NotFoundExactly(page, CountOf(db));
  }

  /** A valid page answers 500 exactly when it passes the guard and then
      either the page query fails or a row the cursor reaches does not
      scan; the message tells the two apart. */
  lemma ServerErrorExactly(page: int, db: Store)
    requires page >= 1
    ensures var r := Handle(Parsed(page), db);
      var c := Cursor(db, Offset(page), PageSize);
      && ((r.HttpError? && r.status == InternalServerError) <==>
            Decide(Parsed(page), CountOf(db)).Fetch? &&
            (db.fetchFails || exists i :: 0 <= i < |c| && c[i].Unscannable?))
      && (r.HttpError? && r.status == InternalServerError ==>
            r.message == if db.fetchFails then "Error fetching products" else "Error scanning products")
  {
  }

  /** When the count query fails no page is ever reported as not found;
      the page is still read from the table. */
  lemma CountFailureNeverNotFound(q: PageQuery, db: Store)
    requires db.countFails
    ensures !(Handle(q, db).HttpError? && Handle(q, db).status == NotFound)
  {
  }

  /** A rendered page carries the requested page number, the page count of
      the counted total, and the products of its window in table order:
      at most five of them, each once, and all of the window unless the
      cursor stopped early. */
  lemma RenderedPage(q: PageQuery, db: Store)
    ensures var r := Handle(q, db);
      r.Render? ==>
        && RequestedPage(q).Some?
        && r.data.currentPage == RequestedPage(q).value
        && r.data.totalPages == TotalPages(CountOf(db))
        && |r.data.products| <= PageSize
        && (forall i :: 0 <= i < |r.data.products| ==>
              Offset(r.data.currentPage) + i < |db.rows| &&
              db.rows[Offset(r.data.currentPage) + i] == Stored(r.data.products[i]))
        && (db.nextFailsAfter.None? ==>
              |r.data.products| == |Window(db.rows, Offset(r.data.currentPage), PageSize)|)
  {
    var r := Handle(q, db);
    if r.Render? {
      var d := Decide(q, CountOf(db));
      assert d.Fetch? && d.currentPage == r.data.currentPage;
      var w := Window(db.rows, d.offset, d.limit);
      var c := Cursor(db, d.offset, d.limit);
      assert r.data.products == ProductsOf(c).value;
      assert c <= w;
      forall i | 0 <= i < |r.data.products|
        ensures d.offset + i < |db.rows| && db.rows[d.offset + i] == Stored(r.data.products[i])
      {
        assert c[i] == w[i];
      }
    }
  }

  /** An error while iterating the cursor is not reported: the page renders
      with the rows read before it, and no more. */
  lemma IterationErrorShortensPage(q: PageQuery, db: Store, k: nat)
    requires db.nextFailsAfter == Some(k)
    ensures var r := Handle(q, db);
      r.Render? ==>
        |r.data.products| == Min(k, |Window(db.rows, Offset(r.data.currentPage), PageSize)|)
  {
  }

  /** With working queries and a page whose rows all scan, a page within
      range renders min(5, n - offset) products, never zero. */
  lemma {:induction false} InRangePageIsFull(page: int, db: Store)
    requires !db.countFails && !db.fetchFails && db.nextFailsAfter.None?
    requires 1 <= page <= TotalPages(|db.rows|)
    requires forall i :: Offset(page) <= i < Min(Offset(page) + PageSize, |db.rows|) ==> db.rows[i].Stored?
    ensures Handle(Parsed(page), db).Render?
    ensures |Handle(Parsed(page), db).data.products| == Min(PageSize, |db.rows| - Offset(page)) > 0
  {
    PageInRangeSize(db.rows, page);
  }

  /** On an empty table, with a working page query, every valid page is
      served as an empty page with zero pages in total, not as 404. */
  lemma EmptyTableRendersEmptyPage(page: int, db: Store)
    requires page >= 1 && db.rows == [] && !db.fetchFails
    ensures Handle(Parsed(page), db) == Render(PageData([], page, 0))
  {
  }
}
