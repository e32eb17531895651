# Paginated product listing

A model of the home page handler of the inventory web application in
`proyecto/main.go`: given the `page` query value, it defaults a missing page to
1, rejects unparsable or non-positive pages with 400, counts the products
(falling back to 0 when the count query fails), computes the number of pages
of five products by ceiling division, answers 404 for a page past the last one
when there is at least one page, and otherwise fetches `LIMIT 5 OFFSET
(page-1)*5`, scans the rows into a product list and hands it, with the current
page and the page count, to the template.

- `wrappers.dfy` — `Option`.
- `pagination.dfy`, module `Pagination` — the pure decisions: `RequestedPage`
  (defaulting and validation of the already-parsed page), `TotalPages`,
  `Decide` (400 / 404 / fetch with offset, limit, page, page count), `Window`
  (the clamped `LIMIT/OFFSET` slice of the table), `PageOf` and `Pages`
  (one page, and pages 1..k in turn) with lemmas about them.
- `inventory.dfy`, module `Inventory` — `Product`, `PageData`, the database as
  a value `Store` (its rows in natural order, and whether the count query and
  the page query fail), the row-scanning loop `ScanRows` against its
  specification `ProductsOf`, the handler's full answer as the function
  `Handle`, and the method `HomeHandler`, which follows the handler statement
  by statement and is proved to answer `Handle`.

The table's natural order is the order of `Store.rows`; the program issues no
`ORDER BY`. A row that cannot be scanned into a product is `Unscannable`; it
counts towards the total like any other row.

Behaviour kept as written: when the table is empty, or the count query fails,
the page count is 0 and the `page > totalPages && totalPages > 0` guard never
fires, so no page is answered with 404 (`CountFailureNeverNotFound`). The
page is still read from the table: after a failed count, page 1 of a
non-empty table lists its first rows with a page count of 0, a page past the
end lists nothing, and a failing page query still answers 500. Apart from a
cursor that stops before its first row, only an empty table turns every
page from 1 upwards into an empty page (`EmptyTableRendersEmptyPage`). A failing count query is not propagated as an
error, only logged; the model follows the code here.

The result cursor can also stop early: `rows.Next()` returns false on an
iteration error, and the handler never checks `rows.Err()`, so the page is
rendered with the rows read so far (`Store.nextFailsAfter`, `Cursor`,
`IterationErrorShortensPage`).

## Model

| member | source | states |
|---|---|---|
| `Pagination.RequestedPage` | proyecto/main.go:92-100 | an absent or empty page is page 1; an unparsable page or one below 1 is rejected; any accepted page is the parsed number and at least 1 |
| `Pagination.TotalPages` | proyecto/main.go:102-104 | the page count holds every product (5·k ≥ total), one page fewer would not, and it is 0 exactly when there are no products |
| `Pagination.TotalPagesIsLeast` | proyecto/main.go:104 | no smaller number of pages of five holds all products |
| `Pagination.Offset` | proyecto/main.go:111 | the first row of page p is a multiple of 5 at position 5·(p−1), non-negative for p ≥ 1 |
| `Pagination.Decide` | proyecto/main.go:92-111 | 400 exactly when the page is rejected; 404 exactly when the page exceeds a positive page count; otherwise fetch 5 rows at offset 5·(page−1) with the requested page and the computed page count |
| `Pagination.InvalidPageIgnoresCount` | proyecto/main.go:96-103 | whether a page is rejected as invalid does not depend on the product count (validation precedes counting) |
| `Pagination.NotFoundExactly` | proyecto/main.go:102-109 | a valid page is not found exactly when the table is non-empty and the page's first row lies at or past its end |
| `Pagination.EmptyTableServesEveryPage` | proyecto/main.go:104-109 | with no products every valid page passes the guard, with a page count of 0 |
| `Pagination.Window` | proyecto/main.go:111 | LIMIT/OFFSET yields at most `limit` rows, exactly min(limit, n − offset) of them when the offset is inside the table and none otherwise, each the table row at offset + i |
| `Pagination.PageInRangeSize` | proyecto/main.go:102-111 | a page between 1 and the page count is non-empty and holds min(5, n − offset) rows |
| `Pagination.PagesArePrefix` | proyecto/main.go:102-111 | pages 1..k laid end to end are the first min(5·k, n) rows of the table |
| `Pagination.PagesCoverTable` | proyecto/main.go:102-111 | pages 1..totalPages list every row of the table exactly once, in table order |
| `Pagination.ThreeProducts` | proyecto/main.go:102-111 | with 3 products page 1 shows all 3 with page count 1, and page 2 is not found |
| `Pagination.TwelveProducts` | proyecto/main.go:102-111 | with 12 products there are 3 pages and page 3 shows the last 2 |
| `Inventory.CountOf` | proyecto/main.go:140-147 | the total the handler uses: the number of rows, or 0 when the count query fails |
| `Inventory.GetTotalProducts` | proyecto/main.go:140-147 | the count is the number of rows, or 0 when the count query fails; it is the count the handler uses |
| `Inventory.ProductsOf` | proyecto/main.go:118-126 | scanning succeeds exactly when every row scans, and then yields one product per row, in row order |
| `Inventory.Cursor` | proyecto/main.go:111-119 | the rows the cursor yields are a prefix of the LIMIT/OFFSET window: all of it without an iteration error, otherwise its first min(k, window length) rows |
| `Inventory.Handle` | proyecto/main.go:91-132 | the handler's answer is a 400, 404 or 500 error, or a rendered page for an accepted page number |
| `Inventory.ScanRows` | proyecto/main.go:118-126 | the append loop produces exactly the scanned products of the cursor, or fails on an unscannable row |
| `Inventory.HomeHandler` | proyecto/main.go:91-132 | the handler's answer (400, 404, 500 for a failed fetch or scan, or the page data) is the one `Handle` specifies |
| `Inventory.InvalidPageIsBadRequest` | proyecto/main.go:92-100 | an invalid page is answered 400 "Invalid page number" whatever the store, and only then; an absent page behaves as page 1 |
| `Inventory.NotFoundWhenPastEnd` | proyecto/main.go:103-109 | 404 exactly when the count succeeded, the table is non-empty and the page starts at or past its end |
| `Inventory.ServerErrorExactly` | proyecto/main.go:111-124 | a valid page answers 500 exactly when it passes the guard and either the page query fails ("Error fetching products") or a row the cursor reaches does not scan ("Error scanning products") |
| `Inventory.CountFailureNeverNotFound` | proyecto/main.go:140-147 | when the count query fails no page is answered 404 |
| `Inventory.RenderedPage` | proyecto/main.go:111-132 | a rendered page carries the requested page, the computed page count and at most 5 products, each the table row at offset + i in order, and, without an iteration error, the whole window |
| `Inventory.IterationErrorShortensPage` | proyecto/main.go:118-132 | an iteration error after k rows is not reported: the page renders with min(k, window length) products |
| `Inventory.InRangePageIsFull` | proyecto/main.go:102-126 | with working queries and the page's rows scannable, a page within range renders min(5, n − offset) > 0 products |
| `Inventory.EmptyTableRendersEmptyPage` | proyecto/main.go:104-132 | on an empty table, with a working page query, every valid page renders an empty product list with page count 0 |

## Left out

- `strconv.Atoi`: the page text arrives already parsed (`PageQuery`); decimal parsing is a library call.
- Pagination.Offset: integers are unbounded, while Go's `int` is 64 bits. `(page-1)*pageSize` wraps in Go for huge pages, and the wrap is visible when the count query failed on a non-empty table: page 7378697629483820648, which Atoi accepts, gives offset 3 in Go and so lists rows 3..7, while the model's window is empty.
- Template rendering and its 500 "Error rendering template" (proyecto/main.go:134-136), and the `add`/`sub` template helpers: output I/O.
- SQL semantics: the count is the length of the row sequence and `LIMIT/OFFSET` a clamped slice of it; which rows fail to scan, whether a query fails, and where the cursor stops on an iteration error, are given by the `Store` value.
- The count-then-fetch race between concurrent requests: the store is one value for the whole request.
- `addProductHandler`, `deleteProductHandler`, `createTable`, `populateTable`, `parseFloat`/`parseInt`, routing, redirects, static files and start-up: SQL pass-through and I/O with no logic of their own; `Price` is a float64 and only carried through as `real`.
- `proyecto-final/main.go`: the same product application without pagination (an unbounded listing plus add/delete pass-through).
- The root `main.go`: a different program, a JSON API over an `Article` table with create, list and delete by SQL pass-through.
