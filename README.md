# Document store: upload, listing, download, page strip and error table

A Dafny model of a small document-management service and the page strip
its web front end draws:

- **Upload** (`Documents.DocumentTable.Upload`). The `documents` table is a
  class holding a sequence of rows and the AUTOINCREMENT counter. An
  upload without files is rejected with 400. Otherwise the loop inserts
  one row per file, in order. Each row takes the request title, or the
  file's original name when the title is empty, and the next id. The
  response summarises each file under its original name.
- **Listing** (`Listing.List`). The listing request first coerces `page`
  and `pageSize` in the manner of `parseInt(x) || default`: a missing,
  unparseable or zero value becomes 1 or 10. It rejects bad pagination
  first, then a sort order other than `asc`/`desc` in any letter case.
  It keeps the rows whose lower-cased title contains the lower-cased
  query and counts them. It orders them by upload time and returns the
  window at offset `(page-1)*pageSize` of length `pageSize`, together
  with `totalPages = ceil(total/pageSize)`, `hasNext` and `hasPrev`.
  Each listed row drops the storage path.
- **Download** (`Download.Fetch`). The request gives "document not
  found" for an unknown id and "file not found" when the row's file is
  no longer in storage. Otherwise it streams the file with the content
  type, content length and a `Content-Disposition` naming the stored
  file.
- **Page strip** (`PageStrip.PageItems`). The loop emits page buttons
  for the first page, the last page and the current page with its two
  neighbours. A single `...` replaces each run of hidden pages. The
  Previous and Next buttons are disabled on the first and last page.
- **Error middleware** (`ErrorHandler.Handle`). It is a first-match
  table from the error code to a fixed status and body. The default
  echoes the error's status (or 500) and its message (or "Internal
  server error"), and in development it also sends the stack.

Several things are parameters or left abstract:

- Storage is a set of present paths.
- The insert-time timestamp is a parameter `now` of the upload.
- The `NODE_ENV` value is a parameter of the error handler.
- The parsed query values are `Option<int>`: `None` stands for a
  missing or non-numeric value.

Modules and what they model:

- `Common`: option type, ASCII lowercasing, substring search, decimal
  rendering.
- `Documents`: the table schema rows, the table class and the upload
  handler.
- `Listing`: the listing handler and the lemmas on concatenating pages.
- `Download`: the download handler.
- `PageStrip`: the front-end page strip.
- `ErrorHandler`: the error middleware.

File names come in two forms. The `filename` column holds the
server-generated stored name (documentController.js:31). The listing
selects that column (:98) and the download header names it (:153), so
`View` and `Disposition` carry the stored name. Only the upload
summary's `filename` is the name the client sent (:40).

## Model

| member | source | states |
|---|---|---|
| Common.Lower | backend/src/controllers/documentController.js:85 | `LOWER` keeps the length and folds exactly the ASCII capitals, character by character |
| Common.Contains | backend/src/controllers/documentController.js:85-86 | the `%q%` pattern matches iff the needle occurs at some position of the text |
| Documents.EffectiveTitle | backend/src/controllers/documentController.js:27 | a non-empty request title wins; a missing or empty one falls back to the file's original name |
| Documents.InsertedRow | backend/src/controllers/documentController.js:29-35 | the inserted row carries the counter's id, the effective title, the stored (server-generated) name as `filename`, the storage path, size and mimetype, and the insert time |
| Documents.DocumentTable.constructor | backend/src/config/database.js:16-24 | a new table has no rows and its id counter starts at 1 |
| Documents.DocumentTable.Upload | backend/src/controllers/documentController.js:12-49 | no files or an empty list gives 400 and leaves the table unchanged. N files append exactly N rows in input order, with the title fallback, stored name, path, size, mimetype and consecutive fresh ids. The 201 response holds N summaries with the original names. No returned id belongs to an older row, and the id invariant is preserved |
| Documents.IdsBelowUnique | backend/src/config/database.js:17 | under the table invariant, two different rows never share an id |
| Listing.ParsedOr | backend/src/controllers/documentController.js:58-59 | `parseInt(x) \|\| d`: a parsed non-zero value is kept; a missing, unparseable or zero value gives the default |
| Listing.Direction | backend/src/controllers/documentController.js:60-76 | a sort order is accepted iff it is missing or lower-cases to `asc` or `desc`; it is ascending iff it lower-cases to `asc` (missing means descending) |
| Listing.Select | backend/src/controllers/documentController.js:84-91 | the WHERE clause keeps exactly the matching rows: each row's multiplicity is kept if its title matches and zero otherwise |
| Listing.Matching | backend/src/controllers/documentController.js:84-91 | the same filter, and an empty query keeps the whole table (no WHERE clause) |
| Listing.Views | backend/src/controllers/documentController.js:94-101 | the SELECT list projects every row, in order, onto its columns without `filepath` |
| Listing.InsertSorted | backend/src/controllers/documentController.js:104 | inserting a row into an `uploaded_at`-ordered list keeps it ordered |
| Listing.InsertPermutes | backend/src/controllers/documentController.js:104 | insertion adds exactly that row to the multiset |
| Listing.Sort | backend/src/controllers/documentController.js:104 | the ordered list has as many rows as its input; its order and contents are stated by `SortSorted` and `SortPermutes` |
| Listing.SortSorted | backend/src/controllers/documentController.js:104 | `ORDER BY uploaded_at ASC/DESC` yields a list sorted in the requested direction |
| Listing.SortPermutes | backend/src/controllers/documentController.js:104 | the ordered list is a permutation of its input |
| Listing.Ordered | backend/src/controllers/documentController.js:94-104 | the ordered matches are sorted and as many as the counted total |
| Listing.WindowContents | backend/src/controllers/documentController.js:105-108 | `LIMIT limit OFFSET offset` returns the rows from position `offset` on, `min(limit, remaining)` of them, and none past the end |
| Listing.SortedWindow | backend/src/controllers/documentController.js:105-108 | a `LIMIT`/`OFFSET` window of a sorted list is sorted and holds at most `limit` rows |
| Listing.Offset | backend/src/controllers/documentController.js:78 | page 1 skips nothing and every later page skips at least one full page |
| Listing.OffsetStep | backend/src/controllers/documentController.js:78 | each page starts exactly `pageSize` rows after the previous one |
| Listing.CeilDiv | backend/src/controllers/documentController.js:110 | `Math.ceil(total/pageSize)` is 0 for no matches and otherwise the least number of pages that holds them all |
| Listing.Paginate | backend/src/controllers/documentController.js:110-121 | the echoed page, size and total; `totalPages` is the ceiling; `hasNext` iff `page < totalPages`; `hasPrev` iff `page > 1` |
| Listing.OrderedFromMatches | backend/src/controllers/documentController.js:84-108 | every ordered row is the projection of a table row whose title matches |
| Listing.WindowFromMatches | backend/src/controllers/documentController.js:105-108 | every row of any window comes from a matching table row |
| Listing.PageOf | backend/src/controllers/documentController.js:78-121 | an accepted request lists the window at `(page-1)*pageSize` of the ordered matches. It holds at most `pageSize` rows, is sorted, and every row comes from a matching table row. Its pagination equals `Paginate` over the number of matches, which is the table's size when there is no query |
| Listing.List | backend/src/controllers/documentController.js:58-76 | 400 exactly when the coerced page is below 1, the coerced size is outside 1..100, or the sort order is rejected. The pagination check wins over the sort check. A missing or zero page/size becomes 1/10 and a positive one is kept. Otherwise the response is `PageOf` with the coerced values |
| Listing.ConcatWindows | backend/src/controllers/documentController.js:78 | consecutive windows of width `pageSize` starting at page 1 concatenate to a prefix of the list |
| Listing.ListedWindow | backend/src/controllers/documentController.js:78-108 | a request for page n with valid size and order lists the n-th window of the ordered matches |
| Listing.PagesPrefix | backend/src/controllers/documentController.js:78-108 | requesting pages 1..n in turn returns the ordered matches up to the offset of page n+1 |
| Listing.AllPagesGiveAllMatches | backend/src/controllers/documentController.js:105-120 | requesting pages 1..totalPages returns every match exactly once, in order |
| Download.Lookup | backend/src/controllers/documentController.js:134 | a found row is in the table and carries the id; nothing is found iff no row has that id |
| Download.LookupFindsRow | backend/src/controllers/documentController.js:134 | in a table with unique ids, looking up a row's id returns that very row |
| Download.ContentType | backend/src/controllers/documentController.js:152 | the row's mimetype if present and non-empty, else `application/octet-stream` |
| Download.Disposition | backend/src/controllers/documentController.js:153 | the header is the `attachment; filename="` prefix, the name, and a closing quote |
| Download.DispositionRoundTrip | backend/src/controllers/documentController.js:153 | a client reading the quoted parameter (up to the closing quote, `\` escaping) recovers exactly a stored name that contains no `"` or `\` |
| Download.DispositionQuoteTruncates | backend/src/controllers/documentController.js:153 | the name is not escaped, so a quote inside it ends the name early for the client: `a"b` is read as `a` |
| Download.Fetch | backend/src/controllers/documentController.js:134-154 | "document not found" (404, echoing the id) iff no row has the id; "file not found" (404) iff the row exists but its path is not in storage. Otherwise the stream's type, disposition, length and path come from that row |
| Download.FetchStoredRow | backend/src/controllers/documentController.js:134-154 | a row of a valid table with its file present streams under its own stored name and size |
| Download.FetchUploaded | backend/src/controllers/documentController.js:134-154 | a file just inserted by the upload (id = counter) downloads with its uploaded mimetype, stored name, size and path |
| PageStrip.CountsCover | frontend/src/components/Pagination.jsx:5-16 | every entry is either a page number or an ellipsis |
| PageStrip.StripUpToBuilt | frontend/src/components/Pagination.jsx:5-16 | after each iteration the strip starts with 1 and ends with the entry for the last page seen. Its buttons are exactly the shown pages so far, numbers increase and neighbours are consecutive. Each ellipsis follows a button and precedes one more than a page further on. The counts stay within their bounds |
| PageStrip.StripShape | frontend/src/components/Pagination.jsx:5-16 | with no pages the strip is empty. Otherwise it starts with 1 and ends with `totalPages`, and page k appears iff it is first, last or within one of the current page. Numbers strictly increase, neighbouring buttons are consecutive, and an ellipsis is never first or last and sits between buttons more than one apart. No two ellipses are adjacent, and there are at most 5 numbers, 2 ellipses and 7 entries |
| PageStrip.PageItems | frontend/src/components/Pagination.jsx:2-16 | the loop returns exactly the strip `StripShape` describes |
| PageStrip.PrevDisabled | frontend/src/components/Pagination.jsx:22 | Previous is disabled exactly on page 1 |
| PageStrip.PrevTarget | frontend/src/components/Pagination.jsx:21 | Previous requests the page just before the current one |
| PageStrip.NextDisabled | frontend/src/components/Pagination.jsx:44 | Next is disabled exactly on the last page |
| PageStrip.NextTarget | frontend/src/components/Pagination.jsx:43 | Next requests the page just after the current one |
| PageStrip.ButtonTargetsShown | frontend/src/components/Pagination.jsx:5-47 | on a page within range, the current page and the page an enabled Previous/Next button requests all have buttons in the strip |
| PageStrip.ButtonsStayInRange | frontend/src/components/Pagination.jsx:20-47 | on a page within range, enabled Previous/Next buttons request the neighbouring page, which is within range |
| ErrorHandler.Classify | backend/src/middleware/errorHandler.js:6-41 | a fixed response applies iff the code is one of the five known codes, and it is the row for that code |
| ErrorHandler.DefaultStatus | backend/src/middleware/errorHandler.js:44 | `err.status || 500`: a set, non-zero status is echoed, otherwise 500 |
| ErrorHandler.DefaultError | backend/src/middleware/errorHandler.js:45 | `err.message || 'Internal server error'`: never empty |
| ErrorHandler.Handle | backend/src/middleware/errorHandler.js:2-47 | a known code gives exactly its fixed status and body. Any other error gives the default status and error, no message, and the stack only in development. A stack is sent only in development, and a message iff the code is known |
| ErrorHandler.UploadLimitsAreDistinct | backend/src/middleware/errorHandler.js:6-25 | the three upload-limit codes give 400, and two of them share an error string iff they are the same code |
| ErrorHandler.KnownCodeIgnoresDetails | backend/src/middleware/errorHandler.js:6-41 | for a known code the response ignores the status, message, stack and environment |
| ErrorHandler.OtherSqliteCodesFallThrough | backend/src/middleware/errorHandler.js:28-33 | only `SQLITE_ERROR` itself is a database error: every other code starting with `SQLITE_` gets the default status and error and no message |

## Left out

- LIKE wildcards: `%` and `_` inside the query are not escaped by the
  code and act as wildcards. The model treats the query as a plain
  substring, so `TitleMatches` is exact only for queries without them.
- `LOWER` and `toLowerCase` are modelled as ASCII-only folding.
  JavaScript's `toLowerCase` on the sort order also folds non-ASCII
  letters; no such letter can spell `asc` or `desc`.
- Listing.Sort: the order among rows with the same `uploaded_at` is
  whatever the database returns. The model sorts stably (equal times keep
  table order), and a single page claims only sortedness and
  permutation. Ties are common, because all rows of one multi-file
  upload usually share one second-resolution timestamp.
- Listing.PagesPrefix, Listing.AllPagesGiveAllMatches: these hold only
  under the assumption that every page request orders rows with equal
  `uploaded_at` the same way. The model does this because every request
  uses the same deterministic `Sort`. The source runs a separate
  `ORDER BY uploaded_at` per page with no tie-break, so across page
  requests a tied row may repeat or be skipped.
- Timestamps are opaque integers. One `now` serves a whole upload
  request. The summary's separate JavaScript `uploadedAt` clock value
  is not modelled.
- Documents.DocumentTable.Upload: the summary's `uploadedAt` field is
  omitted, because it reads the wall clock.
- Text parsing of query values by `parseInt`: the model takes the parsed
  value (`None` for NaN). Array-valued query parameters are not
  modelled.
- Download.Fetch: the id is the parsed integer. SQLite's coercion of the
  textual path parameter is not modelled, and the 404 message renders
  the id in canonical decimal rather than as sent.
- File streaming, the stream's mid-transfer error response and piping
  the bytes: I/O. Only the existence check is kept, as membership in
  the set of stored paths.
- Listing.List, Listing.PageOf: integers are unbounded. In the source
  the offset `(page-1)*pageSize` is a double bound to `OFFSET ?`, and
  `parseInt` rounds values beyond 2^53. An offset of 2^63 or more
  does not convert to SQLite's 64-bit integer, so the statement throws
  and the request ends in the error middleware's default 500. The model
  instead returns an empty page with the requested `page` echoed.
- Exceptions thrown inside the handlers and forwarded to `next(error)`
  are not modelled; the error middleware is modelled on its own.
- The database connection, WAL mode and index creation, Express
  routing, CORS, the upload middleware's limits and request logging:
  configuration and I/O. The upload middleware's limit errors appear
  only as codes for `ErrorHandler`.
- Front-end React state, rendering, the axios client, file-size and date
  formatting: UI, floating point and locale formatting.
- The page strip takes `currentPage` and `totalPages` as integers. The
  front end renders it only when `totalPages > 1`.
