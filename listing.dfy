/** The listing handler: query coercion and validation, the title filter,
    the ordering by upload time, the LIMIT/OFFSET window and the pagination
    fields of the response, over the in-memory `documents` table. */
module Listing {
  import opened Common
  import opened Documents

  /** The query string after `parseInt`: None stands for a missing or
      non-numeric value.  For `sortOrder` and `q` the empty string stands for
      a missing value, which JavaScript's `||` treats the same way. */
  datatype ListQuery = ListQuery(page: Option<int>, pageSize: Option<int>, sortOrder: string, q: string)

  /** A listed row: every column except `filepath`. */
  datatype Row = Row(id: int, title: string, filename: string, filesize: int,
                     mimetype: Option<string>, uploadedAt: int)

  datatype PageInfo = PageInfo(page: int, pageSize: int, total: int, totalPages: int,
                               hasNext: bool, hasPrev: bool)

  /** The two 400 responses of the listing handler. */
  datatype ListError = InvalidPagination | InvalidSortOrder
  {
    function Error(): string
    {
      match this
      case InvalidPagination => "Invalid pagination parameters"
      case InvalidSortOrder => "Invalid sort order"
    }

    function Message(): string
    {
      match this
      case InvalidPagination => "Page must be >= 1 and pageSize must be between 1 and 100"
      case InvalidSortOrder => "sortOrder must be either \"asc\" or \"desc\""
    }
  }

  datatype ListResponse =
    | ListRejected(status: int, reason: ListError)
    | Listed(documents: seq<Row>, pagination: PageInfo)

  /** `parseInt(x) || d`: NaN and 0 are both falsy and give `d`. */
  function ParsedOr(v: Option<int>, d: int): (r: int)
    ensures v.Some? && v.value != 0 ==> r == v.value
    ensures v.None? || v.value == 0 ==> r == d
  {
    if v.Some? && v.value != 0 then v.value else d
  }

  /** `req.query.sortOrder || 'desc'`, then the case-insensitive check against
      `asc` and `desc`: Some(true) for ascending, Some(false) for descending,
      None for a rejected value. */
  function Direction(s: string): (r: Option<bool>)
    ensures r.Some? <==> s == "" || Lower(s) == "asc" || Lower(s) == "desc"
    ensures r == Some(true) <==> Lower(s) == "asc"
  {
    var sortOrder := if s == "" then "desc" else s;
    assert Lower("desc") == "desc";
    if Lower(sortOrder) == "asc" then Some(true)
    else if Lower(sortOrder) == "desc" then Some(false)
    else None
  }

  /** `LOWER(title) LIKE LOWER('%q%')`, read as a plain substring test. */
  predicate TitleMatches(title: string, q: string)
  {
    Contains(Lower(title), Lower(q))
  }

  /** The rows the WHERE clause keeps, in table order. */
  function Select(rows: seq<Document>, q: string): (r: seq<Document>)
    ensures forall d :: multiset(r)[d] == if TitleMatches(d.title, q) then multiset(rows)[d] else 0
  {
    if rows == [] then []
    else
      assert rows == [rows[0]] + rows[1..];
      (if TitleMatches(rows[0].title, q) then [rows[0]] else []) + Select(rows[1..], q)
  }

  /** Without a query the statement has no WHERE clause at all. */
  function Matching(rows: seq<Document>, q: string): (r: seq<Document>)
    ensures forall d :: multiset(r)[d] == if TitleMatches(d.title, q) then multiset(rows)[d] else 0
    ensures q == "" ==> r == rows
  {
    if q == "" then
      assert forall d: Document :: TitleMatches(d.title, q) by {
        forall d: Document ensures TitleMatches(d.title, q) { EmptyOccursEverywhere(Lower(d.title)); }
      }
      rows
    else Select(rows, q)
  }

  function View(d: Document): Row
  {
    Row(d.id, d.title, d.filename, d.filesize, d.mimetype, d.uploadedAt)
  }

  function Views(s: seq<Document>): (r: seq<Row>)
    ensures |r| == |s|
    ensures forall i :: 0 <= i < |s| ==> r[i] == View(s[i])
  {
    if s == [] then [] else [View(s[0])] + Views(s[1..])
  }

  predicate InOrder(a: int, b: int, asc: bool)
  {
    if asc then a <= b else a >= b
  }

  /** `ORDER BY uploaded_at ASC` or `DESC`. */
  ghost predicate SortedBy(s: seq<Row>, asc: bool)
  {
    forall i, j :: 0 <= i < j < |s| ==> InOrder(s[i].uploadedAt, s[j].uploadedAt, asc)
  }

  /** One step of an insertion sort: `x` goes before the first row it may precede. */
  function Insert(x: Row, s: seq<Row>, asc: bool): (r: seq<Row>)
    ensures |r| == |s| + 1
    ensures r[0] == x || (|s| > 0 && r[0] == s[0])
  {
    if s == [] || InOrder(x.uploadedAt, s[0].uploadedAt, asc) then [x] + s
    else [s[0]] + Insert(x, s[1..], asc)
  }

  /** Inserting into an ordered list keeps it ordered. */
  lemma {:induction false} InsertSorted(x: Row, s: seq<Row>, asc: bool)
    requires SortedBy(s, asc)
    ensures SortedBy(Insert(x, s, asc), asc)
  {
    if s != [] && !InOrder(x.uploadedAt, s[0].uploadedAt, asc) {
      var t := Insert(x, s[1..], asc);
      InsertSorted(x, s[1..], asc);
      var r := [s[0]] + t;
      assert Insert(x, s, asc) == r;
      assert InOrder(s[0].uploadedAt, t[0].uploadedAt, asc);
      forall i, j | 0 <= i < j < |r|
        ensures InOrder(r[i].uploadedAt, r[j].uploadedAt, asc)
      {
        if i > 0 {
          assert r[i] == t[i - 1] && r[j] == t[j - 1];
        } else if j > 1 {
          assert InOrder(t[0].uploadedAt, t[j - 1].uploadedAt, asc);
        }
      }
    }
  }

  lemma {:induction false} InsertPermutes(x: Row, s: seq<Row>, asc: bool)
    ensures multiset(Insert(x, s, asc)) == multiset(s) + multiset{x}
  {
    if s != [] && !InOrder(x.uploadedAt, s[0].uploadedAt, asc) {
      var t := Insert(x, s[1..], asc);
      assert Insert(x, s, asc) == [s[0]] + t;
      InsertPermutes(x, s[1..], asc);
      assert s == [s[0]] + s[1..];
      assert multiset(s) == multiset{s[0]} + multiset(s[1..]);
    }
  }

  /** An insertion sort; equal timestamps keep their table order. */
  function Sort(s: seq<Row>, asc: bool): (r: seq<Row>)
    ensures |r| == |s|
  {
    if s == [] then [] else Insert(s[0], Sort(s[1..], asc), asc)
  }

  /** The sort orders its input in the requested direction. */
  lemma {:induction false} SortSorted(s: seq<Row>, asc: bool)
    ensures SortedBy(Sort(s, asc), asc)
  {
    if s != [] {
      SortSorted(s[1..], asc);
      InsertSorted(s[0], Sort(s[1..], asc), asc);
    }
  }

  /** The sort is a permutation of its input. */
  lemma {:induction false} SortPermutes(s: seq<Row>, asc: bool)
    ensures multiset(Sort(s, asc)) == multiset(s)
  {
    if s != [] {
      var t := Sort(s[1..], asc);
      assert Sort(s, asc) == Insert(s[0], t, asc);
      SortPermutes(s[1..], asc);
      InsertPermutes(s[0], t, asc);
      assert s == [s[0]] + s[1..];
      assert multiset(s) == multiset(s[1..]) + multiset{s[0]};
    }
  }

  /** All matching rows in the requested order, before LIMIT and OFFSET. */
  function Ordered(rows: seq<Document>, q: string, asc: bool): (r: seq<Row>)
    ensures SortedBy(r, asc)
    ensures |r| == |Matching(rows, q)|
  {
    SortSorted(Views(Matching(rows, q)), asc);
    Sort(Views(Matching(rows, q)), asc)
  }

  /** `LIMIT limit OFFSET offset`. */
  function Window(s: seq<Row>, offset: int, limit: int): seq<Row>
    requires offset >= 0 && limit >= 0
  {
    var lo := if offset < |s| then offset else |s|;
    var hi := if offset + limit < |s| then offset + limit else |s|;
    s[lo..hi]
  }

  /** The window holds the rows from position `offset` on, at most `limit`
      of them, and none when `offset` is past the end. */
  lemma WindowContents(s: seq<Row>, offset: int, limit: int)
    requires offset >= 0 && limit >= 0
    ensures var w := Window(s, offset, limit);
      && |w| == Max(0, Min(limit, |s| - offset))
      && forall i :: 0 <= i < |w| ==> w[i] == s[offset + i]
  {
  }

  lemma SortedWindow(s: seq<Row>, asc: bool, offset: int, limit: int)
    requires offset >= 0 && limit >= 0 && SortedBy(s, asc)
    ensures SortedBy(Window(s, offset, limit), asc)
    ensures |Window(s, offset, limit)| <= limit
  {
  }

  /** `(page - 1) * pageSize`, the number of matching rows before the page. */
  function Offset(page: int, pageSize: int): (r: nat)
    requires page >= 1 && pageSize >= 1
    ensures page == 1 ==> r == 0
    ensures page > 1 ==> r >= pageSize
  {
    assert (page - 1) * pageSize >= 0 by { assert page - 1 >= 0; }
    (page - 1) * pageSize
  }

  /** `Math.ceil(total / pageSize)` on integers. */
  function CeilDiv(total: int, size: int): (r: int)
    requires total >= 0 && size >= 1
    ensures r >= 0
    ensures total == 0 ==> r == 0
    ensures total > 0 ==> (r - 1) * size < total <= r * size
  {
    var r := (total + size - 1) / size;
    var m := (total + size - 1) % size;
    assert total + size - 1 == r * size + m && 0 <= m < size;
    assert (r - 1) * size == r * size - size;
    r
  }

  /** The `pagination` object of a response. */
  function Paginate(page: int, pageSize: int, total: int): (p: PageInfo)
    requires page >= 1 && 1 <= pageSize <= 100 && total >= 0
    ensures p.page == page && p.pageSize == pageSize && p.total == total
    ensures p.totalPages >= 0
    ensures total == 0 ==> p.totalPages == 0
    ensures total > 0 ==> (p.totalPages - 1) * pageSize < total <= p.totalPages * pageSize
    ensures p.hasNext <==> page < p.totalPages
    ensures p.hasPrev <==> page > 1
  {
    var totalPages := CeilDiv(total, pageSize);
    PageInfo(page, pageSize, total, totalPages, page < totalPages, page > 1)
  }

  /** Every listed row is the view of a row of the table whose title matches. */
  lemma {:induction false} OrderedFromMatches(rows: seq<Document>, q: string, asc: bool, x: Row)
    requires x in Ordered(rows, q, asc)
    ensures exists k :: 0 <= k < |rows| && x == View(rows[k]) && TitleMatches(rows[k].title, q)
  {
    var m := Matching(rows, q);
    SortPermutes(Views(m), asc);
    assert multiset(Ordered(rows, q, asc)) == multiset(Views(m));
    assert x in multiset(Views(m));
    var j :| 0 <= j < |m| && Views(m)[j] == x;
    var d := m[j];
    assert multiset(m)[d] > 0;
    assert TitleMatches(d.title, q) && multiset(rows)[d] > 0;
    assert d in rows;
    var k :| 0 <= k < |rows| && rows[k] == d;
  }

  /** Every row of a window of the ordered matches comes from a matching table row. */
  lemma WindowFromMatches(rows: seq<Document>, q: string, asc: bool, offset: int, limit: int)
    requires offset >= 0 && limit >= 0
    ensures var w := Window(Ordered(rows, q, asc), offset, limit);
      forall i :: 0 <= i < |w| ==>
        exists k :: 0 <= k < |rows| && w[i] == View(rows[k]) && TitleMatches(rows[k].title, q)
  {
    var all := Ordered(rows, q, asc);
    var w := Window(all, offset, limit);
    forall i | 0 <= i < |w|
      ensures exists k :: 0 <= k < |rows| && w[i] == View(rows[k]) && TitleMatches(rows[k].title, q)
    {
      assert w[i] in all;
      OrderedFromMatches(rows, q, asc, w[i]);
    }
  }

  /** One page of an accepted listing request. */
  function PageOf(rows: seq<Document>, q: string, asc: bool, page: int, pageSize: int): (r: ListResponse)
    requires page >= 1 && 1 <= pageSize <= 100
    ensures r.Listed?
    ensures r.pagination == Paginate(page, pageSize, |Matching(rows, q)|)
    ensures |r.documents| <= pageSize
    ensures q == "" ==> r.pagination.total == |rows|
    ensures SortedBy(r.documents, asc)
    ensures r.documents == Window(Ordered(rows, q, asc), Offset(page, pageSize), pageSize)
    ensures forall i :: 0 <= i < |r.documents| ==>
      exists k :: 0 <= k < |rows| && r.documents[i] == View(rows[k]) && TitleMatches(rows[k].title, q)
  {
    var offset := Offset(page, pageSize);
    var total := |Matching(rows, q)|;
    var documents := Window(Ordered(rows, q, asc), offset, pageSize);
    WindowFromMatches(rows, q, asc, offset, pageSize);
    SortedWindow(Ordered(rows, q, asc), asc, offset, pageSize);
    Listed(documents, Paginate(page, pageSize, total))
  }

  /** The listing handler: coerce, validate pagination, validate the sort
      order, then produce the page. */
  function List(rows: seq<Document>, query: ListQuery): (r: ListResponse)
    ensures r.ListRejected? <==>
      || (query.page.Some? && query.page.value < 0)
      || (query.pageSize.Some? && (query.pageSize.value < 0 || query.pageSize.value > 100))
      || Direction(query.sortOrder).None?
    ensures r.ListRejected? ==> r.status == 400
    ensures r.ListRejected? ==>
      (r.reason == InvalidPagination <==>
         || (query.page.Some? && query.page.value < 0)
         || (query.pageSize.Some? && (query.pageSize.value < 0 || query.pageSize.value > 100)))
    ensures r.Listed? ==>
      && (query.page.None? || query.page.value == 0 ==> r.pagination.page == 1)
      && (query.page.Some? && query.page.value > 0 ==> r.pagination.page == query.page.value)
      && (query.pageSize.None? || query.pageSize.value == 0 ==> r.pagination.pageSize == 10)
      && (query.pageSize.Some? && query.pageSize.value > 0 ==> r.pagination.pageSize == query.pageSize.value)
      && r == PageOf(rows, query.q, Direction(query.sortOrder).value, r.pagination.page, r.pagination.pageSize)
  {
    var page := ParsedOr(query.page, 1);
    var pageSize := ParsedOr(query.pageSize, 10);
    if page < 1 || pageSize < 1 || pageSize > 100 then
      ListRejected(400, InvalidPagination)
    else if Direction(query.sortOrder).None? then
      ListRejected(400, InvalidSortOrder)
    else
      PageOf(rows, query.q, Direction(query.sortOrder).value, page, pageSize)
  }

  /** The offset of the page after `page` is `pageSize` further on. */
  lemma OffsetStep(page: int, pageSize: int)
    requires page >= 1 && pageSize >= 1
    ensures Offset(page + 1, pageSize) == Offset(page, pageSize) + pageSize
  {
    assert page * pageSize == (page - 1) * pageSize + pageSize;
  }

  lemma WindowStep(s: seq<Row>, offset: int, limit: int)
    requires offset >= 0 && limit >= 0
    ensures s[..Min(offset, |s|)] + Window(s, offset, limit) == s[..Min(offset + limit, |s|)]
  {
    var a, b := Min(offset, |s|), Min(offset + limit, |s|);
    assert s[..a] + s[a..b] == s[..b];
  }

  /** The rows of pages 1..n concatenated. */
  function Concat(pages: nat -> seq<Row>, n: nat): seq<Row>
  {
    if n == 0 then [] else Concat(pages, n - 1) + pages(n)
  }

  /** When page k is the k-th window of `all`, pages 1..n together are the
      part of `all` before the offset of page n + 1. */
  lemma {:induction false} ConcatWindows(pages: nat -> seq<Row>, all: seq<Row>, pageSize: int, n: nat)
    requires pageSize >= 1
    requires forall k: nat :: 1 <= k <= n ==> pages(k) == Window(all, Offset(k, pageSize), pageSize)
    ensures Concat(pages, n) == all[..Min(Offset(n + 1, pageSize), |all|)]
  {
    if n == 0 {
      assert Offset(1, pageSize) == 0;
    } else {
      ConcatWindows(pages, all, pageSize, n - 1);
      OffsetStep(n, pageSize);
      WindowStep(all, Offset(n, pageSize), pageSize);
    }
  }

  /** A request for page n with an accepted page size and sort order lists
      the n-th window of the ordered matches. */
  lemma ListedWindow(rows: seq<Document>, pageSize: int, sortOrder: string, q: string, n: int)
    requires n >= 1 && 1 <= pageSize <= 100
    requires Direction(sortOrder).Some?
    ensures var r := List(rows, ListQuery(Some(n), Some(pageSize), sortOrder, q));
      && r.Listed?
      && r.documents == Window(Ordered(rows, q, Direction(sortOrder).value), Offset(n, pageSize), pageSize)
  {
  }

  function DocumentsOf(r: ListResponse): seq<Row>
  {
    if r.Listed? then r.documents else []
  }

  /** The rows returned for each page number, the other parameters fixed. */
  function PageRequests(rows: seq<Document>, pageSize: int, sortOrder: string, q: string): nat -> seq<Row>
  {
    (k: nat) => DocumentsOf(List(rows, ListQuery(Some(k), Some(pageSize), sortOrder, q)))
  }

  /** Requesting pages 1..n one by one gives the ordered matches up to the
      offset of page n + 1. */
  lemma PagesPrefix(rows: seq<Document>, pageSize: int, sortOrder: string, q: string, n: nat)
    requires 1 <= pageSize <= 100
    requires Direction(sortOrder).Some?
    ensures var all := Ordered(rows, q, Direction(sortOrder).value);
      Concat(PageRequests(rows, pageSize, sortOrder, q), n) == all[..Min(Offset(n + 1, pageSize), |all|)]
  {
    var all := Ordered(rows, q, Direction(sortOrder).value);
    var pages := PageRequests(rows, pageSize, sortOrder, q);
    forall k: nat | 1 <= k <= n
      ensures pages(k) == Window(all, Offset(k, pageSize), pageSize)
    {
      ListedWindow(rows, pageSize, sortOrder, q, k);
    }
    ConcatWindows(pages, all, pageSize, n);
  }

  /** Requesting every page from 1 to `totalPages` returns each match exactly
      once, in order, `total` rows in all. */
  lemma AllPagesGiveAllMatches(rows: seq<Document>, pageSize: int, sortOrder: string, q: string)
    requires 1 <= pageSize <= 100
    requires Direction(sortOrder).Some?
    ensures var first := List(rows, ListQuery(Some(1), Some(pageSize), sortOrder, q));
      && first.Listed?
      && Concat(PageRequests(rows, pageSize, sortOrder, q), first.pagination.totalPages)
         == Ordered(rows, q, Direction(sortOrder).value)
  {
    var first := List(rows, ListQuery(Some(1), Some(pageSize), sortOrder, q));
    var all := Ordered(rows, q, Direction(sortOrder).value);
    var tp := first.pagination.totalPages;
    assert first.Listed? && |all| == first.pagination.total by {
      ListedWindow(rows, pageSize, sortOrder, q, 1);
    }
    PagesPrefix(rows, pageSize, sortOrder, q, tp);
    assert Offset(tp + 1, pageSize) >= |all| by {
      if tp > 0 {
        OffsetStep(tp, pageSize);
        assert Offset(tp + 1, pageSize) == tp * pageSize;
      }
    }
  }
}
