/** The three read handlers over the published dataframe: a paginated slice,
    the whole table for CSV export, and a summary. Each takes the service's
    optional dataframe; an unset one yields the "no data" error. */
module Queries {
  import opened Wrappers
  import opened Frames

  const NoDataMessage: string := "No CSV files found or loaded."
  const OutOfRangeMessage: string := "Page number out of range."

  /** Query-parameter defaults and bounds of the paginated handler. */
  const DefaultPage: int := 1
  const DefaultPageSize: int := 100
  const MaxPageSize: int := 1000

  /** Rows shown by the summary handler. */
  const SampleSize: nat := 5

  /** The two error bodies a handler can answer with. */
  datatype Error = NoData | PageOutOfRange

  /** The text of the `error` field for each error. */
  function Message(e: Error): string
  {
    match e
    case NoData => NoDataMessage
    case PageOutOfRange => OutOfRangeMessage
  }

  datatype Response<T> = Ok(value: T) | Err(error: Error)

  /** The body of a successful paginated response. */
  datatype Page = Page(page: int, pageSize: int, totalRecords: nat, totalPages: nat, data: seq<Row>)

  /** The body of a successful summary response. */
  datatype Summary = Summary(totalRecords: nat, columns: seq<string>, sample: seq<Row>)

  /** What request validation admits: page at least 1, page size in [1, 1000]. */
  predicate ValidPaging(page: int, pageSize: int)
  {
    1 <= page && 1 <= pageSize <= MaxPageSize
  }

  function Min(a: int, b: int): int
  {
    if a <= b then a else b
  }

  /** Index of the first row of a page. */
  function StartIndex(page: int, pageSize: int): int
  {
    (page - 1) * pageSize
  }

  /** Index one past the last row a page may hold. */
  function EndIndex(page: int, pageSize: int): int
  {
    StartIndex(page, pageSize) + pageSize
  }

  /** Floor division plus one when a remainder is left. */
  function TotalPages(n: nat, pageSize: int): nat
    requires pageSize >= 1
  {
    n / pageSize + (if n % pageSize != 0 then 1 else 0)
  }

  /** The paginated handler. */
  function FetchData(df: Option<Table>, page: int, pageSize: int): (r: Response<Page>)
    requires ValidPaging(page, pageSize)
    ensures r == Err(NoData) <==> df.None?
    ensures r.Ok? ==> df.Some? && r.value.page == page && r.value.pageSize == pageSize &&
                      r.value.totalRecords == |df.value.rows| &&
                      1 <= |r.value.data| <= pageSize
  {
    match df
    case None => Err(NoData)
    case Some(t) =>
      var start := StartIndex(page, pageSize);
      var end := EndIndex(page, pageSize);
      if start >= |t.rows| then Err(PageOutOfRange)
      else Ok(Page(page, pageSize, |t.rows|, TotalPages(|t.rows|, pageSize), t.rows[start..Min(end, |t.rows|)]))
  }

  /** The export handler: on success, the table whose CSV text is streamed. */
  function FetchAllData(df: Option<Table>): (r: Response<Table>)
    ensures r == Err(NoData) <==> df.None?
    ensures df.Some? ==> r == Ok(df.value)
  {
    match df
    case None => Err(NoData)
    case Some(t) => Ok(t)
  }

  /** The summary handler. */
  function FetchSummary(df: Option<Table>): (r: Response<Summary>)
    ensures r == Err(NoData) <==> df.None?
    ensures r.Ok? ==> r.value.totalRecords == |df.value.rows| && r.value.columns == df.value.columns &&
                      |r.value.sample| == Min(SampleSize, |df.value.rows|) && r.value.sample <= df.value.rows
  {
    match df
    case None => Err(NoData)
    case Some(t) => Ok(Summary(|t.rows|, t.columns, t.rows[..Min(SampleSize, |t.rows|)]))
  }

  // ---------------------------------------------------------------------
  // Pagination arithmetic

  lemma MulMonotone(a: int, b: int, c: int)
    requires a <= b && 0 <= c
    ensures a * c <= b * c
  {
    assert b * c - a * c == (b - a) * c;
  }

  /** The page count is the ceiling of n / pageSize: the last page is
      non-empty and holds the last row, and it is the only such count. */
  lemma TotalPagesIsCeiling(n: nat, pageSize: int)
    requires pageSize >= 1
    ensures n == 0 <==> TotalPages(n, pageSize) == 0
    ensures n > 0 ==> (TotalPages(n, pageSize) - 1) * pageSize < n <= TotalPages(n, pageSize) * pageSize
  {
    var q, m := n / pageSize, n % pageSize;
    assert n == q * pageSize + m;
    if m != 0 {
      assert (q + 1) * pageSize == q * pageSize + pageSize;
    }
    if n > 0 && m == 0 {
      assert q != 0;
      assert (q - 1) * pageSize == q * pageSize - pageSize;
    }
  }

  /** Any k with (k-1)*pageSize < n <= k*pageSize is the page count. */
  lemma CeilingIsUnique(n: nat, pageSize: int, k: int)
    requires pageSize >= 1 && n > 0
    requires (k - 1) * pageSize < n <= k * pageSize
    ensures k == TotalPages(n, pageSize)
  {
    var tp := TotalPages(n, pageSize);
    TotalPagesIsCeiling(n, pageSize);
    if k < tp {
      MulMonotone(k, tp - 1, pageSize);
    } else if k > tp {
      MulMonotone(tp, k - 1, pageSize);
    }
  }

  /** A page starts inside the table exactly when its number is at most the
      page count. */
  lemma InRangeIffWithinTotalPages(n: nat, page: int, pageSize: int)
    requires ValidPaging(page, pageSize)
    ensures StartIndex(page, pageSize) < n <==> page <= TotalPages(n, pageSize)
  {
    var tp := TotalPages(n, pageSize);
    TotalPagesIsCeiling(n, pageSize);
    MulMonotone(0, page - 1, pageSize);
    if page <= tp {
      MulMonotone(page - 1, tp - 1, pageSize);
    } else {
      MulMonotone(tp, page - 1, pageSize);
    }
  }

  /** The out-of-range error is given exactly when the page starts at or
      past the end of a published table, equivalently when the page number
      exceeds the page count. */
  lemma OutOfRangeExactly(t: Table, page: int, pageSize: int)
    requires ValidPaging(page, pageSize)
    ensures FetchData(Some(t), page, pageSize) == Err(PageOutOfRange) <==> StartIndex(page, pageSize) >= |t.rows|
    ensures FetchData(Some(t), page, pageSize) == Err(PageOutOfRange) <==> page > TotalPages(|t.rows|, pageSize)
  {
    InRangeIffWithinTotalPages(|t.rows|, page, pageSize);
  }

  /** An in-range page echoes the request, reports the table size and the
      page count, and holds rows [start, min(start + pageSize, n)): between
      one and pageSize rows, and fewer only on the last page. */
  lemma PageContents(t: Table, page: int, pageSize: int)
    requires ValidPaging(page, pageSize)
    requires StartIndex(page, pageSize) < |t.rows|
    ensures var start := StartIndex(page, pageSize);
            var r := FetchData(Some(t), page, pageSize);
            r.Ok? && r.value.page == page && r.value.pageSize == pageSize &&
            r.value.totalRecords == |t.rows| &&
            r.value.totalPages == TotalPages(|t.rows|, pageSize) &&
            0 <= start &&
            r.value.data == t.rows[start..Min(start + pageSize, |t.rows|)] &&
            |r.value.data| == Min(pageSize, |t.rows| - start) &&
            (|r.value.data| < pageSize ==> page == TotalPages(|t.rows|, pageSize))
  {
    var n, tp := |t.rows|, TotalPages(|t.rows|, pageSize);
    MulMonotone(0, page - 1, pageSize);
    InRangeIffWithinTotalPages(n, page, pageSize);
    if |FetchData(Some(t), page, pageSize).value.data| < pageSize {
      assert StartIndex(page + 1, pageSize) == EndIndex(page, pageSize);
      InRangeIffWithinTotalPages(n, page + 1, pageSize);
    }
  }

  /** A request that leaves both parameters out is valid, and on a
      non-empty table it answers with the first min(100, n) rows. */
  lemma DefaultRequest(t: Table)
    ensures ValidPaging(DefaultPage, DefaultPageSize)
    ensures |t.rows| > 0 ==>
              FetchData(Some(t), DefaultPage, DefaultPageSize).Ok? &&
              FetchData(Some(t), DefaultPage, DefaultPageSize).value.data == t.rows[..Min(DefaultPageSize, |t.rows|)]
    ensures |t.rows| == 0 ==> FetchData(Some(t), DefaultPage, DefaultPageSize) == Err(PageOutOfRange)
  {
    assert StartIndex(DefaultPage, DefaultPageSize) == 0;
  }

  // ---------------------------------------------------------------------
  // Pages partition the table

  lemma NextPageStart(page: int, pageSize: int)
    ensures StartIndex(page + 1, pageSize) == EndIndex(page, pageSize)
  {
  }

  /** The data of pages `page`, `page + 1`, ... fetched until the first
      out-of-range answer, concatenated. */
  function PagesFrom(t: Table, pageSize: int, page: int): seq<Row>
    requires ValidPaging(page, pageSize)
    decreases |t.rows| - StartIndex(page, pageSize)
  {
    match FetchData(Some(t), page, pageSize)
    case Err(_) => []
    case Ok(p) =>
      NextPageStart(page, pageSize);
      p.data + PagesFrom(t, pageSize, page + 1)
  }

  /** From page `page` on, the pages hold exactly the rows from that page's
      start index to the end of the table. */
  lemma {:induction false} PagesFromSuffix(t: Table, pageSize: int, page: int)
    requires ValidPaging(page, pageSize)
    ensures 0 <= StartIndex(page, pageSize)
    ensures PagesFrom(t, pageSize, page) == t.rows[Min(StartIndex(page, pageSize), |t.rows|)..]
    decreases |t.rows| - StartIndex(page, pageSize)
  {
    var start := StartIndex(page, pageSize);
    MulMonotone(0, page - 1, pageSize);
    if start < |t.rows| {
      NextPageStart(page, pageSize);
      PagesFromSuffix(t, pageSize, page + 1);
      var end := Min(start + pageSize, |t.rows|);
      assert t.rows[start..end] + t.rows[end..] == t.rows[start..];
    }
  }

  /** Fetching pages 1, 2, ... up to the page count and concatenating their
      data gives back the whole table, in order. */
  lemma PagesReproduceTable(t: Table, pageSize: int)
    requires 1 <= pageSize <= MaxPageSize
    ensures PagesFrom(t, pageSize, 1) == t.rows
  {
    PagesFromSuffix(t, pageSize, 1);
  }

  /** Index i is covered by page i / pageSize + 1, at offset i % pageSize. */
  lemma PageOfIndex(pageSize: int, i: int)
    requires 1 <= pageSize && 0 <= i
    ensures StartIndex(i / pageSize + 1, pageSize) == i - i % pageSize
    ensures 0 <= i % pageSize < pageSize
  {
    assert i == (i / pageSize) * pageSize + i % pageSize;
  }

  /** Only one page covers a given index. */
  lemma CoveringPageUnique(pageSize: int, i: int, q: int)
    requires 1 <= pageSize && 0 <= i && 1 <= q
    requires StartIndex(q, pageSize) <= i < EndIndex(q, pageSize)
    ensures q == i / pageSize + 1
  {
    var p := i / pageSize + 1;
    PageOfIndex(pageSize, i);
    if q < p {
      MulMonotone(q, p - 1, pageSize);
    } else if q > p {
      MulMonotone(p, q - 1, pageSize);
    }
  }

  /** Row i lies on page i / pageSize + 1 at position i % pageSize, and on no
      other page: pages never share a row. */
  lemma RowOnExactlyOnePage(t: Table, pageSize: int, i: int)
    requires 1 <= pageSize <= MaxPageSize && 0 <= i < |t.rows|
    ensures var p := i / pageSize + 1;
            var r := FetchData(Some(t), p, pageSize);
            ValidPaging(p, pageSize) && r.Ok? &&
            i % pageSize < |r.value.data| && r.value.data[i % pageSize] == t.rows[i]
    ensures forall q :: 1 <= q && StartIndex(q, pageSize) <= i < EndIndex(q, pageSize) ==> q == i / pageSize + 1
  {
    PageOfIndex(pageSize, i);
    forall q | 1 <= q && StartIndex(q, pageSize) <= i < EndIndex(q, pageSize)
      ensures q == i / pageSize + 1
    {
      CoveringPageUnique(pageSize, i, q);
    }
  }

  // ---------------------------------------------------------------------
  // Summary

  /** On a non-empty table the sample is the data of page 1 with page size 5;
      on an empty one the sample is empty while that page is out of range. */
  lemma SampleIsFirstPage(t: Table)
    ensures |t.rows| > 0 ==> FetchSummary(Some(t)).value.sample == FetchData(Some(t), 1, SampleSize).value.data
    ensures |t.rows| == 0 ==> FetchSummary(Some(t)).value.sample == [] &&
                              FetchData(Some(t), 1, SampleSize) == Err(PageOutOfRange)
  {
    assert StartIndex(1, SampleSize) == 0;
  }

  // ---------------------------------------------------------------------
  // A worked example: a table of three rows, pages of two

  function ExampleRow(id: real, name: string): Row
  {
    map["id" := Num(id), "name" := Str(name)]
  }

  lemma ThreeRowExample()
    ensures var a, b, c := ExampleRow(1.0, "a"), ExampleRow(2.0, "b"), ExampleRow(3.0, "c");
            var t := Some(Table(["id", "name"], [a, b, c]));
            FetchData(t, 1, 2) == Ok(Page(1, 2, 3, 2, [a, b])) &&
            FetchData(t, 2, 2) == Ok(Page(2, 2, 3, 2, [c])) &&
            FetchData(t, 3, 2) == Err(PageOutOfRange)
  {
    var a, b, c := ExampleRow(1.0, "a"), ExampleRow(2.0, "b"), ExampleRow(3.0, "c");
    var rows := [a, b, c];
    assert rows[0..2] == [a, b];
    assert rows[2..3] == [c];
  }
}
