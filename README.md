# CSV data service: load once, then paginate, export and summarise

This project models a small read-only HTTP data service. At startup it lists the
`csv_files` directory, keeps the names ending in `.csv` in listing order, reads
each file with a CSV reader, and concatenates the frames into one dataframe held
in a process-wide slot. If nothing is selected or any file fails to read, the
slot stays unset. Three handlers read the slot:

- `fetch_data` returns one page of rows with page metadata.
- `fetch_all_data` streams the whole table as CSV.
- `fetch_summary` returns the row count, the columns and the first five rows.

Each handler answers `"No CSV files found or loaded."` while the slot is unset.

Files:

- `wrappers.dfy`: `Option`.
- `frames.dfy`: cell values, rows as column-to-value maps, tables, and the outer
  concatenation. The concatenation takes the union of columns in first-seen
  order, keeps file order then in-file order, and pads each row with `Null`
  for the columns its own file lacks. `WellFormed` is the shape a CSV reader
  gives a frame: distinct columns, and each row holds exactly those columns.
- `loader.dfy`: the `.csv` suffix filter, the read-every-file step that fails as
  a whole, the specification function `LoadResult`, and the class `Service`.
  `Service` has the `dataframe` field that the startup handler assigns at most
  once per successful load.
- `queries.dfy`: the three handlers as pure functions of the optional
  dataframe, the pagination arithmetic, and the lemmas about pages.
- `app.dfy`: the startup sequence (construct, then load) and lemmas tying a
  failed or empty load to the "no data" answers.

Environment inputs are parameters:

- The directory listing is `listing: seq<string>`.
- The CSV reader is `read: string -> Option<Table>`, where `None` means the reader raised.
- The reader is applied to `"csv_files/" + name`.

## Model

| member | source | states |
|---|---|---|
| Frames.AddNew | app.py:32 | the result extends the accumulated columns, contains exactly the old and the new names, and stays duplicate-free |
| Frames.AddNewOrder | app.py:32 | the names appended are new, come from the frame's columns, and stand in the order of their first occurrence there |
| Frames.UnionColumns | app.py:32 | the unified columns are distinct and are exactly the names that occur in some frame |
| Frames.UnionColumnsPrefix | app.py:32 | the union over the first k frames is a prefix of the whole union, and frame k only appends its new names to it: first-seen order across frames |
| Frames.PadCells | app.py:32 | a padded row has exactly the table's columns, keeps its cells for its own frame's columns and holds Null for every other column |
| Frames.ConcatShape | app.py:32 | the concatenated table has as many rows as all frames together, its columns are the union of the frames' columns, and it is well-formed (distinct columns, every row carries exactly those columns) |
| Frames.ConcatRowAt | app.py:32 | row j of frame k is found, padded, at the offset of all rows of the earlier frames plus j: file order, then in-file order |
| Frames.ConcatCellAt | app.py:32 | for a well-formed frame k, each cell of its row j in the table is the frame's own cell for the frame's columns and Null for any other column |
| Frames.UnionOfTwoFiles | app.py:32 | frames with columns [x, y] and [y, z] (distinct names) unify to columns [x, y, z] |
| Frames.FirstFileRow | app.py:32 | row j of the [x, y] file is row j of the table, with its x and y cells and a Null z |
| Frames.SecondFileRow | app.py:32 | row j of the [y, z] file follows every row of the first file, with a Null x and its y and z cells |
| Frames.TwoFileRows | app.py:32 | two well-formed files with columns [x, y] and [y, z]: columns [x, y, z], the first file's rows first with Null z, then the second file's rows with Null x |
| Loader.CsvPathsAppend | app.py:19-23 | selecting from a split listing equals concatenating the selections of its parts, so selection keeps listing order |
| Loader.CsvPathsMembers | app.py:19-23 | a path is selected exactly when it is the directory joined with a listed name ending in ".csv" |
| Loader.CsvPathsEmpty | app.py:19-25 | the selection is empty exactly when no listed name ends in ".csv" |
| Loader.CollectCsvPaths | app.py:19-23 | the loop over the listing builds exactly the specified selection |
| Loader.ReadAllMeaning | app.py:31 | reading succeeds exactly when every selected file reads, and then yields one frame per path in path order, each the reader's result |
| Loader.ReadAllPrefixFails | app.py:30-31 | a failure among the first k files fails the whole read |
| Loader.ReadFrames | app.py:30-31 | the read loop that stops at the first failure returns exactly the specified read result |
| Loader.LoadResultUnset | app.py:19-35 | the load publishes nothing exactly when no name ends in ".csv" or some selected file fails to read |
| Loader.LoadResultTable | app.py:30-32 | a published table is the concatenation of one frame per selected file, each what the reader returned for it |
| Loader.Service.constructor | app.py:13 | the dataframe slot starts unset and nothing has been published |
| Loader.Service.LoadCsvs | app.py:16-35 | on success the slot holds the load result and one more publication is counted; otherwise the slot and the count are unchanged |
| Queries.FetchData | app.py:38-64 | the answer is "no data" exactly when the slot is unset; a page echoes page and page_size, reports total_records = n and holds between 1 and page_size rows |
| Queries.FetchAllData | app.py:67-78 | the answer is "no data" exactly when the slot is unset; otherwise the whole published table is exported |
| Queries.FetchSummary | app.py:81-94 | the answer is "no data" exactly when the slot is unset; otherwise total_records = n, columns is the table's column list, and sample is a prefix of the rows of length min(5, n) |
| Queries.TotalPagesIsCeiling | app.py:62 | total_pages is 0 exactly for an empty table, and otherwise (total_pages - 1) * page_size < n <= total_pages * page_size |
| Queries.CeilingIsUnique | app.py:62 | any k with (k - 1) * page_size < n <= k * page_size equals total_pages |
| Queries.InRangeIffWithinTotalPages | app.py:50-62 | a page starts inside the table exactly when its number is at most total_pages |
| Queries.OutOfRangeExactly | app.py:50-54 | the out-of-range error comes exactly when start_idx >= n, equivalently when page > total_pages |
| Queries.PageContents | app.py:50-63 | an in-range page holds rows[start_idx .. min(start_idx + page_size, n)], of length min(page_size, n - start_idx), with full metadata; a short page is the last page |
| Queries.DefaultRequest | app.py:40-41 | the default page 1 and page size 100 are valid; on a non-empty table they give the first min(100, n) rows, on an empty one the out-of-range error |
| Queries.PagesFromSuffix | app.py:50-57 | the pages from a given page onwards hold exactly the rows from that page's start index to the end |
| Queries.PagesReproduceTable | app.py:50-57 | concatenating the data of pages 1, 2, ... until out of range reproduces the whole row sequence |
| Queries.CoveringPageUnique | app.py:50-57 | a page whose index range [start_idx, end_idx) contains index i is page i / page_size + 1, so consecutive pages share no row |
| Queries.RowOnExactlyOnePage | app.py:50-57 | row i is on page i / page_size + 1 at position i % page_size, and on no other page |
| Queries.SampleIsFirstPage | app.py:89-92 | on a non-empty table the summary sample equals the data of page 1 with page size 5; on an empty table the sample is empty and that page is out of range |
| Queries.ThreeRowExample | app.py:50-64 | with three rows and page size 2, page 1 holds the first two rows, page 2 the third, page 3 is out of range, total_pages is 2 |
| App.Startup | app.py:13-35 | after startup the slot holds exactly the load result, and at most one publication has happened, which is when the slot is set |
| App.NoCsvFilesMeansNoData | app.py:25-27 | a listing without ".csv" names makes all three handlers answer "no data" |
| App.FailedReadMeansNoData | app.py:30-35 | one selected file that fails to read makes all three handlers answer "no data" |
| App.LoadedTableSize | app.py:31-33 | after a successful load total_records is the sum of the row counts of the files read, and the published table is well-formed |

## Left out

- HTTP routing, the `Query` parameter validation and JSON rendering: the bounds `page >= 1` and `1 <= page_size <= 1000` are the precondition `ValidPaging`. The defaults 1 and 100 are constants only.
- CSV parsing: the reader is the parameter `read`. Type inference is not modelled; cells are text, numbers (as `real`) or `Null`. The model does not require `read` to return well-formed frames. Padding decides a cell by the frame's own columns, so the published table is well-formed whatever `read` returns, and the cell lemmas assume a well-formed source frame.
- The concatenation follows the library's outer-join behaviour only for columns, row order and Null padding. Dtype changes caused by padding are not modelled; an integer column that gets a NaN, for example, becomes floating point. A failure inside the concatenation itself is not modelled.
- CSV serialisation and streaming in `fetch_all_data`: the model returns the table that would be serialised. The serialiser is foreign code, so no round-trip is stated.
- Directory listing: it is the parameter `listing`; its order is taken as given. `os.path.join` is modelled as `dir + "/" + name`.
- A missing or unreadable `csv_files` directory is not modelled. The listing call (app.py:21) runs before the `try` at app.py:30, so its error escapes the startup handler and aborts startup instead of leaving the slot unset; a `listing` parameter cannot express that path.
- JSON rendering of page and summary bodies is not modelled. The framework's JSON renderer refuses NaN values, so a page or sample that holds a `Null` cell (every padded row, for one) would most likely end in a server error rather than the body the model gives. This follows from reading the framework's documented behaviour, not from the repository's code.
- Console logging is not modelled.
- The async handlers and the startup event: the model runs startup and then requests in sequence. A second run of the startup handler is allowed by `LoadCsvs`; on failure it keeps the earlier table, as the source does.
- Row-to-dictionary conversion (`to_dict(orient="records")`): rows are already maps.
