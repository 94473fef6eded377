/** The service as a whole: startup loads once, then requests only read the
    published dataframe. */
module App {
  import opened Wrappers
  import opened Frames
  import Loader
  import Queries

  /** The process lifecycle up to the first request: the dataframe slot
      starts unset and the startup handler runs once. */
  method Startup(listing: seq<string>, read: string -> Option<Table>) returns (s: Loader.Service)
    ensures fresh(s)
    ensures s.dataframe == Loader.LoadResult(listing, read)
    ensures s.publications <= 1
    ensures s.publications == 1 <==> s.dataframe.Some?
  {
    s := new Loader.Service();
    s.LoadCsvs(listing, read);
  }

  /** A listing without any ".csv" name leaves every handler answering
      "no data". */
  lemma NoCsvFilesMeansNoData(listing: seq<string>, read: string -> Option<Table>, page: int, pageSize: int)
    requires Queries.ValidPaging(page, pageSize)
    requires forall i :: 0 <= i < |listing| ==> !Loader.EndsWith(listing[i], Loader.CsvSuffix)
    ensures var df := Loader.LoadResult(listing, read);
            Queries.FetchData(df, page, pageSize) == Queries.Err(Queries.NoData) &&
            Queries.FetchAllData(df) == Queries.Err(Queries.NoData) &&
            Queries.FetchSummary(df) == Queries.Err(Queries.NoData)
  {
    Loader.LoadResultUnset(listing, read);
  }

  /** One selected file that fails to read leaves every handler answering
      "no data": no partial table is served. */
  lemma FailedReadMeansNoData(listing: seq<string>, read: string -> Option<Table>, k: nat, page: int, pageSize: int)
    requires Queries.ValidPaging(page, pageSize)
    requires k < |Loader.CsvPaths(Loader.CsvDirectory, listing)|
    requires read(Loader.CsvPaths(Loader.CsvDirectory, listing)[k]).None?
    ensures var df := Loader.LoadResult(listing, read);
            Queries.FetchData(df, page, pageSize) == Queries.Err(Queries.NoData) &&
            Queries.FetchAllData(df) == Queries.Err(Queries.NoData) &&
            Queries.FetchSummary(df) == Queries.Err(Queries.NoData)
  {
    Loader.LoadResultUnset(listing, read);
  }

  /** After a successful load the summary counts every row of every
      selected file, and the published table is well-formed. */
  lemma LoadedTableSize(listing: seq<string>, read: string -> Option<Table>)
    requires Loader.LoadResult(listing, read).Some?
    ensures var paths := Loader.CsvPaths(Loader.CsvDirectory, listing);
            var frames := Loader.ReadAll(paths, read).value;
            Queries.FetchSummary(Loader.LoadResult(listing, read)).value.totalRecords == TotalRows(frames)
    ensures WellFormed(Loader.LoadResult(listing, read).value)
  {
    var paths := Loader.CsvPaths(Loader.CsvDirectory, listing);
    ConcatShape(Loader.ReadAll(paths, read).value);
  }
}
