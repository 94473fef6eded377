/** The startup loader: pick the `.csv` names of the data directory's listing,
    read each file, and publish their concatenation once, or nothing at all. */
module Loader {
  import opened Wrappers
  import opened Frames

  /** The directory holding the data files, relative to the working directory. */
  const CsvDirectory: string := "csv_files"

  const CsvSuffix: string := ".csv"

  /** Case-sensitive suffix test on a file name. */
  predicate EndsWith(s: string, suffix: string)
  {
    |suffix| <= |s| && s[|s| - |suffix|..] == suffix
  }

  /** A listed name placed under the data directory. */
  function JoinPath(dir: string, name: string): string
  {
    dir + "/" + name
  }

  /** The paths of the listed names that end in ".csv", in listing order. */
  function CsvPaths(dir: string, names: seq<string>): seq<string>
  {
    if names == [] then []
    else
      var last := names[|names| - 1];
      CsvPaths(dir, names[..|names| - 1]) + (if EndsWith(last, CsvSuffix) then [JoinPath(dir, last)] else [])
  }

  /** Selection distributes over a split listing, so it keeps listing order. */
  lemma {:induction false} CsvPathsAppend(dir: string, a: seq<string>, b: seq<string>)
    ensures CsvPaths(dir, a + b) == CsvPaths(dir, a) + CsvPaths(dir, b)
    decreases |b|
  {
    if b == [] {
      assert a + b == a;
    } else {
      var init := b[..|b| - 1];
      assert (a + b)[..|a + b| - 1] == a + init;
      CsvPathsAppend(dir, a, init);
    }
  }

  /** A path is selected exactly when some listed name ends in ".csv" and
      the path is that name under the directory. */
  lemma {:induction false} CsvPathsMembers(dir: string, names: seq<string>)
    ensures forall p :: p in CsvPaths(dir, names) <==>
              exists i :: 0 <= i < |names| && EndsWith(names[i], CsvSuffix) && p == JoinPath(dir, names[i])
  {
    if names != [] {
      var init := names[..|names| - 1];
      CsvPathsMembers(dir, init);
      assert forall i :: 0 <= i < |init| ==> init[i] == names[i];
    }
  }

  /** Nothing is selected exactly when no listed name ends in ".csv". */
  lemma {:induction false} CsvPathsEmpty(dir: string, names: seq<string>)
    ensures CsvPaths(dir, names) == [] <==> forall i :: 0 <= i < |names| ==> !EndsWith(names[i], CsvSuffix)
  {
    CsvPathsMembers(dir, names);
    if CsvPaths(dir, names) != [] {
      assert CsvPaths(dir, names)[0] in CsvPaths(dir, names);
    }
    forall i | 0 <= i < |names| && EndsWith(names[i], CsvSuffix)
      ensures CsvPaths(dir, names) != []
    {
      assert JoinPath(dir, names[i]) in CsvPaths(dir, names);
    }
  }

  /** Builds the list of selected paths one listed name at a time. */
  method CollectCsvPaths(dir: string, names: seq<string>) returns (paths: seq<string>)
    ensures paths == CsvPaths(dir, names)
  {
    paths := [];
    var i := 0;
    while i < |names|
      invariant 0 <= i <= |names|
      invariant paths == CsvPaths(dir, names[..i])
    {
      assert names[..i + 1][..i] == names[..i];
      if EndsWith(names[i], CsvSuffix) {
        paths := paths + [JoinPath(dir, names[i])];
      }
      i := i + 1;
    }
    assert names[..i] == names;
  }

  /** Reads every path in order; the whole read fails if any one fails.
      `read` stands for the CSV reader: None means it raised. */
  function ReadAll(paths: seq<string>, read: string -> Option<Table>): Option<seq<Table>>
  {
    if paths == [] then Some([])
    else
      match ReadAll(paths[..|paths| - 1], read)
      case None => None
      case Some(frames) =>
        match read(paths[|paths| - 1])
        case None => None
        case Some(f) => Some(frames + [f])
  }

  /** Reading succeeds exactly when every file reads, and then yields one
      frame per path, in path order. */
  lemma {:induction false} ReadAllMeaning(paths: seq<string>, read: string -> Option<Table>)
    ensures ReadAll(paths, read).Some? <==> forall i :: 0 <= i < |paths| ==> read(paths[i]).Some?
    ensures ReadAll(paths, read).Some? ==>
              |ReadAll(paths, read).value| == |paths| &&
              forall i :: 0 <= i < |paths| ==> ReadAll(paths, read).value[i] == read(paths[i]).value
  {
    if paths != [] {
      var init := paths[..|paths| - 1];
      ReadAllMeaning(init, read);
      assert forall i :: 0 <= i < |init| ==> init[i] == paths[i];
    }
  }

  /** A failure among the first `k` files fails the whole read. */
  lemma {:induction false} ReadAllPrefixFails(paths: seq<string>, read: string -> Option<Table>, k: nat)
    requires k <= |paths| && ReadAll(paths[..k], read) == None
    ensures ReadAll(paths, read) == None
    decreases |paths| - k
  {
    if k < |paths| {
      assert paths[..k + 1][..k] == paths[..k];
      ReadAllPrefixFails(paths, read, k + 1);
    } else {
      assert paths[..k] == paths;
    }
  }

  /** Reads the files one after another and stops at the first failure, as
      a list comprehension does when an element raises. */
  method ReadFrames(paths: seq<string>, read: string -> Option<Table>) returns (frames: Option<seq<Table>>)
    ensures frames == ReadAll(paths, read)
  {
    var acc: seq<Table> := [];
    var i := 0;
    while i < |paths|
      invariant 0 <= i <= |paths|
      invariant ReadAll(paths[..i], read) == Some(acc)
    {
      assert paths[..i + 1][..i] == paths[..i];
      var f := read(paths[i]);
      if f.None? {
        ReadAllPrefixFails(paths, read, i + 1);
        return None;
      }
      acc := acc + [f.value];
      i := i + 1;
    }
    assert paths[..i] == paths;
    frames := Some(acc);
  }

  /** What a startup load publishes given the directory listing: nothing when
      no name ends in ".csv" or any file fails to read, otherwise the
      concatenation of all selected files. */
  function LoadResult(listing: seq<string>, read: string -> Option<Table>): Option<Table>
  {
    var paths := CsvPaths(CsvDirectory, listing);
    if paths == [] then None
    else
      match ReadAll(paths, read)
      case None => None
      case Some(frames) => Some(Concat(frames))
  }

  /** The load leaves the table unset exactly when no listed name ends in
      ".csv" or some selected file fails to read: no partial table. */
  lemma LoadResultUnset(listing: seq<string>, read: string -> Option<Table>)
    ensures var paths := CsvPaths(CsvDirectory, listing);
            LoadResult(listing, read).None? <==>
              (forall i :: 0 <= i < |listing| ==> !EndsWith(listing[i], CsvSuffix)) ||
              (exists i :: 0 <= i < |paths| && read(paths[i]).None?)
  {
    CsvPathsEmpty(CsvDirectory, listing);
    ReadAllMeaning(CsvPaths(CsvDirectory, listing), read);
  }

  /** A published table is the concatenation of one frame per selected file,
      each exactly what the reader returned for that file, in listing order. */
  lemma LoadResultTable(listing: seq<string>, read: string -> Option<Table>)
    requires LoadResult(listing, read).Some?
    ensures var paths := CsvPaths(CsvDirectory, listing);
            exists frames: seq<Table> ::
              |frames| == |paths| && |frames| > 0 &&
              (forall i :: 0 <= i < |paths| ==> read(paths[i]) == Some(frames[i])) &&
              LoadResult(listing, read).value == Concat(frames)
  {
    var paths := CsvPaths(CsvDirectory, listing);
    ReadAllMeaning(paths, read);
    var frames := ReadAll(paths, read).value;
    assert forall i :: 0 <= i < |paths| ==> read(paths[i]) == Some(frames[i]);
  }

  /** The service's process-wide state: the optional unified dataframe. */
  class Service {
    var dataframe: Option<Table>
    /** How many times a table has been published into `dataframe`. */
    ghost var publications: nat

    constructor ()
      ensures dataframe == None && publications == 0
    {
      dataframe := None;
      publications := 0;
    }

    /** The startup handler: select, read and concatenate; assign the
        dataframe only when every step succeeded. */
    method LoadCsvs(listing: seq<string>, read: string -> Option<Table>)
      modifies this
      ensures LoadResult(listing, read).Some? ==>
                dataframe == LoadResult(listing, read) && publications == old(publications) + 1
      ensures LoadResult(listing, read).None? ==>
                dataframe == old(dataframe) && publications == old(publications)
    {
      var csvFiles := CollectCsvPaths(CsvDirectory, listing);
      if csvFiles == [] {
        return;
      }
      var frames := ReadFrames(csvFiles, read);
      match frames {
        case None =>
        case Some(fs) =>
          dataframe := Some(Concat(fs));
          publications := publications + 1;
      }
    }
  }
}
