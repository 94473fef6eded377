/** Data frames: an ordered list of column names and an ordered list of rows,
    and the outer concatenation that unifies several frames into one table. */
module Frames {

  /** A cell value as the CSV reader produces it. `Null` stands for a missing
      value (a NaN in the dataframe library). */
  datatype Scalar = Str(s: string) | Num(x: real) | Null

  /** One record: column name to cell value. */
  type Row = map<string, Scalar>

  /** A data frame: its column names in order and its rows in order. */
  datatype Table = Table(columns: seq<string>, rows: seq<Row>)

  /** No column name occurs twice. */
  predicate Distinct(s: seq<string>)
  {
    forall i, j :: 0 <= i < j < |s| ==> s[i] != s[j]
  }

  /** The shape every frame of the CSV reader has: distinct column names,
      and every row holds a cell for exactly those columns. */
  predicate WellFormed(t: Table)
  {
    Distinct(t.columns) &&
    forall i :: 0 <= i < |t.rows| ==> t.rows[i].Keys == set c | c in t.columns
  }

  /** Position of the first occurrence of `x` in `s`. */
  function IndexOf(s: seq<string>, x: string): (i: nat)
    requires x in s
    ensures i < |s| && s[i] == x && forall k :: 0 <= k < i ==> s[k] != x
  {
    if s[0] == x then 0 else 1 + IndexOf(s[1..], x)
  }

  /** Appends to `acc`, in the order met, every name of `cols` not yet present. */
  function AddNew(acc: seq<string>, cols: seq<string>): (r: seq<string>)
    ensures |acc| <= |r| && r[..|acc|] == acc
    ensures forall c :: c in r <==> c in acc || c in cols
    ensures Distinct(acc) ==> Distinct(r)
    decreases |cols|
  {
    if cols == [] then acc
    else AddNew(if cols[0] in acc then acc else acc + [cols[0]], cols[1..])
  }

  /** The names AddNew appends are new, come from `cols`, and stand in the
      order of their first occurrence in `cols`. With the prefix and
      membership clauses of AddNew this fixes the result completely. */
  lemma {:induction false} AddNewOrder(acc: seq<string>, cols: seq<string>)
    ensures forall i :: |acc| <= i < |AddNew(acc, cols)| ==>
              AddNew(acc, cols)[i] in cols && AddNew(acc, cols)[i] !in acc
    ensures forall i, j :: |acc| <= i < j < |AddNew(acc, cols)| ==>
              IndexOf(cols, AddNew(acc, cols)[i]) < IndexOf(cols, AddNew(acc, cols)[j])
    decreases |cols|
  {
    if cols != [] {
      var c0 := cols[0];
      var next := if c0 in acc then acc else acc + [c0];
      var r := AddNew(acc, cols);
      assert r == AddNew(next, cols[1..]);
      AddNewOrder(next, cols[1..]);
      forall i | |next| <= i < |r|
        ensures r[i] in cols && r[i] !in acc && r[i] != c0
        ensures IndexOf(cols, r[i]) == 1 + IndexOf(cols[1..], r[i])
      {
        assert c0 in next;
      }
      forall i | |acc| <= i < |next|
        ensures r[i] == c0 && IndexOf(cols, r[i]) == 0
      {
        assert r[..|next|] == next;
        assert r[i] == r[..|next|][i];
      }
    }
  }

  /** The union of the frames' columns, in first-seen order. */
  function UnionColumns(frames: seq<Table>): (r: seq<string>)
    ensures Distinct(r)
    ensures forall c :: c in r <==> exists k :: 0 <= k < |frames| && c in frames[k].columns
  {
    if frames == [] then []
    else
      var init := frames[..|frames| - 1];
      var r := AddNew(UnionColumns(init), frames[|frames| - 1].columns);
      assert forall k :: 0 <= k < |init| ==> init[k] == frames[k];
      r
  }

  /** The union over the first k frames is a prefix of the union over all of
      them, and frame k only appends its new names to it: earlier frames'
      columns come first. */
  lemma {:induction false} UnionColumnsPrefix(frames: seq<Table>, k: nat)
    requires k <= |frames|
    ensures |UnionColumns(frames[..k])| <= |UnionColumns(frames)|
    ensures UnionColumns(frames)[..|UnionColumns(frames[..k])|] == UnionColumns(frames[..k])
    ensures k < |frames| ==> UnionColumns(frames[..k + 1]) == AddNew(UnionColumns(frames[..k]), frames[k].columns)
  {
    if k < |frames| {
      assert frames[..k + 1][..k] == frames[..k];
      var init := frames[..|frames| - 1];
      if k == |frames| - 1 {
        assert frames[..k] == init;
        assert frames[..k + 1] == frames;
      } else {
        assert init[..k] == frames[..k];
        UnionColumnsPrefix(init, k);
      }
    } else {
      assert frames[..k] == frames;
    }
  }

  /** A row of a frame with columns `own`, extended to exactly the columns
      `cols`: a cell is kept for the frame's own columns, every other
      column is Null. */
  function Pad(row: Row, own: seq<string>, cols: seq<string>): Row
  {
    map c | c in cols :: if c in own && c in row then row[c] else Null
  }

  /** Total number of rows held by the frames. */
  function TotalRows(frames: seq<Table>): nat
  {
    if frames == [] then 0
    else TotalRows(frames[..|frames| - 1]) + |frames[|frames| - 1].rows|
  }

  /** The frames' rows, frame after frame, each padded to `cols`. */
  function AllRows(frames: seq<Table>, cols: seq<string>): seq<Row>
  {
    if frames == [] then []
    else
      var last := frames[|frames| - 1];
      AllRows(frames[..|frames| - 1], cols) +
      seq(|last.rows|, i requires 0 <= i < |last.rows| => Pad(last.rows[i], last.columns, cols))
  }

  /** Outer concatenation with a fresh row index: the columns are the union of
      all columns in first-seen order, the rows are those of every frame in
      frame order, each padded with Null for the columns it lacks. */
  function Concat(frames: seq<Table>): Table
  {
    var cols := UnionColumns(frames);
    Table(cols, AllRows(frames, cols))
  }

  /** Padding gives a row exactly the given columns, keeps the cells it had
      for its frame's columns, and fills the rest with Null. */
  lemma PadCells(row: Row, own: seq<string>, cols: seq<string>)
    ensures Pad(row, own, cols).Keys == set c | c in cols
    ensures forall c :: c in cols && c in own && c in row ==> Pad(row, own, cols)[c] == row[c]
    ensures forall c :: c in cols && c !in own ==> Pad(row, own, cols)[c] == Null
  {
  }

  /** Row `j` of frame `k` sits at offset TotalRows(frames[..k]) + j of the
      concatenated rows, padded: the table keeps file order, then in-file order. */
  lemma {:induction false} AllRowsAt(frames: seq<Table>, cols: seq<string>, k: nat, j: nat)
    requires k < |frames| && j < |frames[k].rows|
    ensures |AllRows(frames, cols)| == TotalRows(frames)
    ensures TotalRows(frames[..k]) + j < TotalRows(frames)
    ensures AllRows(frames, cols)[TotalRows(frames[..k]) + j] == Pad(frames[k].rows[j], frames[k].columns, cols)
  {
    var init := frames[..|frames| - 1];
    AllRowsLength(frames, cols);
    AllRowsLength(init, cols);
    if k == |frames| - 1 {
      assert frames[..k] == init;
    } else {
      assert init[..k] == frames[..k];
      assert init[k] == frames[k];
      AllRowsAt(init, cols, k, j);
    }
  }

  lemma {:induction false} AllRowsLength(frames: seq<Table>, cols: seq<string>)
    ensures |AllRows(frames, cols)| == TotalRows(frames)
  {
    if frames != [] {
      AllRowsLength(frames[..|frames| - 1], cols);
    }
  }

  /** Every row of AllRows is some padded row. */
  lemma {:induction false} AllRowsPadded(frames: seq<Table>, cols: seq<string>, i: nat)
    requires i < |AllRows(frames, cols)|
    ensures AllRows(frames, cols)[i].Keys == set c | c in cols
  {
    var init := frames[..|frames| - 1];
    var last := frames[|frames| - 1];
    if i < |AllRows(init, cols)| {
      AllRowsPadded(init, cols, i);
    } else {
      PadCells(last.rows[i - |AllRows(init, cols)|], last.columns, cols);
    }
  }

  /** The concatenated table: its size is the sum of the frames' sizes, its
      columns are distinct and are exactly the columns of some frame, and
      every row has exactly the table's columns, so the table is well-formed. */
  lemma ConcatShape(frames: seq<Table>)
    ensures |Concat(frames).rows| == TotalRows(frames)
    ensures forall c :: c in Concat(frames).columns <==> exists k :: 0 <= k < |frames| && c in frames[k].columns
    ensures WellFormed(Concat(frames))
  {
    var cols := UnionColumns(frames);
    AllRowsLength(frames, cols);
    forall i | 0 <= i < |Concat(frames).rows|
      ensures Concat(frames).rows[i].Keys == set c | c in cols
    {
      AllRowsPadded(frames, cols, i);
    }
  }

  /** Row `j` of frame `k` is found, padded to the table's columns, right
      after the rows of the frames before `k`. */
  lemma ConcatRowAt(frames: seq<Table>, k: nat, j: nat)
    requires k < |frames| && j < |frames[k].rows|
    ensures TotalRows(frames[..k]) + j < |Concat(frames).rows|
    ensures Concat(frames).rows[TotalRows(frames[..k]) + j] ==
              Pad(frames[k].rows[j], frames[k].columns, Concat(frames).columns)
  {
    AllRowsAt(frames, UnionColumns(frames), k, j);
  }

  /** The cells of row `j` of a well-formed frame `k` in the table: a column
      of that frame keeps the frame's cell, any other column is Null. */
  lemma ConcatCellAt(frames: seq<Table>, k: nat, j: nat, c: string)
    requires k < |frames| && j < |frames[k].rows| && WellFormed(frames[k])
    requires c in Concat(frames).columns
    ensures TotalRows(frames[..k]) + j < |Concat(frames).rows|
    ensures c in Concat(frames).rows[TotalRows(frames[..k]) + j]
    ensures Concat(frames).rows[TotalRows(frames[..k]) + j][c] ==
              if c in frames[k].columns then frames[k].rows[j][c] else Null
  {
    ConcatRowAt(frames, k, j);
    PadCells(frames[k].rows[j], frames[k].columns, Concat(frames).columns);
  }

  /** Two files, one with columns [x, y] and one with [y, z], unify to
      columns [x, y, z]. */
  lemma UnionOfTwoFiles(x: string, y: string, z: string, a: seq<Row>, b: seq<Row>)
    requires x != y && y != z && x != z
    ensures UnionColumns([Table([x, y], a), Table([y, z], b)]) == [x, y, z]
  {
    var fs := [Table([x, y], a), Table([y, z], b)];
    assert fs[..1] == [Table([x, y], a)];
    assert fs[..1][..0] == [];
    assert UnionColumns(fs[..1][..0]) == [];
    assert AddNew([x, y], []) == [x, y];
    assert AddNew([x], [y]) == [x, y] by { assert [y][1..] == []; assert y !in [x]; }
    assert AddNew([], [x, y]) == [x, y] by { assert [x, y][1..] == [y]; assert [] + [x] == [x]; }
    assert UnionColumns(fs[..1]) == [x, y];
    assert AddNew([x, y, z], []) == [x, y, z];
    assert AddNew([x, y], [z]) == [x, y, z] by { assert [z][1..] == []; assert z !in [x, y]; }
    assert AddNew([x, y], [y, z]) == [x, y, z] by { assert [y, z][1..] == [z]; assert y in [x, y]; }
  }

  lemma PadFirstFile(x: string, y: string, z: string, r: Row)
    requires x != y && y != z && x != z
    requires r.Keys == set c | c in [x, y]
    ensures x in r && y in r
    ensures Pad(r, [x, y], [x, y, z]) == map[x := r[x], y := r[y], z := Null]
  {
    assert x in r && y in r;
    var p := Pad(r, [x, y], [x, y, z]);
    assert p.Keys == {x, y, z};
  }

  lemma PadSecondFile(x: string, y: string, z: string, r: Row)
    requires x != y && y != z && x != z
    requires r.Keys == set c | c in [y, z]
    ensures y in r && z in r
    ensures Pad(r, [y, z], [x, y, z]) == map[x := Null, y := r[y], z := r[z]]
  {
    assert y in r && z in r;
    var p := Pad(r, [y, z], [x, y, z]);
    assert p.Keys == {x, y, z};
  }

  /** Row j of the first of two files with columns [x, y] and [y, z]: it
      comes first in the table and gets a Null `z`. */
  lemma FirstFileRow(x: string, y: string, z: string, a: seq<Row>, b: seq<Row>, j: nat)
    requires x != y && y != z && x != z
    requires WellFormed(Table([x, y], a)) && j < |a|
    ensures x in a[j] && y in a[j]
    ensures j < |Concat([Table([x, y], a), Table([y, z], b)]).rows|
    ensures Concat([Table([x, y], a), Table([y, z], b)]).rows[j] == map[x := a[j][x], y := a[j][y], z := Null]
  {
    var fs := [Table([x, y], a), Table([y, z], b)];
    UnionOfTwoFiles(x, y, z, a, b);
    assert fs[..0] == [];
    ConcatRowAt(fs, 0, j);
    PadFirstFile(x, y, z, a[j]);
  }

  /** Row j of the second file: it follows every row of the first and gets
      a Null `x`. */
  lemma SecondFileRow(x: string, y: string, z: string, a: seq<Row>, b: seq<Row>, j: nat)
    requires x != y && y != z && x != z
    requires WellFormed(Table([y, z], b)) && j < |b|
    ensures y in b[j] && z in b[j]
    ensures |a| + j < |Concat([Table([x, y], a), Table([y, z], b)]).rows|
    ensures Concat([Table([x, y], a), Table([y, z], b)]).rows[|a| + j] == map[x := Null, y := b[j][y], z := b[j][z]]
  {
    var fs := [Table([x, y], a), Table([y, z], b)];
    UnionOfTwoFiles(x, y, z, a, b);
    assert fs[..1] == [fs[0]] && fs[..1][..0] == [];
    assert TotalRows(fs[..1]) == |a|;
    ConcatRowAt(fs, 1, j);
    PadSecondFile(x, y, z, b[j]);
  }

  /** Two well-formed files with columns [x, y] and [y, z]: the table has
      columns [x, y, z], the first file's rows come first with a Null `z`,
      then the second file's rows with a Null `x`. */
  lemma TwoFileRows(x: string, y: string, z: string, a: seq<Row>, b: seq<Row>)
    requires x != y && y != z && x != z
    requires WellFormed(Table([x, y], a)) && WellFormed(Table([y, z], b))
    ensures var t := Concat([Table([x, y], a), Table([y, z], b)]);
            t.columns == [x, y, z] && |t.rows| == |a| + |b| &&
            (forall j :: 0 <= j < |a| ==> x in a[j] && y in a[j] && t.rows[j] == map[x := a[j][x], y := a[j][y], z := Null]) &&
            (forall j :: 0 <= j < |b| ==> y in b[j] && z in b[j] && t.rows[|a| + j] == map[x := Null, y := b[j][y], z := b[j][z]])
  {
    var fs := [Table([x, y], a), Table([y, z], b)];
    UnionOfTwoFiles(x, y, z, a, b);
    AllRowsLength(fs, UnionColumns(fs));
    assert fs[..1] == [fs[0]] && fs[..1][..0] == [];
    assert TotalRows(fs[..1]) == |a|;
    assert fs[..|fs| - 1] == fs[..1];
    assert TotalRows(fs) == |a| + |b|;
    forall j | 0 <= j < |a| { FirstFileRow(x, y, z, a, b, j); }
    forall j | 0 <= j < |b| { SecondFileRow(x, y, z, a, b, j); }
  }
}
