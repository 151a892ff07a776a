/** Format adapters: one raw file per experiment in, one interleaved table out.

    The source starts from an empty frame and assigns two columns per file. The
    first non-empty column assigned into the empty frame fixes its row index; every
    later column is aligned to that index, so a shorter file is padded with NaN and
    a longer one is cut. */
module Adapters {
  import opened Wrappers
  import opened Errors
  import opened Tables

  /** How a raw file is turned into its column pair. */
  datatype Layout =
      /** Skip `skip` header rows, then take the time and signal columns by
          position; `probesFirstDataRow` when the reader also reads the cell at row
          `skip` on its own, which fails on a file with no data rows. */
    | Spreadsheet(skip: nat, timeCol: nat, signalCol: nat, probesFirstDataRow: bool)
      /** A whitespace table of exactly `columns` columns; time is the row number,
          signal is column `signalCol`. */
    | WhitespaceTable(signalCol: nat, columns: nat)

  /** The rows of the first file with any data rows after the header; 0 if none has. */
  function AlignedRows(files: seq<RawFile>, skip: nat): (n: nat)
    ensures n == 0 <==> forall j :: 0 <= j < |files| ==> |files[j]| <= skip
    ensures n > 0 ==> exists j :: 0 <= j < |files| && FirstWithData(files, skip, j) && n == |files[j]| - skip
  {
    if |files| == 0 then 0
    else if |files[0]| > skip then
      assert FirstWithData(files, skip, 0);
      |files[0]| - skip
    else
      var n := AlignedRows(files[1..], skip);
      assert n > 0 ==> exists j :: 0 <= j < |files| && FirstWithData(files, skip, j) && n == |files[j]| - skip by {
        if n > 0 {
          var j :| 0 <= j < |files[1..]| && FirstWithData(files[1..], skip, j) && n == |files[1..][j]| - skip;
          assert FirstWithData(files, skip, j + 1);
        }
      }
      n
  }

  ghost predicate FirstWithData(files: seq<RawFile>, skip: nat, j: nat)
  {
    && j < |files|
    && |files[j]| > skip
    && forall i :: 0 <= i < j ==> |files[i]| <= skip
  }

  /** The row count of the assembled table. */
  function RowCount(files: seq<RawFile>, layout: Layout): nat
  {
    match layout
    case Spreadsheet(skip, _, _, _) => AlignedRows(files, skip)
    case WhitespaceTable(_, _) => if |files| == 0 then 0 else |files[0]|
  }

  /** Column `col` of `f` from row `skip` on, aligned to `n` rows. */
  function SliceColumn(f: RawFile, skip: nat, col: nat, n: nat): (c: Column)
    ensures |c| == n
    ensures forall r :: 0 <= r < n ==> c[r] == CellAt(f, skip + r, col)
  {
    seq(n, r requires 0 <= r < n => CellAt(f, skip + r, col))
  }

  /** The row numbers 0, 1, ..., n - 1 as a column. */
  function RowIndexColumn(n: nat): (c: Column)
    ensures |c| == n
    ensures forall r :: 0 <= r < n ==> c[r] == Some(r as real)
  {
    seq(n, r requires 0 <= r < n => Some(r as real))
  }

  /** The pair file `j` contributes to a table of `n` rows, or the error reading it raises. */
  function ReadPair(f: RawFile, j: nat, layout: Layout, n: nat): (r: Result<ColumnPair, Error>)
    ensures r.Success? ==> |r.value.time| == n && |r.value.signal| == n
  {
    match layout
    case Spreadsheet(skip, timeCol, signalCol, probe) =>
      if Width(f) <= timeCol || Width(f) <= signalCol || (probe && |f| <= skip) then
        Failure(IndexOutOfBounds(j))
      else
        Success(ColumnPair(SliceColumn(f, skip, timeCol, n), SliceColumn(f, skip, signalCol, n)))
    case WhitespaceTable(signalCol, columns) =>
      if |f| == 0 then Failure(EmptyFile(j))
      else if |f| != n then Failure(LengthMismatch(j))
      else if Width(f) != columns then Failure(ColumnLayout(j))
      else Success(ColumnPair(RowIndexColumn(n), SliceColumn(f, 0, signalCol, n)))
  }

  /** `rs[j]` is the first failure in `rs`. */
  ghost predicate FirstFailure<T>(rs: seq<Result<T, Error>>, j: nat)
  {
    && j < |rs|
    && rs[j].Failure?
    && forall i :: 0 <= i < j ==> rs[i].Success?
  }

  /** Runs the reads in order, stopping at the first that raises. */
  function Collect<T>(rs: seq<Result<T, Error>>): (r: Result<seq<T>, Error>)
    ensures r.Success? <==> forall j :: 0 <= j < |rs| ==> rs[j].Success?
    ensures r.Success? ==> |r.value| == |rs| && forall j :: 0 <= j < |rs| ==> r.value[j] == rs[j].value
    ensures r.Failure? ==> exists j :: 0 <= j < |rs| && FirstFailure(rs, j) && r.error == rs[j].error
  {
    if |rs| == 0 then Success([])
    else
      var k := |rs| - 1;
      var prev := Collect(rs[..k]);
      if prev.Failure? then
        assert exists j :: 0 <= j < |rs| && FirstFailure(rs, j) && prev.error == rs[j].error by {
          var j :| 0 <= j < k && FirstFailure(rs[..k], j) && prev.error == rs[..k][j].error;
          assert FirstFailure(rs, j);
        }
        Failure(prev.error)
      else if rs[k].Failure? then
        assert FirstFailure(rs, k);
        Failure(rs[k].error)
      else
        Success(prev.value + [rs[k].value])
  }

  /** The reads of all files, in file order, against a table of `n` rows. */
  function ReadAll(files: seq<RawFile>, layout: Layout, n: nat): (rs: seq<Result<ColumnPair, Error>>)
    ensures |rs| == |files|
    ensures forall j :: 0 <= j < |files| ==> rs[j] == ReadPair(files[j], j, layout, n)
  {
    seq(|files|, j requires 0 <= j < |files| => ReadPair(files[j], j, layout, n))
  }

  /** The uniform table: 2M columns for M files, file j's pair at columns 2j and 2j + 1. */
  function Adapt(files: seq<RawFile>, layout: Layout): (r: Result<Table, Error>)
    ensures r.Success? <==> forall j :: 0 <= j < |files| ==> ReadPair(files[j], j, layout, RowCount(files, layout)).Success?
    ensures r.Success? ==> |r.value| == 2 * |files| && Rectangular(r.value) && Rows(r.value) == RowCount(files, layout)
    ensures r.Success? ==> forall j :: 0 <= j < |files| ==>
              ColumnPair(TimeCol(r.value, j), SignalCol(r.value, j)) == ReadPair(files[j], j, layout, RowCount(files, layout)).value
    ensures r.Failure? ==> exists j :: 0 <= j < |files| && FirstFailure(ReadAll(files, layout, RowCount(files, layout)), j)
                                       && r.error == ReadPair(files[j], j, layout, RowCount(files, layout)).error
  {
    var n := RowCount(files, layout);
    match Collect(ReadAll(files, layout, n))
    case Failure(e) => Failure(e)
    case Success(ps) =>
      InterleaveRectangular(ps, n);
      assert |files| == 0 ==> n == 0;
      Success(Interleave(ps))
  }

  /** A file a spreadsheet layout can index: wide enough for both columns, and with
      a first data row when the reader reads that row on its own. */
  predicate SpreadsheetReadable(f: RawFile, layout: Layout)
    requires layout.Spreadsheet?
  {
    Width(f) > layout.timeCol && Width(f) > layout.signalCol && (layout.probesFirstDataRow ==> |f| > layout.skip)
  }

  lemma SpreadsheetReads(files: seq<RawFile>, layout: Layout, n: nat)
    requires layout.Spreadsheet?
    ensures forall j :: 0 <= j < |files| ==>
              var p := ReadPair(files[j], j, layout, n);
              && (p.Success? <==> SpreadsheetReadable(files[j], layout))
              && (p.Failure? ==> p.error == IndexOutOfBounds(j))
              && (p.Success? ==> p.value == ColumnPair(SliceColumn(files[j], layout.skip, layout.timeCol, n),
                                                       SliceColumn(files[j], layout.skip, layout.signalCol, n)))
  {
  }

  /** A spreadsheet read: it succeeds exactly when every file can be indexed, and then
      row r of file j's pair is the raw cells skip + r rows down; otherwise the first
      file that cannot be indexed raises. */
  lemma SpreadsheetAdapt(files: seq<RawFile>, layout: Layout)
    requires layout.Spreadsheet?
    ensures Adapt(files, layout).Success? <==> forall j :: 0 <= j < |files| ==> SpreadsheetReadable(files[j], layout)
    ensures Adapt(files, layout).Failure? ==>
              exists j :: 0 <= j < |files| && Adapt(files, layout).error == IndexOutOfBounds(j)
                          && !SpreadsheetReadable(files[j], layout)
                          && forall i :: 0 <= i < j ==> SpreadsheetReadable(files[i], layout)
    ensures Adapt(files, layout).Success? ==>
              forall j, row :: 0 <= j < |files| && 0 <= row < Rows(Adapt(files, layout).value) ==>
                && TimeCol(Adapt(files, layout).value, j)[row] == CellAt(files[j], layout.skip + row, layout.timeCol)
                && SignalCol(Adapt(files, layout).value, j)[row] == CellAt(files[j], layout.skip + row, layout.signalCol)
  {
    var n := RowCount(files, layout);
    SpreadsheetReads(files, layout, n);
    var r := Adapt(files, layout);
    if r.Failure? {
      var j :| 0 <= j < |files| && FirstFailure(ReadAll(files, layout, n), j) && r.error == ReadPair(files[j], j, layout, n).error;
      assert r.error == IndexOutOfBounds(j);
      assert forall i :: 0 <= i < j ==> SpreadsheetReadable(files[i], layout) by {
        forall i | 0 <= i < j
          ensures SpreadsheetReadable(files[i], layout)
        {
          assert ReadAll(files, layout, n)[i].Success?;
        }
      }
    }
  }

  /** Alignment on a spreadsheet layout: the table has the rows of the first file with
      data rows; a cell past the end of a shorter file is NaN, and rows of a longer
      file past that count never appear. */
  lemma {:induction false} SpreadsheetAlignment(files: seq<RawFile>, layout: Layout, j: nat, row: nat)
    requires layout.Spreadsheet?
    requires Adapt(files, layout).Success?
    requires j < |files| && row < Rows(Adapt(files, layout).value)
    ensures exists f :: 0 <= f < |files| && FirstWithData(files, layout.skip, f) && Rows(Adapt(files, layout).value) == |files[f]| - layout.skip
    ensures TimeCol(Adapt(files, layout).value, j)[row] == CellAt(files[j], layout.skip + row, layout.timeCol)
    ensures SignalCol(Adapt(files, layout).value, j)[row] == CellAt(files[j], layout.skip + row, layout.signalCol)
    ensures layout.skip + row >= |files[j]| ==>
              TimeCol(Adapt(files, layout).value, j)[row] == None && SignalCol(Adapt(files, layout).value, j)[row] == None
  {
    SpreadsheetAdapt(files, layout);
  }
}
