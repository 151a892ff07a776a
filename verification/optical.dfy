/** The optical-response pipeline: three power-meter readers, the transmittance
    normaliser, the time extractor and the quick plot. */
module OpticalResponse {
  import opened Wrappers
  import opened Errors
  import opened Tables
  import Adapters
  import Normalizer
  import Plot

  /** PM100D spreadsheet: 15 metadata rows, elapsed seconds in column 5, power in
      column 3; the reader also reads the cell at row 15, column 5 on its own. */
  const PM100D: Adapters.Layout := Adapters.Spreadsheet(15, 5, 3, true)

  /** Legacy PM100D spreadsheet: 23 header rows, time in column 0, power in column 1. */
  const OldPM100D: Adapters.Layout := Adapters.Spreadsheet(23, 0, 1, false)

  /** PM320 whitespace table of nine columns; power is column 6. */
  const PM320: Adapters.Layout := Adapters.WhitespaceTable(6, 9)

  /** A PM100D export that the reader can index: six columns and a row 15. */
  predicate PM100DReadable(f: RawFile)
  {
    Width(f) > 5 && |f| > 15
  }

  /** A legacy PM100D export with the two columns the reader takes. */
  predicate OldPM100DReadable(f: RawFile)
  {
    Width(f) > 1
  }

  /** A PM320 export of `n` rows and exactly nine columns. */
  predicate PM320Readable(f: RawFile, n: nat)
  {
    |f| > 0 && |f| == n && Width(f) == 9
  }

  /** Variant A reader. File j (0-based) gives columns 2j and 2j + 1: raw column 5
      as it stands and raw column 3, from row 15 on. The row count is that of the
      first file; a shorter later file is padded with NaN, a longer one is cut. A
      file too narrow or without a row 15 raises. */
  function PM100DData(files: seq<RawFile>): (r: Result<Table, Error>)
    ensures r.Success? <==> forall j :: 0 <= j < |files| ==> PM100DReadable(files[j])
    ensures r.Failure? ==> exists j :: 0 <= j < |files| && r.error == IndexOutOfBounds(j) && !PM100DReadable(files[j])
                                       && forall i :: 0 <= i < j ==> PM100DReadable(files[i])
    ensures r.Success? ==> |r.value| == 2 * |files| && Rectangular(r.value)
    ensures r.Success? && |files| > 0 ==> Rows(r.value) == |files[0]| - 15
    ensures r.Success? ==> forall j, row :: 0 <= j < |files| && 0 <= row < Rows(r.value) ==>
              TimeCol(r.value, j)[row] == CellAt(files[j], 15 + row, 5)
              && SignalCol(r.value, j)[row] == CellAt(files[j], 15 + row, 3)
  {
    Adapters.SpreadsheetAdapt(files, PM100D);
    assert forall f :: Adapters.SpreadsheetReadable(f, PM100D) == PM100DReadable(f);
    var r := Adapters.Adapt(files, PM100D);
    assert r.Success? && |files| > 0 ==> Rows(r.value) == |files[0]| - 15 by {
      if r.Success? && |files| > 0 {
        assert PM100DReadable(files[0]);
      }
    }
    r
  }

  lemma PM320ReadPair(files: seq<RawFile>, n: nat)
    requires |files| > 0 && n == |files[0]|
    ensures forall j :: 0 <= j < |files| ==>
              var p := Adapters.ReadPair(files[j], j, PM320, n);
              && (p.Success? <==> PM320Readable(files[j], n))
              && (p.Failure? ==> p.error == (if |files[j]| == 0 then EmptyFile(j)
                                             else if |files[j]| != n then LengthMismatch(j)
                                             else ColumnLayout(j)))
              && (p.Success? ==> p.value == ColumnPair(Adapters.RowIndexColumn(n), Adapters.SliceColumn(files[j], 0, 6, n)))
  {
  }

  /** Variant B reader. File j gives columns 2j and 2j + 1: its row numbers 0, 1, ...
      and its column 6. Every file must have the first file's row count and exactly
      nine columns; an empty file, a different row count or another width raises. */
  function PM320Data(files: seq<RawFile>): (r: Result<Table, Error>)
    ensures r.Success? <==> forall j :: 0 <= j < |files| ==> PM320Readable(files[j], |files[0]|)
    ensures r.Failure? ==>
              exists j :: 0 <= j < |files| && !PM320Readable(files[j], |files[0]|)
                          && (forall i :: 0 <= i < j ==> PM320Readable(files[i], |files[0]|))
                          && r.error == (if |files[j]| == 0 then EmptyFile(j)
                                         else if |files[j]| != |files[0]| then LengthMismatch(j)
                                         else ColumnLayout(j))
    ensures r.Success? ==> |r.value| == 2 * |files| && Rectangular(r.value)
    ensures r.Success? && |files| > 0 ==> Rows(r.value) == |files[0]|
    ensures r.Success? ==> forall j, row :: 0 <= j < |files| && 0 <= row < Rows(r.value) ==>
              TimeCol(r.value, j)[row] == Some(row as real)
              && SignalCol(r.value, j)[row] == CellAt(files[j], row, 6)
  {
    if |files| == 0 then Adapters.Adapt(files, PM320)
    else
      PM320ReadPair(files, |files[0]|);
      Adapters.Adapt(files, PM320)
  }

  /** Variant C reader. File j gives columns 2j and 2j + 1: raw columns 0 and 1 from
      row 23 on. The row count is that of the first file with rows past the header;
      a shorter file is padded with NaN, a longer one is cut. A file with fewer than
      two columns raises. */
  function OldPM100DData(files: seq<RawFile>): (r: Result<Table, Error>)
    ensures r.Success? <==> forall j :: 0 <= j < |files| ==> OldPM100DReadable(files[j])
    ensures r.Failure? ==> exists j :: 0 <= j < |files| && r.error == IndexOutOfBounds(j) && !OldPM100DReadable(files[j])
                                       && forall i :: 0 <= i < j ==> OldPM100DReadable(files[i])
    ensures r.Success? ==> |r.value| == 2 * |files| && Rectangular(r.value)
    ensures r.Success? ==> Rows(r.value) == Adapters.AlignedRows(files, 23)
    ensures r.Success? ==> forall j, row :: 0 <= j < |files| && 0 <= row < Rows(r.value) ==>
              TimeCol(r.value, j)[row] == CellAt(files[j], 23 + row, 0)
              && SignalCol(r.value, j)[row] == CellAt(files[j], 23 + row, 1)
  {
    Adapters.SpreadsheetAdapt(files, OldPM100D);
    assert forall f :: Adapters.SpreadsheetReadable(f, OldPM100D) == OldPM100DReadable(f);
    Adapters.Adapt(files, OldPM100D)
  }

  /** Transmittance: column k is the relative change of signal column 2k + 1 against
      its row 0, so row 0 is 0 wherever the baseline is a number. */
  function TransmittanceCreateData(data: Table): (r: Result<Table, Error>)
    requires Rectangular(data)
    requires Normalizer.NonzeroBaselines(data)
    ensures r.Success? <==> |data| % 2 == 0 && (|data| == 0 || Rows(data) > 0)
    ensures r.Failure? ==> r.error == (if |data| % 2 == 1 && (|data| == 1 || Rows(data) > 0) then MissingSignalColumn else NoBaselineRow)
    ensures r.Success? ==> |r.value| == |data| / 2 && Rectangular(r.value) && Rows(r.value) == Rows(data)
    ensures r.Success? ==> forall k, t :: 0 <= k < |r.value| && 0 <= t < Rows(data) ==>
              (r.value[k][t].Some? <==> SignalCol(data, k)[t].Some? && SignalCol(data, k)[0].Some?)
              && (r.value[k][t].Some? ==>
                    r.value[k][t].value == (SignalCol(data, k)[t].value - SignalCol(data, k)[0].value) / SignalCol(data, k)[0].value)
    ensures r.Success? ==> forall k :: 0 <= k < |r.value| && SignalCol(data, k)[0].Some? ==> r.value[k][0] == Some(0.0)
  {
    Normalizer.CreateNormalized(data)
  }

  /** The time table: column k is column 2k of the data, unchanged. */
  function TimeCreateData(data: Table): (r: Table)
    ensures |r| == (|data| + 1) / 2
    ensures forall k :: 0 <= k < |r| ==> r[k] == TimeCol(data, k)
  {
    Normalizer.CreateTime(data)
  }

  /** The time table of a PM100D read holds raw column 5 from row 15 on, not a
      time re-based to the first data row. */
  lemma PM100DTimeIsRawColumn5(files: seq<RawFile>, j: nat, row: nat)
    requires PM100DData(files).Success?
    requires j < |files| && row < Rows(PM100DData(files).value)
    ensures TimeCreateData(PM100DData(files).value)[j][row] == CellAt(files[j], 15 + row, 5)
  {
  }

  /** End to end: readable PM100D files with numeric nonzero power at row 15 give one
      transmittance column per file, each starting at exactly 0. */
  lemma PM100DTransmittanceStartsAtZero(files: seq<RawFile>)
    requires |files| > 0
    requires forall j :: 0 <= j < |files| ==> PM100DReadable(files[j])
    requires forall j :: 0 <= j < |files| ==> CellAt(files[j], 15, 3).Some? && CellAt(files[j], 15, 3) != Some(0.0)
    ensures Rectangular(PM100DData(files).value) && Normalizer.NonzeroBaselines(PM100DData(files).value)
    ensures TransmittanceCreateData(PM100DData(files).value).Success?
    ensures |TransmittanceCreateData(PM100DData(files).value).value| == |files|
    ensures forall k :: 0 <= k < |files| ==> TransmittanceCreateData(PM100DData(files).value).value[k][0] == Some(0.0)
  {
    var r := PM100DData(files);
    assert r.Success?;
    var t := r.value;
    assert Rows(t) == |files[0]| - 15 > 0;
    assert |t| == 2 * |files|;
    assert forall k :: 0 <= k < |t| / 2 ==> SignalCol(t, k)[0] == CellAt(files[k], 15, 3);
    Normalizer.CreateNormalizedStartsAtZero(t);
  }

  /** The quick transmittance plot: one trace per parameter value with a column, x in
      minutes, legend "<value> <unit>", colour position (v - min) / (max - min) over
      all parameter values, or 0 when they are all equal; bands from rec_time + 0.15 every res_time + rec_time, each res_time
      wide, starting below the largest time in minutes. */
  function QuickPlotT(data: Table, timeData: Table, params: Plot.Parameters, cfg: Plot.CycleConfig): (r: Result<Plot.Figure, Error>)
    ensures r.Success? <==>
              && |params.values| > 0
              && Plot.Min(|params.values|, |data|) <= |timeData|
              && Plot.MaxTime(timeData).Success?
              && cfg.resTime + cfg.recTime != 0.0
    ensures r.Success? ==> |r.value.traces| == Plot.Min(|params.values|, |data|)
    ensures r.Success? ==> forall i :: 0 <= i < |r.value.traces| ==>
              && r.value.traces[i].x == Plot.ToMinutes(timeData[i])
              && r.value.traces[i].y == data[i]
              && r.value.traces[i].name == params.values[i].text + " " + params.unit
    ensures r.Success? ==> forall i, j ::
              0 <= i < |r.value.traces| && 0 <= j < |r.value.traces| && params.values[i].value <= params.values[j].value
              ==> 0.0 <= r.value.traces[i].colorPosition <= r.value.traces[j].colorPosition <= 1.0
    ensures r.Success? ==> forall i :: 0 <= i < |r.value.traces| ==>
              Plot.MinMaxPosition(r.value.traces[i].colorPosition, params.values[i].value, Plot.Values(params.values))
    ensures r.Success? ==> forall k :: 0 <= k < |r.value.bands| ==>
              && r.value.bands[k].x0 == Plot.Step(cfg.recTime + 0.15, cfg.resTime + cfg.recTime, k)
              && r.value.bands[k].x1 == r.value.bands[k].x0 + cfg.resTime
    ensures r.Success? && cfg.resTime + cfg.recTime > 0.0 ==>
              (forall k :: 0 <= k < |r.value.bands| ==> r.value.bands[k].x0 < Plot.MaxTime(timeData).value / 60.0)
              && Plot.Step(cfg.recTime + 0.15, cfg.resTime + cfg.recTime, |r.value.bands|) >= Plot.MaxTime(timeData).value / 60.0
  {
    Plot.QuickPlot(data, timeData, params, cfg)
  }
}
