/** The resistance-response pipeline: the resistance reader, the resistance
    normaliser, the time extractor and the quick plot. */
module ResistanceResponse {
  import opened Wrappers
  import opened Errors
  import opened Tables
  import Adapters
  import Normalizer
  import Plot

  /** Resistance spreadsheet: 7 header rows, time in column 0, resistance in
      column 3. Renaming the 'Unnamed' columns changes nothing: a frame read without
      a header row has integer column labels. */
  const Resistance: Adapters.Layout := Adapters.Spreadsheet(7, 0, 3, false)

  /** An export with the four columns the reader indexes. */
  predicate ResistanceReadable(f: RawFile)
  {
    Width(f) > 3
  }

  /** File j (0-based) gives columns 2j and 2j + 1: raw columns 0 and 3 from row 7
      on. The row count is that of the first file with rows past the header; a
      shorter file is padded with NaN, a longer one is cut. A file with fewer than
      four columns raises. */
  function ResistanceData(files: seq<RawFile>): (r: Result<Table, Error>)
    ensures r.Success? <==> forall j :: 0 <= j < |files| ==> ResistanceReadable(files[j])
    ensures r.Failure? ==> exists j :: 0 <= j < |files| && r.error == IndexOutOfBounds(j) && !ResistanceReadable(files[j])
                                       && forall i :: 0 <= i < j ==> ResistanceReadable(files[i])
    ensures r.Success? ==> |r.value| == 2 * |files| && Rectangular(r.value)
    ensures r.Success? ==> Rows(r.value) == Adapters.AlignedRows(files, 7)
    ensures r.Success? ==> forall j, row :: 0 <= j < |files| && 0 <= row < Rows(r.value) ==>
              TimeCol(r.value, j)[row] == CellAt(files[j], 7 + row, 0)
              && SignalCol(r.value, j)[row] == CellAt(files[j], 7 + row, 3)
    ensures r.Success? ==> forall j, row :: 0 <= j < |files| && 0 <= row < Rows(r.value) && 7 + row >= |files[j]| ==>
              TimeCol(r.value, j)[row] == None && SignalCol(r.value, j)[row] == None
  {
    Adapters.SpreadsheetAdapt(files, Resistance);
    assert forall f :: Adapters.SpreadsheetReadable(f, Resistance) == ResistanceReadable(f);
    Adapters.Adapt(files, Resistance)
  }

  /** The row count is fixed by the first file with rows past the header: it is 0
      exactly when no file has more than the seven header rows, and otherwise that
      first file's row count less seven, every earlier file having none. */
  lemma ResistanceRowsFromFirstFile(files: seq<RawFile>)
    requires forall j :: 0 <= j < |files| ==> ResistanceReadable(files[j])
    ensures ResistanceData(files).Success?
    ensures Rows(ResistanceData(files).value) == 0 <==> forall j :: 0 <= j < |files| ==> |files[j]| <= 7
    ensures Rows(ResistanceData(files).value) > 0 ==>
              exists f :: 0 <= f < |files| && Rows(ResistanceData(files).value) == |files[f]| - 7
                          && forall i :: 0 <= i < f ==> |files[i]| <= 7
  {
    var n := Adapters.AlignedRows(files, 7);
    if n > 0 {
      var f :| 0 <= f < |files| && Adapters.FirstWithData(files, 7, f) && n == |files[f]| - 7;
    }
  }

  /** Normalised resistance: column k is the relative change of signal column 2k + 1
      against its row 0, so row 0 is 0 wherever the baseline is a number. */
  function ResistanceCreateData(data: Table): (r: Result<Table, Error>)
    requires Rectangular(data)
    requires Normalizer.NonzeroBaselines(data)
    ensures r.Success? <==> |data| % 2 == 0 && (|data| == 0 || Rows(data) > 0)
    ensures r.Failure? ==> r.error == (if |data| % 2 == 1 && (|data| == 1 || Rows(data) > 0) then MissingSignalColumn else NoBaselineRow)
    ensures r.Success? ==> |r.value| == |data| / 2 && Rectangular(r.value) && Rows(r.value) == Rows(data)
    ensures r.Success? ==> forall k, t :: 0 <= k < |r.value| && 0 <= t < Rows(data) ==>
              (r.value[k][t].Some? <==> SignalCol(data, k)[t].Some? && SignalCol(data, k)[0].Some?)
              && (r.value[k][t].Some? ==>
                    r.value[k][t].value == (SignalCol(data, k)[t].value - SignalCol(data, k)[0].value) / SignalCol(data, k)[0].value)
    ensures r.Success? ==> forall k :: 0 <= k < |r.value| && SignalCol(data, k)[0].Some? ==> r.value[k][0] == Some(0.0)
  {
    Normalizer.CreateNormalized(data)
  }

  /** A rise in resistance above a positive baseline is exactly a positive normalised
      value, a fall exactly a negative one. */
  lemma ResistanceRiseIsPositive(data: Table, k: nat, t: nat)
    requires Rectangular(data) && Normalizer.NonzeroBaselines(data)
    requires ResistanceCreateData(data).Success?
    requires k < |data| / 2 && t < Rows(data)
    requires SignalCol(data, k)[t].Some? && SignalCol(data, k)[0].Some? && SignalCol(data, k)[0].value > 0.0
    ensures ResistanceCreateData(data).value[k][t].value > 0.0 <==> SignalCol(data, k)[t].value > SignalCol(data, k)[0].value
    ensures ResistanceCreateData(data).value[k][t].value < 0.0 <==> SignalCol(data, k)[t].value < SignalCol(data, k)[0].value
  {
    Normalizer.SignOfChange(SignalCol(data, k), t);
  }

  /** The time table: column k is column 2k of the data, unchanged. */
  function TimeCreateData(data: Table): (r: Table)
    ensures |r| == (|data| + 1) / 2
    ensures forall k :: 0 <= k < |r| ==> r[k] == TimeCol(data, k)
  {
    Normalizer.CreateTime(data)
  }

  /** The quick resistance plot: one trace per parameter value with a column, x in
      minutes, legend "<value> <unit>", colour position (v - min) / (max - min) over
      all parameter values, or 0 when they are all equal; bands from rec_time + 0.15 every res_time + rec_time, each res_time
      wide, starting below the largest time in minutes. */
  function QuickPlotR(data: Table, timeData: Table, params: Plot.Parameters, cfg: Plot.CycleConfig): (r: Result<Plot.Figure, Error>)
    ensures r.Success? <==>
              && |params.values| > 0
              && Plot.Min(|params.values|, |data|) <= |timeData|
              && Plot.MaxTime(timeData).Success?
              && cfg.resTime + cfg.recTime != 0.0
    ensures r.Success? ==> |r.value.traces| == Plot.Min(|params.values|, |data|)
    ensures r.Success? ==> forall i :: 0 <= i < |r.value.traces| ==>
              && r.value.traces[i].x == Plot.ToMinutes(timeData[i])
              && r.value.traces[i].y == data[i]
              && r.value.traces[i].name == params.values[i].text + " " + params.unit
    ensures r.Success? ==> forall i, j ::
              0 <= i < |r.value.traces| && 0 <= j < |r.value.traces| && params.values[i].value <= params.values[j].value
              ==> 0.0 <= r.value.traces[i].colorPosition <= r.value.traces[j].colorPosition <= 1.0
    ensures r.Success? ==> forall i :: 0 <= i < |r.value.traces| ==>
              Plot.MinMaxPosition(r.value.traces[i].colorPosition, params.values[i].value, Plot.Values(params.values))
    ensures r.Success? ==> forall k :: 0 <= k < |r.value.bands| ==>
              && r.value.bands[k].x0 == Plot.Step(cfg.recTime + 0.15, cfg.resTime + cfg.recTime, k)
              && r.value.bands[k].x1 == r.value.bands[k].x0 + cfg.resTime
    ensures r.Success? && cfg.resTime + cfg.recTime > 0.0 ==>
              (forall k :: 0 <= k < |r.value.bands| ==> r.value.bands[k].x0 < Plot.MaxTime(timeData).value / 60.0)
              && Plot.Step(cfg.recTime + 0.15, cfg.resTime + cfg.recTime, |r.value.bands|) >= Plot.MaxTime(timeData).value / 60.0
  {
    Plot.QuickPlot(data, timeData, params, cfg)
  }
}
