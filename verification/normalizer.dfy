/** The normaliser and the time extractor shared by both pipelines.

    Both walk an interleaved table in steps of two: the normaliser turns each signal
    column s into the baseline-relative change (s[t] - s[0]) / s[0]; the extractor
    copies each time column through unchanged. */
module Normalizer {
  import opened Wrappers
  import opened Errors
  import opened Tables

  /** A cell relative to the baseline cell; NaN on either side gives NaN. */
  function NormalizeCell(x: Cell, base: Cell): Cell
    requires base != Some(0.0)
  {
    if x.Some? && base.Some? then Some((x.value - base.value) / base.value) else None
  }

  /** The baseline-relative change of a signal column against its row 0. */
  function NormalizeColumn(s: Column): (r: Column)
    requires |s| > 0 && s[0] != Some(0.0)
    ensures |r| == |s|
    ensures s[0].Some? ==> r[0] == Some(0.0)
    ensures forall t :: 0 <= t < |s| ==> (r[t].Some? <==> s[t].Some? && s[0].Some?)
  {
    seq(|s|, t requires 0 <= t < |s| => NormalizeCell(s[t], s[0]))
  }

  /** Recovers a reading from its relative change and the baseline. */
  function Denormalize(n: Cell, base: Cell): Cell
  {
    if n.Some? && base.Some? then Some(base.value * (1.0 + n.value)) else None
  }

  /** Normalising loses nothing but NaN: every present reading is recovered from
      its relative change and the baseline. */
  lemma DenormalizeRoundTrip(s: Column)
    requires |s| > 0 && s[0] != Some(0.0)
    ensures forall t :: 0 <= t < |s| && s[t].Some? && s[0].Some? ==> Denormalize(NormalizeColumn(s)[t], s[0]) == s[t]
  {
    forall t | 0 <= t < |s| && s[t].Some? && s[0].Some?
      ensures Denormalize(NormalizeColumn(s)[t], s[0]) == s[t]
    {
      var b := s[0].value;
      var x := s[t].value;
      assert b != 0.0;
      assert NormalizeColumn(s)[t].Some? && NormalizeColumn(s)[t].value == (x - b) / b;
      RecoverReading(b, x);
      var d := Denormalize(NormalizeColumn(s)[t], s[0]);
      assert d.Some? && d.value == x;
    }
  }

  function ScaleCell(x: Cell, c: real): Cell
  {
    if x.Some? then Some(c * x.value) else None
  }

  lemma RecoverReading(b: real, x: real)
    requires b != 0.0
    ensures b * (1.0 + (x - b) / b) == x
  {
    var q := (x - b) / b;
    assert q * b == x - b;
  }

  lemma CancelFactor(c: real, x: real, b: real)
    requires c != 0.0 && b != 0.0
    ensures (c * x - c * b) / (c * b) == (x - b) / b
  {
    var q := (x - b) / b;
    assert q * b == x - b;
    assert c * x - c * b == q * (c * b);
  }

  /** Every present cell scaled by the same factor. */
  function ScaleColumn(s: Column, c: real): (r: Column)
    ensures |r| == |s|
    ensures forall t :: 0 <= t < |s| ==> r[t] == ScaleCell(s[t], c)
  {
    seq(|s|, t requires 0 <= t < |s| => ScaleCell(s[t], c))
  }

  /** The relative change does not depend on the signal's unit: scaling a column
      by a nonzero factor leaves its normalised column unchanged. */
  lemma ScaleInvariant(s: Column, c: real)
    requires |s| > 0 && s[0] != Some(0.0) && c != 0.0
    ensures ScaleColumn(s, c)[0] != Some(0.0)
    ensures NormalizeColumn(ScaleColumn(s, c)) == NormalizeColumn(s)
  {
    var u := ScaleColumn(s, c);
    forall t | 0 <= t < |s|
      ensures NormalizeColumn(u)[t] == NormalizeColumn(s)[t]
    {
      if s[t].Some? && s[0].Some? {
        var b := s[0].value;
        var x := s[t].value;
        assert b != 0.0;
        assert u[t].Some? && u[t].value == c * x;
        assert u[0].Some? && u[0].value == c * b;
        var nu := NormalizeColumn(u)[t];
        var ns := NormalizeColumn(s)[t];
        assert nu.Some? && nu.value == (c * x - c * b) / (c * b);
        assert ns.Some? && ns.value == (x - b) / b;
        CancelFactor(c, x, b);
        assert nu.value == ns.value;
      }
    }
  }

  /** Against a positive baseline the change is positive exactly when the reading
      rose, negative exactly when it fell, and zero exactly when it stayed. */
  lemma SignOfChange(s: Column, t: nat)
    requires |s| > 0 && s[0] != Some(0.0)
    requires t < |s| && s[t].Some? && s[0].Some? && s[0].value > 0.0
    ensures NormalizeColumn(s)[t].value > 0.0 <==> s[t].value > s[0].value
    ensures NormalizeColumn(s)[t].value < 0.0 <==> s[t].value < s[0].value
    ensures NormalizeColumn(s)[t].value == 0.0 <==> s[t].value == s[0].value
  {
    var b := s[0].value;
    var d := s[t].value - b;
    assert NormalizeColumn(s)[t].value == d / b;
    assert d / b * b == d;
  }

  /** Every file's signal column has a nonzero (or NaN) baseline. */
  predicate NonzeroBaselines(t: Table)
  {
    forall k :: 0 <= k < |t| / 2 ==> |SignalCol(t, k)| == 0 || SignalCol(t, k)[0] != Some(0.0)
  }

  /** One normalised column per (time, signal) pair; an unpaired last column or a
      table with no rows raises. */
  function CreateNormalized(t: Table): (r: Result<Table, Error>)
    requires Rectangular(t)
    requires NonzeroBaselines(t)
    ensures r.Success? <==> |t| % 2 == 0 && (|t| == 0 || Rows(t) > 0)
    ensures r.Failure? ==> r.error == (if |t| % 2 == 1 && (|t| == 1 || Rows(t) > 0) then MissingSignalColumn else NoBaselineRow)
    ensures r.Success? ==> |r.value| == |t| / 2 && Rectangular(r.value) && Rows(r.value) == Rows(t)
    ensures r.Success? ==> forall k :: 0 <= k < |t| / 2 ==> r.value[k] == NormalizeColumn(SignalCol(t, k))
  {
    if |t| == 0 then Success([])
    else if |t| == 1 then Failure(MissingSignalColumn)
    else if Rows(t) == 0 then Failure(NoBaselineRow)
    else if |t| % 2 == 1 then Failure(MissingSignalColumn)
    else
      assert forall k :: 0 <= k < |t| / 2 ==> |SignalCol(t, k)| == Rows(t);
      Success(seq(|t| / 2, k requires 0 <= k < |t| / 2 => NormalizeColumn(SignalCol(t, k))))
  }

  /** With numeric baselines, every normalised column starts at exactly 0. */
  lemma CreateNormalizedStartsAtZero(t: Table)
    requires Rectangular(t) && NonzeroBaselines(t)
    requires |t| % 2 == 0 && Rows(t) > 0
    requires forall k :: 0 <= k < |t| / 2 ==> SignalCol(t, k)[0].Some?
    ensures CreateNormalized(t).Success?
    ensures |CreateNormalized(t).value| == |t| / 2
    ensures forall k :: 0 <= k < |t| / 2 ==> CreateNormalized(t).value[k][0] == Some(0.0)
  {
    var r := CreateNormalized(t).value;
    forall k | 0 <= k < |t| / 2
      ensures r[k][0] == Some(0.0)
    {
      assert r[k] == NormalizeColumn(SignalCol(t, k));
    }
  }

  /** Each file's time column, unchanged, in file order. */
  function CreateTime(t: Table): (r: Table)
    ensures |r| == (|t| + 1) / 2
    ensures forall k :: 0 <= k < |r| ==> r[k] == TimeCol(t, k)
  {
    seq((|t| + 1) / 2, k requires 0 <= k < (|t| + 1) / 2 => TimeCol(t, k))
  }

  /** The extractor reads only the time columns: two tables that agree on them give
      the same time table, whatever their signal columns hold. */
  lemma CreateTimeReadsOnlyTimeColumns(t: Table, u: Table)
    requires |t| == |u|
    requires forall k :: 0 <= k < (|t| + 1) / 2 ==> TimeCol(t, k) == TimeCol(u, k)
    ensures CreateTime(t) == CreateTime(u)
  {
  }

  /** Time extraction inverts interleaving on the time side. */
  lemma CreateTimeOfInterleave(ps: seq<ColumnPair>)
    ensures |CreateTime(Interleave(ps))| == |ps|
    ensures forall k :: 0 <= k < |ps| ==> CreateTime(Interleave(ps))[k] == ps[k].time
  {
  }

  /** Normalisation of interleaved pairs normalises each pair's signal. */
  lemma CreateNormalizedOfInterleave(ps: seq<ColumnPair>, n: nat)
    requires n > 0
    requires forall k :: 0 <= k < |ps| ==> |ps[k].time| == n && |ps[k].signal| == n && ps[k].signal[0] != Some(0.0)
    ensures Rectangular(Interleave(ps)) && NonzeroBaselines(Interleave(ps))
    ensures CreateNormalized(Interleave(ps)).Success?
    ensures forall k :: 0 <= k < |ps| ==> CreateNormalized(Interleave(ps)).value[k] == NormalizeColumn(ps[k].signal)
  {
    InterleaveRectangular(ps, n);
  }
}
