/** The arithmetic of the quick plots: trace data, legend text, colour positions and
    the schedule of shaded exposure bands. Drawing and styling are not modelled. */
module Plot {
  import opened Wrappers
  import opened Errors
  import opened Tables

  /** A per-file parameter: its text as the legend prints it, and its numeric value. */
  datatype ParamValue = ParamValue(text: string, value: real)

  /** The parameter list: the unit label first, then one value per file. */
  datatype Parameters = Parameters(unit: string, values: seq<ParamValue>)

  /** Cycle durations in minutes; `timeCycle` is stored by the source but never read. */
  datatype CycleConfig = CycleConfig(timeCycle: real, resTime: real, recTime: real)

  /** One line trace: x in minutes, y the normalised response, its legend name and
      the position on the colour scale its colour is sampled at. */
  datatype Trace = Trace(x: Column, y: Column, name: string, colorPosition: real)

  /** A shaded exposure window from `x0` to `x1` minutes. */
  datatype Band = Band(x0: real, x1: real)

  datatype Figure = Figure(traces: seq<Trace>, bands: seq<Band>)

  /** The first band starts this many minutes after one recovery time. */
  const BandOffset: real := 0.15

  const SecondsPerMinute: real := 60.0

  function Min(a: nat, b: nat): nat
  {
    if a <= b then a else b
  }

  // ---------------------------------------------------------------- seconds to minutes

  /** A time column converted from seconds to minutes; NaN stays NaN. */
  function ToMinutes(c: Column): (m: Column)
    ensures |m| == |c|
    ensures forall t :: 0 <= t < |c| ==> (m[t].Some? <==> c[t].Some?)
    ensures forall t :: 0 <= t < |c| && c[t].Some? ==> m[t].value * SecondsPerMinute == c[t].value
  {
    seq(|c|, t requires 0 <= t < |c| => if c[t].Some? then Some(c[t].value / SecondsPerMinute) else None)
  }

  // ---------------------------------------------------------------- legend text

  /** The legend name of a trace: the parameter, a space, the unit. */
  function Label(p: ParamValue, unit: string): (s: string)
    ensures |s| == |p.text| + 1 + |unit|
    ensures s[..|p.text|] == p.text && s[|p.text|] == ' ' && s[|p.text| + 1..] == unit
  {
    p.text + " " + unit
  }

  /** The position of the last space in `s`, if any. */
  function LastSpace(s: string): (k: Option<nat>)
    ensures k.Some? ==> k.value < |s| && s[k.value] == ' ' && forall i :: k.value < i < |s| ==> s[i] != ' '
    ensures k.None? ==> forall i :: 0 <= i < |s| ==> s[i] != ' '
  {
    if |s| == 0 then None
    else if s[|s| - 1] == ' ' then Some(|s| - 1)
    else LastSpace(s[..|s| - 1])
  }

  /** Splits a legend name at its last space into parameter text and unit. */
  function SplitLabel(s: string): (string, string)
  {
    match LastSpace(s)
    case None => ("", s)
    case Some(k) => (s[..k], s[k + 1..])
  }

  /** A legend name determines its parameter text and its unit, for a unit without spaces. */
  lemma LabelRoundTrip(p: ParamValue, unit: string)
    requires forall i :: 0 <= i < |unit| ==> unit[i] != ' '
    ensures SplitLabel(Label(p, unit)) == (p.text, unit)
  {
    var s := Label(p, unit);
    var k := LastSpace(s);
    assert s[|p.text|] == ' ';
    assert k.Some? && k.value == |p.text| by {
      forall i | |p.text| < i < |s|
        ensures s[i] != ' '
      {
        assert s[i] == unit[i - |p.text| - 1];
      }
    }
  }

  // ---------------------------------------------------------------- colour positions

  function SeqMin(vs: seq<real>): (m: real)
    requires |vs| > 0
    ensures m in vs
    ensures forall i :: 0 <= i < |vs| ==> m <= vs[i]
  {
    if |vs| == 1 then vs[0]
    else
      var m := SeqMin(vs[..|vs| - 1]);
      if vs[|vs| - 1] < m then vs[|vs| - 1] else m
  }

  function SeqMax(vs: seq<real>): (m: real)
    requires |vs| > 0
    ensures m in vs
    ensures forall i :: 0 <= i < |vs| ==> vs[i] <= m
  {
    if |vs| == 1 then vs[0]
    else
      var m := SeqMax(vs[..|vs| - 1]);
      if vs[|vs| - 1] > m then vs[|vs| - 1] else m
  }

  function Values(ps: seq<ParamValue>): (vs: seq<real>)
    ensures |vs| == |ps|
    ensures forall i :: 0 <= i < |ps| ==> vs[i] == ps[i].value
  {
    seq(|ps|, i requires 0 <= i < |ps| => ps[i].value)
  }

  /** Min-max scaling of `v` onto [0, 1]; a zero range is divided by 1 instead, as
      scikit-learn's minmax_scale does. */
  function ScalePosition(v: real, lo: real, hi: real): real
  {
    (v - lo) / (if hi == lo then 1.0 else hi - lo)
  }

  lemma ScalePositionFacts(v: real, lo: real, hi: real)
    requires lo <= v <= hi
    ensures 0.0 <= ScalePosition(v, lo, hi) <= 1.0
    ensures v == lo ==> ScalePosition(v, lo, hi) == 0.0
    ensures v == hi && lo < hi ==> ScalePosition(v, lo, hi) == 1.0
  {
    var d := if hi == lo then 1.0 else hi - lo;
    var p := (v - lo) / d;
    assert p * d == v - lo;
  }

  lemma ScalePositionMonotone(a: real, b: real, lo: real, hi: real)
    requires lo <= a <= b <= hi
    ensures ScalePosition(a, lo, hi) <= ScalePosition(b, lo, hi)
  {
    var d := if hi == lo then 1.0 else hi - lo;
    var pa := (a - lo) / d;
    var pb := (b - lo) / d;
    assert pa * d == a - lo;
    assert pb * d == b - lo;
  }

  lemma AllScalePositions(vs: seq<real>, ps: seq<real>, lo: real, hi: real)
    requires forall i :: 0 <= i < |vs| ==> lo <= vs[i] <= hi
    requires |ps| == |vs| && forall i :: 0 <= i < |vs| ==> ps[i] == ScalePosition(vs[i], lo, hi)
    ensures forall i :: 0 <= i < |vs| ==> 0.0 <= ps[i] <= 1.0
    ensures forall i :: 0 <= i < |vs| && vs[i] == lo ==> ps[i] == 0.0
    ensures forall i :: 0 <= i < |vs| && vs[i] == hi && lo < hi ==> ps[i] == 1.0
    ensures forall i, j :: 0 <= i < |vs| && 0 <= j < |vs| && vs[i] <= vs[j] ==> ps[i] <= ps[j]
  {
    forall i | 0 <= i < |vs| {
      ScalePositionFacts(vs[i], lo, hi);
    }
    forall i, j | 0 <= i < |vs| && 0 <= j < |vs| && vs[i] <= vs[j] {
      ScalePositionMonotone(vs[i], vs[j], lo, hi);
    }
  }

  /** `p` is the min-max position of `v` among `vs`: (v - min) / (max - min), or 0
      when all the values are equal. */
  predicate MinMaxPosition(p: real, v: real, vs: seq<real>)
    requires |vs| > 0
  {
    if SeqMin(vs) < SeqMax(vs) then p == (v - SeqMin(vs)) / (SeqMax(vs) - SeqMin(vs)) else p == 0.0
  }

  /** The colour-scale position of every parameter value: (v - min) / (max - min)
      when the values differ, 0 for every value when they are all equal; hence within
      [0, 1], ordered as the values are, 0 at the smallest and 1 at the largest. */
  function ColorPositions(vs: seq<real>): (ps: seq<real>)
    requires |vs| > 0
    ensures |ps| == |vs|
    ensures forall i :: 0 <= i < |vs| ==> 0.0 <= ps[i] <= 1.0
    ensures forall i, j :: 0 <= i < |vs| && 0 <= j < |vs| && vs[i] <= vs[j] ==> ps[i] <= ps[j]
    ensures forall i :: 0 <= i < |vs| && vs[i] == SeqMin(vs) ==> ps[i] == 0.0
    ensures forall i :: 0 <= i < |vs| && vs[i] == SeqMax(vs) && SeqMin(vs) < SeqMax(vs) ==> ps[i] == 1.0
    ensures forall i :: 0 <= i < |vs| ==> MinMaxPosition(ps[i], vs[i], vs)
  {
    var lo := SeqMin(vs);
    var hi := SeqMax(vs);
    var ps := seq(|vs|, i requires 0 <= i < |vs| => ScalePosition(vs[i], lo, hi));
    AllScalePositions(vs, ps, lo, hi);
    ps
  }

  /** Three evenly spaced values sit at the bottom, middle and top of the scale. */
  lemma ColorPositionsExample()
    ensures ColorPositions([10.0, 20.0, 30.0]) == [0.0, 0.5, 1.0]
  {
    var vs := [10.0, 20.0, 30.0];
    assert SeqMin(vs) == 10.0 && SeqMax(vs) == 30.0 by {
      assert SeqMin(vs) in vs && SeqMax(vs) in vs;
    }
    var ps := ColorPositions(vs);
    assert MinMaxPosition(ps[1], vs[1], vs);
  }

  // ---------------------------------------------------------------- band schedule

  /** The least integer not below `x`. */
  function Ceil(x: real): int
  {
    -((-x).Floor)
  }

  /** The value `k` steps of `step` after `start`. */
  function Step(start: real, step: real, k: nat): real
  {
    start + k as real * step
  }

  lemma StepSucc(start: real, step: real, k: nat)
    ensures Step(start, step, k + 1) - Step(start, step, k) == step
  {
    assert (k + 1) as real * step == k as real * step + step;
  }

  /** Steps of a positive step grow with their count. */
  lemma StepMonotone(start: real, step: real, j: nat, k: nat)
    requires step > 0.0 && j <= k
    ensures Step(start, step, j) <= Step(start, step, k)
  {
    assert k as real * step - j as real * step == (k - j) as real * step;
  }

  /** The number of values numpy's arange emits: the ceiling of the span over the
      step, or none when that is negative. */
  function ARangeLength(start: real, stop: real, step: real): nat
    requires step != 0.0
  {
    var n := Ceil((stop - start) / step);
    if n < 0 then 0 else n
  }

  lemma ARangeLengthBounds(start: real, stop: real, step: real, k: nat)
    requires step != 0.0
    ensures k < ARangeLength(start, stop, step) ==>
              (step > 0.0 ==> Step(start, step, k) < stop) && (step < 0.0 ==> Step(start, step, k) > stop)
    ensures k == ARangeLength(start, stop, step) ==>
              (step > 0.0 ==> Step(start, step, k) >= stop) && (step < 0.0 ==> Step(start, step, k) <= stop)
  {
    var q := (stop - start) / step;
    var len := ARangeLength(start, stop, step);
    assert q * step == stop - start;
    assert len as real >= q;
    if k < len {
      assert k as real < q;
      if step > 0.0 {
        assert k as real * step < q * step;
      } else {
        assert k as real * step > q * step;
      }
    }
    if k == len {
      if step > 0.0 {
        assert len as real * step >= q * step;
      } else {
        assert len as real * step <= q * step;
      }
    }
  }

  /** numpy's arange over the reals: start, start + step, ... while short of `stop`
      in the direction of `step`. */
  function ARange(start: real, stop: real, step: real): (r: seq<real>)
    requires step != 0.0
    ensures forall k :: 0 <= k < |r| ==> r[k] == Step(start, step, k)
    ensures forall k :: 0 <= k < |r| ==> (step > 0.0 ==> r[k] < stop) && (step < 0.0 ==> r[k] > stop)
    ensures step > 0.0 ==> Step(start, step, |r|) >= stop
    ensures step < 0.0 ==> Step(start, step, |r|) <= stop
  {
    var len := ARangeLength(start, stop, step);
    var r := seq(len, k requires 0 <= k < len => Step(start, step, k));
    assert forall k :: 0 <= k < |r| ==> (step > 0.0 ==> r[k] < stop) && (step < 0.0 ==> r[k] > stop) by {
      forall k | 0 <= k < |r|
        ensures (step > 0.0 ==> r[k] < stop) && (step < 0.0 ==> r[k] > stop)
      {
        ARangeLengthBounds(start, stop, step, k);
      }
    }
    ARangeLengthBounds(start, stop, step, len);
    r
  }

  /** With a positive step, a value is emitted exactly when it is start plus a whole
      number of steps and still below `stop`. */
  lemma {:induction false} ARangeMembers(start: real, stop: real, step: real, x: real)
    requires step > 0.0
    ensures x in ARange(start, stop, step) <==> exists k: nat :: x == Step(start, step, k) && x < stop
  {
    var r := ARange(start, stop, step);
    if x in r {
      var k :| 0 <= k < |r| && r[k] == x;
      assert x == Step(start, step, k);
    }
    if exists k: nat :: x == Step(start, step, k) && x < stop {
      var k: nat :| x == Step(start, step, k) && x < stop;
      if k >= |r| {
        StepMonotone(start, step, |r|, k);
        assert false;
      }
      assert r[k] == x;
    }
  }

  /** The shaded exposure windows: starting one recovery time plus the offset in,
      one every response-plus-recovery time, each one response time wide, every
      start short of `stop`; a zero period raises. */
  function BandSchedule(resTime: real, recTime: real, stop: real): (r: Result<seq<Band>, Error>)
    ensures r.Success? <==> resTime + recTime != 0.0
    ensures r.Failure? ==> r.error == BandRangeUndefined
    ensures r.Success? ==> forall k :: 0 <= k < |r.value| ==>
              r.value[k].x0 == Step(recTime + BandOffset, resTime + recTime, k)
              && r.value[k].x1 == r.value[k].x0 + resTime
    ensures r.Success? ==> forall k :: 0 <= k < |r.value| - 1 ==> r.value[k + 1].x0 - r.value[k].x0 == resTime + recTime
    ensures r.Success? && resTime + recTime > 0.0 ==>
              (forall k :: 0 <= k < |r.value| ==> r.value[k].x0 < stop)
              && Step(recTime + BandOffset, resTime + recTime, |r.value|) >= stop
  {
    if resTime + recTime == 0.0 then Failure(BandRangeUndefined)
    else
      var starts := ARange(recTime + BandOffset, stop, resTime + recTime);
      var bands := seq(|starts|, k requires 0 <= k < |starts| => Band(starts[k], starts[k] + resTime));
      assert forall k :: 0 <= k < |bands| - 1 ==> bands[k + 1].x0 - bands[k].x0 == resTime + recTime by {
        forall k | 0 <= k < |bands| - 1
          ensures bands[k + 1].x0 - bands[k].x0 == resTime + recTime
        {
          StepSucc(recTime + BandOffset, resTime + recTime, k);
        }
      }
      Success(bands)
  }

  /** The worked schedule: 5-minute exposures, 10-minute recoveries, 60 minutes of data. */
  lemma BandScheduleExample()
    ensures BandSchedule(5.0, 10.0, 60.0) == Success([Band(10.15, 15.15), Band(25.15, 30.15), Band(40.15, 45.15), Band(55.15, 60.15)])
  {
    var r := BandSchedule(5.0, 10.0, 60.0).value;
    assert ARangeLength(10.15, 60.0, 15.0) == 4;
    assert |r| == 4;
    assert r[0] == Band(10.15, 15.15);
    assert r[1] == Band(25.15, 30.15);
    assert r[2] == Band(40.15, 45.15);
    assert r[3] == Band(55.15, 60.15);
    assert r == [Band(10.15, 15.15), Band(25.15, 30.15), Band(40.15, 45.15), Band(55.15, 60.15)];
  }

  // ---------------------------------------------------------------- maximum time

  /** pandas' column maximum, skipping NaN; NaN when the column holds no number. */
  function ColumnMax(c: Column): (m: Cell)
    ensures m.None? <==> forall t :: 0 <= t < |c| ==> c[t].None?
    ensures m.Some? ==> m in c && forall t :: 0 <= t < |c| && c[t].Some? ==> c[t].value <= m.value
  {
    if |c| == 0 then None
    else
      var m := ColumnMax(c[..|c| - 1]);
      var x := c[|c| - 1];
      if x.None? then m
      else if m.None? || x.value > m.value then x
      else m
  }

  /** Python's built-in max over a sequence that may hold NaN: it keeps the first
      item and replaces it by a later one only when the later compares greater, so a
      leading NaN wins and later NaNs are passed over. */
  function BuiltinMax(ms: seq<Cell>): (m: Cell)
    requires |ms| > 0
    ensures m.None? <==> ms[0].None?
    ensures m.Some? ==> m in ms && forall i :: 0 <= i < |ms| && ms[i].Some? ==> ms[i].value <= m.value
  {
    if |ms| == 1 then ms[0]
    else
      var m := BuiltinMax(ms[..|ms| - 1]);
      var x := ms[|ms| - 1];
      if x.Some? && m.Some? && x.value > m.value then x else m
  }

  /** The largest time in the table, the stop of the band schedule; a table with no
      columns, or whose first column holds no number, raises. */
  function MaxTime(time: Table): (r: Result<real, Error>)
    ensures r.Success? <==> |time| > 0 && exists t :: 0 <= t < |time[0]| && time[0][t].Some?
    ensures r.Failure? ==> r.error == (if |time| == 0 then EmptyTimeTable else BandRangeUndefined)
    ensures r.Success? ==> exists k, t :: 0 <= k < |time| && 0 <= t < |time[k]| && time[k][t] == Some(r.value)
    ensures r.Success? ==> forall k, t :: 0 <= k < |time| && 0 <= t < |time[k]| && time[k][t].Some? ==> time[k][t].value <= r.value
  {
    if |time| == 0 then Failure(EmptyTimeTable)
    else
      var ms := seq(|time|, k requires 0 <= k < |time| => ColumnMax(time[k]));
      var m := BuiltinMax(ms);
      if m.None? then Failure(BandRangeUndefined)
      else
        assert exists k, t :: 0 <= k < |time| && 0 <= t < |time[k]| && time[k][t] == m by {
          var k :| 0 <= k < |ms| && ms[k] == m;
          var t :| 0 <= t < |time[k]| && time[k][t] == m;
        }
        assert forall k, t :: 0 <= k < |time| && 0 <= t < |time[k]| && time[k][t].Some? ==> time[k][t].value <= m.value by {
          forall k, t | 0 <= k < |time| && 0 <= t < |time[k]| && time[k][t].Some?
            ensures time[k][t].value <= m.value
          {
            assert ms[k].Some?;
          }
        }
        Success(m.value)
  }

  // ---------------------------------------------------------------- the quick plot

  /** The first `count` traces: time column i in minutes against normalised column
      i, named after parameter i and coloured by its position among all values. */
  function Traces(norm: Table, time: Table, params: Parameters, count: nat): (ts: seq<Trace>)
    requires count <= |params.values| && count <= |norm| && count <= |time|
    ensures |ts| == count
    ensures forall i :: 0 <= i < count ==>
              && ts[i].x == ToMinutes(time[i])
              && ts[i].y == norm[i]
              && ts[i].name == Label(params.values[i], params.unit)
              && 0.0 <= ts[i].colorPosition <= 1.0
    ensures forall i, j :: 0 <= i < count && 0 <= j < count && params.values[i].value <= params.values[j].value
              ==> ts[i].colorPosition <= ts[j].colorPosition
    ensures count > 0 ==>
              forall i :: 0 <= i < count ==> MinMaxPosition(ts[i].colorPosition, params.values[i].value, Values(params.values))
  {
    if count == 0 then []
    else
      var positions := ColorPositions(Values(params.values));
      seq(count, i requires 0 <= i < count =>
        Trace(ToMinutes(time[i]), norm[i], Label(params.values[i], params.unit), positions[i]))
  }

  /** The figure of one quick plot: one trace per parameter value that has a
      normalised column, and the exposure bands up to the largest time. */
  function QuickPlot(norm: Table, time: Table, params: Parameters, cfg: CycleConfig): (r: Result<Figure, Error>)
    ensures r.Success? <==>
              && |params.values| > 0
              && Min(|params.values|, |norm|) <= |time|
              && MaxTime(time).Success?
              && cfg.resTime + cfg.recTime != 0.0
    ensures |params.values| == 0 ==> r == Failure(EmptyParameters)
    ensures |params.values| > 0 && Min(|params.values|, |norm|) > |time| ==> r == Failure(MissingTimeColumn(|time|))
    ensures r.Success? ==> |r.value.traces| == Min(|params.values|, |norm|)
    ensures r.Success? ==> forall i :: 0 <= i < |r.value.traces| ==>
              && r.value.traces[i].x == ToMinutes(time[i])
              && r.value.traces[i].y == norm[i]
              && r.value.traces[i].name == Label(params.values[i], params.unit)
              && 0.0 <= r.value.traces[i].colorPosition <= 1.0
    ensures r.Success? ==> forall i, j ::
              0 <= i < |r.value.traces| && 0 <= j < |r.value.traces| && params.values[i].value <= params.values[j].value
              ==> r.value.traces[i].colorPosition <= r.value.traces[j].colorPosition
    ensures r.Success? ==> forall i :: 0 <= i < |r.value.traces| ==>
              MinMaxPosition(r.value.traces[i].colorPosition, params.values[i].value, Values(params.values))
    ensures r.Success? ==> r.value.bands == BandSchedule(cfg.resTime, cfg.recTime, MaxTime(time).value / SecondsPerMinute).value
  {
    if |params.values| == 0 then Failure(EmptyParameters)
    else
      var count := Min(|params.values|, |norm|);
      if count > |time| then Failure(MissingTimeColumn(|time|))
      else
        match MaxTime(time)
        case Failure(e) => Failure(e)
        case Success(m) =>
          match BandSchedule(cfg.resTime, cfg.recTime, m / SecondsPerMinute)
          case Failure(e) => Failure(e)
          case Success(bands) =>
            Success(Figure(Traces(norm, time, params, count), bands))
  }
}
