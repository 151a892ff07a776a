/** Raw files and interleaved tables.

    A raw instrument export is a sequence of rows of cells, possibly ragged; pandas
    reads it into a frame as wide as its longest row and pads the short rows with
    NaN. A table is the sequence of its columns; every pipeline table interleaves one
    (time, signal) column pair per input file, in file order. */
module Tables {
  import opened Wrappers

  /** One cell of a frame; `None` is the NaN pandas fills missing cells with. */
  type Cell = Option<real>

  type Column = seq<Cell>

  type Table = seq<Column>

  type RawFile = seq<seq<real>>

  /** The number of columns of the frame read from `f`: its longest row. */
  function Width(f: RawFile): (w: nat)
    ensures forall i :: 0 <= i < |f| ==> |f[i]| <= w
    ensures w == 0 || exists i :: 0 <= i < |f| && |f[i]| == w
  {
    if |f| == 0 then 0
    else
      var w := Width(f[..|f| - 1]);
      if |f[|f| - 1]| > w then |f[|f| - 1]| else w
  }

  /** The cell at a position of the frame read from `f`; outside a short row it is NaN. */
  function CellAt(f: RawFile, row: nat, col: nat): Cell
  {
    if row < |f| && col < |f[row]| then Some(f[row][col]) else None
  }

  function Rows(t: Table): nat
  {
    if |t| == 0 then 0 else |t[0]|
  }

  /** A frame's columns all have its row count. */
  predicate Rectangular(t: Table)
  {
    forall i :: 0 <= i < |t| ==> |t[i]| == Rows(t)
  }

  /** The two columns one input file contributes. */
  datatype ColumnPair = ColumnPair(time: Column, signal: Column)

  /** The time column of file `i` (0-based) sits at column 2i. */
  function TimeCol(t: Table, i: nat): Column
    requires 2 * i < |t|
  {
    t[2 * i]
  }

  /** The signal column of file `i` (0-based) sits at column 2i + 1. */
  function SignalCol(t: Table, i: nat): Column
    requires 2 * i + 1 < |t|
  {
    t[2 * i + 1]
  }

  /** Lays the pairs out side by side, time first, in order. */
  function Interleave(ps: seq<ColumnPair>): (t: Table)
    ensures |t| == 2 * |ps|
    ensures forall i :: 0 <= i < |ps| ==> TimeCol(t, i) == ps[i].time && SignalCol(t, i) == ps[i].signal
  {
    if |ps| == 0 then []
    else Interleave(ps[..|ps| - 1]) + [ps[|ps| - 1].time, ps[|ps| - 1].signal]
  }

  /** Reads an interleaved table back as its pairs. */
  function Pairs(t: Table): (ps: seq<ColumnPair>)
    requires |t| % 2 == 0
    ensures |ps| == |t| / 2
    ensures forall i :: 0 <= i < |ps| ==> ps[i] == ColumnPair(TimeCol(t, i), SignalCol(t, i))
  {
    seq(|t| / 2, i requires 0 <= i < |t| / 2 => ColumnPair(t[2 * i], t[2 * i + 1]))
  }

  lemma PairsOfInterleave(ps: seq<ColumnPair>)
    ensures Pairs(Interleave(ps)) == ps
  {
  }

  lemma InterleaveOfPairs(t: Table)
    requires |t| % 2 == 0
    ensures Interleave(Pairs(t)) == t
  {
    var u := Interleave(Pairs(t));
    forall j | 0 <= j < |t|
      ensures u[j] == t[j]
    {
      var i := j / 2;
      if j % 2 == 0 {
        assert TimeCol(u, i) == t[j];
      } else {
        assert SignalCol(u, i) == t[j];
      }
    }
  }

  /** Pairs whose columns all have `n` rows interleave to a frame of `n` rows. */
  lemma InterleaveRectangular(ps: seq<ColumnPair>, n: nat)
    requires forall i :: 0 <= i < |ps| ==> |ps[i].time| == n && |ps[i].signal| == n
    ensures Rectangular(Interleave(ps))
    ensures |ps| > 0 ==> Rows(Interleave(ps)) == n
  {
    var t := Interleave(ps);
    forall j | 0 <= j < |t|
      ensures |t[j]| == n
    {
      var i := j / 2;
      if j % 2 == 0 {
        assert TimeCol(t, i) == t[j];
      } else {
        assert SignalCol(t, i) == t[j];
      }
    }
    if |ps| > 0 {
      assert TimeCol(t, 0) == t[0];
    }
  }
}
