# Gas-response analysis pipeline, modelled in Dafny

A model of the table-reshaping and derived-signal core of a small laboratory tool
that turns raw instrument exports from optical power meters (PM100D, legacy PM100D,
PM320) and resistance rigs into aligned time-series tables, normalises each signal
to its baseline, and plots the responses with shaded gas-exposure windows.

Each of the two source classes (`Optical_data_processing`,
`Resistance_data_processing`) has three stages, and the model follows them:

1. **Format adapters** (`Adapters`, instantiated in `OpticalResponse` and
   `ResistanceResponse`): skip a fixed number of header rows of each raw file, take
   two columns by position and lay one (time, signal) pair per file side by side, in
   file order. One generic `Adapters.Adapt` is parameterised by a `Layout`:
   PM100D is (skip 15, time 5, signal 3), the legacy PM100D (23, 0, 1), the
   resistance export (7, 0, 3); the PM320 whitespace table uses the row number as
   time and column 6 as signal. For the spreadsheet readers the row count follows
   pandas' alignment: the first non-empty column assigned into the empty frame fixes
   its index, later columns are padded with NaN or cut to it. The PM320 reader
   instead raises when a file's row count differs from the frame's
   (Template_Class_Optical_Response.py line 52).
2. **Normaliser and time extractor** (`Normalizer`): walk the interleaved table in
   steps of two; signal column s becomes `(s[t] - s[0]) / s[0]`, the time column is
   copied through.
3. **Plot geometry** (`Plot`): trace x values in minutes, legend text
   `"<value> <unit>"`, min-max colour positions, and the band schedule
   `arange(rec_time + 0.15, max_time / 60, res_time + rec_time)`, each band
   `res_time` wide. Drawing is not modelled.

A raw file is `seq<seq<real>>` (rows of cells, possibly ragged); a table is a
sequence of columns of `Option<real>`, where `None` stands for the NaN pandas pads
with. Every exception the source raises on these paths is a `Failure` of
`Errors.Error` rather than a precondition.

Three details of the readers:
- the PM100D reader computes a `Timestamp` re-based to the first data row
  (Template_Class_Optical_Response.py lines 40-41) but emits raw column 5 unchanged
  (line 42); the model emits raw column 5;
- a PM100D file too short for its header raises: reading the cell at row 15,
  column 5 (line 41) fails, modelled as `IndexOutOfBounds`;
- the `rename` of the resistance reader (Template_Class_Resistance_Response.py
  line 40) has no effect, because a frame read without a header row has integer
  column labels.

## Model

| member | source | states |
|---|---|---|
| OpticalResponse.PM100DData | Template_Class_Optical_Response.py:36-45 | 2M columns for M files; file j's time at column 2j is raw column 5 and its power at 2j+1 raw column 3, row r taken from raw row 15+r; row count fixed by the first file; a file narrower than six columns or without row 15 raises, and the first such file is the one reported |
| OpticalResponse.PM320Data | Template_Class_Optical_Response.py:48-55 | file j's time column is its row numbers 0,1,2,… and its signal column raw column 6; every file must be non-empty, have the first file's row count and exactly nine columns, else the first offending file raises the matching error |
| OpticalResponse.OldPM100DData | Template_Class_Optical_Response.py:58-65 | row r of file j is raw cells (23+r, 0) and (23+r, 1); row count is that of the first file with rows past the header; a file with fewer than two columns raises |
| OpticalResponse.TransmittanceCreateData | Template_Class_Optical_Response.py:69-73 | 2M aligned columns give M columns; column k row t is (s[t]-s[0])/s[0] for s the signal column 2k+1, NaN where either cell is NaN; row 0 is exactly 0; an unpaired last column or a table with columns but no rows raises |
| OpticalResponse.TimeCreateData | Template_Class_Optical_Response.py:76-80 | column k of the time table is column 2k of the input, unchanged |
| OpticalResponse.PM100DTimeIsRawColumn5 | Template_Class_Optical_Response.py:40-42 | the time table of a PM100D read holds raw column 5 from row 15 on, not the re-based timestamp |
| OpticalResponse.PM100DTransmittanceStartsAtZero | Template_Class_Optical_Response.py:42-43 | readable PM100D files with numeric nonzero power at row 15 yield one transmittance column per file, each with row 0 equal to 0 |
| OpticalResponse.QuickPlotT | Template_Class_Optical_Response.py:84-107 | min(#values, #columns) traces, trace i with x = time column i / 60, y = column i, name "<value i> <unit>", colour position (v_i - min)/(max - min) over all parameter values, or 0 when they are all equal (hence in [0,1] and ordered as the values); band k starts at rec_time+0.15+k(res_time+rec_time) and is res_time wide; for a positive period every start is below max time / 60 and the next one would not be |
| ResistanceResponse.ResistanceData | Template_Class_Resistance_Response.py:36-43 | 2M columns; row r of file j is raw cells (7+r, 0) and (7+r, 3); cells past the end of a shorter file are NaN; a file with fewer than four columns raises |
| ResistanceResponse.ResistanceRowsFromFirstFile | Template_Class_Resistance_Response.py:41-42 | when every file has four columns the read succeeds; its row count is 0 exactly when no file has rows past the seven header rows, else that of the first file that has, all earlier files having none |
| ResistanceResponse.ResistanceCreateData | Template_Class_Resistance_Response.py:46-50 | M normalised columns from 2M, column k row t equal to (s[t]-s[0])/s[0] for s = column 2k+1; row 0 is 0; error cases as the transmittance normaliser |
| ResistanceResponse.ResistanceRiseIsPositive | Template_Class_Resistance_Response.py:49 | against a positive baseline the normalised value is positive exactly when resistance rose and negative exactly when it fell |
| ResistanceResponse.TimeCreateData | Template_Class_Resistance_Response.py:53-57 | column k of the time table is input column 2k, unchanged |
| ResistanceResponse.QuickPlotR | Template_Class_Resistance_Response.py:61-84 | same trace and band geometry as the optical plot: trace count, minutes, legend text, colour position (v_i - min)/(max - min) over all parameter values or 0 when they are all equal, the band schedule and, for a positive period, its stop |
| Tables.Interleave | Template_Class_Optical_Response.py:38-43 | pairs laid out time-first: 2M columns, pair i's time at 2i and signal at 2i+1 |
| Tables.InterleaveOfPairs | Template_Class_Optical_Response.py:71-72 | reading an even table as pairs and interleaving them again gives the table back |
| Tables.Width | Template_Class_Resistance_Response.py:39 | the frame read from a ragged file is as wide as its longest row |
| Adapters.AlignedRows | Template_Class_Optical_Response.py:63-64 | the row count is 0 exactly when no file has rows past the header, else the data-row count of the first file that has |
| Adapters.Collect | Template_Class_Optical_Response.py:38-44 | the reads succeed exactly when every file reads; on success one pair per file in order; on failure the error of the first failing file |
| Adapters.Adapt | Template_Class_Optical_Response.py:38-44 | the uniform table: 2M rectangular columns of the aligned row count, file j's pair at 2j and 2j+1, or the first file's error |
| Adapters.SpreadsheetAlignment | Template_Class_Resistance_Response.py:41-42 | on a spreadsheet layout each output cell is the raw cell skip+row rows down; past the end of a shorter file it is NaN; the row count comes from the first file with data |
| Normalizer.NormalizeColumn | Template_Class_Resistance_Response.py:49 | same length; row 0 is 0 when the baseline is a number; a cell is a number exactly when it and the baseline are |
| Normalizer.DenormalizeRoundTrip | Template_Class_Resistance_Response.py:49 | every numeric reading is recovered as baseline * (1 + normalised value) |
| Normalizer.ScaleInvariant | Template_Class_Resistance_Response.py:49 | scaling a signal column by a nonzero factor leaves its normalised column unchanged |
| Normalizer.SignOfChange | Template_Class_Optical_Response.py:72 | for a positive baseline, norm[t] > 0, < 0, = 0 exactly when s[t] is above, below, equal to s[0] |
| Normalizer.CreateNormalized | Template_Class_Optical_Response.py:69-73 | succeeds exactly for an even column count with rows (or no columns); then |t|/2 rectangular columns, column k the normalised signal of pair k; otherwise the error the loop meets first |
| Normalizer.CreateTime | Template_Class_Resistance_Response.py:53-57 | (|t|+1)/2 columns, column k equal to input column 2k |
| Normalizer.CreateTimeReadsOnlyTimeColumns | Template_Class_Optical_Response.py:78-79 | two tables agreeing on their even columns give the same time table |
| Normalizer.CreateTimeOfInterleave | Template_Class_Resistance_Response.py:55-56 | time extraction of interleaved pairs returns the pairs' time columns in order |
| Normalizer.CreateNormalizedOfInterleave | Template_Class_Resistance_Response.py:48-49 | normalising interleaved pairs of nonzero baseline succeeds and normalises each pair's signal |
| Plot.ToMinutes | Template_Class_Optical_Response.py:92 | same length, NaN kept, every number times 60 gives the original seconds |
| Plot.LabelRoundTrip | Template_Class_Resistance_Response.py:71 | for a unit without spaces the legend name splits back into parameter text and unit |
| Plot.ColorPositions | Template_Class_Optical_Response.py:88 | position i is (v_i - min)/(max - min), or 0 for every value when all are equal; so positions lie in [0,1], are monotone in the value, 0 at the minimum, 1 at the maximum when values differ |
| Plot.ColorPositionsExample | Template_Class_Optical_Response.py:88 | the values 10, 20, 30 sit at positions 0, 0.5 and 1 |
| Plot.ARange | Template_Class_Optical_Response.py:98 | value k is start + k·step; every value is short of stop in the step's direction and the next one would not be |
| Plot.ARangeMembers | Template_Class_Optical_Response.py:98 | with a positive step, x is emitted exactly when x = start + k·step for some natural k and x < stop |
| Plot.BandSchedule | Template_Class_Optical_Response.py:98-100 | band k spans [rec_time+0.15+k(res_time+rec_time), that + res_time]; consecutive starts differ by res_time+rec_time; with a positive period every start is below stop and the schedule is complete; a zero period raises |
| Plot.BandScheduleExample | Template_Class_Resistance_Response.py:75-77 | res_time 5, rec_time 10 and 60 minutes of data give bands at 10.15, 25.15, 40.15 and 55.15, each 5 wide |
| Plot.ColumnMax | Template_Class_Optical_Response.py:98 | a column's maximum skips NaN, is NaN only for a column with no number, and is one of its cells |
| Plot.BuiltinMax | Template_Class_Resistance_Response.py:75 | Python's max over column maxima is NaN exactly when the first is NaN, else the largest number among them |
| Plot.MaxTime | Template_Class_Resistance_Response.py:75 | the band stop is the largest time in the table, present in it; no columns, or a first column with no number, raise |
| Plot.Traces | Template_Class_Optical_Response.py:91-95 | trace i pairs time column i in minutes with normalised column i, is named after parameter i, and its colour position is parameter i's min-max position among all parameter values (in [0,1], ordered as the values) |
| Plot.QuickPlot | Template_Class_Optical_Response.py:84-107 | succeeds exactly when there are parameter values, a time column per trace, a maximum time and a nonzero period; each trace's colour position is its parameter's min-max position among all values; trace and band geometry as stated for the two plots |

## Left out

- Reading files (`pd.read_excel`, `pd.read_table`) is I/O: a file enters the model already parsed into rows of reals; non-numeric cells and the text tokenizer's own errors on malformed lines are not modelled.
- The duration parsing of `pd.to_timedelta` (Template_Class_Optical_Response.py lines 40-41) is a library call whose result is never emitted; a malformed duration string, which would raise there, is not modelled.
- OpticalResponse.PM100DData: a file exactly five columns wide is reported as `IndexOutOfBounds`; in the source the appended `Timestamp` column would then sit at position 5 and be emitted, with a value that depends on the left-out duration parsing.
- OpticalResponse.PM320Data: a file wider than nine columns is reported as `ColumnLayout`, matching pandas versions that refuse a multi-column frame assigned to one column; older pandas versions are not modelled.
- Normalizer.CreateNormalized: requires every baseline to be nonzero; the source divides by zero and produces infinities and NaN, which the model does not represent (the same holds for TransmittanceCreateData and ResistanceCreateData). In particular a normalised column cannot be normalised again, because its baseline (row 0) is 0.
- Floating point: all arithmetic is over `real`, so rounding in the division, in `rec_time + 0.15` and in numpy's length computation for `arange` is not modelled.
- All plotly rendering and styling (`go.Figure`, `add_trace`, `add_vrect` styling, annotations, `update_layout`, `add_shape`, `fig.show`) is user interface and is not modelled; a figure is its traces and bands.
- `sample_colorscale('Portland', …)` is a colour lookup table; only the min-max position fed into it is modelled.
- Python's `str()` rendering of a parameter value is taken as given: a parameter carries its printed text next to its numeric value.
- Column names built by string interpolation are replaced by positions; the pandas error classes are collapsed into the constructors of `Errors.Error`.
- The unused `time_cycle` field, the global plotting-backend setting and the unused imports (smoothing filters, wavelets, metrics, matplotlib) have no behaviour in the core.
