/** The exceptions the two pipelines raise, by the 0-based file or trace they concern. */
module Errors {

  datatype Error =
    | IndexOutOfBounds(file: nat)    // positional `iloc` past the last row or column of a file
    | EmptyFile(file: nat)           // a whitespace table with no rows cannot be parsed
    | LengthMismatch(file: nat)      // a row-index array whose length is not the frame's row count
    | ColumnLayout(file: nat)        // a whitespace table without exactly the expected columns
    | MissingSignalColumn            // the normaliser reached a time column with no signal after it
    | NoBaselineRow                  // the normaliser read row 0 of a table with no rows
    | EmptyParameters                // min-max scaling over no parameter values
    | MissingTimeColumn(trace: nat)  // a trace whose time column does not exist
    | EmptyTimeTable                 // the maximum of a time table with no columns
    | BandRangeUndefined             // a band range whose stop is NaN or whose step is zero
}
