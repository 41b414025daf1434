# readr's delimited-text encoder, modelled in Dafny

This project models `src/write_delim.cpp` from readr: the C++ code behind
`write_delim`/`write_csv` that turns an R data frame into delimited text.
Every part of the encoder appends characters to one output stream:

- `needs_quote` decides whether a text cell must be quoted;
- the text escaper writes a text cell, quoted when needed, doubling every `"`;
- the cell encoder dispatches on the column's R type (logical, integer,
  double, character) and fails on any other type;
- `stream_delim_row` writes each cell of one row, separated by the delimiter,
  ending with a newline;
- the table encoder writes the header line of column names when asked to,
  then every row, where the number of rows is the first column's length;
- the exported entry point, called with an empty path, encodes into an
  in-memory string stream and returns its contents.

Modules, one per file:

- `Wrappers` holds `Option` and `Result`.
- `RObjects` is the R side.
  - 32-bit integers with `NA_INTEGER` as their smallest value.
  - Logical cells stored as integers: `TRUE` is 1 and `FALSE` is 0.
  - Doubles classified as finite, infinite or NaN, where NA is a NaN.
  - String cells as `Option<string>`, with `None` for `NA_STRING`.
  - A column per R vector type, plus `Unsupported(typeName, length)` for every other type.
  - The data frame: its names and columns.
- `Text` holds the character-level helpers.
  - `CStr` reads a string as a C string: up to its first NUL.
  - `Join`/`Leading` join parts with a delimiter.
  - `IntToString` is C++'s `output << int`. `ParseInt` is its inverse.
- `DelimSpec` holds the specification functions.
  - `MustQuote`, `Escape` and `TextField` describe the text escaper.
  - `CellText` and `CellEmitted` describe the cell encoder.
  - `RowEmitted` and `RowLine` describe a row.
  - `HeaderLine`, `RowsText` and `TableEmitted` describe the table.
  - An `Emitted(text, outcome)` is the text written together with `Pass` or `Fail(message)`. So a failing call is specified with the partial output it leaves behind.
- `WriteDelim` holds the encoder itself, in the source's imperative form.
  - `OutputStream` is a class with a `text` field, which `Write` appends to.
  - The encoders are methods that loop over characters, columns, names and rows.
  - Each method is proved to append exactly the text its specification function describes, and to fail exactly where it fails.
- `DelimProperties` proves the properties the encoder promises. They cover the escaping rule and its length, the quoting condition, the marker collision, missing values, the fixed literals, and how rows and tables are composed and fail.
- `Rfc4180` is an independent reader of the encoder's output, for the format of section 2 of RFC 4180, with any delimiter.
  - A field is bare or quoted; inside quotes `""` is `"`.
  - Records end with `\n`: the encoder writes a bare LF, not the CRLF of RFC 4180, and the reader expects the same.
  - The reader recovers every record the encoder wrote, under three conditions.
    - No column may be of an unsupported type.
    - The delimiter may be neither `"` nor `\n`.
    - No bare field may hold the delimiter, a newline or `"`. The encoder writes these fields unquoted: the marker, logical and integer texts, `NaN`, `Inf`, `-Inf` and the formatter's text.
  - For a data frame of text columns, the third condition reduces to the marker. If the marker holds none of these characters, every value comes back as its C string, cut at its first NUL, which an R string never contains. Missing stays missing, and a string equal to the marker stays a string.
  - Without these conditions, reading back fails. `WorkedCases.MarkerHoldingDelimiter` shows one case: with delimiter `,` and marker `a,b`, a single missing value is written `a,b` and reads back as the two fields `a` and `b`.
- `WorkedCases` works a few small data frames and strings through the specification.

Three behaviours of the code are worth stating outright:
- A genuine string equal to the missing-value marker is quoted, because `needs_quote` returns true for it (src/write_delim.cpp:24). So it can always be told apart from a missing value, which is written bare.
- Strings are read the way the C++ reads a `const char*`: a string is cut at its first NUL character, both when testing for quotes and when writing.
- A logical cell that is neither TRUE nor FALSE is written as the marker.

## Model

| member | source | states |
|---|---|---|
| WriteDelim.OutputStream.constructor | src/write_delim.cpp:90 | a fresh in-memory stream holds no text |
| WriteDelim.OutputStream.Write | src/write_delim.cpp:16 | `output << s` appends exactly `s` and changes nothing else |
| WriteDelim.NeedsQuote | src/write_delim.cpp:23-33 | true exactly when the C string equals the marker or holds a `\n`, `\r`, `"` or the delimiter (`MustQuote`) |
| WriteDelim.StreamText | src/write_delim.cpp:35-54 | appends exactly `TextField` of the C string: quoted when `MustQuote`, every `"` doubled |
| WriteDelim.StreamCell | src/write_delim.cpp:111-165 | appends the cell's text for its type and passes, or appends nothing and fails with the unsupported-type message; fails exactly for an unsupported type |
| WriteDelim.StreamRow | src/write_delim.cpp:10-21 | appends the row's cells joined by the delimiter plus `\n`; at the first unsupported column it stops, leaving the earlier cells each followed by a delimiter |
| WriteDelim.StreamHeader | src/write_delim.cpp:63-71 | appends the names, each written as a text cell, joined by the delimiter, plus `\n` |
| WriteDelim.StreamTable | src/write_delim.cpp:56-79 | appends nothing for zero columns; otherwise the header if asked for, then rows 0..n-1, stopping at row 0 if a column is unsupported |
| WriteDelim.WriteDelimToString | src/write_delim.cpp:81-94 | returns the table's text on success, the encoder's error message on failure |
| Text.CStr | src/write_delim.cpp:27-30 | the C string is the longest NUL-free prefix, ended by a NUL or the end |
| Text.IntToString | src/write_delim.cpp:130 | an integer's text starts with `-` exactly for a negative value, followed by at least one digit and no leading zero |
| Text.IntRoundTrip | src/write_delim.cpp:130 | parsing an integer's text gives the integer back |
| Text.IntToStringInjective | src/write_delim.cpp:130 | different integers have different texts |
| Text.JoinCons | src/write_delim.cpp:14-18 | joining a part in front of parts is that part, the delimiter, then the joined rest |
| DelimSpec.FirstUnsupported | src/write_delim.cpp:14-18 | the index of the first column of an unsupported type, or the count of columns if there is none |
| DelimSpec.EscapeConcat | src/write_delim.cpp:42-50 | escaping works character by character: the escape of a concatenation is the concatenation of escapes |
| DelimProperties.EscapeCounts | src/write_delim.cpp:42-50 | escaping doubles every `"` and keeps every other character as often as it was |
| DelimProperties.EscapeLength | src/write_delim.cpp:42-50 | the escaped text is longer by the number of `"` |
| DelimProperties.EscapeWithoutQuotes | src/write_delim.cpp:42-50 | a text without `"` is its own escape |
| DelimProperties.EscapingRule | src/write_delim.cpp:36-54 | a quoted field is `"` + escape + `"`, an unquoted field is the text itself; the length is the text's plus its `"` count plus 2 if quoted |
| DelimProperties.QuotingCondition | src/write_delim.cpp:27-32 | apart from the marker, quoting is needed exactly when some character is `\n`, `\r`, `"` or the delimiter |
| DelimProperties.MarkerCollision | src/write_delim.cpp:23-25 | a string equal to the marker is written quoted and escaped, a missing string as the bare marker, and the two differ |
| DelimProperties.PresentTextIsNotMarker | src/write_delim.cpp:153-157 | unless the marker starts with `"`, no string is ever written as the bare marker |
| DelimProperties.MissingIsMarker | src/write_delim.cpp:114-160 | a missing cell of every type is written as the marker and passes |
| DelimProperties.FixedLiterals | src/write_delim.cpp:114-150 | `TRUE`, `FALSE`, the marker for other logicals; an integer's decimal text; `NaN`, `Inf`, `-Inf`; the formatter's text for finite doubles |
| DelimProperties.RealNABeforeNaN | src/write_delim.cpp:136-140 | NA is a NaN too, yet it is written as the marker, because the NA test comes first |
| DelimProperties.IntegerCellRoundTrip | src/write_delim.cpp:125-133 | a non-NA integer cell is a sign and digits that parse back to its value |
| DelimProperties.RowFailure | src/write_delim.cpp:11-21 | a row fails exactly when some column is unsupported; otherwise it is its cells joined by the delimiter plus `\n`; on failure, the cells before the first unsupported column each followed by a delimiter |
| DelimProperties.NoColumnsNoText | src/write_delim.cpp:59-61 | a data frame without columns writes nothing and passes |
| DelimProperties.TableOutcome | src/write_delim.cpp:56-79 | the table fails exactly when there is a column, a row and an unsupported column; on success it is the header part then n row lines; on failure the header then row 0's cells before the first unsupported column |
| DelimProperties.HeaderComesFirst | src/write_delim.cpp:63-71 | with column names asked for, the header line is a prefix of everything written, failure or not |
| Rfc4180.DecodeField | src/write_delim.cpp:153-157 | a field reads as missing exactly when it is the bare marker |
| Rfc4180.ReadQuotedEscaped | src/write_delim.cpp:42-53 | the escaped text followed by a closing quote reads back as the text |
| Rfc4180.ReadBareSafe | src/write_delim.cpp:42-50 | a bare text without delimiter, newline or `"` reads back up to the next delimiter or newline |
| Rfc4180.ReadFieldText | src/write_delim.cpp:35-54 | a quoted field, or a safe bare field, reads back as itself |
| Rfc4180.ReadRecordLine | src/write_delim.cpp:10-21 | a record's line (fields joined by the delimiter, `\n`) reads back as its fields |
| Rfc4180.ReadLines | src/write_delim.cpp:76-78 | consecutive record lines read back as the records, in order |
| Rfc4180.TextTokenText | src/write_delim.cpp:153-157 | the reader's view of a text cell is written exactly as the encoder writes the cell |
| Rfc4180.DecodeTextToken | src/write_delim.cpp:153-157 | a text cell reads back as its value: missing as missing, a string (cut at NUL) as that string |
| Rfc4180.TextTokenSafe | src/write_delim.cpp:23-33 | once the marker has no delimiter, newline or `"`, every text cell is a field the reader can recover |
| Rfc4180.RowLineIsRecordLine | src/write_delim.cpp:10-21 | a row's line is the line of the record of its cells' fields |
| Rfc4180.HeaderLineIsRecordLine | src/write_delim.cpp:63-71 | the header line is the line of the record of the names' fields |
| Rfc4180.RowsTextIsLines | src/write_delim.cpp:76-78 | the row lines are the lines of the row records |
| Rfc4180.TableText | src/write_delim.cpp:63-78 | a successful table's text is the lines of the header record (if asked for) and the row records |
| Rfc4180.TableReadsBack | src/write_delim.cpp:56-79 | with no unsupported column and safe fields, the encoder passes and its text reads back as header and row records |
| Rfc4180.TextTableRoundTrip | src/write_delim.cpp:56-79 | a data frame of text columns reads back as its names (if written) and every row's values, missing as missing |
| Rfc4180.RecordCount | src/write_delim.cpp:63-78 | the text holds one record per row, plus one for the header if asked for |
| WorkedCases.QuotedSpeech | src/write_delim.cpp:42-53 | `"hi"` is written `"""hi"""` |
| WorkedCases.StringNA | src/write_delim.cpp:23-25 | the string `NA` is written `"NA"` and a missing string `NA` |
| WorkedCases.EmbeddedNul | src/write_delim.cpp:27-30 | a string is written only up to its first NUL |
| WorkedCases.SmallTable | src/write_delim.cpp:56-79 | an integer and a text column with a header give `id,name`, `1,"a,b"`, `NA,NA` |
| WorkedCases.UnsupportedColumn | src/write_delim.cpp:161-163 | a list column after a logical one leaves `a,b\nTRUE,` written and fails naming `list` |
| WorkedCases.MarkerHoldingDelimiter | src/write_delim.cpp:153-155 | with delimiter `,` and marker `a,b`, a missing value is written bare as `a,b\n` and reads back as two fields |
| WorkedCases.NoHeader | src/write_delim.cpp:73-78 | without the header, a logical column of three rows gives `TRUE`, `FALSE`, `NA`, one per line |

The specification functions in `DelimSpec` each stand for one part of the
source.
- `MustQuote` is `needs_quote`, lines 23-33.
- `Escape` and `TextField` are the text escaper, lines 35-54.
- `CellText`, `RealText` and `CellEmitted` are the cell encoder, lines 111-165.
- `RowEmitted` is the row, lines 10-21.
- `HeaderLine` and `TableEmitted` are the table encoder, lines 56-79.

## Left out

- The finite-double formatter `dtoa_grisu3` (src/write_delim.cpp:147-149) is not part of this model. The text of a finite double is a parameter, `formatFinite`, applied to the double's 64 bits.
- Writing to a file (src/write_delim.cpp:95-103): opening the stream, truncate or append mode, and the "Failed to open" error. It is I/O. Only the in-memory branch is modelled, and the path argument with it.
- `output.precision(digits)` (src/write_delim.cpp:87, 92, 100). It has no effect on the texts written, since doubles go through the formatter.
- The R runtime calls (`TYPEOF`, `LOGICAL`, `INTEGER`, `REAL`, `STRING_ELT`, `Rf_length`, the `names` attribute) are replaced by the `Column` and `DataFrame` datatypes. The type name in the error message is the `Unsupported` column's `typeName`.
- `Rf_translateCharUTF8` (src/write_delim.cpp:157) is a foreign encoding conversion. Strings are taken as already converted, and a `char` stands for one byte of the output.
- The `append` parameter of the table encoder (src/write_delim.cpp:58) is not used by it and is not modelled.
- `Rcpp::stop` raises an R error. Here it is the `Fail` outcome, with the stream's text left as written so far.
- WriteDelim.StreamTable and WriteDelim.WriteDelimToString: both require `WellFormed`. It asks that every column be at least as long as the first, and, when the header is written, one name per column. R guarantees both for a data frame, whose columns have equal lengths and whose `names` attribute has one entry per column. For other inputs the source can read past the end of a column or of the names, though not for every such input. For example, a failing first column stops the encoder before any later column is read. Those inputs are not modelled.
- RObjects.Length and RObjects.RowCount: lengths are unbounded `nat`. The source counts columns and rows in a C `int` (src/write_delim.cpp:12, 59, 74, 76), so lengths above 2^31-1 lie outside what it handles, and the model does not bound them.
