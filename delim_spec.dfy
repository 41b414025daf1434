/**
 * What the delimited-text encoder writes, as functions of its inputs: the
 * quoting decision, the escaped text of a string, the text of every kind of
 * cell, of a row and of a whole data frame, together with the error that
 * stops the encoder on a column type it does not know.
 */
module DelimSpec {
  import opened Wrappers
  import opened RObjects
  import opened Text

  /**
   * The settings of one encode call: the delimiter, the missing-value marker
   * and the formatter that turns a finite double into its shortest
   * round-trip text (grisu3; not part of this model, so it is a parameter).
   */
  datatype Format = Format(delim: char, na: string, formatFinite: bv64 -> string)

  /** Characters that force a text field into quotes. */
  predicate IsSpecial(c: char, delim: char)
  {
    c == '\n' || c == '\r' || c == '"' || c == delim
  }

  /**
   * needs_quote: the text is the marker itself, or holds a newline, a
   * carriage return, a double quote or the delimiter.
   */
  predicate MustQuote(t: string, delim: char, na: string)
  {
    t == na || exists k :: 0 <= k < |t| && IsSpecial(t[k], delim)
  }

  /** One character as the escaper writes it: a double quote twice, anything else once. */
  function EscapeChar(c: char): string
  {
    if c == '"' then "\"\"" else [c]
  }

  /** The text with every double quote doubled. */
  function Escape(t: string): string
  {
    if t == [] then [] else EscapeChar(t[0]) + Escape(t[1..])
  }

  /** The escaper: quotes around the escaped text when quoting is needed. */
  function TextField(t: string, delim: char, na: string): string
  {
    if MustQuote(t, delim, na) then "\"" + Escape(t) + "\"" else Escape(t)
  }

  /** The text of one element of a character vector: NA_STRING is the bare marker. */
  function TextCell(v: Option<string>, delim: char, na: string): string
  {
    match v
    case None => na
    case Some(s) => TextField(CStr(s), delim, na)
  }

  /** The text of one double: non-finite values are tested for NA before NaN. */
  function RealText(x: RealValue, f: Format): string
  {
    if !IsFinite(x) then
      if IsNA(x) then f.na
      else if IsNaN(x) then "NaN"
      else if x.positive then "Inf"
      else "-Inf"
    else
      f.formatFinite(x.bits)
  }

  /** The message of the error raised on a column of an unsupported type. */
  function UnsupportedMessage(typeName: string): string
  {
    "Don't know how to handle vector of type " + typeName + "."
  }

  datatype Outcome = Pass | Fail(message: string)

  /**
   * What an encoding step leaves behind: the text appended to the stream and
   * whether it finished or raised an error. The stream is never rolled back,
   * so a failed step still has the text it wrote before the error.
   */
  datatype Emitted = Emitted(text: string, outcome: Outcome)

  function Done(t: string): Emitted
  {
    Emitted(t, Pass)
  }

  /** The text of cell i of a column of a supported type. */
  function CellText(col: Column, i: nat, f: Format): string
    requires InRange(col, i)
  {
    match col
    case Logical(v) =>
      if v[i] == TRUE then "TRUE" else if v[i] == FALSE then "FALSE" else f.na
    case Integer(v) =>
      if v[i] == NA_INTEGER then f.na else IntToString(v[i] as int)
    case Double(v) =>
      RealText(v[i], f)
    case Character(v) =>
      TextCell(v[i], f.delim, f.na)
    case Unsupported(_, _) =>
      []
  }

  /** The cell encoder: the text of cell i of a column, or the error for a type it does not know. */
  function CellEmitted(col: Column, i: nat, f: Format): Emitted
    requires InRange(col, i)
  {
    if col.Unsupported? then Emitted([], Fail(UnsupportedMessage(col.typeName)))
    else Done(CellText(col, i, f))
  }

  /** Row i can be read from every column. */
  predicate RowInRange(cols: seq<Column>, i: nat)
  {
    forall j :: 0 <= j < |cols| ==> InRange(cols[j], i)
  }

  /** Rows 0 .. n-1 can be read from every column. */
  predicate AllCover(cols: seq<Column>, n: nat)
  {
    forall j :: 0 <= j < |cols| ==> Covers(cols[j], n)
  }

  /** The texts of the cells of row i. */
  function CellTexts(cols: seq<Column>, i: nat, f: Format): (ts: seq<string>)
    requires RowInRange(cols, i)
    ensures |ts| == |cols|
  {
    seq(|cols|, j requires 0 <= j < |cols| => CellText(cols[j], i, f))
  }

  /** The index of the first column of an unsupported type, or the column count if there is none. */
  function FirstUnsupported(cols: seq<Column>): (k: nat)
    ensures k <= |cols|
    ensures forall j :: 0 <= j < k ==> Supported(cols[j])
    ensures k < |cols| ==> !Supported(cols[k])
  {
    if cols == [] then 0
    else if !Supported(cols[0]) then 0
    else 1 + FirstUnsupported(cols[1..])
  }

  /** The line of row i: its cell texts, delimited, then a newline. */
  function RowLine(cols: seq<Column>, i: nat, f: Format): string
    requires RowInRange(cols, i)
  {
    Join(CellTexts(cols, i, f), f.delim) + "\n"
  }

  /**
   * stream_delim_row: the row's line; or, when a column has an unsupported
   * type, the cells before the first such column, each with its delimiter,
   * and that column's error.
   */
  function RowEmitted(cols: seq<Column>, i: nat, f: Format): Emitted
    requires |cols| >= 1 && RowInRange(cols, i)
  {
    var k := FirstUnsupported(cols);
    if k < |cols| then Emitted(Leading(CellTexts(cols, i, f)[..k], f.delim), Fail(UnsupportedMessage(cols[k].typeName)))
    else Done(RowLine(cols, i, f))
  }

  /** The lines of rows 0 .. k-1, in order. */
  function RowsText(cols: seq<Column>, f: Format, k: nat): string
    requires AllCover(cols, k)
    decreases k
  {
    if k == 0 then [] else RowsText(cols, f, k - 1) + RowLine(cols, k - 1, f)
  }

  /** The texts of the column names. */
  function NameTexts(names: seq<Option<string>>, f: Format): (ts: seq<string>)
    ensures |ts| == |names|
  {
    seq(|names|, j requires 0 <= j < |names| => TextCell(names[j], f.delim, f.na))
  }

  /** The header line: the names as text cells, delimited, then a newline. */
  function HeaderLine(names: seq<Option<string>>, f: Format): string
  {
    Join(NameTexts(names, f), f.delim) + "\n"
  }

  /**
   * What the encoder needs of a data frame: a name for every column when a
   * header is written (R keeps a list's names as long as the list), and
   * every column as long as the first one.
   */
  predicate WellFormed(df: DataFrame, colNames: bool)
  {
    (colNames ==> |df.names| == |df.columns|) &&
    (|df.columns| > 0 ==> AllCover(df.columns, RowCount(df)))
  }

  /** The header part of a table's text. */
  function HeaderPart(df: DataFrame, f: Format, colNames: bool): string
  {
    if colNames then HeaderLine(df.names, f) else []
  }

  /**
   * The table encoder: nothing for no columns; otherwise the header line if
   * asked for, then the line of every row. A column of an unsupported type
   * stops the encoder in row 0, after the cells before it, if there is a row.
   */
  function TableEmitted(df: DataFrame, f: Format, colNames: bool): Emitted
    requires WellFormed(df, colNames)
  {
    if |df.columns| == 0 then Done([])
    else
      var header := HeaderPart(df, f, colNames);
      if FirstUnsupported(df.columns) < |df.columns| && RowCount(df) > 0 then
        var row := RowEmitted(df.columns, 0, f);
        Emitted(header + row.text, row.outcome)
      else
        Done(header + RowsText(df.columns, f, RowCount(df)))
  }

  // ---------------------------------------------------------------------------
  // Facts the encoder methods use

  lemma RowWithoutError(cols: seq<Column>, i: nat, f: Format)
    requires |cols| >= 1 && RowInRange(cols, i) && FirstUnsupported(cols) == |cols|
    ensures var texts := CellTexts(cols, i, f);
      RowEmitted(cols, i, f) == Done(Leading(texts[..|cols| - 1], f.delim) + texts[|cols| - 1] + "\n")
  {
  }

  lemma RowWithError(cols: seq<Column>, i: nat, f: Format, k: nat)
    requires |cols| >= 1 && RowInRange(cols, i) && k == FirstUnsupported(cols) && k < |cols|
    ensures RowEmitted(cols, i, f) == Emitted(Leading(CellTexts(cols, i, f)[..k], f.delim), Fail(UnsupportedMessage(cols[k].typeName)))
  {
  }

  lemma TableWithoutError(df: DataFrame, f: Format, colNames: bool)
    requires WellFormed(df, colNames) && |df.columns| > 0
    requires FirstUnsupported(df.columns) == |df.columns| || RowCount(df) == 0
    ensures TableEmitted(df, f, colNames) == Done(HeaderPart(df, f, colNames) + RowsText(df.columns, f, RowCount(df)))
  {
  }

  lemma TableWithError(df: DataFrame, f: Format, colNames: bool)
    requires WellFormed(df, colNames) && |df.columns| > 0
    requires FirstUnsupported(df.columns) < |df.columns| && RowCount(df) > 0
    ensures TableEmitted(df, f, colNames) ==
      Emitted(HeaderPart(df, f, colNames) + RowEmitted(df.columns, 0, f).text, RowEmitted(df.columns, 0, f).outcome)
  {
  }

  lemma EscapeSnoc(t: string, i: nat)
    requires i < |t|
    ensures Escape(t[..i + 1]) == Escape(t[..i]) + EscapeChar(t[i])
  {
    assert t[..i + 1] == t[..i] + [t[i]];
    EscapeConcat(t[..i], [t[i]]);
  }

  lemma {:induction false} EscapeConcat(a: string, b: string)
    ensures Escape(a + b) == Escape(a) + Escape(b)
    decreases |a|
  {
    if a == [] {
      assert a + b == b;
    } else {
      assert (a + b)[0] == a[0] && (a + b)[1..] == a[1..] + b;
      EscapeConcat(a[1..], b);
    }
  }
}
