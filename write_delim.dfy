/**
 * The encoder itself: each part appends characters to a shared output
 * stream, and each is proved to append exactly the text DelimSpec
 * describes, stopping with the same error where DelimSpec fails.
 */
module WriteDelim {
  import opened Wrappers
  import opened RObjects
  import opened Text
  import opened DelimSpec

  /** An append-only character stream (the in-memory std::ostringstream). */
  class OutputStream {
    var text: string

    constructor ()
      ensures text == []
    {
      text := [];
    }

    method Write(s: string)
      modifies this
      ensures text == old(text) + s
    {
      text := text + s;
    }
  }

  /** needs_quote: scans the C string and stops at the first character that forces quotes. */
  method NeedsQuote(s: string, delim: char, na: string) returns (quote: bool)
    ensures quote <==> MustQuote(CStr(s), delim, na)
  {
    ghost var c := CStr(s);
    if CStr(s) == na {
      return true;
    }
    var i := 0;
    while i < |s| && s[i] != '\0'
      invariant i <= |c|
      invariant forall k :: 0 <= k < i ==> !IsSpecial(c[k], delim)
    {
      if s[i] == '\n' || s[i] == '\r' || s[i] == '"' || s[i] == delim {
        assert IsSpecial(c[i], delim);
        return true;
      }
      i := i + 1;
    }
    return false;
  }

  /** The text escaper: opening quote if needed, each character with '"' doubled, closing quote. */
  method StreamText(output: OutputStream, s: string, delim: char, na: string)
    modifies output
    ensures output.text == old(output.text) + TextField(CStr(s), delim, na)
  {
    ghost var c := CStr(s);
    var quotes := NeedsQuote(s, delim, na);
    if quotes {
      output.Write("\"");
    }
    ghost var start := output.text;
    var i := 0;
    while i < |s| && s[i] != '\0'
      invariant i <= |c|
      invariant output.text == start + Escape(c[..i])
    {
      EscapeSnoc(c, i);
      AppendAssoc2(start, Escape(c[..i]), EscapeChar(s[i]));
      if s[i] == '"' {
        output.Write("\"\"");
      } else {
        output.Write([s[i]]);
      }
      i := i + 1;
    }
    assert c[..i] == c;
    if quotes {
      output.Write("\"");
      AppendAssoc(old(output.text), "\"", Escape(c), "\"");
    }
  }

  /** The cell encoder: dispatch on the column's type, or fail on an unknown type. */
  method StreamCell(output: OutputStream, col: Column, i: nat, f: Format) returns (outcome: Outcome)
    requires InRange(col, i)
    modifies output
    ensures output.text == old(output.text) + CellEmitted(col, i, f).text
    ensures outcome == CellEmitted(col, i, f).outcome
    ensures outcome.Fail? <==> !Supported(col)
  {
    outcome := Pass;
    match col
    case Logical(v) =>
      var value := v[i];
      if value == TRUE {
        output.Write("TRUE");
      } else if value == FALSE {
        output.Write("FALSE");
      } else {
        output.Write(f.na);
      }
    case Integer(v) =>
      var value := v[i];
      if value == NA_INTEGER {
        output.Write(f.na);
      } else {
        output.Write(IntToString(value as int));
      }
    case Double(v) =>
      var value := v[i];
      if !IsFinite(value) {
        if IsNA(value) {
          output.Write(f.na);
        } else if IsNaN(value) {
          output.Write("NaN");
        } else if value.positive {
          output.Write("Inf");
        } else {
          output.Write("-Inf");
        }
      } else {
        output.Write(f.formatFinite(value.bits));
      }
    case Character(v) =>
      if v[i].None? {
        output.Write(f.na);
      } else {
        StreamText(output, v[i].value, f.delim, f.na);
      }
    case Unsupported(typeName, _) =>
      outcome := Fail(UnsupportedMessage(typeName));
  }

  /** stream_delim_row: every cell but the last followed by the delimiter, then the last, then '\n'. */
  method StreamRow(output: OutputStream, cols: seq<Column>, i: nat, f: Format) returns (outcome: Outcome)
    requires |cols| >= 1 && RowInRange(cols, i)
    modifies output
    ensures output.text == old(output.text) + RowEmitted(cols, i, f).text
    ensures outcome == RowEmitted(cols, i, f).outcome
  {
    ghost var texts := CellTexts(cols, i, f);
    var p := |cols|;
    var j := 0;
    while j < p - 1
      invariant 0 <= j <= p - 1
      invariant j <= FirstUnsupported(cols)
      invariant output.text == old(output.text) + Leading(texts[..j], f.delim)
    {
      outcome := StreamCell(output, cols[j], i, f);
      if outcome.Fail? {
        RowWithError(cols, i, f, j);
        return;
      }
      output.Write([f.delim]);
      LeadingSnoc(texts, j, f.delim);
      AppendAssoc(old(output.text), Leading(texts[..j], f.delim), texts[j], [f.delim]);
      j := j + 1;
    }
    outcome := StreamCell(output, cols[p - 1], i, f);
    if outcome.Fail? {
      RowWithError(cols, i, f, p - 1);
      return;
    }
    output.Write("\n");
    RowWithoutError(cols, i, f);
    AppendAssoc(old(output.text), Leading(texts[..p - 1], f.delim), texts[p - 1], "\n");
  }

  /** The header part of the table encoder: each name as a text cell, delimiters between, then '\n'. */
  method StreamHeader(output: OutputStream, names: seq<Option<string>>, f: Format)
    requires |names| >= 1
    modifies output
    ensures output.text == old(output.text) + HeaderLine(names, f)
  {
    var p := |names|;
    var column := Character(names);
    ghost var texts := NameTexts(names, f);
    var j := 0;
    while j < p
      invariant j <= p
      invariant j < p ==> output.text == old(output.text) + Leading(texts[..j], f.delim)
      invariant j == p ==> output.text == old(output.text) + Join(texts, f.delim)
    {
      assert texts[j] == CellEmitted(column, j, f).text;
      var ignored := StreamCell(output, column, j, f);
      if j != p - 1 {
        output.Write([f.delim]);
        LeadingSnoc(texts, j, f.delim);
        AppendAssoc(old(output.text), Leading(texts[..j], f.delim), texts[j], [f.delim]);
      } else {
        assert texts[..j] == texts[..|texts| - 1];
      }
      j := j + 1;
    }
    output.Write("\n");
  }

  /** The table encoder: the header line if asked for, then rows 0 .. n-1 (n the first column's length). */
  method StreamTable(output: OutputStream, df: DataFrame, f: Format, colNames: bool) returns (outcome: Outcome)
    requires WellFormed(df, colNames)
    modifies output
    ensures output.text == old(output.text) + TableEmitted(df, f, colNames).text
    ensures outcome == TableEmitted(df, f, colNames).outcome
  {
    var p := |df.columns|;
    if p == 0 {
      return Pass;
    }
    if colNames {
      StreamHeader(output, df.names, f);
    }
    ghost var start := output.text;
    assert start == old(output.text) + HeaderPart(df, f, colNames);
    var n := Length(df.columns[0]);
    var i := 0;
    while i < n
      invariant i <= n
      invariant i > 0 ==> FirstUnsupported(df.columns) == p
      invariant output.text == start + RowsText(df.columns, f, i)
    {
      ghost var before := output.text;
      outcome := StreamRow(output, df.columns, i, f);
      if outcome.Fail? {
        TableWithError(df, f, colNames);
        AppendAssoc2(old(output.text), HeaderPart(df, f, colNames), RowEmitted(df.columns, 0, f).text);
        return;
      }
      AppendAssoc2(start, RowsText(df.columns, f, i), RowLine(df.columns, i, f));
      i := i + 1;
    }
    TableWithoutError(df, f, colNames);
    AppendAssoc2(old(output.text), HeaderPart(df, f, colNames), RowsText(df.columns, f, n));
    return Pass;
  }

  /**
   * The exported entry point with an empty path: encode into a fresh
   * in-memory stream and return its contents, or the error the encoder raised.
   */
  method WriteDelimToString(df: DataFrame, delim: char, na: string, colNames: bool, formatFinite: bv64 -> string)
    returns (result: Result<string, string>)
    requires WellFormed(df, colNames)
    ensures var e := TableEmitted(df, Format(delim, na, formatFinite), colNames);
      (result.Success? <==> e.outcome.Pass?) &&
      (result.Success? ==> result.value == e.text) &&
      (result.Failure? ==> result.error == e.outcome.message)
  {
    var output := new OutputStream();
    var outcome := StreamTable(output, df, Format(delim, na, formatFinite), colNames);
    if outcome.Fail? {
      return Failure(outcome.message);
    }
    return Success(output.text);
  }
}
