/**
 * What the encoder's output means: the escaping rule, the quoting of a text
 * equal to the missing-value marker, the fixed texts of the other cell types,
 * and how rows, the header and errors make up a table's text.
 */
module DelimProperties {
  import opened Wrappers
  import opened RObjects
  import opened Text
  import opened DelimSpec

  // ---------------------------------------------------------------------------
  // Escaping (section 2, items 6 and 7, of RFC 4180)

  /** Escaping doubles every double quote and leaves every other character as often as it was. */
  lemma {:induction false} EscapeCounts(t: string)
    ensures multiset(Escape(t))['"'] == 2 * multiset(t)['"']
    ensures forall c :: c != '"' ==> multiset(Escape(t))[c] == multiset(t)[c]
    decreases |t|
  {
    if t != [] {
      assert t == [t[0]] + t[1..];
      EscapeCounts(t[1..]);
      assert multiset(t) == multiset([t[0]]) + multiset(t[1..]);
      assert multiset(Escape(t)) == multiset(EscapeChar(t[0])) + multiset(Escape(t[1..]));
    }
  }

  /** The escaped text is longer than the text by its number of double quotes. */
  lemma {:induction false} EscapeLength(t: string)
    ensures |Escape(t)| == |t| + multiset(t)['"']
    decreases |t|
  {
    if t != [] {
      assert t == [t[0]] + t[1..];
      assert multiset(t) == multiset([t[0]]) + multiset(t[1..]);
      EscapeLength(t[1..]);
    }
  }

  /** A text without double quotes is its own escape. */
  lemma {:induction false} EscapeWithoutQuotes(t: string)
    requires '"' !in t
    ensures Escape(t) == t
    decreases |t|
  {
    if t != [] {
      assert t[0] != '"';
      assert '"' !in t[1..];
      EscapeWithoutQuotes(t[1..]);
      assert t == [t[0]] + t[1..];
    }
  }

  /**
   * The escaping rule: a field that needs quotes is a double quote, the text
   * with its double quotes doubled, and a double quote; any other field is
   * the text unchanged. Either way its length is the text's length, plus its
   * double quotes, plus two when quoted.
   */
  lemma EscapingRule(t: string, delim: char, na: string)
    ensures MustQuote(t, delim, na) ==> TextField(t, delim, na) == "\"" + Escape(t) + "\""
    ensures !MustQuote(t, delim, na) ==> TextField(t, delim, na) == t
    ensures |TextField(t, delim, na)| == |t| + multiset(t)['"'] + (if MustQuote(t, delim, na) then 2 else 0)
  {
    EscapeLength(t);
    if !MustQuote(t, delim, na) {
      assert '"' !in t;
      EscapeWithoutQuotes(t);
      assert multiset(t)['"'] == 0;
    }
  }

  /**
   * The quoting condition: a text other than the marker is quoted exactly
   * when one of its characters is a newline, a carriage return, a double
   * quote or the delimiter.
   */
  lemma QuotingCondition(t: string, delim: char, na: string)
    requires t != na
    ensures MustQuote(t, delim, na) <==>
      exists k :: 0 <= k < |t| && (t[k] == '\n' || t[k] == '\r' || t[k] == '"' || t[k] == delim)
  {
  }

  // ---------------------------------------------------------------------------
  // Missing values and the marker

  /**
   * A genuine string whose text is the marker is written quoted and escaped,
   * a missing string is written as the bare marker, and the two differ.
   */
  lemma MarkerCollision(s: string, delim: char, na: string)
    requires CStr(s) == na
    ensures TextCell(Some(s), delim, na) == "\"" + Escape(na) + "\""
    ensures TextCell(None, delim, na) == na
    ensures TextCell(Some(s), delim, na) != TextCell(None, delim, na)
  {
    EscapeLength(na);
  }

  /**
   * Unless the marker itself starts with a double quote, no genuine string
   * is ever written as the bare marker.
   */
  lemma PresentTextIsNotMarker(s: string, delim: char, na: string)
    requires na == [] || na[0] != '"'
    ensures TextCell(Some(s), delim, na) != na
  {
    var t := CStr(s);
    EscapingRule(t, delim, na);
    if MustQuote(t, delim, na) {
      assert TextCell(Some(s), delim, na)[0] == '"';
    }
  }

  /** A missing cell of every type is the bare marker: nothing quoted, nothing escaped. */
  lemma MissingIsMarker(col: Column, i: nat, f: Format)
    requires InRange(col, i) && IsMissing(col, i)
    ensures CellEmitted(col, i, f) == Done(f.na)
  {
  }

  /**
   * The fixed texts: TRUE and FALSE for logicals, the decimal text for an
   * integer other than NA, and NaN, Inf and -Inf for the non-finite doubles
   * other than NA. A logical or integer cell is never anything else.
   */
  lemma FixedLiterals(col: Column, i: nat, f: Format)
    requires InRange(col, i)
    ensures col.Logical? ==>
      CellText(col, i, f) == (if col.lgl[i] == TRUE then "TRUE" else if col.lgl[i] == FALSE then "FALSE" else f.na)
    ensures col.Integer? && !IsMissing(col, i) ==> CellText(col, i, f) == IntToString(col.ints[i] as int)
    ensures col.Double? && col.reals[i] == NotANumber(false) ==> CellText(col, i, f) == "NaN"
    ensures col.Double? && col.reals[i] == Infinite(true) ==> CellText(col, i, f) == "Inf"
    ensures col.Double? && col.reals[i] == Infinite(false) ==> CellText(col, i, f) == "-Inf"
    ensures col.Double? && col.reals[i].Finite? ==> CellText(col, i, f) == f.formatFinite(col.reals[i].bits)
  {
  }

  /** R's NA_real_ is also a NaN, and the NA test comes first: it is written as the marker. */
  lemma RealNABeforeNaN(f: Format)
    ensures IsNaN(NotANumber(true)) && RealText(NotANumber(true), f) == f.na
  {
  }

  /** The text of an integer cell other than NA reads back as the cell's value. */
  lemma IntegerCellRoundTrip(v: seq<int32>, i: nat, f: Format)
    requires i < |v| && v[i] != NA_INTEGER
    ensures var t := CellText(Integer(v), i, f);
      t != [] && (forall k :: (if t[0] == '-' then 1 else 0) <= k < |t| ==> IsDigit(t[k])) &&
      ParseInt(t) == v[i] as int
  {
    IntRoundTrip(v[i] as int);
  }

  // ---------------------------------------------------------------------------
  // Rows, tables and errors

  /**
   * A row fails exactly when one of its columns has an unsupported type; the
   * error names the first such column's type, and what was written is the
   * cells before it, each followed by the delimiter.
   */
  lemma RowFailure(cols: seq<Column>, i: nat, f: Format)
    requires |cols| >= 1 && RowInRange(cols, i)
    ensures RowEmitted(cols, i, f).outcome.Fail? <==> exists j :: 0 <= j < |cols| && !Supported(cols[j])
    ensures RowEmitted(cols, i, f).outcome.Pass? ==> RowEmitted(cols, i, f).text == Join(CellTexts(cols, i, f), f.delim) + "\n"
    ensures RowEmitted(cols, i, f).outcome.Fail? ==>
      var k := FirstUnsupported(cols);
      k < |cols| && (forall j :: 0 <= j < k ==> Supported(cols[j])) && !Supported(cols[k]) &&
      RowEmitted(cols, i, f) == Emitted(Leading(CellTexts(cols, i, f)[..k], f.delim), Fail(UnsupportedMessage(cols[k].typeName)))
  {
  }

  /** A data frame without columns writes nothing, header or not. */
  lemma NoColumnsNoText(df: DataFrame, f: Format, colNames: bool)
    requires WellFormed(df, colNames) && df.columns == []
    ensures TableEmitted(df, f, colNames) == Done([])
  {
  }

  /**
   * The table encoder fails exactly when there is a column, a row, and a
   * column of an unsupported type. It then names the first such type, and
   * the header and the cells of row 0 before that column stay written.
   * Otherwise the text is the header line if asked for, then the line of
   * every row in order.
   */
  lemma TableOutcome(df: DataFrame, f: Format, colNames: bool)
    requires WellFormed(df, colNames)
    ensures var e := TableEmitted(df, f, colNames);
      e.outcome.Fail? <==>
        |df.columns| > 0 && RowCount(df) > 0 && exists j :: 0 <= j < |df.columns| && !Supported(df.columns[j])
    ensures var e := TableEmitted(df, f, colNames);
      |df.columns| > 0 && e.outcome.Pass? ==> e.text == HeaderPart(df, f, colNames) + RowsText(df.columns, f, RowCount(df))
    ensures var e := TableEmitted(df, f, colNames);
      e.outcome.Fail? ==>
        var k := FirstUnsupported(df.columns);
        k < |df.columns| &&
        e == Emitted(HeaderPart(df, f, colNames) + Leading(CellTexts(df.columns, 0, f)[..k], f.delim),
                     Fail(UnsupportedMessage(df.columns[k].typeName)))
  {
    if |df.columns| > 0 {
      if FirstUnsupported(df.columns) < |df.columns| && RowCount(df) > 0 {
        TableWithError(df, f, colNames);
        RowWithError(df.columns, 0, f, FirstUnsupported(df.columns));
      } else {
        TableWithoutError(df, f, colNames);
      }
    }
  }

  /** With column names asked for, the header line comes first, whether or not a row fails later. */
  lemma HeaderComesFirst(df: DataFrame, f: Format)
    requires WellFormed(df, true) && |df.columns| > 0
    ensures HeaderLine(df.names, f) <= TableEmitted(df, f, true).text
  {
  }
}
