/**
 * A reader for the comma-separated-values format of RFC 4180 (with any
 * delimiter), and the proof that it reads the encoder's text back into the
 * fields the encoder wrote: the quoting and escaping are enough to recover
 * every field and every record boundary.
 */
module Rfc4180 {
  import opened Wrappers
  import opened RObjects
  import opened Text
  import opened DelimSpec
  import DelimProperties

  /** A field as a reader sees it: bare text, or the contents of a quoted field. */
  datatype Field = Bare(text: string) | Quoted(text: string)

  /** How a field is written (section 2, items 5 to 7, of RFC 4180). */
  function FieldText(fld: Field): string
  {
    match fld
    case Bare(t) => t
    case Quoted(t) => "\"" + Escape(t) + "\""
  }

  function FieldTexts(flds: seq<Field>): (ts: seq<string>)
    ensures |ts| == |flds|
  {
    seq(|flds|, j requires 0 <= j < |flds| => FieldText(flds[j]))
  }

  /** A record's line: its fields joined by the delimiter, then a newline. */
  function RecordLine(flds: seq<Field>, delim: char): string
  {
    Join(FieldTexts(flds), delim) + "\n"
  }

  /** The lines of several records, in order. */
  function Lines(recs: seq<seq<Field>>, delim: char): string
  {
    if recs == [] then [] else Lines(recs[..|recs| - 1], delim) + RecordLine(recs[|recs| - 1], delim)
  }

  // ---------------------------------------------------------------------------
  // The reader

  /** Reads a quoted field just after its opening quote: "" stands for ", a lone " closes it. */
  function ReadQuoted(s: string): (r: Option<(string, string)>)
    ensures r.Some? ==> |r.value.1| < |s|
    decreases |s|
  {
    if s == [] then None
    else if s[0] == '"' then
      if |s| > 1 && s[1] == '"' then
        match ReadQuoted(s[2..])
        case None => None
        case Some((c, rest)) => Some(("\"" + c, rest))
      else Some(([], s[1..]))
    else
      match ReadQuoted(s[1..])
      case None => None
      case Some((c, rest)) => Some(([s[0]] + c, rest))
  }

  /** Reads a bare field: everything up to the delimiter or the end of the line. */
  function ReadBare(s: string, delim: char): (r: (string, string))
    ensures r.0 + r.1 == s
    decreases |s|
  {
    if s == [] || s[0] == delim || s[0] == '\n' then ([], s)
    else
      var (t, rest) := ReadBare(s[1..], delim);
      ([s[0]] + t, rest)
  }

  function ReadField(s: string, delim: char): (r: Option<(Field, string)>)
    ensures r.Some? ==> |r.value.1| <= |s|
  {
    if s != [] && s[0] == '"' then
      match ReadQuoted(s[1..])
      case None => None
      case Some((c, rest)) => Some((Quoted(c), rest))
    else
      var (t, rest) := ReadBare(s, delim);
      Some((Bare(t), rest))
  }

  /** Reads one record: fields separated by the delimiter, ended by a newline. */
  function ReadRecord(s: string, delim: char): (r: Option<(seq<Field>, string)>)
    ensures r.Some? ==> |r.value.1| < |s|
    decreases |s|
  {
    match ReadField(s, delim)
    case None => None
    case Some((fld, rest)) =>
      if rest == [] then None
      else if rest[0] == '\n' then Some(([fld], rest[1..]))
      else if rest[0] == delim then
        match ReadRecord(rest[1..], delim)
        case None => None
        case Some((flds, after)) => Some(([fld] + flds, after))
      else None
  }

  /** Reads records until the text is used up. */
  function ReadRecords(s: string, delim: char): Option<seq<seq<Field>>>
    decreases |s|
  {
    if s == [] then Some([])
    else
      match ReadRecord(s, delim)
      case None => None
      case Some((rec, rest)) =>
        match ReadRecords(rest, delim)
        case None => None
        case Some(recs) => Some([rec] + recs)
  }

  /** A field's text other than the marker is a string; a bare marker is a missing value. */
  function DecodeField(fld: Field, na: string): (v: Option<string>)
    ensures v.None? <==> fld == Bare(na)
  {
    match fld
    case Quoted(t) => Some(t)
    case Bare(t) => if t == na then None else Some(t)
  }

  function DecodeRecord(flds: seq<Field>, na: string): (vs: seq<Option<string>>)
    ensures |vs| == |flds|
  {
    seq(|flds|, c requires 0 <= c < |flds| => DecodeField(flds[c], na))
  }

  function DecodeRecords(recs: seq<seq<Field>>, na: string): (rows: seq<seq<Option<string>>>)
    ensures |rows| == |recs|
  {
    seq(|recs|, r requires 0 <= r < |recs| => DecodeRecord(recs[r], na))
  }

  /** Reads a whole text as records of optional strings, the marker standing for a missing value. */
  function ReadTable(s: string, delim: char, na: string): Option<seq<seq<Option<string>>>>
  {
    match ReadRecords(s, delim)
    case None => None
    case Some(recs) => Some(DecodeRecords(recs, na))
  }

  // ---------------------------------------------------------------------------
  // Reading back what was written

  /** A bare field can be read back when it holds no delimiter, newline or double quote. */
  predicate SafeText(t: string, delim: char)
  {
    forall k :: 0 <= k < |t| ==> t[k] != delim && t[k] != '\n' && t[k] != '"'
  }

  predicate SafeField(fld: Field, delim: char)
  {
    fld.Bare? ==> SafeText(fld.text, delim)
  }

  predicate SafeRecord(flds: seq<Field>, delim: char)
  {
    forall j :: 0 <= j < |flds| ==> SafeField(flds[j], delim)
  }

  predicate FieldEnd(rest: string, delim: char)
  {
    rest == [] || rest[0] == delim || rest[0] == '\n'
  }

  /** The quoted round trip: the escaped text and a closing quote read back as the text. */
  lemma {:induction false} ReadQuotedEscaped(t: string, rest: string)
    requires rest == [] || rest[0] != '"'
    ensures ReadQuoted(Escape(t) + "\"" + rest) == Some((t, rest))
    decreases |t|
  {
    var s := Escape(t) + "\"" + rest;
    if t == [] {
      assert s == "\"" + rest;
      assert s[1..] == rest;
    } else {
      var tail := Escape(t[1..]) + "\"" + rest;
      assert s == EscapeChar(t[0]) + tail;
      ReadQuotedEscaped(t[1..], rest);
      if t[0] == '"' {
        assert s[0] == '"' && s[1] == '"' && s[2..] == tail;
        assert "\"" + t[1..] == t;
      } else {
        assert s[0] == t[0] && s[1..] == tail;
        assert [t[0]] + t[1..] == t;
      }
    }
  }

  lemma {:induction false} ReadBareSafe(t: string, rest: string, delim: char)
    requires SafeText(t, delim) && FieldEnd(rest, delim)
    ensures ReadBare(t + rest, delim) == (t, rest)
    decreases |t|
  {
    if t == [] {
      assert t + rest == rest;
    } else {
      assert (t + rest)[0] == t[0] && (t + rest)[1..] == t[1..] + rest;
      ReadBareSafe(t[1..], rest, delim);
      assert [t[0]] + t[1..] == t;
    }
  }

  lemma ReadBareField(t: string, rest: string, delim: char)
    requires delim != '"' && SafeText(t, delim) && FieldEnd(rest, delim)
    ensures ReadField(t + rest, delim) == Some((Bare(t), rest))
  {
    ReadBareSafe(t, rest, delim);
    var s := t + rest;
    if t != [] {
      assert s[0] == t[0];
    } else {
      assert s == rest;
    }
  }

  lemma ReadQuotedField(t: string, rest: string, delim: char)
    requires delim != '"' && FieldEnd(rest, delim)
    ensures ReadField(FieldText(Quoted(t)) + rest, delim) == Some((Quoted(t), rest))
  {
    var s := FieldText(Quoted(t)) + rest;
    assert s[0] == '"';
    assert s[1..] == Escape(t) + "\"" + rest;
    ReadQuotedEscaped(t, rest);
  }

  /** The field round trip: a safe field followed by a delimiter, newline or the end reads back as itself. */
  lemma ReadFieldText(fld: Field, rest: string, delim: char)
    requires delim != '"' && SafeField(fld, delim) && FieldEnd(rest, delim)
    ensures ReadField(FieldText(fld) + rest, delim) == Some((fld, rest))
  {
    if fld.Bare? {
      ReadBareField(fld.text, rest, delim);
    } else {
      ReadQuotedField(fld.text, rest, delim);
    }
  }

  lemma ReadLastField(fld: Field, rest: string, delim: char)
    requires delim != '"' && SafeField(fld, delim)
    ensures ReadRecord(FieldText(fld) + "\n" + rest, delim) == Some(([fld], rest))
  {
    AppendAssoc2(FieldText(fld), "\n", rest);
    ReadFieldText(fld, "\n" + rest, delim);
    assert ("\n" + rest)[1..] == rest;
  }

  lemma ReadNextField(fld: Field, after: string, flds: seq<Field>, rest: string, delim: char)
    requires delim != '"' && delim != '\n' && SafeField(fld, delim)
    requires ReadRecord(after, delim) == Some((flds, rest))
    ensures ReadRecord(FieldText(fld) + [delim] + after, delim) == Some(([fld] + flds, rest))
  {
    AppendAssoc2(FieldText(fld), [delim], after);
    ReadFieldText(fld, [delim] + after, delim);
    assert ([delim] + after)[1..] == after;
  }

  /** The record round trip: a record's line reads back as its fields, leaving what follows. */
  lemma {:induction false} ReadRecordLine(flds: seq<Field>, rest: string, delim: char)
    requires flds != [] && delim != '"' && delim != '\n' && SafeRecord(flds, delim)
    ensures ReadRecord(RecordLine(flds, delim) + rest, delim) == Some((flds, rest))
    decreases |flds|
  {
    var texts := FieldTexts(flds);
    assert SafeField(flds[0], delim);
    if |flds| == 1 {
      assert texts == [FieldText(flds[0])];
      JoinSingleton(FieldText(flds[0]), delim);
      ReadLastField(flds[0], rest, delim);
      assert flds == [flds[0]];
    } else {
      var tail := flds[1..];
      assert texts == [FieldText(flds[0])] + FieldTexts(tail);
      JoinCons(FieldText(flds[0]), FieldTexts(tail), delim);
      var after := RecordLine(tail, delim) + rest;
      AppendAssoc(FieldText(flds[0]) + [delim], Join(FieldTexts(tail), delim), "\n", rest);
      assert SafeRecord(tail, delim) by {
        forall j | 0 <= j < |tail| ensures SafeField(tail[j], delim) {
          assert tail[j] == flds[j + 1];
        }
      }
      ReadRecordLine(tail, rest, delim);
      ReadNextField(flds[0], after, tail, rest, delim);
      assert [flds[0]] + tail == flds;
    }
  }

  lemma {:induction false} LinesCons(r: seq<Field>, recs: seq<seq<Field>>, delim: char)
    ensures Lines([r] + recs, delim) == RecordLine(r, delim) + Lines(recs, delim)
    decreases |recs|
  {
    var whole := [r] + recs;
    if recs == [] {
      assert whole == [r] && whole[..0] == [];
    } else {
      var init, last := recs[..|recs| - 1], recs[|recs| - 1];
      assert whole[..|whole| - 1] == [r] + init && whole[|whole| - 1] == last;
      assert Lines(whole, delim) == Lines([r] + init, delim) + RecordLine(last, delim);
      LinesCons(r, init, delim);
      AppendAssoc2(RecordLine(r, delim), Lines(init, delim), RecordLine(last, delim));
    }
  }

  /** The records round trip: the lines of non-empty safe records read back as those records. */
  lemma {:induction false} ReadLines(recs: seq<seq<Field>>, delim: char)
    requires delim != '"' && delim != '\n'
    requires forall r :: 0 <= r < |recs| ==> recs[r] != [] && SafeRecord(recs[r], delim)
    ensures ReadRecords(Lines(recs, delim), delim) == Some(recs)
    decreases |recs|
  {
    if recs != [] {
      var tail := recs[1..];
      assert recs == [recs[0]] + tail;
      LinesCons(recs[0], tail, delim);
      ReadRecordLine(recs[0], Lines(tail, delim), delim);
      assert RecordLine(recs[0], delim) != [];
      ReadLines(tail, delim);
    }
  }

  // ---------------------------------------------------------------------------
  // The encoder's cells as fields

  /** How a text cell is written: the bare marker, a quoted field, or the bare text. */
  function TextToken(v: Option<string>, delim: char, na: string): Field
  {
    match v
    case None => Bare(na)
    case Some(s) => if MustQuote(CStr(s), delim, na) then Quoted(CStr(s)) else Bare(CStr(s))
  }

  /** How any supported cell is written: text cells as above, every other cell bare. */
  function CellField(col: Column, i: nat, f: Format): Field
    requires InRange(col, i)
  {
    match col
    case Character(v) => TextToken(v[i], f.delim, f.na)
    case _ => Bare(CellText(col, i, f))
  }

  function RowFields(cols: seq<Column>, i: nat, f: Format): (flds: seq<Field>)
    requires RowInRange(cols, i)
    ensures |flds| == |cols|
  {
    seq(|cols|, j requires 0 <= j < |cols| => CellField(cols[j], i, f))
  }

  function RowRecords(cols: seq<Column>, f: Format, k: nat): (recs: seq<seq<Field>>)
    requires AllCover(cols, k)
    ensures |recs| == k
    ensures forall r :: 0 <= r < k ==> recs[r] == RowFields(cols, r, f)
  {
    if k == 0 then [] else RowRecords(cols, f, k - 1) + [RowFields(cols, k - 1, f)]
  }

  function NameFields(names: seq<Option<string>>, f: Format): (flds: seq<Field>)
    ensures |flds| == |names|
  {
    seq(|names|, j requires 0 <= j < |names| => TextToken(names[j], f.delim, f.na))
  }

  /** The records the encoder writes for a data frame with at least one column. */
  function TableRecords(df: DataFrame, f: Format, colNames: bool): seq<seq<Field>>
    requires WellFormed(df, colNames) && |df.columns| > 0
  {
    (if colNames then [NameFields(df.names, f)] else []) + RowRecords(df.columns, f, RowCount(df))
  }

  /** The field a text cell stands for is written exactly as the encoder writes the cell. */
  lemma TextTokenText(v: Option<string>, delim: char, na: string)
    ensures FieldText(TextToken(v, delim, na)) == TextCell(v, delim, na)
  {
    if v.Some? {
      var t := CStr(v.value);
      if !MustQuote(t, delim, na) {
        assert '"' !in t by {
          forall k | 0 <= k < |t| ensures t[k] != '"' {
            assert !IsSpecial(t[k], delim);
          }
        }
        DelimProperties.EscapeWithoutQuotes(t);
      }
    }
  }

  /** Every text cell reads back as its value, C-string cut included: missing as missing, the marker as a string. */
  lemma DecodeTextToken(v: Option<string>, delim: char, na: string)
    ensures DecodeField(TextToken(v, delim, na), na) == if v.None? then None else Some(CStr(v.value))
  {
  }

  /** A text cell is always a safe field once the marker itself is. */
  lemma TextTokenSafe(v: Option<string>, delim: char, na: string)
    requires SafeText(na, delim)
    ensures SafeField(TextToken(v, delim, na), delim)
  {
  }

  lemma RowLineIsRecordLine(cols: seq<Column>, i: nat, f: Format)
    requires RowInRange(cols, i)
    ensures RowLine(cols, i, f) == RecordLine(RowFields(cols, i, f), f.delim)
  {
    var flds := RowFields(cols, i, f);
    assert CellTexts(cols, i, f) == FieldTexts(flds) by {
      forall j | 0 <= j < |cols| ensures CellTexts(cols, i, f)[j] == FieldTexts(flds)[j] {
        if cols[j].Character? {
          TextTokenText(cols[j].strs[i], f.delim, f.na);
        }
      }
    }
  }

  lemma HeaderLineIsRecordLine(names: seq<Option<string>>, f: Format)
    ensures HeaderLine(names, f) == RecordLine(NameFields(names, f), f.delim)
  {
    var flds := NameFields(names, f);
    assert NameTexts(names, f) == FieldTexts(flds) by {
      forall j | 0 <= j < |names| ensures NameTexts(names, f)[j] == FieldTexts(flds)[j] {
        TextTokenText(names[j], f.delim, f.na);
      }
    }
  }

  lemma {:induction false} RowsTextIsLines(cols: seq<Column>, f: Format, k: nat)
    requires AllCover(cols, k)
    ensures RowsText(cols, f, k) == Lines(RowRecords(cols, f, k), f.delim)
    decreases k
  {
    if k > 0 {
      var recs := RowRecords(cols, f, k);
      assert recs[..|recs| - 1] == RowRecords(cols, f, k - 1);
      RowsTextIsLines(cols, f, k - 1);
      RowLineIsRecordLine(cols, k - 1, f);
    }
  }

  /** The lines of a header record and then more records are the header line, then those lines. */
  lemma TableText(df: DataFrame, f: Format, colNames: bool)
    requires WellFormed(df, colNames) && |df.columns| > 0
    ensures HeaderPart(df, f, colNames) + RowsText(df.columns, f, RowCount(df)) ==
            Lines(TableRecords(df, f, colNames), f.delim)
  {
    var rows := RowRecords(df.columns, f, RowCount(df));
    RowsTextIsLines(df.columns, f, RowCount(df));
    if colNames {
      HeaderLineIsRecordLine(df.names, f);
      LinesCons(NameFields(df.names, f), rows, f.delim);
    } else {
      assert TableRecords(df, f, colNames) == rows;
    }
  }

  /** Every field the encoder writes for the data frame is safe to read back. */
  predicate FieldsSafe(df: DataFrame, f: Format, colNames: bool)
    requires WellFormed(df, colNames) && |df.columns| > 0
  {
    var recs := TableRecords(df, f, colNames);
    forall r :: 0 <= r < |recs| ==> SafeRecord(recs[r], f.delim)
  }

  /**
   * The table round trip: when no column is of an unsupported type, the
   * delimiter is neither a double quote nor a newline, and no bare field
   * holds a delimiter, newline or double quote, the encoder succeeds and
   * reading its text back gives the header record (if asked for) and one
   * record per row, each with one field per column.
   */
  lemma TableReadsBack(df: DataFrame, f: Format, colNames: bool)
    requires WellFormed(df, colNames) && |df.columns| > 0
    requires forall j :: 0 <= j < |df.columns| ==> Supported(df.columns[j])
    requires f.delim != '"' && f.delim != '\n'
    requires FieldsSafe(df, f, colNames)
    ensures TableEmitted(df, f, colNames).outcome == Pass
    ensures ReadRecords(TableEmitted(df, f, colNames).text, f.delim) == Some(TableRecords(df, f, colNames))
  {
    AllSupported(df.columns);
    TableWithoutError(df, f, colNames);
    TableText(df, f, colNames);
    RecordsNonEmpty(df, f, colNames);
    ReadLines(TableRecords(df, f, colNames), f.delim);
  }

  lemma AllSupported(cols: seq<Column>)
    requires forall j :: 0 <= j < |cols| ==> Supported(cols[j])
    ensures FirstUnsupported(cols) == |cols|
  {
  }

  lemma RecordsNonEmpty(df: DataFrame, f: Format, colNames: bool)
    requires WellFormed(df, colNames) && |df.columns| > 0
    ensures var recs := TableRecords(df, f, colNames);
      forall r :: 0 <= r < |recs| ==> recs[r] != []
  {
    var recs := TableRecords(df, f, colNames);
    var rows := RowRecords(df.columns, f, RowCount(df));
    forall r | 0 <= r < |recs| ensures recs[r] != [] {
      if colNames && r == 0 {
        assert recs[r] == NameFields(df.names, f);
      } else {
        assert recs[r] == rows[if colNames then r - 1 else r];
      }
    }
  }

  /** A string cell as it reads back: a missing value stays missing, a string is cut at its first NUL. */
  function CValue(v: Option<string>): Option<string>
  {
    if v.None? then None else Some(CStr(v.value))
  }

  function CValues(vs: seq<Option<string>>): (cs: seq<Option<string>>)
    ensures |cs| == |vs|
  {
    seq(|vs|, j requires 0 <= j < |vs| => CValue(vs[j]))
  }

  predicate TextOnly(cols: seq<Column>)
  {
    forall j :: 0 <= j < |cols| ==> cols[j].Character?
  }

  /** Row i of a data frame whose columns are all text, as it reads back. */
  function TextRow(cols: seq<Column>, i: nat): (vs: seq<Option<string>>)
    requires TextOnly(cols) && RowInRange(cols, i)
    ensures |vs| == |cols|
  {
    seq(|cols|, j requires 0 <= j < |cols| => CValue(cols[j].strs[i]))
  }

  function TextRows(cols: seq<Column>, k: nat): (rows: seq<seq<Option<string>>>)
    requires TextOnly(cols) && AllCover(cols, k)
    ensures |rows| == k
    ensures forall r :: 0 <= r < k ==> rows[r] == TextRow(cols, r)
  {
    if k == 0 then [] else TextRows(cols, k - 1) + [TextRow(cols, k - 1)]
  }

  lemma DecodeTextRow(cols: seq<Column>, i: nat, f: Format)
    requires TextOnly(cols) && RowInRange(cols, i)
    ensures DecodeRecord(RowFields(cols, i, f), f.na) == TextRow(cols, i)
  {
  }

  lemma DecodeNames(names: seq<Option<string>>, f: Format)
    ensures DecodeRecord(NameFields(names, f), f.na) == CValues(names)
  {
  }

  lemma TextFieldsSafe(df: DataFrame, f: Format, colNames: bool)
    requires WellFormed(df, colNames) && |df.columns| > 0 && TextOnly(df.columns)
    requires SafeText(f.na, f.delim)
    ensures FieldsSafe(df, f, colNames)
  {
  }

  /** What a data frame of text columns reads back as: the column names if written, then every row. */
  function TextTable(df: DataFrame, colNames: bool): seq<seq<Option<string>>>
    requires WellFormed(df, colNames) && |df.columns| > 0 && TextOnly(df.columns)
  {
    (if colNames then [CValues(df.names)] else []) + TextRows(df.columns, RowCount(df))
  }

  lemma DecodeRecordAt(df: DataFrame, f: Format, colNames: bool, r: nat)
    requires WellFormed(df, colNames) && |df.columns| > 0 && TextOnly(df.columns)
    requires r < |TableRecords(df, f, colNames)|
    ensures DecodeRecord(TableRecords(df, f, colNames)[r], f.na) == TextTable(df, colNames)[r]
  {
    if colNames && r == 0 {
      DecodeNames(df.names, f);
    } else {
      var i := if colNames then r - 1 else r;
      assert TableRecords(df, f, colNames)[r] == RowFields(df.columns, i, f);
      assert TextTable(df, colNames)[r] == TextRow(df.columns, i);
      DecodeTextRow(df.columns, i, f);
    }
  }

  lemma DecodeTable(df: DataFrame, f: Format, colNames: bool)
    requires WellFormed(df, colNames) && |df.columns| > 0 && TextOnly(df.columns)
    ensures DecodeRecords(TableRecords(df, f, colNames), f.na) == TextTable(df, colNames)
  {
    var recs := TableRecords(df, f, colNames);
    forall r | 0 <= r < |recs| ensures DecodeRecords(recs, f.na)[r] == TextTable(df, colNames)[r] {
      DecodeRecordAt(df, f, colNames, r);
    }
  }

  /**
   * The round trip for a data frame of text columns: with a delimiter that
   * is neither a double quote nor a newline and a marker free of the
   * delimiter, newlines and double quotes, reading the encoder's text back
   * gives the column names (if written) and every row's values, missing
   * values as missing and each string cut at its first NUL.
   */
  lemma TextTableRoundTrip(df: DataFrame, f: Format, colNames: bool)
    requires WellFormed(df, colNames) && |df.columns| > 0 && TextOnly(df.columns)
    requires f.delim != '"' && f.delim != '\n' && SafeText(f.na, f.delim)
    ensures TableEmitted(df, f, colNames).outcome == Pass
    ensures ReadTable(TableEmitted(df, f, colNames).text, f.delim, f.na) == Some(TextTable(df, colNames))
  {
    TextFieldsSafe(df, f, colNames);
    TableReadsBack(df, f, colNames);
    DecodeTable(df, f, colNames);
  }

  /** With the header, the text reads back as one more record than the data frame has rows. */
  lemma RecordCount(df: DataFrame, f: Format, colNames: bool)
    requires WellFormed(df, colNames) && |df.columns| > 0
    ensures |TableRecords(df, f, colNames)| == RowCount(df) + if colNames then 1 else 0
  {
  }
}
