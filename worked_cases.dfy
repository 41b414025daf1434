/** Small data frames and strings worked through the encoder's specification. */
module WorkedCases {
  import opened Wrappers
  import opened RObjects
  import opened Text
  import opened DelimSpec
  import DelimProperties
  import opened Rfc4180

  function NoFinite(bits: bv64): string { "?" }

  const CSV := Format(',', "NA", NoFinite)

  lemma JoinTwo(a: string, b: string, sep: char)
    ensures Join([a, b], sep) == a + [sep] + b
  {
    assert [a, b][..1] == [a];
    assert [a][..0] == [];
    assert Leading([a], sep) == [] + a + [sep];
    assert [] + a == a;
  }

  lemma EscapeOne(c: char)
    ensures Escape([c]) == EscapeChar(c)
  {
    assert [c][1..] == [];
    assert EscapeChar(c) + [] == EscapeChar(c);
  }

  /** Double quotes inside a text force quotes and are doubled. */
  lemma QuotedSpeech()
    ensures TextCell(Some("\"hi\""), ',', "NA") == "\"" + "\"\"" + "hi" + "\"\"" + "\""
  {
    var s := "\"hi\"";
    CStrOfNulFree(s);
    assert IsSpecial(s[0], ',');
    assert s == "\"" + "hi" + "\"";
    EscapeConcat("\"" + "hi", "\"");
    EscapeConcat("\"", "hi");
    EscapeOne('"');
    DelimProperties.EscapeWithoutQuotes("hi");
    AppendAssoc("\"", "\"\"" + "hi", "\"\"", "\"");
  }

  /** The marker collision: the string "NA" is quoted, the missing value is not. */
  lemma StringNA()
    ensures TextCell(Some("NA"), ',', "NA") == "\"NA\""
    ensures TextCell(None, ',', "NA") == "NA"
  {
    CStrOfNulFree("NA");
  }

  /** A string is cut at its first NUL, as the C string the source reads. */
  lemma EmbeddedNul()
    ensures TextCell(Some("ab\0c,d"), ',', "NA") == "ab"
  {
    assert CStr("ab\0c,d") == "ab";
    assert !MustQuote("ab", ',', "NA");
  }

  lemma PlainName(s: string)
    requires s == "id" || s == "name" || s == "a" || s == "b"
    ensures TextCell(Some(s), ',', "NA") == s
  {
    CStrOfNulFree(s);
    assert !MustQuote(s, ',', "NA");
    DelimProperties.EscapeWithoutQuotes(s);
  }

  const SmallColumns := [Integer([1, NA_INTEGER]), Character([Some("a,b"), None])]
  const SmallFrame := DataFrame([Some("id"), Some("name")], SmallColumns)

  lemma SmallHeader()
    ensures HeaderLine(SmallFrame.names, CSV) == "id" + "," + "name" + "\n"
  {
    PlainName("id");
    PlainName("name");
    var texts := NameTexts(SmallFrame.names, CSV);
    assert texts[0] == "id" && texts[1] == "name";
    assert texts == ["id", "name"];
    JoinTwo("id", "name", ',');
  }

  lemma SmallFirstRow()
    ensures RowLine(SmallColumns, 0, CSV) == "1,\"a,b\"\n"
  {
    CStrOfNulFree("a,b");
    assert IsSpecial("a,b"[1], ',');
    DelimProperties.EscapeWithoutQuotes("a,b");
    assert TextCell(Some("a,b"), ',', "NA") == "\"a,b\"";
    assert IntToString(1) == "1";
    assert CellTexts(SmallColumns, 0, CSV) == ["1", "\"a,b\""];
    JoinTwo("1", "\"a,b\"", ',');
  }

  lemma SmallSecondRow()
    ensures RowLine(SmallColumns, 1, CSV) == "NA,NA\n"
  {
    assert CellTexts(SmallColumns, 1, CSV) == ["NA", "NA"];
    JoinTwo("NA", "NA", ',');
  }

  /** An integer and a text column, two rows with a header: three lines. */
  lemma SmallTable()
    ensures TableEmitted(SmallFrame, CSV, true) == Done("id" + "," + "name" + "\n" + "1,\"a,b\"\n" + "NA,NA\n")
  {
    SmallHeader();
    SmallRows();
    assert HeaderPart(SmallFrame, CSV, true) == "id" + "," + "name" + "\n";
    assert FirstUnsupported(SmallColumns) == 2;
    TableWithoutError(SmallFrame, CSV, true);
    AppendAssoc2("id" + "," + "name" + "\n", "1,\"a,b\"\n", "NA,NA\n");
  }

  lemma SmallRows()
    ensures RowsText(SmallColumns, CSV, 2) == "1,\"a,b\"\n" + "NA,NA\n"
  {
    SmallFirstRow();
    SmallSecondRow();
    var first := RowLine(SmallColumns, 0, CSV);
    assert RowsText(SmallColumns, CSV, 1) == [] + first;
    assert [] + first == first;
  }

  const MixedColumns := [Logical([TRUE]), Unsupported("list", 1)]
  const MixedFrame := DataFrame([Some("a"), Some("b")], MixedColumns)

  lemma MixedHeader()
    ensures HeaderLine(MixedFrame.names, CSV) == "a,b\n"
  {
    PlainName("a");
    PlainName("b");
    var texts := NameTexts(MixedFrame.names, CSV);
    assert texts[0] == "a" && texts[1] == "b";
    assert texts == ["a", "b"];
    JoinTwo("a", "b", ',');
  }

  lemma MixedFirstRow()
    ensures RowEmitted(MixedColumns, 0, CSV) == Emitted("TRUE,", Fail(UnsupportedMessage("list")))
  {
    assert FirstUnsupported(MixedColumns) == 1;
    var texts := CellTexts(MixedColumns, 0, CSV);
    assert texts[..1] == ["TRUE"];
    assert Leading(["TRUE"], ',') == [] + "TRUE" + [','];
    assert [] + "TRUE" == "TRUE";
    RowWithError(MixedColumns, 0, CSV, 1);
  }

  /** A column of an unsupported type stops the encoder after the header and the cells before it. */
  lemma UnsupportedColumn()
    ensures TableEmitted(MixedFrame, CSV, true) == Emitted("a,b\n" + "TRUE,", Fail(UnsupportedMessage("list")))
  {
    MixedHeader();
    MixedFirstRow();
    assert HeaderPart(MixedFrame, CSV, true) == "a,b\n";
    assert FirstUnsupported(MixedColumns) == 1;
    TableWithError(MixedFrame, CSV, true);
  }

  /** Without the header a data frame gives one line per row and nothing more. */
  lemma NoHeader()
    ensures TableEmitted(DataFrame([Some("x")], [Logical([TRUE, FALSE, NA_LOGICAL])]), CSV, false)
            == Done("TRUE\nFALSE\nNA\n")
  {
    var cols := [Logical([TRUE, FALSE, NA_LOGICAL])];
    var df := DataFrame([Some("x")], cols);
    assert FirstUnsupported(cols) == 1;
    JoinSingleton("TRUE", ',');
    JoinSingleton("FALSE", ',');
    JoinSingleton("NA", ',');
    assert CellTexts(cols, 0, CSV) == ["TRUE"];
    assert CellTexts(cols, 1, CSV) == ["FALSE"];
    assert CellTexts(cols, 2, CSV) == ["NA"];
    assert RowsText(cols, CSV, 3) == "TRUE\nFALSE\nNA\n";
    TableWithoutError(df, CSV, false);
  }

  const DelimitedMarker := Format(',', "a,b", NoFinite)
  const OneMissing := DataFrame([Some("x")], [Character([None])])

  lemma OneMissingText()
    ensures TableEmitted(OneMissing, DelimitedMarker, false) == Done("a,b\n")
  {
    var cols := OneMissing.columns;
    assert CellTexts(cols, 0, DelimitedMarker) == ["a,b"];
    JoinSingleton("a,b", ',');
    assert RowsText(cols, DelimitedMarker, 1) == [] + RowLine(cols, 0, DelimitedMarker);
    assert [] + "a,b\n" == "a,b\n";
    assert FirstUnsupported(cols) == 1;
    TableWithoutError(OneMissing, DelimitedMarker, false);
  }

  lemma ReadTwoFields()
    ensures ReadRecords("a,b\n", ',') == Some([[Bare("a"), Bare("b")]])
  {
    ReadBareSafe("b", "\n", ',');
    assert "b" + "\n" == "b\n";
    assert "\n"[1..] == [];
    assert ReadRecord("b\n", ',') == Some(([Bare("b")], []));
    ReadBareSafe("a", ",b\n", ',');
    assert "a" + ",b\n" == "a,b\n";
    assert ",b\n"[1..] == "b\n";
    assert "a,b\n"[0] == 'a';
    assert ReadField("a,b\n", ',') == Some((Bare("a"), ",b\n"));
    assert [Bare("a")] + [Bare("b")] == [Bare("a"), Bare("b")];
    assert ReadRecord("a,b\n", ',') == Some(([Bare("a"), Bare("b")], []));
    assert ReadRecords([], ',') == Some([]);
    assert [[Bare("a"), Bare("b")]] + [] == [[Bare("a"), Bare("b")]];
  }

  /**
   * The marker is written bare, so a marker holding the delimiter makes a
   * single missing value read back as two fields.
   */
  lemma MarkerHoldingDelimiter()
    ensures TableEmitted(OneMissing, DelimitedMarker, false) == Done("a,b\n")
    ensures ReadRecords(TableEmitted(OneMissing, DelimitedMarker, false).text, ',') == Some([[Bare("a"), Bare("b")]])
  {
    OneMissingText();
    ReadTwoFields();
  }
}
