/**
 * Why the round trip needs its condition, and why that condition is exact.
 * A body row whose cells, fitted to the header's width, are all separator
 * cells is written back as a separator row; read again, it ends its
 * table's body, so the table does not come back. With the round trip
 * itself, this makes "no body row reads as a separator row" necessary and
 * sufficient.
 *
 * A one-column table whose body line is `|-|x|` is such a case: the row
 * reads as the single cell `-` (the extra cell `x` is dropped) and is
 * written back as `| -   |`.
 */
module Counterexample {
  import opened Strings
  import opened TableGrammar
  import opened TableLayout
  import opened MarkdownParser
  import opened ParserFacts
  import opened TableSerializer
  import opened DocumentRebuilder
  import opened RoundTrip

  /** The document's lines: a header row, a separator row and one body row. */
  const SampleLines: seq<string> := ["|a|", "|-|", "|-|x|"]

  // ---------------------------------------------------------------------
  // The three lines, read one by one
  // ---------------------------------------------------------------------

  /** The header row reads as the one cell `a` and is neither a heading nor a separator row. */
  lemma {:induction false} HeaderLine()
    ensures ParseRow("|a|") == ["a"]
    ensures ClassOf("|a|") == LineClass(false, true, false)
  {
    var line := "|a|";
    assert Trim(line) == line;
    assert StripPipes(line) == "a";
    OccurrencesAbsent("a", '|');
    assert Split("a", '|') == ["a"];
    assert Trim("a") == "a";
    assert "a"[0] == 'a' && !IsSeparatorCell("a");
    SeparatorLineCells(line);
  }

  /** The separator row is a separator row and not a heading, and declares no alignment. */
  lemma {:induction false} SeparatorRowClass()
    ensures ClassOf("|-|") == LineClass(false, true, true)
    ensures ParseAlignments("|-|") == [AlignNone]
  {
    var line := "|-|";
    assert Trim(line) == line;
    assert StripPipes(line) == "-";
    OccurrencesAbsent("-", '|');
    assert Split("-", '|') == ["-"];
    assert Trim("-") == "-" && IsSeparatorCell("-");
    assert AlignmentOf("-") == AlignNone;
    SeparatorLineCells(line);
  }

  /** The body row's inner text splits at its pipe into `-` and `x`. */
  lemma {:induction false} SplitBody()
    ensures Split("-|x", '|') == ["-", "x"]
  {
    OccurrencesAbsent("x", '|');
    assert Split("x", '|') == ["x"];
    assert "|x"[1..] == "x";
    assert Split("|x", '|') == ["", "x"];
    assert "-|x"[1..] == "|x" && ['-'] + "" == "-";
  }

  /** The body row, trimmed and without its outer pipes, is `-|x`. */
  lemma {:induction false} StripBody()
    ensures StripPipes(Trim("|-|x|")) == "-|x"
  {
    assert Trim("|-|x|") == "|-|x|";
  }

  /** The body row holds the cells `-` and `x`. */
  lemma {:induction false} BodyCells()
    ensures ParseRow("|-|x|") == ["-", "x"]
  {
    StripBody();
    SplitBody();
    assert Trim("-") == "-" && Trim("x") == "x";
  }

  /** So the body row is a body row. */
  lemma {:induction false} BodyLine()
    ensures ParseRow("|-|x|") == ["-", "x"]
    ensures ClassOf("|-|x|") == LineClass(false, true, false)
  {
    var line := "|-|x|";
    BodyCells();
    assert "x"[0] == 'x' && !IsSeparatorCell("x");
    assert ParseRow(line)[1] == "x" && !AllSeparatorCells(ParseRow(line));
    SeparatorLineCells(line);
    assert Trim(line) == line;
  }

  /** Fitted to one column, the body row keeps its first cell only. */
  lemma {:induction false} BodyFitted()
    ensures FitRow(["-", "x"], 1) == ["-"]
  {
    var r := FitRow(["-", "x"], 1);
    assert |r| == 1 && r[0] == "-";
  }

  // ---------------------------------------------------------------------
  // The document, parsed
  // ---------------------------------------------------------------------

  /** Three lines read as the sample's lines are: a header row, a separator row, a body row of cells `-` and `x`. */
  predicate SampleShape(lines: seq<string>) {
    && |lines| == 3
    && ClassOf(lines[0]) == LineClass(false, true, false) && ParseRow(lines[0]) == ["a"]
    && ClassOf(lines[1]) == LineClass(false, true, true) && ParseAlignments(lines[1]) == [AlignNone]
    && ClassOf(lines[2]) == LineClass(false, true, false) && ParseRow(lines[2]) == ["-", "x"]
  }

  lemma {:induction false} SampleLinesShape()
    ensures SampleShape(SampleLines)
  {
    HeaderLine();
    SeparatorRowClass();
    BodyLine();
  }

  lemma {:induction false} SampleKinds(lines: seq<string>)
    requires SampleShape(lines)
    ensures Classify(lines)
      == [LineClass(false, true, false), LineClass(false, true, true), LineClass(false, true, false)]
  {
    ClassifyAt(lines, 0);
    ClassifyAt(lines, 1);
    ClassifyAt(lines, 2);
  }

  /** The scan finds one table, from the header row to the body row. */
  lemma {:induction false} SampleSpans(lines: seq<string>)
    requires SampleShape(lines)
    ensures Spans(Classify(lines), 0, None) == [Span(0, 2, None)]
  {
    var kinds := Classify(lines);
    SampleKinds(lines);
    assert Opens(kinds, 0);
    assert BodyEnd(kinds, 3) == 3;
    assert BodyEnd(kinds, 2) == 3;
    assert Spans(kinds, 3, None) == [];
  }

  /** The document holds one table, lines 0 to 2, whose one row is the single cell `-`. */
  lemma {:induction false} SampleTable(lines: seq<string>)
    requires SampleShape(lines)
    ensures |TablesIn(lines)| == 1
    ensures TablesIn(lines)[0].startLine == 0 && TablesIn(lines)[0].endLine == 2
    ensures TablesIn(lines)[0].headers == ["a"] && TablesIn(lines)[0].alignments == [AlignNone]
    ensures TablesIn(lines)[0].rows == [["-"]]
  {
    SampleSpans(lines);
    TableCells(lines, 0);
    BodyFitted();
    TableOfSpan(lines, 0);
    TableOfFields(Views(lines), Span(0, 2, None));
    TableRow(lines, 0, 0);
  }

  // ---------------------------------------------------------------------
  // Any document with such a row
  // ---------------------------------------------------------------------

  /** A body row that reads as a separator row is written back as a separator row. */
  lemma {:induction false} SeparatorRowWritten(lines: seq<string>, tables: seq<MarkdownTable>, blocks: seq<seq<string>>,
                                               nl: seq<string>, a: nat, r: nat, p: nat)
    requires Rewritten(lines, tables, blocks, nl) && a < |tables| && r < |tables[a].rows|
    requires p == tables[a].startLine + 2 + r && AllSeparatorCells(tables[a].rows[r])
    ensures p < |nl| && ClassOf(nl[p]) == LineClass(false, true, true)
  {
    var n := |tables[a].headers|;
    BodyRowOf(lines, tables, a, r, p);
    WrittenBodyLine(lines, tables, blocks, nl, a, r, p);
    FittedClean(lines[p], n);
    ReadRowLine(tables[a].rows[r], Widths(tables[a]));
    FitRowTwice(ParseRow(lines[p]), n);
  }

  /** Lines where a table's body row should stand but a separator row does cannot give that table back. */
  lemma {:induction false} RowLost(tables: seq<MarkdownTable>, l2: seq<string>, a: nat, p: nat)
    requires a < |tables| && tables[a].startLine + 2 <= p <= tables[a].endLine
    requires p < |l2| && IsSeparatorLine(l2[p])
    ensures TablesIn(l2) != NormalizedAll(tables)
  {
    if TablesIn(l2) == NormalizedAll(tables) {
      assert TablesIn(l2)[a] == Normalized(tables[a]);
      TableBody(l2, a, p);
      assert false;
    }
  }

  /**
   * A document with a body row that reads as a separator row does not give
   * its tables back: that row is written back as a separator row, so read
   * again it cannot lie inside its table's body.
   */
  lemma {:induction false} SeparatorRowsBreakRoundTrip(lines: seq<string>)
    requires NoNewlines(lines) && !NoSeparatorRows(TablesIn(lines))
    ensures Placeable(lines, TablesIn(lines))
    ensures TablesIn(Lines(Rebuild(lines, TablesIn(lines)))) != NormalizedAll(TablesIn(lines))
  {
    var tables := TablesIn(lines);
    var a, r :| 0 <= a < |tables| && 0 <= r < |tables[a].rows| && AllSeparatorCells(tables[a].rows[r]);
    ParsedMatched(lines);
    var blocks := Blocks(tables);
    BlocksDrawn(tables);
    var nl := NewLines(lines, tables, blocks);
    ReadBack(lines, tables, blocks, nl);
    var l2 := Lines(Rebuild(lines, tables));
    var p := tables[a].startLine + 2 + r;
    SeparatorRowWritten(lines, tables, blocks, nl, a, r, p);
    SameTrim(l2[p], nl[p]);
    TableCells(lines, a);
    RowLost(tables, l2, a, p);
  }

  /**
   * The round trip's condition is exact: parsing a document, rebuilding it
   * from its own tables and parsing the result gives the tables back, with
   * alignments normalized, if and only if no body row reads as a separator
   * row.
   */
  lemma {:induction false} RoundTripExactly(content: string)
    ensures Placeable(Parse(content).lines, Parse(content).tables)
    ensures Parse(Rebuild(Parse(content).lines, Parse(content).tables)).tables == NormalizedAll(Parse(content).tables)
      <==> NoSeparatorRows(Parse(content).tables)
  {
    if NoSeparatorRows(Parse(content).tables) {
      ParseRebuildParse(content);
    } else {
      SeparatorRowsBreakRoundTrip(Lines(content));
    }
  }

  // ---------------------------------------------------------------------
  // The sample document
  // ---------------------------------------------------------------------

  /** The sample text splits into the sample lines. */
  lemma {:induction false} SampleRead(content: string)
    requires content == JoinLines(SampleLines)
    ensures Lines(content) == SampleLines
  {
    var lines := SampleLines;
    assert forall k :: 0 <= k < |lines| ==> '\n' !in lines[k] && DropCR(lines[k]) == lines[k];
    LinesOfJoinLines(lines);
    assert lines[..2] == ["|a|", "|-|"];
  }

  /** The sample document's one row reads as a separator row. */
  lemma {:induction false} SampleHasSeparatorRow(lines: seq<string>)
    requires SampleShape(lines)
    ensures !NoSeparatorRows(TablesIn(lines))
  {
    SampleTable(lines);
    DashRow();
    assert AllSeparatorCells(TablesIn(lines)[0].rows[0]);
  }

  lemma {:induction false} SampleNoNewlines()
    ensures NoNewlines(SampleLines)
  {
    var lines := SampleLines;
    assert forall k :: 0 <= k < |lines| ==> '\n' !in lines[k];
  }

  /**
   * The sample's rebuilt lines as they read again: the header row, the
   * separator row, and a second separator row where the body row stood.
   */
  predicate RereadShape(l2: seq<string>) {
    && |l2| == 3
    && ClassOf(l2[0]) == LineClass(false, true, false) && ParseRow(l2[0]) == ["a"]
    && ClassOf(l2[1]) == LineClass(false, true, true) && ParseAlignments(l2[1]) == [AlignNone]
    && ClassOf(l2[2]) == LineClass(false, true, true)
  }

  /** The sample, rebuilt and split into lines again, has that shape. */
  lemma {:induction false} SampleRebuilt(lines: seq<string>)
    requires SampleShape(lines) && NoNewlines(lines)
    ensures Placeable(lines, TablesIn(lines))
    ensures RereadShape(Lines(Rebuild(lines, TablesIn(lines))))
  {
    var tables := TablesIn(lines);
    SampleTable(lines);
    DashRow();
    ParsedMatched(lines);
    BlocksDrawn(tables);
    var blocks := Blocks(tables);
    var nl := NewLines(lines, tables, blocks);
    ReadBack(lines, tables, blocks, nl);
    WrittenShape(lines, tables, blocks, nl);
    ShapeReadAgain(nl, Lines(Rebuild(lines, tables)));
  }

  /** Lines read again with the same trimmed text keep that shape. */
  lemma {:induction false} ShapeReadAgain(nl: seq<string>, l2: seq<string>)
    requires RereadShape(nl) && ReadAgain(nl, l2)
    ensures RereadShape(l2)
  {
    SameTrim(l2[0], nl[0]);
    SameTrim(l2[1], nl[1]);
    SameTrim(l2[2], nl[2]);
  }

  /** The sample's lines, with its table written back, have that shape. */
  lemma {:induction false} WrittenShape(lines: seq<string>, tables: seq<MarkdownTable>, blocks: seq<seq<string>>, nl: seq<string>)
    requires Rewritten(lines, tables, blocks, nl) && |lines| == 3
    requires ClassOf(lines[0]) == LineClass(false, true, false) && ParseRow(lines[0]) == ["a"]
    requires tables != [] && tables[0].startLine == 0 && |tables[0].headers| == 1
    requires tables[0].alignments == [AlignNone] && tables[0].rows != [] && AllSeparatorCells(tables[0].rows[0])
    ensures RereadShape(nl)
  {
    NewLinesLength(lines, tables, blocks);
    HeaderAt(lines, tables, blocks, nl, 0, 0);
    SeparatorWritten(lines, tables, blocks, nl);
    SeparatorRowWritten(lines, tables, blocks, nl, 0, 0, 2);
  }

  /** The sample's separator row, written back, is still a separator row and declares no alignment. */
  lemma {:induction false} SeparatorWritten(lines: seq<string>, tables: seq<MarkdownTable>, blocks: seq<seq<string>>, nl: seq<string>)
    requires Rewritten(lines, tables, blocks, nl) && tables != [] && tables[0].startLine == 0
    requires |tables[0].headers| == 1 && tables[0].alignments == [AlignNone]
    ensures 1 < |nl| && ClassOf(nl[1]) == LineClass(false, true, true) && ParseAlignments(nl[1]) == [AlignNone]
  {
    var t := tables[0];
    WrittenLine(lines, tables, blocks, nl, 0, 1, 1);
    SeparatorBlockLine(tables, blocks, 0);
    WidthsCover(t);
    ReadSeparatorLine(t.alignments, Widths(t));
    DrawnNone();
  }

  /** The sample's body row, fitted, is a row of separator cells. */
  lemma {:induction false} DashRow()
    ensures AllSeparatorCells(["-"])
  {
    assert IsSeparatorCell(["-"][0]);
  }

  lemma {:induction false} DrawnNone()
    ensures DrawnAlignments([AlignNone], 1) == [AlignNone]
  {
  }

  /** Those lines hold one table, lines 0 and 1, with no body row. */
  lemma {:induction false} RereadTable(l2: seq<string>)
    requires RereadShape(l2)
    ensures TablesIn(l2) == [MarkdownTable(None, ["a"], [AlignNone], [], 0, 1)]
  {
    var kinds := Classify(l2);
    ClassifyAt(l2, 0);
    ClassifyAt(l2, 1);
    ClassifyAt(l2, 2);
    assert Opens(kinds, 0);
    assert BodyEnd(kinds, 2) == 2;
    assert Spans(kinds, 2, None) == [] by {
      assert !Opens(kinds, 2);
    }
    assert Spans(kinds, 0, None) == [Span(0, 1, None)];
    TableOfSpan(l2, 0);
    TableOfFields(Views(l2), Span(0, 1, None));
    ViewsAt(l2, 0);
    ViewsAt(l2, 1);
  }

  /**
   * The sample text, parsed, rebuilt and parsed again, does not give its
   * table back, so the round trip cannot drop its condition: what comes
   * back is a table of the header and separator rows alone.
   */
  lemma {:induction false} SeparatorRowBreaksRoundTrip(content: string)
    requires content == JoinLines(SampleLines)
    ensures Parse(content).lines == SampleLines
    ensures !NoSeparatorRows(Parse(content).tables) && Placeable(Parse(content).lines, Parse(content).tables)
    ensures Parse(Rebuild(Parse(content).lines, Parse(content).tables)).tables != NormalizedAll(Parse(content).tables)
    ensures Parse(Rebuild(Parse(content).lines, Parse(content).tables)).tables
      == [MarkdownTable(None, ["a"], [AlignNone], [], 0, 1)]
  {
    SampleRead(content);
    SampleLinesShape();
    SampleHasSeparatorRow(SampleLines);
    SampleNoNewlines();
    SeparatorRowsBreakRoundTrip(SampleLines);
    SampleRebuilt(SampleLines);
    RereadTable(Lines(Rebuild(SampleLines, TablesIn(SampleLines))));
  }
}
