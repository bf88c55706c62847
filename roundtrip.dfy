/**
 * Parsing the rebuilt document again. A document's tables, written back in
 * place by the rebuild and read again, are the same tables: same heading,
 * header, rows and line range; only the alignments come back in the form
 * the serializer writes them (one per column, unknown tags as none). This
 * needs one condition: no body row, once fitted to the header's width, may
 * read as a separator row, for that row would end its table.
 */
module RoundTrip {
  import opened Strings
  import opened TableGrammar
  import opened TableLayout
  import opened MarkdownParser
  import opened ParserFacts
  import opened TableSerializer
  import opened DocumentRebuilder

  // ---------------------------------------------------------------------
  // Where the parser puts tables
  // ---------------------------------------------------------------------

  /** Tables lie within `n` lines, each at least two lines long, in order and apart. */
  predicate InOrder(n: nat, tables: seq<MarkdownTable>) {
    && (forall a :: 0 <= a < |tables| ==> tables[a].startLine + 1 <= tables[a].endLine < n)
    && (forall a, b :: 0 <= a < b < |tables| ==> tables[a].endLine < tables[b].startLine)
  }

  /** Tables in order can be written back: every range the rebuild copies exists. */
  lemma {:induction false} InOrderPlaceable(lines: seq<string>, tables: seq<MarkdownTable>)
    requires InOrder(|lines|, tables)
    ensures Placeable(lines, tables)
  {
    InOrderPlaced(lines, tables, |tables|);
  }

  lemma {:induction false} InOrderPlaced(lines: seq<string>, tables: seq<MarkdownTable>, k: nat)
    requires InOrder(|lines|, tables) && k <= |tables|
    ensures PlacedUpTo(lines, tables, k)
  {
    if k > 0 {
      InOrderPlaced(lines, tables, k - 1);
    }
  }

  /** The parser's tables are in order. */
  lemma {:induction false} ParsedInOrder(lines: seq<string>)
    ensures InOrder(|lines|, TablesIn(lines))
  {
    TablesOrdered(lines);
    forall a | 0 <= a < |TablesIn(lines)|
      ensures TablesIn(lines)[a].startLine + 1 <= TablesIn(lines)[a].endLine < |lines|
    {
      TableOpens(lines, a);
    }
  }

  /**
   * The parser's tables can be written back, and each table's serialized
   * lines are exactly as many as the lines it was read from.
   */
  lemma {:induction false} ParsedMatched(lines: seq<string>)
    ensures Placeable(lines, TablesIn(lines))
    ensures Matched(lines, TablesIn(lines), Blocks(TablesIn(lines)))
  {
    ParsedInOrder(lines);
    InOrderPlaceable(lines, TablesIn(lines));
    forall a | 0 <= a < |TablesIn(lines)|
      ensures TablesIn(lines)[a].endLine + 1 == TablesIn(lines)[a].startLine + |Blocks(TablesIn(lines))[a]|
    {
      TableCells(lines, a);
      BlocksAt(TablesIn(lines), a);
    }
  }

  // ---------------------------------------------------------------------
  // Reading one span again
  // ---------------------------------------------------------------------

  /** A table as it reads back after the rebuild: alignments as the serializer draws them. */
  function Normalized(t: MarkdownTable): (u: MarkdownTable)
    ensures u.heading == t.heading && u.headers == t.headers && u.rows == t.rows
    ensures u.startLine == t.startLine && u.endLine == t.endLine
    ensures |u.alignments| == |t.headers|
  {
    t.(alignments := DrawnAlignments(t.alignments, |t.headers|))
  }

  lemma {:induction false} FitRowExact(cells: seq<string>, n: nat)
    requires |cells| == n
    ensures FitRow(cells, n) == cells
  {
    assert forall k :: 0 <= k < n ==> FitRow(cells, n)[k] == cells[k];
  }

  lemma {:induction false} FitRowTwice(cells: seq<string>, n: nat)
    ensures FitRow(FitRow(cells, n), n) == FitRow(cells, n)
  {
    FitRowExact(FitRow(cells, n), n);
  }

  /**
   * The lines of a span read the same under `views2` as under `views1`:
   * the same header cells, the alignments drawn from the old ones, body
   * rows that fit to the same cells, and the same title for its heading.
   */
  predicate SameReading(views1: seq<LineView>, views2: seq<LineView>, s: Span) {
    && Fits(|views1|, s) && |views2| == |views1|
    && views2[s.start].cells == views1[s.start].cells
    && views2[s.start + 1].alignments == DrawnAlignments(views1[s.start + 1].alignments, |views1[s.start].cells|)
    && RowsAgree(views1, views2, s)
    && (s.heading.Some? ==> views2[s.heading.value].title == views1[s.heading.value].title)
  }

  /** The span's body rows, fitted to its header's width, are the same under `views2` as under `views1`. */
  predicate RowsAgree(views1: seq<LineView>, views2: seq<LineView>, s: Span)
    requires s.start < |views1|
  {
    forall p :: s.start + 2 <= p <= s.end && p < |views1| && p < |views2| ==>
      FitRow(views2[p].cells, |views1[s.start].cells|) == FitRow(views1[p].cells, |views1[s.start].cells|)
  }

  /** A span that reads the same gives the same table, alignments normalized. */
  lemma {:induction false} TableReread(views1: seq<LineView>, views2: seq<LineView>, s: Span)
    requires SameReading(views1, views2, s)
    ensures Fits(|views2|, s) && TableOf(views2, s) == Normalized(TableOf(views1, s))
  {
    var t1, t2 := TableOf(views1, s), TableOf(views2, s);
    TableOfFields(views1, s);
    TableOfFields(views2, s);
    forall k | 0 <= k < |t2.rows| ensures t2.rows[k] == t1.rows[k] {
      TableOfRow(views1, s, k);
      TableOfRow(views2, s, k);
    }
  }

  // ---------------------------------------------------------------------
  // One written line read again
  // ---------------------------------------------------------------------

  /** Lines with the same trimmed text are classified and read alike. */
  lemma {:induction false} SameTrim(x: string, y: string)
    requires Trim(x) == Trim(y)
    ensures ClassOf(x) == ClassOf(y) && ViewOf(x) == ViewOf(y)
  {
  }

  /** Dropping a final `'\r'` does not change the trimmed text. */
  lemma {:induction false} TrimDropCR(x: string)
    ensures Trim(DropCR(x)) == Trim(x)
  {
    if DropCR(x) != x {
      TrimIgnoresFinalWhitespace(DropCR(x), '\r');
    }
  }

  /** A row has at least one cell. */
  lemma {:induction false} RowHasCells(line: string)
    ensures |ParseRow(line)| >= 1
  {
  }

  /**
   * A header row written back is classified like the line it was read
   * from, and reads as the same cells.
   */
  lemma {:induction false} HeaderReread(orig: string, line: string, t: MarkdownTable)
    requires t.headers == ParseRow(orig) && IsTableLine(orig) && !IsHeadingLine(orig)
    requires line == RowLine(t.headers, Widths(t))
    ensures ClassOf(line) == ClassOf(orig) && ParseRow(line) == t.headers && line != []
  {
    RowHasCells(orig);
    ReadRowLine(t.headers, Widths(t));
    FitRowExact(t.headers, |Widths(t)|);
    SeparatorLineCells(orig);
  }

  /** A separator row written back is still a separator row, and reads as the drawn alignments. */
  lemma {:induction false} SeparatorReread(orig: string, line: string, t: MarkdownTable)
    requires t.alignments == ParseAlignments(orig) && IsSeparatorLine(orig) && |t.headers| >= 1
    requires line == SeparatorLine(t.alignments, Widths(t))
    ensures ClassOf(line).row == ClassOf(orig).row && ClassOf(line).separator == ClassOf(orig).separator
    ensures ParseAlignments(line) == DrawnAlignments(t.alignments, |t.headers|) && line != []
  {
    WidthsCover(t);
    ReadSeparatorLine(t.alignments, Widths(t));
    SeparatorLineCells(orig);
  }

  /** Cells fitted from a row's cells are clean: the row's own cells, or empty. */
  lemma {:induction false} FittedClean(orig: string, n: nat)
    ensures forall c :: 0 <= c < n ==> IsCleanCell(FitRow(ParseRow(orig), n)[c])
    ensures forall c, ch :: 0 <= c < n && ch in FitRow(ParseRow(orig), n)[c] ==> ch in orig
  {
  }

  /**
   * A body row written back is still a body row, unless its cells read as
   * a separator row, and its cells fit to the same row.
   */
  lemma {:induction false} BodyReread(orig: string, line: string, t: MarkdownTable, k: nat)
    requires k < |t.rows| && t.rows[k] == FitRow(ParseRow(orig), |t.headers|) && |t.headers| >= 1
    requires InBody(orig) && !AllSeparatorCells(t.rows[k])
    requires line == RowLine(t.rows[k], Widths(t))
    ensures ClassOf(line).row == ClassOf(orig).row && ClassOf(line).separator == ClassOf(orig).separator
    ensures FitRow(ParseRow(line), |t.headers|) == FitRow(ParseRow(orig), |t.headers|) && line != []
  {
    var n := |t.headers|;
    FittedClean(orig, n);
    ReadRowLine(t.rows[k], Widths(t));
    FitRowTwice(ParseRow(orig), n);
    FitRowTwice(FitRow(ParseRow(orig), n), n);
  }

  // ---------------------------------------------------------------------
  // The rebuilt document's lines, one by one
  // ---------------------------------------------------------------------

  /** No line of the document holds a newline, as is so for lines read by `Lines`. */
  predicate NoNewlines(lines: seq<string>) {
    forall k :: 0 <= k < |lines| ==> '\n' !in lines[k]
  }

  /** No body row of any table reads as a separator row. */
  predicate NoSeparatorRows(tables: seq<MarkdownTable>) {
    forall a, r :: 0 <= a < |tables| && 0 <= r < |tables[a].rows| ==> !AllSeparatorCells(tables[a].rows[r])
  }

  /** `blocks` holds each table's serialized lines. */
  predicate Drawn(tables: seq<MarkdownTable>, blocks: seq<seq<string>>) {
    |blocks| == |tables| && forall a {:trigger TableLines(tables[a])} :: 0 <= a < |tables| ==> blocks[a] == TableLines(tables[a])
  }

  lemma {:induction false} BlocksDrawn(tables: seq<MarkdownTable>)
    ensures Drawn(tables, Blocks(tables))
  {
    forall a | 0 <= a < |tables| ensures Blocks(tables)[a] == TableLines(tables[a]) {
      BlocksAt(tables, a);
    }
  }

  /** Only `Blocks(tables)` holds each table's serialized lines. */
  lemma {:induction false} DrawnBlocks(tables: seq<MarkdownTable>, blocks: seq<seq<string>>)
    requires Drawn(tables, blocks)
    ensures blocks == Blocks(tables)
  {
    forall a | 0 <= a < |tables| ensures blocks[a] == Blocks(tables)[a] {
      BlocksAt(tables, a);
    }
  }

  /**
   * The document's tables, their serialized lines, and the lines of the
   * document with each table written back in place.
   */
  predicate Rewritten(lines: seq<string>, tables: seq<MarkdownTable>, blocks: seq<seq<string>>, nl: seq<string>) {
    && tables == TablesIn(lines)
    && NoNewlines(lines)
    && Drawn(tables, blocks)
    && Matched(lines, tables, blocks)
    && nl == NewLines(lines, tables, blocks)
  }

  /** The cells of a parsed table come from the document's lines, so they hold no newline. */
  lemma {:induction false} TableAvoidsNewline(lines: seq<string>, a: nat)
    requires NoNewlines(lines) && a < |TablesIn(lines)|
    ensures CellsAvoid(TablesIn(lines)[a], '\n')
  {
    var t := TablesIn(lines)[a];
    TableCells(lines, a);
    forall r, c | 0 <= r < |t.rows| && 0 <= c < |t.rows[r]| ensures '\n' !in t.rows[r][c] {
      TableRow(lines, a, r);
      FittedClean(lines[t.startLine + 2 + r], |t.headers|);
    }
  }

  /** Line `k` of table `a`, at line `p` of the rebuilt document, is the table's serialized line `k`. */
  lemma {:induction false} WrittenLine(lines: seq<string>, tables: seq<MarkdownTable>, blocks: seq<seq<string>>, nl: seq<string>, a: nat, k: nat, p: nat)
    requires Rewritten(lines, tables, blocks, nl) && a < |tables| && k < 2 + |tables[a].rows| && p == tables[a].startLine + k
    ensures p < |nl| && k < |blocks[a]| && nl[p] == blocks[a][k] && '\n' !in nl[p]
  {
    TableAvoidsNewline(lines, a);
    TableLinesAvoidNewline(tables[a]);
    assert blocks[a] == TableLines(tables[a]);
    NewLinesTable(lines, tables, blocks, a, k);
  }

  /** The first serialized line of table `a` is its header row. */
  lemma {:induction false} HeaderBlockLine(tables: seq<MarkdownTable>, blocks: seq<seq<string>>, a: nat)
    requires Drawn(tables, blocks) && a < |tables|
    ensures |blocks[a]| >= 2 && blocks[a][0] == RowLine(tables[a].headers, Widths(tables[a]))
  {
    TableLineAt(tables[a], 0);
  }

  /** The second serialized line of table `a` is its separator row. */
  lemma {:induction false} SeparatorBlockLine(tables: seq<MarkdownTable>, blocks: seq<seq<string>>, a: nat)
    requires Drawn(tables, blocks) && a < |tables|
    ensures |blocks[a]| >= 2 && blocks[a][1] == SeparatorLine(tables[a].alignments, Widths(tables[a]))
  {
    TableLineAt(tables[a], 1);
  }

  /** Serialized line `2 + r` of table `a` is its body row `r`. */
  lemma {:induction false} BodyBlockLine(tables: seq<MarkdownTable>, blocks: seq<seq<string>>, a: nat, r: nat)
    requires Drawn(tables, blocks) && a < |tables| && r < |tables[a].rows|
    ensures 2 + r < |blocks[a]| && blocks[a][2 + r] == RowLine(tables[a].rows[r], Widths(tables[a]))
  {
    TableLineAt(tables[a], 2 + r);
  }

  /** Row `k` of table `a` is line `p` of the document, parsed and fitted to the header's width. */
  lemma {:induction false} RowOf(lines: seq<string>, tables: seq<MarkdownTable>, a: nat, k: nat, p: nat)
    requires tables == TablesIn(lines) && a < |tables| && k < |tables[a].rows| && p == tables[a].startLine + 2 + k
    ensures p < |lines| && tables[a].rows[k] == FitRow(ParseRow(lines[p]), |tables[a].headers|)
  {
    TableRow(lines, a, k);
    RowFitted(tables[a].rows, k, ParseRow(lines[TablesIn(lines)[a].startLine + 2 + k]), ParseRow(lines[p]),
              |tables[a].headers|);
  }

  lemma {:induction false} HeaderAt(lines: seq<string>, tables: seq<MarkdownTable>, blocks: seq<seq<string>>, nl: seq<string>, a: nat, p: nat)
    requires Rewritten(lines, tables, blocks, nl) && a < |tables| && p == tables[a].startLine
    ensures
      && p < |lines| && p < |nl| && nl[p] != [] && '\n' !in nl[p]
      && ClassOf(nl[p]) == ClassOf(lines[p]) && ParseRow(nl[p]) == ParseRow(lines[p])
  {
    TableCells(lines, a);
    TableOpens(lines, a);
    WrittenLine(lines, tables, blocks, nl, a, 0, p);
    HeaderBlockLine(tables, blocks, a);
    HeaderReread(lines[p], nl[p], tables[a]);
  }

  lemma {:induction false} SeparatorAt(lines: seq<string>, tables: seq<MarkdownTable>, blocks: seq<seq<string>>, nl: seq<string>, a: nat, p: nat)
    requires Rewritten(lines, tables, blocks, nl) && a < |tables| && p == tables[a].startLine + 1
    ensures
      && p < |lines| && p < |nl| && nl[p] != [] && '\n' !in nl[p]
      && ClassOf(nl[p]).row == ClassOf(lines[p]).row && ClassOf(nl[p]).separator == ClassOf(lines[p]).separator
      && ParseAlignments(nl[p]) == DrawnAlignments(tables[a].alignments, |tables[a].headers|)
  {
    TableCells(lines, a);
    TableOpens(lines, a);
    RowHasCells(lines[tables[a].startLine]);
    WrittenLine(lines, tables, blocks, nl, a, 1, p);
    SeparatorBlockLine(tables, blocks, a);
    SeparatorReread(lines[p], nl[p], tables[a]);
  }

  /** Body row `k` of table `a` is written, serialized, at line `p` of the rebuilt document. */
  lemma {:induction false} WrittenBodyLine(lines: seq<string>, tables: seq<MarkdownTable>, blocks: seq<seq<string>>, nl: seq<string>, a: nat, k: nat, p: nat)
    requires Rewritten(lines, tables, blocks, nl) && a < |tables| && k < |tables[a].rows|
    requires p == tables[a].startLine + 2 + k
    ensures p < |nl| && nl[p] == RowLine(tables[a].rows[k], Widths(tables[a])) && '\n' !in nl[p]
  {
    WrittenLine(lines, tables, blocks, nl, a, 2 + k, p);
    BodyBlockLine(tables, blocks, a, k);
  }

  lemma {:induction false} BodyLineAt(lines: seq<string>, tables: seq<MarkdownTable>, blocks: seq<seq<string>>, nl: seq<string>, a: nat, k: nat, p: nat)
    requires Rewritten(lines, tables, blocks, nl) && NoSeparatorRows(tables) && a < |tables| && k < |tables[a].rows|
    requires p == tables[a].startLine + 2 + k
    ensures
      && p < |lines| && p < |nl| && nl[p] != [] && '\n' !in nl[p]
      && ClassOf(nl[p]).row == ClassOf(lines[p]).row && ClassOf(nl[p]).separator == ClassOf(lines[p]).separator
      && FitRow(ParseRow(nl[p]), |tables[a].headers|) == FitRow(ParseRow(lines[p]), |tables[a].headers|)
  {
    BodyRowOf(lines, tables, a, k, p);
    WrittenBodyLine(lines, tables, blocks, nl, a, k, p);
    BodyReread(lines[p], nl[p], tables[a], k);
  }

  /** Body row `k` of table `a` is read from line `p`, a body line, under at least one header cell. */
  lemma {:induction false} BodyRowOf(lines: seq<string>, tables: seq<MarkdownTable>, a: nat, k: nat, p: nat)
    requires tables == TablesIn(lines) && a < |tables| && k < |tables[a].rows|
    requires p == tables[a].startLine + 2 + k
    ensures p < |lines| && tables[a].rows[k] == FitRow(ParseRow(lines[p]), |tables[a].headers|)
    ensures |tables[a].headers| >= 1 && InBody(lines[p])
  {
    TableCells(lines, a);
    RowOf(lines, tables, a, k, p);
    TableBody(lines, a, p);
    RowHasCells(lines[tables[a].startLine]);
  }

  /** A line after a table's first line, up to its last, is covered by the scan's spans. */
  lemma {:induction false} InsideCovered(lines: seq<string>, a: nat, p: nat)
    requires a < |TablesIn(lines)| && TablesIn(lines)[a].startLine < p <= TablesIn(lines)[a].endLine
    ensures Covered(Spans(Classify(lines), 0, None), p)
  {
    var spans := Spans(Classify(lines), 0, None);
    TableOfSpan(lines, a);
    TableOfFields(Views(lines), spans[a]);
    CoveredAt(spans, a, p);
  }

  /** Either some table's lines hold line `p`, or it lies outside every table. */
  lemma {:induction false} Locate(tables: seq<MarkdownTable>, p: nat) returns (inside: bool, a: nat)
    ensures inside ==> a < |tables| && tables[a].startLine <= p <= tables[a].endLine
    ensures !inside ==> forall b :: 0 <= b < |tables| ==> p < tables[b].startLine || tables[b].endLine < p
  {
    if b :| 0 <= b < |tables| && tables[b].startLine <= p <= tables[b].endLine {
      inside, a := true, b;
    } else {
      inside, a := false, 0;
    }
  }

  /** Every line of the rebuilt document holds no newline, and is empty only if the original line was. */
  lemma {:induction false} NewLineFacts(lines: seq<string>, tables: seq<MarkdownTable>, blocks: seq<seq<string>>, nl: seq<string>, p: nat)
    requires Rewritten(lines, tables, blocks, nl) && p < |lines|
    ensures p < |nl| && '\n' !in nl[p] && (lines[p] != [] ==> nl[p] != [])
  {
    var inside, a := Locate(tables, p);
    if !inside {
      NewLinesVerbatim(lines, tables, blocks, p);
    } else {
      TableCells(lines, a);
      var k := p - tables[a].startLine;
      WrittenLine(lines, tables, blocks, nl, a, k, p);
      if k == 0 {
        HeaderBlockLine(tables, blocks, a);
      } else if k == 1 {
        SeparatorBlockLine(tables, blocks, a);
      } else {
        BodyBlockLine(tables, blocks, a, k - 2);
      }
    }
  }

  /**
   * Every line of the rebuilt document holds no newline, is empty only if
   * the original line was, and is classified as the original line was:
   * the same table and separator rows, and the same heading lines except
   * inside the spans the scan found.
   */
  lemma {:induction false} NewLineAt(lines: seq<string>, tables: seq<MarkdownTable>, blocks: seq<seq<string>>, nl: seq<string>, p: nat)
    requires Rewritten(lines, tables, blocks, nl) && NoSeparatorRows(tables) && p < |lines|
    ensures p < |nl| && '\n' !in nl[p] && (lines[p] != [] ==> nl[p] != [])
    ensures ClassOf(nl[p]).row == ClassOf(lines[p]).row && ClassOf(nl[p]).separator == ClassOf(lines[p]).separator
    ensures ClassOf(nl[p]).heading == ClassOf(lines[p]).heading || Covered(Spans(Classify(lines), 0, None), p)
  {
    var inside, a := Locate(tables, p);
    if !inside {
      NewLinesVerbatim(lines, tables, blocks, p);
    } else if p == tables[a].startLine {
      HeaderAt(lines, tables, blocks, nl, a, p);
    } else {
      InsideCovered(lines, a, p);
      if p == tables[a].startLine + 1 {
        SeparatorAt(lines, tables, blocks, nl, a, p);
      } else {
        TableCells(lines, a);
        BodyLineAt(lines, tables, blocks, nl, a, p - tables[a].startLine - 2, p);
      }
    }
  }

  // ---------------------------------------------------------------------
  // Reading the rebuilt document
  // ---------------------------------------------------------------------

  /** Lines read back agree with the written lines up to surrounding whitespace. */
  predicate ReadAgain(nl: seq<string>, l2: seq<string>) {
    |l2| == |nl| && forall p :: 0 <= p < |nl| ==> Trim(l2[p]) == Trim(nl[p])
  }

  /**
   * The rebuilt text, split into lines again, has as many lines as the
   * original and they agree with the written lines: a final newline is
   * dropped exactly when reading it back would add no line, and a `'\r'`
   * lost before a newline is whitespace.
   */
  lemma {:induction false} ReadBack(lines: seq<string>, tables: seq<MarkdownTable>, blocks: seq<seq<string>>, nl: seq<string>)
    requires Rewritten(lines, tables, blocks, nl) && tables != []
    ensures |nl| == |lines| && ReadAgain(nl, Lines(Rebuild(lines, tables)))
  {
    NewLinesLength(lines, tables, blocks);
    forall p | 0 <= p < |nl| ensures '\n' !in nl[p] {
      NewLineFacts(lines, tables, blocks, nl, p);
    }
    DrawnBlocks(tables, blocks);
    RebuildText(lines, tables);
    if EndsWithEmptyLine(lines) {
      ReadTerminated(nl, Rebuild(lines, tables));
    } else {
      Placed(lines, tables, 0);
      NewLineFacts(lines, tables, blocks, nl, |nl| - 1);
      ReadJoined(nl, Rebuild(lines, tables));
    }
  }

  /** Newline-terminated lines read back as themselves, up to whitespace. */
  lemma {:induction false} ReadTerminated(nl: seq<string>, text: string)
    requires NoNewlines(nl) && text == Terminated(nl)
    ensures ReadAgain(nl, Lines(text))
  {
    LinesOfTerminated(nl);
    forall p | 0 <= p < |nl| ensures Trim(Lines(text)[p]) == Trim(nl[p]) {
      TrimDropCR(nl[p]);
    }
  }

  /** Lines joined by newlines read back as themselves, up to whitespace, when the last is not empty. */
  lemma {:induction false} ReadJoined(nl: seq<string>, text: string)
    requires NoNewlines(nl) && nl != [] && nl[|nl| - 1] != [] && text == JoinLines(nl)
    ensures ReadAgain(nl, Lines(text))
  {
    var n := |nl|;
    LinesOfJoinLines(nl);
    var l2 := Lines(text);
    assert l2 == DropCRs(nl[..n - 1]) + [nl[n - 1]];
    forall p | 0 <= p < n ensures Trim(l2[p]) == Trim(nl[p]) {
      if p < n - 1 {
        assert l2[p] == DropCR(nl[p]);
        TrimDropCR(nl[p]);
      }
    }
  }

  /** Lines that agree up to surrounding whitespace are classified alike. */
  lemma {:induction false} ClassifySameTrim(xs: seq<string>, ys: seq<string>)
    requires |xs| == |ys| && forall p :: 0 <= p < |xs| ==> Trim(xs[p]) == Trim(ys[p])
    ensures Classify(xs) == Classify(ys)
  {
    forall p | 0 <= p < |xs| ensures Classify(xs)[p] == Classify(ys)[p] {
      ClassifyAt(xs, p);
      ClassifyAt(ys, p);
      SameTrim(xs[p], ys[p]);
    }
  }

  /**
   * The rebuilt document, read again, is classified so that the scan finds
   * the same spans: only heading lines inside tables' bodies can differ.
   */
  lemma {:induction false} SameSpans(lines: seq<string>, tables: seq<MarkdownTable>, blocks: seq<seq<string>>, nl: seq<string>, l2: seq<string>)
    requires Rewritten(lines, tables, blocks, nl) && NoSeparatorRows(tables) && |nl| == |lines| && ReadAgain(nl, l2)
    ensures Spans(Classify(l2), 0, None) == Spans(Classify(lines), 0, None)
  {
    var k1, k2 := Classify(lines), Classify(l2);
    forall p | 0 <= p < |lines|
      ensures k1[p].row == k2[p].row && k1[p].separator == k2[p].separator
      ensures k1[p].heading == k2[p].heading || Covered(Spans(k1, 0, None), p)
    {
      ClassifyAt(lines, p);
      ClassifyAt(l2, p);
      SameTrim(l2[p], nl[p]);
      NewLineAt(lines, tables, blocks, nl, p);
    }
    SpansAgree(k1, k2, 0, None);
  }

  /** The rebuilt document, written as `nl` and read again as `l2`, with no body row read as a separator row. */
  predicate Reread(lines: seq<string>, tables: seq<MarkdownTable>, blocks: seq<seq<string>>, nl: seq<string>, l2: seq<string>) {
    Rewritten(lines, tables, blocks, nl) && NoSeparatorRows(tables) && |nl| == |lines| && ReadAgain(nl, l2)
  }

  /** Where the `a`-th span lies and what the `a`-th table read from it. */
  lemma {:induction false} SpanOf(lines: seq<string>, tables: seq<MarkdownTable>, a: nat, s: Span)
    requires tables == TablesIn(lines) && a < |tables| && s == Spans(Classify(lines), 0, None)[a]
    ensures Fits(|lines|, s) && HeadingBefore(Classify(lines), s.start, s.heading)
    ensures s.start == tables[a].startLine && s.end == tables[a].endLine && |tables[a].rows| == s.end - s.start - 1
    ensures tables[a].headers == Views(lines)[s.start].cells
    ensures tables[a].alignments == Views(lines)[s.start + 1].alignments
  {
    TableOfSpan(lines, a);
    TableOfFields(Views(lines), s);
  }

  lemma {:induction false} SpanHeaderReread(lines: seq<string>, tables: seq<MarkdownTable>, blocks: seq<seq<string>>, nl: seq<string>,
                                            l2: seq<string>, a: nat, s: Span)
    requires Reread(lines, tables, blocks, nl, l2)
    requires a < |tables| && s == Spans(Classify(lines), 0, None)[a]
    ensures Fits(|lines|, s) && Views(l2)[s.start].cells == Views(lines)[s.start].cells
  {
    SpanOf(lines, tables, a, s);
    HeaderAt(lines, tables, blocks, nl, a, s.start);
    SameTrim(l2[s.start], nl[s.start]);
    CellsAt(lines, s.start);
    CellsAt(l2, s.start);
  }

  lemma {:induction false} SpanSeparatorReread(lines: seq<string>, tables: seq<MarkdownTable>, blocks: seq<seq<string>>, nl: seq<string>,
                                               l2: seq<string>, a: nat, s: Span)
    requires Reread(lines, tables, blocks, nl, l2)
    requires a < |tables| && s == Spans(Classify(lines), 0, None)[a]
    ensures Fits(|lines|, s)
    ensures Views(l2)[s.start + 1].alignments
      == DrawnAlignments(Views(lines)[s.start + 1].alignments, |Views(lines)[s.start].cells|)
  {
    var p := s.start + 1;
    SpanOf(lines, tables, a, s);
    SeparatorAt(lines, tables, blocks, nl, a, p);
    assert Views(l2)[p].alignments == ParseAlignments(nl[p]) by {
      SameTrim(l2[p], nl[p]);
      AlignmentsAt(l2, p);
    }
  }

  lemma {:induction false} SpanBodyReread(lines: seq<string>, tables: seq<MarkdownTable>, blocks: seq<seq<string>>, nl: seq<string>,
                                          l2: seq<string>, a: nat, s: Span, p: nat)
    requires Reread(lines, tables, blocks, nl, l2)
    requires a < |tables| && s == Spans(Classify(lines), 0, None)[a] && s.start + 2 <= p <= s.end
    ensures p < |lines|
    ensures FitRow(Views(l2)[p].cells, |Views(lines)[s.start].cells|)
      == FitRow(Views(lines)[p].cells, |Views(lines)[s.start].cells|)
  {
    SpanOf(lines, tables, a, s);
    BodyLineAt(lines, tables, blocks, nl, a, p - s.start - 2, p);
    SameTrim(l2[p], nl[p]);
    CellsAt(lines, p);
    CellsAt(l2, p);
  }

  lemma {:induction false} SpanBodiesReread(lines: seq<string>, tables: seq<MarkdownTable>, blocks: seq<seq<string>>, nl: seq<string>,
                                            l2: seq<string>, a: nat, s: Span)
    requires Reread(lines, tables, blocks, nl, l2)
    requires a < |tables| && s == Spans(Classify(lines), 0, None)[a] && s.start < |lines|
    ensures RowsAgree(Views(lines), Views(l2), s)
  {
    forall p | s.start + 2 <= p <= s.end && p < |Views(lines)| && p < |Views(l2)|
      ensures FitRow(Views(l2)[p].cells, |Views(lines)[s.start].cells|)
        == FitRow(Views(lines)[p].cells, |Views(lines)[s.start].cells|)
    {
      SpanBodyReread(lines, tables, blocks, nl, l2, a, s, p);
    }
  }

  /** The heading line a table is filed under lies outside every table, so it is copied as it was. */
  lemma {:induction false} SpanHeadingReread(lines: seq<string>, tables: seq<MarkdownTable>, blocks: seq<seq<string>>, nl: seq<string>,
                                             l2: seq<string>, a: nat, s: Span)
    requires Reread(lines, tables, blocks, nl, l2)
    requires a < |tables| && s == Spans(Classify(lines), 0, None)[a] && s.heading.Some?
    ensures s.heading.value < |lines| && Views(l2)[s.heading.value].title == Views(lines)[s.heading.value].title
  {
    var h := s.heading.value;
    var spans := Spans(Classify(lines), 0, None);
    SpanOf(lines, tables, a, s);
    SpanHeadingsUncovered(Classify(lines), 0, None);
    assert !Covered(spans, h);
    forall b | 0 <= b < |tables| ensures h < tables[b].startLine || tables[b].endLine < h {
      if tables[b].startLine < h <= tables[b].endLine {
        InsideCovered(lines, b, h);
      } else if h == tables[b].startLine {
        TableOpens(lines, b);
        ClassifyAt(lines, h);
      }
    }
    NewLinesVerbatim(lines, tables, blocks, h);
    SameTrim(l2[h], nl[h]);
    ViewsAt(lines, h);
    ViewsAt(l2, h);
  }

  /** The header, separator and body lines of a span read the same in the rebuilt document. */
  lemma {:induction false} SpanLinesReread(lines: seq<string>, tables: seq<MarkdownTable>, blocks: seq<seq<string>>, nl: seq<string>,
                                           l2: seq<string>, a: nat, s: Span)
    requires Reread(lines, tables, blocks, nl, l2)
    requires a < |tables| && s == Spans(Classify(lines), 0, None)[a]
    ensures Fits(|Views(lines)|, s) && |Views(l2)| == |Views(lines)|
    ensures Views(l2)[s.start].cells == Views(lines)[s.start].cells
    ensures Views(l2)[s.start + 1].alignments
      == DrawnAlignments(Views(lines)[s.start + 1].alignments, |Views(lines)[s.start].cells|)
    ensures RowsAgree(Views(lines), Views(l2), s)
  {
    SpanHeaderReread(lines, tables, blocks, nl, l2, a, s);
    SpanSeparatorReread(lines, tables, blocks, nl, l2, a, s);
    SpanBodiesReread(lines, tables, blocks, nl, l2, a, s);
  }

  /** Every span of the document reads the same in the rebuilt document. */
  lemma {:induction false} SpanReread(lines: seq<string>, tables: seq<MarkdownTable>, blocks: seq<seq<string>>, nl: seq<string>,
                                      l2: seq<string>, a: nat)
    requires Reread(lines, tables, blocks, nl, l2)
    requires a < |tables|
    ensures a < |Spans(Classify(lines), 0, None)|
    ensures SameReading(Views(lines), Views(l2), Spans(Classify(lines), 0, None)[a])
  {
    var s := Spans(Classify(lines), 0, None)[a];
    SpanLinesReread(lines, tables, blocks, nl, l2, a, s);
    if s.heading.Some? {
      SpanHeadingReread(lines, tables, blocks, nl, l2, a, s);
    }
  }

  // ---------------------------------------------------------------------
  // The round trip
  // ---------------------------------------------------------------------

  /** Each table with its alignments as the serializer draws them. */
  function NormalizedAll(tables: seq<MarkdownTable>): (r: seq<MarkdownTable>)
    ensures |r| == |tables| && forall a :: 0 <= a < |tables| ==> r[a] == Normalized(tables[a])
  {
    seq(|tables|, a requires 0 <= a < |tables| => Normalized(tables[a]))
  }

  /** A document with tables, rebuilt and read again, gives back its tables, alignments normalized. */
  lemma {:induction false} RereadTables(lines: seq<string>)
    requires NoNewlines(lines) && NoSeparatorRows(TablesIn(lines)) && TablesIn(lines) != []
    ensures Placeable(lines, TablesIn(lines))
    ensures TablesIn(Lines(Rebuild(lines, TablesIn(lines)))) == NormalizedAll(TablesIn(lines))
  {
    var tables := TablesIn(lines);
    ParsedMatched(lines);
    var blocks := Blocks(tables);
    BlocksDrawn(tables);
    var nl := NewLines(lines, tables, blocks);
    ReadBack(lines, tables, blocks, nl);
    var l2 := Lines(Rebuild(lines, tables));
    SameSpans(lines, tables, blocks, nl, l2);
    var spans := Spans(Classify(lines), 0, None);
    SpansFit(Classify(lines));
    SpansFit(Classify(l2));
    assert TablesIn(l2) == TablesOf(Views(l2), spans);
    forall a | 0 <= a < |tables| ensures TablesIn(l2)[a] == Normalized(tables[a]) {
      assert Reread(lines, tables, blocks, nl, l2);
      SpanReread(lines, tables, blocks, nl, l2, a);
      TableReread(Views(lines), Views(l2), spans[a]);
      TablesOfAt(Views(l2), spans, a);
      TableOfSpan(lines, a);
    }
  }

  /** The classes of a document are those of all but its last line, then the last line's. */
  lemma {:induction false} ClassifyLast(lines: seq<string>)
    requires lines != []
    ensures Classify(lines) == Classify(lines[..|lines| - 1]) + [ClassOf(lines[|lines| - 1])]
  {
    var init := lines[..|lines| - 1];
    forall p | 0 <= p < |lines|
      ensures Classify(lines)[p] == (Classify(init) + [ClassOf(lines[|lines| - 1])])[p]
    {
      ClassifyAt(lines, p);
      if p < |init| {
        ClassifyAt(init, p);
      }
    }
  }

  /**
   * A document without tables is written back as its lines joined by
   * newlines, and has no tables when read again: at most its last, empty,
   * line is lost, and an empty line opens no table.
   */
  lemma {:induction false} RereadNoTables(lines: seq<string>)
    requires NoNewlines(lines) && TablesIn(lines) == []
    ensures TablesIn(Lines(Rebuild(lines, []))) == []
  {
    RebuildText(lines, []);
    LinesOfJoinLines(lines);
    var l2 := Lines(JoinLines(lines));
    if lines != [] {
      var n := |lines|;
      var init := lines[..n - 1];
      forall p | 0 <= p < n - 1 ensures Trim(l2[p]) == Trim(init[p]) {
        TrimDropCR(lines[p]);
      }
      if lines[n - 1] == [] {
        ClassifySameTrim(l2, init);
        ClassifyLast(lines);
        SpansPastBlank(Classify(init), ClassOf(lines[n - 1]), 0, None);
      } else {
        assert forall p :: 0 <= p < n ==> Trim(l2[p]) == Trim(lines[p]);
        ClassifySameTrim(l2, lines);
      }
    }
  }

  /**
   * The round trip: parsing a document, rebuilding it from its own tables
   * and parsing the result gives the same tables, with the alignments the
   * serializer draws, provided no body row reads as a separator row.
   */
  lemma {:induction false} ParseRebuildParse(content: string)
    requires NoSeparatorRows(Parse(content).tables)
    ensures Placeable(Parse(content).lines, Parse(content).tables)
    ensures Parse(Rebuild(Parse(content).lines, Parse(content).tables)).tables == NormalizedAll(Parse(content).tables)
  {
    var lines := Lines(content);
    if TablesIn(lines) == [] {
      RereadNoTables(lines);
      assert Placeable(lines, []);
    } else {
      RereadTables(lines);
    }
  }
}
