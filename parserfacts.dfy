/**
 * What the parser promises about the tables it returns, stated over the
 * document's own lines: where a table lies and which lines open and close
 * it, what its header, alignments and rows are, that tables come in order
 * without sharing lines, that no table is missed, and which heading each
 * table is filed under.
 */
module ParserFacts {
  import opened Strings
  import opened TableGrammar
  import opened TableLayout
  import opened MarkdownParser

  /** The `a`-th table of a document is read from the `a`-th span the scan finds. */
  lemma {:induction false} TableOfSpan(lines: seq<string>, a: nat)
    requires a < |TablesIn(lines)|
    ensures var spans := Spans(Classify(lines), 0, None);
      && a < |spans| && IsSpan(Classify(lines), spans[a]) && Fits(|lines|, spans[a])
      && HeadingBefore(Classify(lines), spans[a].start, spans[a].heading)
      && TablesIn(lines)[a] == TableOf(Views(lines), spans[a])
  {
    var kinds := Classify(lines);
    SpansFit(kinds);
    SpanFound(kinds, 0, None, a);
    TablesOfAt(Views(lines), Spans(kinds, 0, None), a);
  }

  // ---------------------------------------------------------------------
  // The same facts over line classes and line views alone
  // ---------------------------------------------------------------------

  /** Where the `a`-th table found under `kinds` lies, and the classes of its lines. */
  lemma {:induction false} SpanTableFrame(kinds: seq<LineClass>, views: seq<LineView>, tables: seq<MarkdownTable>, a: nat)
    requires |views| == |kinds| && AllFit(|views|, Spans(kinds, 0, None)) && a < |Spans(kinds, 0, None)|
    requires tables == TablesOf(views, Spans(kinds, 0, None))
    ensures var t := tables[a];
      && t.startLine + 1 <= t.endLine < |kinds|
      && kinds[t.startLine].row && !kinds[t.startLine].heading && kinds[t.startLine + 1].separator
      && (forall r :: t.startLine + 2 <= r <= t.endLine ==> IsBody(kinds[r]))
      && (t.endLine + 1 < |kinds| ==> !IsBody(kinds[t.endLine + 1]))
  {
    var spans := Spans(kinds, 0, None);
    SpanFound(kinds, 0, None, a);
    SpanFrame(kinds, spans[a]);
    TablesOfAt(views, spans, a);
    TableOfFields(views, spans[a]);
  }

  /** The header, alignments and row count of the `a`-th table, read from the views of its lines. */
  lemma {:induction false} SpanTableCells(kinds: seq<LineClass>, views: seq<LineView>, tables: seq<MarkdownTable>, a: nat)
    requires |views| == |kinds| && AllFit(|views|, Spans(kinds, 0, None)) && a < |Spans(kinds, 0, None)|
    requires tables == TablesOf(views, Spans(kinds, 0, None))
    ensures var t := tables[a];
      && t.startLine + 1 <= t.endLine < |views|
      && t.headers == views[t.startLine].cells
      && t.alignments == views[t.startLine + 1].alignments
      && |t.rows| == t.endLine - t.startLine - 1
  {
    var spans := Spans(kinds, 0, None);
    TablesOfAt(views, spans, a);
    TableOfFields(views, spans[a]);
  }

  /** Row `k` of the `a`-th table is the view of its `k`-th body line, fitted to the header. */
  lemma {:induction false} SpanTableRow(kinds: seq<LineClass>, views: seq<LineView>, tables: seq<MarkdownTable>, a: nat, k: nat)
    requires |views| == |kinds| && AllFit(|views|, Spans(kinds, 0, None)) && a < |Spans(kinds, 0, None)|
    requires tables == TablesOf(views, Spans(kinds, 0, None)) && k < |tables[a].rows|
    ensures var t := tables[a];
      && t.startLine + 2 + k < |views|
      && t.rows[k] == FitRow(views[t.startLine + 2 + k].cells, |t.headers|)
  {
    var spans := Spans(kinds, 0, None);
    TablesOfAt(views, spans, a);
    TableOfFields(views, spans[a]);
    TableOfRow(views, spans[a], k);
  }

  /** The first table's heading is the last heading line above it. */
  lemma {:induction false} SpanTableHeadingFirst(kinds: seq<LineClass>, views: seq<LineView>, tables: seq<MarkdownTable>)
    requires |views| == |kinds| && AllFit(|views|, Spans(kinds, 0, None)) && |Spans(kinds, 0, None)| > 0
    requires tables == TablesOf(views, Spans(kinds, 0, None))
    ensures var t := tables[0];
      && t.startLine <= |kinds|
      && t.heading == Title(views, LastHeading(kinds, 0, t.startLine, None))
  {
    var spans := Spans(kinds, 0, None);
    TablesOfAt(views, spans, 0);
    TableOfFields(views, spans[0]);
    FirstSpanHeading(kinds, 0, None);
  }

  /** A later table's heading is the last heading line since the previous table, or that table's heading. */
  lemma {:induction false} SpanTableHeadingNext(kinds: seq<LineClass>, views: seq<LineView>, tables: seq<MarkdownTable>, a: nat)
    requires |views| == |kinds| && AllFit(|views|, Spans(kinds, 0, None)) && a + 1 < |Spans(kinds, 0, None)|
    requires tables == TablesOf(views, Spans(kinds, 0, None))
    ensures var t, u := tables[a], tables[a + 1];
      && t.endLine < u.startLine <= |kinds|
      && var h := LastHeading(kinds, t.endLine + 1, u.startLine, None);
         u.heading == if h.Some? then Title(views, h) else t.heading
  {
    var spans := Spans(kinds, 0, None);
    TablesOfAt(views, spans, a);
    TablesOfAt(views, spans, a + 1);
    TableOfFields(views, spans[a]);
    TableOfFields(views, spans[a + 1]);
    NextSpanHeadingSplit(kinds, a, tables[a].endLine + 1, tables[a + 1].startLine);
  }

  // ---------------------------------------------------------------------
  // The facts over the document's lines
  // ---------------------------------------------------------------------

  /** A line is a body row exactly when its class says so. */
  lemma {:induction false} BodyAt(lines: seq<string>, r: nat)
    requires r < |lines|
    ensures InBody(lines[r]) == IsBody(Classify(lines)[r])
  {
    ClassifyAt(lines, r);
  }

  /** A table opens at line `i` exactly when the classes of lines `i` and `i + 1` say so. */
  lemma {:induction false} OpensAt(lines: seq<string>, i: nat)
    ensures StartsTable(lines, i) == Opens(Classify(lines), i)
    ensures i < |lines| ==> IsHeadingLine(lines[i]) == Classify(lines)[i].heading
  {
    if i + 1 < |lines| {
      ClassifyAt(lines, i + 1);
    }
    if i < |lines| {
      ClassifyAt(lines, i);
    }
  }

  /** A table's first line is a table row that is not a heading line, and a separator row follows it. */
  lemma {:induction false} TableOpens(lines: seq<string>, a: nat)
    requires a < |TablesIn(lines)|
    ensures var t := TablesIn(lines)[a];
      && t.startLine + 1 <= t.endLine < |lines|
      && StartsTable(lines, t.startLine) && !IsHeadingLine(lines[t.startLine])
  {
    SpansFit(Classify(lines));
    SpanTableFrame(Classify(lines), Views(lines), TablesIn(lines), a);
    var i := TablesIn(lines)[a].startLine;
    OpensAt(lines, i);
  }

  /** Every line after a table's separator row, up to its last line, is a body row. */
  lemma {:induction false} TableBody(lines: seq<string>, a: nat, r: nat)
    requires a < |TablesIn(lines)|
    requires TablesIn(lines)[a].startLine + 2 <= r <= TablesIn(lines)[a].endLine
    ensures r < |lines| && InBody(lines[r])
  {
    SpansFit(Classify(lines));
    SpanTableFrame(Classify(lines), Views(lines), TablesIn(lines), a);
    BodyAt(lines, r);
  }

  /** The line after a table's last line, if there is one, is not a body row. */
  lemma {:induction false} TableCloses(lines: seq<string>, a: nat)
    requires a < |TablesIn(lines)|
    ensures var t := TablesIn(lines)[a];
      t.endLine < |lines| && (t.endLine + 1 < |lines| ==> !InBody(lines[t.endLine + 1]))
  {
    SpansFit(Classify(lines));
    SpanTableFrame(Classify(lines), Views(lines), TablesIn(lines), a);
    var e := TablesIn(lines)[a].endLine + 1;
    if e < |lines| {
      BodyAt(lines, e);
    }
  }

  /**
   * Equality through a middle term, stated with the terms as the caller has
   * them so that the solver need not look for the middle term itself.
   */
  lemma {:induction false} EqualThrough<T>(x: T, y: T, z: T)
    requires x == y && y == z
    ensures x == z
  {
  }

  /** A row fitted from `x` is the row fitted from any `y` equal to `x`. */
  lemma {:induction false} RowFitted(rows: seq<seq<string>>, k: nat, x: seq<string>, y: seq<string>, n: nat)
    requires k < |rows| && rows[k] == FitRow(x, n) && x == y
    ensures rows[k] == FitRow(y, n)
  {
  }

  /**
   * A table's header is its first line parsed as a row, its alignments are
   * its second line's, and it has one row per body line.
   */
  lemma {:induction false} TableCells(lines: seq<string>, a: nat)
    requires a < |TablesIn(lines)|
    ensures var t := TablesIn(lines)[a];
      && t.startLine + 1 <= t.endLine < |lines|
      && t.headers == ParseRow(lines[t.startLine])
      && t.alignments == ParseAlignments(lines[t.startLine + 1])
      && |t.rows| == t.endLine - t.startLine - 1
  {
    SpansFit(Classify(lines));
    SpanTableCells(Classify(lines), Views(lines), TablesIn(lines), a);
    CellsAt(lines, TablesIn(lines)[a].startLine);
    AlignmentsAt(lines, TablesIn(lines)[a].startLine + 1);
    EqualThrough(TablesIn(lines)[a].headers, Views(lines)[TablesIn(lines)[a].startLine].cells,
                 ParseRow(lines[TablesIn(lines)[a].startLine]));
    EqualThrough(TablesIn(lines)[a].alignments, Views(lines)[TablesIn(lines)[a].startLine + 1].alignments,
                 ParseAlignments(lines[TablesIn(lines)[a].startLine + 1]));
  }

  /** Row `k` of a table is its `k`-th body line parsed as a row and fitted to the header's width. */
  lemma {:induction false} TableRow(lines: seq<string>, a: nat, k: nat)
    requires a < |TablesIn(lines)| && k < |TablesIn(lines)[a].rows|
    ensures var t := TablesIn(lines)[a];
      && t.startLine + 2 + k < |lines|
      && t.rows[k] == FitRow(ParseRow(lines[t.startLine + 2 + k]), |t.headers|)
  {
    SpansFit(Classify(lines));
    SpanTableRow(Classify(lines), Views(lines), TablesIn(lines), a, k);
    CellsAt(lines, TablesIn(lines)[a].startLine + 2 + k);
    RowFitted(TablesIn(lines)[a].rows, k, Views(lines)[TablesIn(lines)[a].startLine + 2 + k].cells,
              ParseRow(lines[TablesIn(lines)[a].startLine + 2 + k]), |TablesIn(lines)[a].headers|);
  }

  /** Every body row has exactly as many cells as the header. */
  lemma {:induction false} RowsMatchHeader(lines: seq<string>, a: nat)
    requires a < |TablesIn(lines)|
    ensures forall k :: 0 <= k < |TablesIn(lines)[a].rows| ==> |TablesIn(lines)[a].rows[k]| == |TablesIn(lines)[a].headers|
  {
    forall k | 0 <= k < |TablesIn(lines)[a].rows|
      ensures |TablesIn(lines)[a].rows[k]| == |TablesIn(lines)[a].headers|
    {
      TableRow(lines, a, k);
    }
  }

  /** Tables come in document order, and no line belongs to two of them. */
  lemma {:induction false} TablesOrdered(lines: seq<string>)
    ensures forall a, b :: 0 <= a < b < |TablesIn(lines)| ==>
      TablesIn(lines)[a].endLine < TablesIn(lines)[b].startLine
  {
    var spans := Spans(Classify(lines), 0, None);
    SpansOrdered(Classify(lines), 0, None);
    forall a, b | 0 <= a < b < |TablesIn(lines)|
      ensures TablesIn(lines)[a].endLine < TablesIn(lines)[b].startLine
    {
      TableOfSpan(lines, a);
      TableOfSpan(lines, b);
      assert spans[a].end < spans[b].start;
    }
  }

  /**
   * No table is missed: a line that is not a heading line, is a table row
   * and is followed by a separator row lies within some table (as its
   * header row, or inside an earlier table that already took it).
   */
  lemma {:induction false} TablesComplete(lines: seq<string>, k: nat) returns (a: nat)
    requires StartsTable(lines, k) && !IsHeadingLine(lines[k])
    ensures a < |TablesIn(lines)| && TablesIn(lines)[a].startLine <= k <= TablesIn(lines)[a].endLine
  {
    var kinds := Classify(lines);
    ClassifyAt(lines, k);
    ClassifyAt(lines, k + 1);
    a := SpansComplete(kinds, 0, None, k);
    TableOfSpan(lines, a);
  }

  /** The title of heading line `h`, or none. */
  function HeadingTitle(lines: seq<string>, h: Option<nat>): (title: Option<string>)
    requires h.Some? ==> h.value < |lines|
    ensures title.Some? <==> h.Some?
  {
    if h.Some? then Some(HeadingText(lines[h.value])) else None
  }

  lemma {:induction false} TitleIsHeadingTitle(lines: seq<string>, h: Option<nat>)
    requires h.Some? ==> h.value < |lines| && IsHeadingLine(lines[h.value])
    ensures Title(Views(lines), h) == HeadingTitle(lines, h)
  {
    if h.Some? {
      TitleAt(lines, h.value);
    }
  }

  /**
   * The first table is filed under the last heading line above it, or under
   * no heading when there is none.
   */
  lemma {:induction false} FirstTableHeading(lines: seq<string>)
    requires |TablesIn(lines)| > 0
    ensures var t := TablesIn(lines)[0];
      t.startLine <= |lines| && t.heading == HeadingTitle(lines, LastHeading(Classify(lines), 0, t.startLine, None))
  {
    SpansFit(Classify(lines));
    SpanTableHeadingFirst(Classify(lines), Views(lines), TablesIn(lines));
    var h := LastHeading(Classify(lines), 0, TablesIn(lines)[0].startLine, None);
    if h.Some? {
      ClassifyAt(lines, h.value);
    }
    TitleIsHeadingTitle(lines, h);
  }

  /**
   * A later table is filed under the last heading line between the previous
   * table and it; with none there, it keeps the previous table's heading. A
   * heading line inside a table's body is never one of these.
   */
  lemma {:induction false} NextTableHeading(lines: seq<string>, a: nat)
    requires a + 1 < |TablesIn(lines)|
    ensures var t, u := TablesIn(lines)[a], TablesIn(lines)[a + 1];
      && t.endLine < u.startLine <= |lines|
      && var h := LastHeading(Classify(lines), t.endLine + 1, u.startLine, None);
         u.heading == if h.Some? then HeadingTitle(lines, h) else t.heading
  {
    SpansFit(Classify(lines));
    SpanTableHeadingNext(Classify(lines), Views(lines), TablesIn(lines), a);
    var h := LastHeading(Classify(lines), TablesIn(lines)[a].endLine + 1, TablesIn(lines)[a + 1].startLine, None);
    if h.Some? {
      ClassifyAt(lines, h.value);
      TitleIsHeadingTitle(lines, h);
    }
  }
}
