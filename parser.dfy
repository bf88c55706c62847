/**
 * Extraction of pipe tables from a Markdown document. The document is read
 * line by line; a heading line updates the current heading, a table row
 * directly followed by a separator row opens a table, and the table's body
 * is every following row that is a table row but not a separator row.
 *
 * `Parse` is the specification: the lines are classified, the layout scan
 * finds the spans of the tables, and each span is read into a table.
 * `ParseMarkdown` is the single loop that does all of this at once, proved
 * equal to `Parse`.
 */
module MarkdownParser {
  import opened Strings
  import opened TableGrammar
  import opened TableLayout

  /** One table of the document. Line numbers are 0-based indices into the document's lines. */
  datatype MarkdownTable = MarkdownTable(
    heading: Option<string>,
    headers: seq<string>,
    alignments: seq<string>,
    rows: seq<seq<string>>,
    startLine: nat,
    endLine: nat)

  /** The whole document: every line, and the tables found in it, in document order. */
  datatype ParsedDocument = ParsedDocument(lines: seq<string>, tables: seq<MarkdownTable>)

  /** What the scan asks of one line. */
  function ClassOf(line: string): LineClass {
    LineClass(IsHeadingLine(line), IsTableLine(line), IsSeparatorLine(line))
  }

  /** The class of every line, in order. */
  function Classify(lines: seq<string>): (kinds: seq<LineClass>)
    ensures |kinds| == |lines|
  {
    if lines == [] then [] else [ClassOf(lines[0])] + Classify(lines[1..])
  }

  lemma {:induction false} ClassifyAt(lines: seq<string>, k: nat)
    requires k < |lines|
    ensures Classify(lines)[k] == ClassOf(lines[k])
  {
    if k > 0 {
      ClassifyAt(lines[1..], k - 1);
    }
  }

  /**
   * What the table reader takes from one line: its cells, its alignments,
   * and its title when it is a heading line.
   */
  datatype LineView = LineView(cells: seq<string>, alignments: seq<string>, title: Option<string>)

  function ViewOf(line: string): LineView {
    LineView(ParseRow(line), ParseAlignments(line), if IsHeadingLine(line) then Some(HeadingText(line)) else None)
  }

  /** The view of every line, in order. */
  function Views(lines: seq<string>): (views: seq<LineView>)
    ensures |views| == |lines|
  {
    if lines == [] then [] else [ViewOf(lines[0])] + Views(lines[1..])
  }

  lemma {:induction false} ViewsAt(lines: seq<string>, k: nat)
    requires k < |lines|
    ensures Views(lines)[k] == ViewOf(lines[k])
  {
    if k > 0 {
      ViewsAt(lines[1..], k - 1);
    }
  }

  lemma {:induction false} CellsAt(lines: seq<string>, k: nat)
    requires k < |lines|
    ensures Views(lines)[k].cells == ParseRow(lines[k])
  {
    ViewsAt(lines, k);
  }

  lemma {:induction false} AlignmentsAt(lines: seq<string>, k: nat)
    requires k < |lines|
    ensures Views(lines)[k].alignments == ParseAlignments(lines[k])
  {
    ViewsAt(lines, k);
  }

  lemma {:induction false} TitleAt(lines: seq<string>, k: nat)
    requires k < |lines| && IsHeadingLine(lines[k])
    ensures Views(lines)[k].title == Some(HeadingText(lines[k]))
  {
    ViewsAt(lines, k);
  }

  /** A table opens at `i`: a table row followed by a separator row. */
  predicate StartsTable(lines: seq<string>, i: nat) {
    i + 1 < |lines| && IsTableLine(lines[i]) && IsSeparatorLine(lines[i + 1])
  }

  /** A body row: a table row that is not a separator row. */
  predicate InBody(line: string) {
    IsTableLine(line) && !IsSeparatorLine(line)
  }

  /** `Vec::resize(n, fill)`: cut to `n` entries, or extended to `n` with `fill`. */
  function Resize<T>(row: seq<T>, n: nat, fill: T): (r: seq<T>)
    ensures |r| == n
    ensures forall k :: 0 <= k < n ==> r[k] == if k < |row| then row[k] else fill
  {
    if n <= |row| then row[..n] else row + seq(n - |row|, _ => fill)
  }

  /** `Vec::truncate(n)`: the first `n` entries, or all of them when there are fewer. */
  function Truncate<T>(row: seq<T>, n: nat): (r: seq<T>)
    ensures |r| == if |row| < n then |row| else n
    ensures r == row[..|r|]
  {
    if n < |row| then row[..n] else row
  }

  /** A body row's cells fitted to `n` columns: missing cells are empty, extra cells dropped. */
  function FitRow(cells: seq<string>, n: nat): (r: seq<string>)
    ensures |r| == n
    ensures forall k :: 0 <= k < n ==> r[k] == if k < |cells| then cells[k] else ""
  {
    Truncate(Resize(cells, n, ""), n)
  }

  /** The body rows `views[from..to]`, each fitted to `n` columns. */
  function BodyRows(views: seq<LineView>, from: nat, to: nat, n: nat): (rows: seq<seq<string>>)
    requires from <= to <= |views|
    ensures |rows| == to - from
  {
    if to == from then [] else BodyRows(views, from, to - 1, n) + [FitRow(views[to - 1].cells, n)]
  }

  lemma {:induction false} BodyRowsAt(views: seq<LineView>, from: nat, to: nat, n: nat, k: nat)
    requires from <= to <= |views| && k < to - from
    ensures BodyRows(views, from, to, n)[k] == FitRow(views[from + k].cells, n)
  {
    if k < to - from - 1 {
      BodyRowsAt(views, from, to - 1, n, k);
    }
  }

  /** The title of the heading line `h`, if there is one. */
  function Title(views: seq<LineView>, h: Option<nat>): (title: Option<string>)
    requires h.Some? ==> h.value < |views|
    ensures title.Some? ==> h.Some?
  {
    if h.Some? then views[h.value].title else None
  }

  /** A span that lies within a document of `n` lines. */
  predicate Fits(n: nat, s: Span) {
    s.start < s.end < n && (s.heading.Some? ==> s.heading.value < n)
  }

  /** The table a span covers: header row, separator row, then the body rows. */
  function TableOf(views: seq<LineView>, s: Span): (t: MarkdownTable)
    requires Fits(|views|, s)
  {
    var headers := views[s.start].cells;
    MarkdownTable(Title(views, s.heading), headers, views[s.start + 1].alignments,
                  BodyRows(views, s.start + 2, s.end + 1, |headers|), s.start, s.end)
  }

  /** The fields of the table a span covers. */
  lemma {:induction false} TableOfFields(views: seq<LineView>, s: Span)
    requires Fits(|views|, s)
    ensures var t := TableOf(views, s);
      && t.startLine == s.start && t.endLine == s.end && t.heading == Title(views, s.heading)
      && t.headers == views[s.start].cells && t.alignments == views[s.start + 1].alignments
      && |t.rows| == s.end - s.start - 1
  {
  }

  /** Row `k` of the table a span covers is its `k`-th body line, fitted to the header's width. */
  lemma {:induction false} TableOfRow(views: seq<LineView>, s: Span, k: nat)
    requires Fits(|views|, s) && k < s.end - s.start - 1
    ensures TableOf(views, s).rows[k] == FitRow(views[s.start + 2 + k].cells, |views[s.start].cells|)
  {
    BodyRowsAt(views, s.start + 2, s.end + 1, |views[s.start].cells|, k);
  }

  predicate AllFit(n: nat, spans: seq<Span>) {
    forall a :: 0 <= a < |spans| ==> Fits(n, spans[a])
  }

  /** The table of each span, in order. */
  function TablesOf(views: seq<LineView>, spans: seq<Span>): (tables: seq<MarkdownTable>)
    requires AllFit(|views|, spans)
    ensures |tables| == |spans|
  {
    if spans == [] then []
    else
      var last := |spans| - 1;
      assert forall a :: 0 <= a < last ==> spans[..last][a] == spans[a];
      TablesOf(views, spans[..last]) + [TableOf(views, spans[last])]
  }

  lemma {:induction false} TablesOfAt(views: seq<LineView>, spans: seq<Span>, a: nat)
    requires AllFit(|views|, spans) && a < |spans|
    ensures TablesOf(views, spans)[a] == TableOf(views, spans[a])
  {
    var last := |spans| - 1;
    if a < last {
      assert forall b :: 0 <= b < last ==> spans[..last][b] == spans[b];
      TablesOfAt(views, spans[..last], a);
    }
  }

  lemma {:induction false} TablesOfPush(views: seq<LineView>, spans: seq<Span>, s: Span)
    requires AllFit(|views|, spans) && Fits(|views|, s)
    ensures AllFit(|views|, spans + [s])
    ensures TablesOf(views, spans + [s]) == TablesOf(views, spans) + [TableOf(views, s)]
  {
    assert (spans + [s])[..|spans|] == spans;
  }

  /** Every span the scan finds from the top of the document lies within it. */
  lemma {:induction false} SpansFit(kinds: seq<LineClass>)
    ensures AllFit(|kinds|, Spans(kinds, 0, None))
  {
    var spans := Spans(kinds, 0, None);
    forall a | 0 <= a < |spans| ensures Fits(|kinds|, spans[a]) {
      SpanFound(kinds, 0, None, a);
    }
  }

  /** The tables of a document, given its lines. */
  function TablesIn(lines: seq<string>): (tables: seq<MarkdownTable>)
    ensures |tables| == |Spans(Classify(lines), 0, None)|
  {
    SpansFit(Classify(lines));
    TablesOf(Views(lines), Spans(Classify(lines), 0, None))
  }

  /** The parse of a whole document. */
  function Parse(content: string): ParsedDocument {
    var lines := Lines(content);
    ParsedDocument(lines, TablesIn(lines))
  }

  /**
   * The body of a table whose rows start at `from`: every following body row,
   * parsed and fitted to `n` columns, and the index just past the last one.
   */
  method ReadBody(lines: seq<string>, from: nat, n: nat) returns (rows: seq<seq<string>>, j: nat)
    requires from <= |lines|
    ensures from <= j <= |lines| && j == BodyEnd(Classify(lines), from)
    ensures rows == BodyRows(Views(lines), from, j, n)
  {
    ghost var kinds := Classify(lines);
    ghost var views := Views(lines);
    var len := |lines|;
    rows := [];
    j := from;
    while j < len && IsTableLine(lines[j]) && !IsSeparatorLine(lines[j])
      invariant from <= j <= len
      invariant BodyEnd(kinds, j) == BodyEnd(kinds, from)
      invariant rows == BodyRows(views, from, j, n)
      decreases len - j
    {
      ClassifyAt(lines, j);
      CellsAt(lines, j);
      assert IsBody(kinds[j]);
      var row := ParseRow(lines[j]);
      row := Resize(row, n, "");
      row := Truncate(row, n);
      rows := rows + [row];
      j := j + 1;
    }
    if j < len {
      ClassifyAt(lines, j);
    }
  }

  /** A table put together from the rows at `i`, `i + 1` and `i + 2 .. j` is the table of its span. */
  lemma {:induction false} TableAssembled(views: seq<LineView>, i: nat, j: nat, h: Option<nat>, table: MarkdownTable)
    requires i + 2 <= j <= |views| && (h.Some? ==> h.value < |views|)
    requires table.heading == Title(views, h) && table.startLine == i && table.endLine == j - 1
    requires table.headers == views[i].cells && table.alignments == views[i + 1].alignments
    requires table.rows == BodyRows(views, i + 2, j, |views[i].cells|)
    ensures Fits(|views|, Span(i, j - 1, h)) && table == TableOf(views, Span(i, j - 1, h))
  {
  }

  /**
   * The table whose header row is line `i`: its header and separator rows
   * and its body, under the heading `heading` (the title of line `h`).
   */
  method ReadTable(lines: seq<string>, i: nat, heading: Option<string>, ghost h: Option<nat>)
    returns (table: MarkdownTable, j: nat)
    requires i + 1 < |lines|
    requires (h.Some? ==> h.value < |lines|) && heading == Title(Views(lines), h)
    ensures j == BodyEnd(Classify(lines), i + 2)
    ensures Fits(|lines|, Span(i, j - 1, h)) && table == TableOf(Views(lines), Span(i, j - 1, h))
  {
    var headers := ParseRow(lines[i]);
    var alignments := ParseAlignments(lines[i + 1]);
    var rows;
    rows, j := ReadBody(lines, i + 2, |headers|);
    table := MarkdownTable(heading, headers, alignments, rows, i, j - 1);
    CellsAt(lines, i);
    AlignmentsAt(lines, i + 1);
    TableAssembled(Views(lines), i, j, h, table);
  }

  /**
   * The state of the parser before line `i` of a document whose lines have
   * classes `kinds` and views `views`: `h` is the heading line in force
   * (whose title is `lastHeading`), `done` are the spans found so far and
   * `tables` the tables read from them; what remains to be found is exactly
   * what the scan finds from `i` on.
   */
  predicate Scanned(kinds: seq<LineClass>, views: seq<LineView>, i: nat, h: Option<nat>,
                    lastHeading: Option<string>, done: seq<Span>, tables: seq<MarkdownTable>)
  {
    && |views| == |kinds|
    && i <= |kinds|
    && HeadingBefore(kinds, i, h)
    && lastHeading == Title(views, h)
    && done + Spans(kinds, i, h) == Spans(kinds, 0, None)
    && AllFit(|kinds|, done) && tables == TablesOf(views, done)
  }

  lemma {:induction false} ScannedStart(kinds: seq<LineClass>, views: seq<LineView>)
    requires |views| == |kinds|
    ensures Scanned(kinds, views, 0, None, None, [], [])
  {
    assert [] + Spans(kinds, 0, None) == Spans(kinds, 0, None);
  }

  /** A heading line becomes the heading in force. */
  lemma {:induction false} ScannedHeading(kinds: seq<LineClass>, views: seq<LineView>, i: nat, h: Option<nat>,
                       lastHeading: Option<string>, done: seq<Span>, tables: seq<MarkdownTable>)
    requires i < |kinds| && i < |views| && kinds[i].heading
    ensures Scanned(kinds, views, i, h, lastHeading, done, tables) ==>
            Scanned(kinds, views, i + 1, Some(i), views[i].title, done, tables)
  {
    SkipStep(kinds, i, h);
  }

  /** A line that opens a table adds the table; the scan resumes after its body. */
  lemma {:induction false} ScannedTable(kinds: seq<LineClass>, views: seq<LineView>, i: nat, h: Option<nat>,
                     lastHeading: Option<string>, done: seq<Span>, tables: seq<MarkdownTable>,
                     table: MarkdownTable, j: nat)
    requires Opens(kinds, i) && !kinds[i].heading && j == BodyEnd(kinds, i + 2)
    requires Fits(|views|, Span(i, j - 1, h)) && table == TableOf(views, Span(i, j - 1, h))
    ensures Scanned(kinds, views, i, h, lastHeading, done, tables) ==>
            Scanned(kinds, views, j, h, lastHeading, done + [Span(i, j - 1, h)], tables + [table])
  {
    if Scanned(kinds, views, i, h, lastHeading, done, tables) {
      var s := Span(i, j - 1, h);
      var rest := Spans(kinds, j, h);
      assert Spans(kinds, i, h) == [s] + rest by {
        TableStep(kinds, i, h);
      }
      TablesOfPush(views, done, s);
      assert (done + [s]) + rest == done + ([s] + rest);
    }
  }

  /** A line that is neither a heading line nor opens a table is passed over. */
  lemma {:induction false} ScannedOther(kinds: seq<LineClass>, views: seq<LineView>, i: nat, h: Option<nat>,
                     lastHeading: Option<string>, done: seq<Span>, tables: seq<MarkdownTable>)
    requires i < |kinds| && !kinds[i].heading && !Opens(kinds, i)
    ensures Scanned(kinds, views, i, h, lastHeading, done, tables) ==>
            Scanned(kinds, views, i + 1, h, lastHeading, done, tables)
  {
    SkipStep(kinds, i, h);
  }

  /** At the end of the document every table has been found. */
  lemma {:induction false} ScannedEnd(kinds: seq<LineClass>, views: seq<LineView>, h: Option<nat>,
                   lastHeading: Option<string>, done: seq<Span>, tables: seq<MarkdownTable>)
    requires Scanned(kinds, views, |kinds|, h, lastHeading, done, tables)
    ensures AllFit(|views|, Spans(kinds, 0, None)) && tables == TablesOf(views, Spans(kinds, 0, None))
  {
    assert done == Spans(kinds, 0, None);
  }

  /**
   * One step of the parser's loop at line `i`: a heading line is taken as
   * the heading in force, a line that opens a table has its table read, and
   * any other line is passed over.
   */
  method ScanLine(lines: seq<string>, i: nat, ghost h: Option<nat>, lastHeading: Option<string>,
                  ghost done: seq<Span>, tables: seq<MarkdownTable>)
    returns (next: nat, ghost h': Option<nat>, lastHeading': Option<string>,
             ghost done': seq<Span>, tables': seq<MarkdownTable>)
    requires i < |lines| && Scanned(Classify(lines), Views(lines), i, h, lastHeading, done, tables)
    ensures i < next && Scanned(Classify(lines), Views(lines), next, h', lastHeading', done', tables')
  {
    ghost var kinds := Classify(lines);
    ghost var views := Views(lines);
    var len := |lines|;
    ClassifyAt(lines, i);
    if i + 1 < len {
      ClassifyAt(lines, i + 1);
    }
    var trimmed := Trim(lines[i]);
    if |trimmed| > 0 && trimmed[0] == '#' {
      TitleAt(lines, i);
      ScannedHeading(kinds, views, i, h, lastHeading, done, tables);
      next, h', lastHeading', done', tables' := i + 1, Some(i), Some(Trim(TrimHashes(trimmed))), done, tables;
    } else if i + 1 < len && IsTableLine(lines[i]) && IsSeparatorLine(lines[i + 1]) {
      var table, j := ReadTable(lines, i, lastHeading, h);
      ScannedTable(kinds, views, i, h, lastHeading, done, tables, table, j);
      next, h', lastHeading', done', tables' := j, h, lastHeading, done + [Span(i, j - 1, h)], tables + [table];
    } else {
      ScannedOther(kinds, views, i, h, lastHeading, done, tables);
      next, h', lastHeading', done', tables' := i + 1, h, lastHeading, done, tables;
    }
  }

  /** The parser: one pass over the lines, collecting tables as it meets them. */
  method ParseMarkdown(content: string) returns (doc: ParsedDocument)
    ensures doc == Parse(content)
  {
    var lines := Lines(content);
    ghost var done: seq<Span> := [];
    ghost var h: Option<nat> := None;
    var tables: seq<MarkdownTable> := [];
    var i := 0;
    var len := |lines|;
    var lastHeading: Option<string> := None;
    ScannedStart(Classify(lines), Views(lines));

    while i < len
      invariant i <= len
      invariant Scanned(Classify(lines), Views(lines), i, h, lastHeading, done, tables)
      decreases len - i
    {
      i, h, lastHeading, done, tables := ScanLine(lines, i, h, lastHeading, done, tables);
    }
    ScannedEnd(Classify(lines), Views(lines), h, lastHeading, done, tables);
    doc := ParsedDocument(lines, tables);
  }
}
