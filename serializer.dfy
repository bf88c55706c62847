/**
 * Rendering one table back to pipe-table text. Every column gets the width
 * of its widest entry (at least 3); each cell is written left-aligned and
 * padded to that width between single spaces, and the separator row is drawn
 * with dashes and colons according to the column's alignment.
 *
 * Every line is `"|"` followed by one piece and one `"|"` per column
 * (`Framed`), so the facts about lines (their length, their pipes, how the
 * parser reads them back) are proved once, about framed pieces.
 */
module TableSerializer {
  import opened Strings
  import opened TableGrammar
  import opened MarkdownParser

  function Max(a: nat, b: nat): nat {
    if a < b then b else a
  }

  /** `v.get(i).unwrap_or(default)`. */
  function Get<T>(s: seq<T>, i: nat, default: T): T {
    if i < |s| then s[i] else default
  }

  // ---------------------------------------------------------------------
  // Column widths
  // ---------------------------------------------------------------------

  /**
   * Column `c`'s width after the width loop has visited `rows`, starting
   * from `w`: each row that has a cell in column `c` widens it to that
   * cell's length if the cell is longer.
   */
  function ColumnMax(rows: seq<seq<string>>, c: nat, w: nat): nat
    decreases |rows|
  {
    if rows == [] then w
    else
      var last := rows[|rows| - 1];
      var before := ColumnMax(rows[..|rows| - 1], c, w);
      if c < |last| then Max(before, |last[c]|) else before
  }

  /** The width of column `c`: at least 3 and at least its header's length, widened by the rows. */
  function ColumnWidth(table: MarkdownTable, c: nat): nat
    requires c < |table.headers|
  {
    ColumnMax(table.rows, c, Max(|table.headers[c]|, 3))
  }

  /** The width of every column, one per header. */
  function Widths(table: MarkdownTable): (widths: seq<nat>)
    ensures |widths| == |table.headers|
  {
    seq(|table.headers|, c requires 0 <= c < |table.headers| => ColumnWidth(table, c))
  }

  lemma {:induction false} ColumnMaxStep(rows: seq<seq<string>>, r: nat, c: nat, w: nat)
    requires r < |rows|
    ensures ColumnMax(rows[..r + 1], c, w)
      == if c < |rows[r]| then Max(ColumnMax(rows[..r], c, w), |rows[r][c]|) else ColumnMax(rows[..r], c, w)
  {
    assert rows[..r + 1][..r] == rows[..r];
  }

  /**
   * The width loop computes a maximum: the result is at least `w` and at
   * least every cell of column `c`, and it is `w` itself (`r == -1`) or the
   * length of the cell of column `c` in row `r`.
   */
  lemma {:induction false} ColumnMaxIsMax(rows: seq<seq<string>>, c: nat, w: nat) returns (r: int)
    ensures w <= ColumnMax(rows, c, w)
    ensures forall k :: 0 <= k < |rows| && c < |rows[k]| ==> |rows[k][c]| <= ColumnMax(rows, c, w)
    ensures -1 <= r < |rows|
    ensures r == -1 ==> ColumnMax(rows, c, w) == w
    ensures r >= 0 ==> c < |rows[r]| && ColumnMax(rows, c, w) == |rows[r][c]|
    decreases |rows|
  {
    if rows == [] {
      r := -1;
    } else {
      var init := rows[..|rows| - 1];
      var last := rows[|rows| - 1];
      r := ColumnMaxIsMax(init, c, w);
      assert forall k :: 0 <= k < |init| ==> init[k] == rows[k];
      if c < |last| && ColumnMax(init, c, w) < |last[c]| {
        r := |rows| - 1;
      }
    }
  }

  /**
   * The width of a column is the largest of 3, its header's length and the
   * lengths of its cells: it is at least each of them and equal to one.
   */
  lemma {:induction false} ColumnWidthIsMax(table: MarkdownTable, c: nat) returns (r: int)
    requires c < |table.headers|
    ensures 3 <= ColumnWidth(table, c) && |table.headers[c]| <= ColumnWidth(table, c)
    ensures forall k :: 0 <= k < |table.rows| && c < |table.rows[k]| ==> |table.rows[k][c]| <= ColumnWidth(table, c)
    ensures -1 <= r < |table.rows|
    ensures r == -1 ==> ColumnWidth(table, c) == 3 || ColumnWidth(table, c) == |table.headers[c]|
    ensures r >= 0 ==> c < |table.rows[r]| && ColumnWidth(table, c) == |table.rows[r][c]|
  {
    r := ColumnMaxIsMax(table.rows, c, Max(|table.headers[c]|, 3));
  }

  // ---------------------------------------------------------------------
  // Lines as framed pieces
  // ---------------------------------------------------------------------

  /** Each piece followed by a pipe: what follows the leading `"|"` of a line. */
  function Framed(pieces: seq<string>): string
    decreases |pieces|
  {
    if pieces == [] then [] else Framed(pieces[..|pieces| - 1]) + pieces[|pieces| - 1] + "|"
  }

  /** Writing one more piece and its pipe after `prefix + Framed(pieces[..n])`. */
  lemma {:induction false} FramedPush(prefix: string, pieces: seq<string>, n: nat)
    requires n < |pieces|
    ensures prefix + Framed(pieces[..n]) + pieces[n] + "|" == prefix + Framed(pieces[..n + 1])
  {
    assert pieces[..n + 1][..n] == pieces[..n];
  }

  /** A body or header cell: ` {:<w} ` as the format string writes it. */
  function CellPiece(cell: string, w: nat): string {
    " " + PadRight(cell, w) + " "
  }

  /** The pieces of a body or header row, one per column; a missing cell is empty. */
  function RowPieces(cells: seq<string>, widths: seq<nat>): (pieces: seq<string>)
    ensures |pieces| == |widths|
  {
    seq(|widths|, c requires 0 <= c < |widths| => CellPiece(Get(cells, c, ""), widths[c]))
  }

  /** The line of a body or header row. */
  function RowLine(cells: seq<string>, widths: seq<nat>): string {
    "|" + Framed(RowPieces(cells, widths))
  }

  /** The separator piece of one column, drawn from its alignment; an unknown alignment is drawn as none. */
  function SeparatorPiece(align: string, w: nat): string {
    if align == AlignLeft then ":" + Repeat('-', w) + "-"
    else if align == AlignRight then " " + Repeat('-', w) + ":"
    else if align == AlignCenter then ":" + Repeat('-', w) + ":"
    else " " + Repeat('-', w) + "-"
  }

  /** The separator pieces, one per column; a missing alignment is none. */
  function SeparatorPieces(alignments: seq<string>, widths: seq<nat>): (pieces: seq<string>)
    ensures |pieces| == |widths|
  {
    seq(|widths|, c requires 0 <= c < |widths| => SeparatorPiece(Get(alignments, c, AlignNone), widths[c]))
  }

  function SeparatorLine(alignments: seq<string>, widths: seq<nat>): string {
    "|" + Framed(SeparatorPieces(alignments, widths))
  }

  /** The body lines, one per row. */
  function BodyLines(rows: seq<seq<string>>, widths: seq<nat>): (lines: seq<string>)
    ensures |lines| == |rows|
  {
    seq(|rows|, r requires 0 <= r < |rows| => RowLine(rows[r], widths))
  }

  /** The lines of a serialized table: header row, separator row, then one line per row. */
  function TableLines(table: MarkdownTable): (lines: seq<string>)
    ensures |lines| == 2 + |table.rows|
  {
    var widths := Widths(table);
    [RowLine(table.headers, widths), SeparatorLine(table.alignments, widths)] + BodyLines(table.rows, widths)
  }

  /** Line `k` of a serialized table: the header row, the separator row, or body row `k - 2`. */
  lemma {:induction false} TableLineAt(table: MarkdownTable, k: nat)
    requires k < 2 + |table.rows|
    ensures TableLines(table)[k] == if k == 0 then RowLine(table.headers, Widths(table))
      else if k == 1 then SeparatorLine(table.alignments, Widths(table))
      else RowLine(table.rows[k - 2], Widths(table))
  {
  }

  /** The text of a serialized table: each of its lines followed by a newline. */
  function Serialize(table: MarkdownTable): string {
    Terminated(TableLines(table))
  }

  // ---------------------------------------------------------------------
  // The serializer
  // ---------------------------------------------------------------------

  /** The width loop: each column starts at its header's length (at least 3) and is widened by every row. */
  method ColumnWidths(table: MarkdownTable) returns (widths: seq<nat>)
    ensures widths == Widths(table)
  {
    var colCount := |table.headers|;
    widths := seq(colCount, c requires 0 <= c < colCount => Max(|table.headers[c]|, 3));
    var r := 0;
    while r < |table.rows|
      invariant r <= |table.rows| && |widths| == colCount
      invariant forall c :: 0 <= c < colCount ==> widths[c] == ColumnMax(table.rows[..r], c, Max(|table.headers[c]|, 3))
    {
      var row := table.rows[r];
      var ci := 0;
      while ci < |row|
        invariant ci <= |row| && |widths| == colCount
        invariant forall c :: 0 <= c < colCount ==>
          (widths[c] == if c < ci then ColumnMax(table.rows[..r + 1], c, Max(|table.headers[c]|, 3))
                        else ColumnMax(table.rows[..r], c, Max(|table.headers[c]|, 3)))
      {
        if ci < colCount {
          ColumnMaxStep(table.rows, r, ci, Max(|table.headers[ci]|, 3));
          widths := widths[ci := Max(widths[ci], |row[ci]|)];
        }
        ci := ci + 1;
      }
      forall c | 0 <= c < colCount && ci <= c
        ensures widths[c] == ColumnMax(table.rows[..r + 1], c, Max(|table.headers[c]|, 3))
      {
        ColumnMaxStep(table.rows, r, c, Max(|table.headers[c]|, 3));
      }
      r := r + 1;
    }
    assert table.rows[..r] == table.rows;
  }

  /** Writes one header or body row: a pipe, then each column's cell padded to its width, then a newline. */
  method PushRow(out: string, cells: seq<string>, widths: seq<nat>) returns (res: string)
    ensures res == out + RowLine(cells, widths) + "\n"
  {
    var pieces := RowPieces(cells, widths);
    res := out + "|";
    var ci := 0;
    while ci < |widths|
      invariant ci <= |widths|
      invariant res == out + "|" + Framed(pieces[..ci])
    {
      var w := Get(widths, ci, 3);
      var cell := Get(cells, ci, "");
      FramedPush(out + "|", pieces, ci);
      res := res + CellPiece(cell, w) + "|";
      ci := ci + 1;
    }
    assert pieces[..ci] == pieces;
    res := res + "\n";
  }

  /** Writes the separator row: a pipe, then each column's dashes drawn by its alignment, then a newline. */
  method PushSeparator(out: string, alignments: seq<string>, widths: seq<nat>) returns (res: string)
    ensures res == out + SeparatorLine(alignments, widths) + "\n"
  {
    var pieces := SeparatorPieces(alignments, widths);
    res := out + "|";
    var ci := 0;
    while ci < |widths|
      invariant ci <= |widths|
      invariant res == out + "|" + Framed(pieces[..ci])
    {
      var w := Get(widths, ci, 3);
      var align := Get(alignments, ci, AlignNone);
      FramedPush(out + "|", pieces, ci);
      res := res + SeparatorPiece(align, w) + "|";
      ci := ci + 1;
    }
    assert pieces[..ci] == pieces;
    res := res + "\n";
  }

  /** The header row and the separator row, each with its newline, begin the serialized text. */
  lemma {:induction false} SerializedHead(table: MarkdownTable)
    ensures Terminated(TableLines(table)[..2])
      == [] + RowLine(table.headers, Widths(table)) + "\n" + SeparatorLine(table.alignments, Widths(table)) + "\n"
  {
    var lines := TableLines(table);
    TableLineAt(table, 0);
    TableLineAt(table, 1);
    TerminatedStep(lines, 0);
    TerminatedStep(lines, 1);
  }

  /** Body row `r` with its newline follows the lines before it. */
  lemma {:induction false} SerializedRow(table: MarkdownTable, r: nat)
    requires r < |table.rows|
    ensures Terminated(TableLines(table)[..2 + r]) + RowLine(table.rows[r], Widths(table)) + "\n"
      == Terminated(TableLines(table)[..2 + r + 1])
  {
    TableLineAt(table, 2 + r);
    TerminatedStep(TableLines(table), 2 + r);
  }

  /** The serializer: widths first, then the header row, the separator row and every body row. */
  method SerializeTable(table: MarkdownTable) returns (out: string)
    ensures out == Serialize(table)
  {
    var widths := ColumnWidths(table);
    out := PushRow([], table.headers, widths);
    out := PushSeparator(out, table.alignments, widths);
    SerializedHead(table);
    var r := 0;
    while r < |table.rows|
      invariant r <= |table.rows|
      invariant out == Terminated(TableLines(table)[..2 + r])
    {
      SerializedRow(table, r);
      out := PushRow(out, table.rows[r], widths);
      r := r + 1;
    }
    assert TableLines(table)[..2 + r] == TableLines(table);
  }

  // ---------------------------------------------------------------------
  // Properties of the serialized text
  // ---------------------------------------------------------------------

  /** The length of a line drawn with `widths`: one pipe, then per column its width, two more characters and a pipe. */
  function LineWidth(widths: seq<nat>): nat
    decreases |widths|
  {
    if widths == [] then 1 else LineWidth(widths[..|widths| - 1]) + widths[|widths| - 1] + 3
  }

  /** The alignment the serializer draws for a tag: the three known tags as given, anything else as none. */
  function DrawnAlignment(align: string): (a: string)
    ensures a in {AlignLeft, AlignRight, AlignCenter, AlignNone}
    ensures a != AlignNone ==> a == align
  {
    if align == AlignLeft || align == AlignRight || align == AlignCenter then align else AlignNone
  }

  /** The alignments the serializer draws for `n` columns: a missing or unknown tag is none. */
  function DrawnAlignments(alignments: seq<string>, n: nat): (r: seq<string>)
    ensures |r| == n
  {
    seq(n, c requires 0 <= c < n => DrawnAlignment(Get(alignments, c, AlignNone)))
  }

  /** Framed pieces are the pieces joined by pipes, with one more pipe at the end. */
  lemma {:induction false} FramedJoin(pieces: seq<string>)
    requires |pieces| >= 1
    ensures Framed(pieces) == Join(pieces, '|') + "|"
    decreases |pieces|
  {
    if |pieces| == 1 {
      assert pieces[..0] == [];
    } else {
      FramedJoin(pieces[..|pieces| - 1]);
    }
  }

  /** Pieces of width plus two characters give a line of `LineWidth(widths)` characters. */
  lemma {:induction false} FramedLength(pieces: seq<string>, widths: seq<nat>)
    requires |pieces| == |widths|
    requires forall c :: 0 <= c < |pieces| ==> |pieces[c]| == widths[c] + 2
    ensures 1 + |Framed(pieces)| == LineWidth(widths)
    decreases |pieces|
  {
    if pieces != [] {
      FramedLength(pieces[..|pieces| - 1], widths[..|widths| - 1]);
    }
  }

  /** A character no piece holds appears in the framed pieces only as their pipes. */
  lemma {:induction false} FramedAvoids(pieces: seq<string>, ch: char)
    requires ch != '|'
    requires forall c :: 0 <= c < |pieces| ==> ch !in pieces[c]
    ensures ch !in Framed(pieces)
    decreases |pieces|
  {
    if pieces != [] {
      FramedAvoids(pieces[..|pieces| - 1], ch);
    }
  }

  /** Pipe-free pieces: the framed text has exactly one pipe per piece. */
  lemma {:induction false} FramedPipes(pieces: seq<string>)
    requires forall c :: 0 <= c < |pieces| ==> '|' !in pieces[c]
    ensures Occurrences(Framed(pieces), '|') == |pieces|
    decreases |pieces|
  {
    if pieces != [] {
      var init := pieces[..|pieces| - 1];
      var last := pieces[|pieces| - 1];
      FramedPipes(init);
      OccurrencesAppend(Framed(init) + last, "|", '|');
      OccurrencesAppend(Framed(init), last, '|');
      OccurrencesAbsent(last, '|');
    }
  }

  /**
   * A cell piece is the cell between single spaces, padded with spaces to
   * the width: it is two characters longer than the larger of the two, it
   * holds only the cell's characters and spaces, and trimming it gives back
   * a clean cell.
   */
  lemma {:induction false} CellPieceFacts(cell: string, w: nat)
    ensures |CellPiece(cell, w)| == Max(|cell|, w) + 2
    ensures forall ch :: ch in CellPiece(cell, w) ==> ch in cell || ch == ' '
    ensures IsCleanCell(cell) ==> Trim(CellPiece(cell, w)) == cell
  {
    var p := PadRight(cell, w);
    var pad := p[|cell|..];
    assert p == cell + pad;
    assert CellPiece(cell, w) == " " + cell + (pad + " ");
    forall ch | ch in CellPiece(cell, w) ensures ch in cell || ch == ' ' {
      var k :| 0 <= k < |CellPiece(cell, w)| && CellPiece(cell, w)[k] == ch;
      if 1 <= k <= |cell| {
        assert ch == cell[k - 1];
      }
    }
    if IsCleanCell(cell) {
      assert AllWhitespace(pad + " ") by {
        forall k | 0 <= k < |pad| + 1 ensures IsWhitespace((pad + " ")[k]) {
          if k < |pad| {
            assert (pad + " ")[k] == p[|cell| + k];
          }
        }
      }
      TrimPadded(" ", cell, pad + " ");
    }
  }

  /** The mark before the dashes of a separator piece: a colon for left and center. */
  function OpeningMark(align: string): char {
    if align == AlignLeft || align == AlignCenter then ':' else ' '
  }

  /** The mark after the dashes of a separator piece: a colon for right and center. */
  function ClosingMark(align: string): char {
    if align == AlignRight || align == AlignCenter then ':' else '-'
  }

  /** Each of the four separator shapes is a mark, the dashes and a mark. */
  lemma {:induction false} SeparatorPieceShape(align: string, w: nat)
    ensures SeparatorPiece(align, w) == [OpeningMark(align)] + Repeat('-', w) + [ClosingMark(align)]
  {
  }

  /** The marks declare the drawn alignment. */
  lemma {:induction false} MarksDeclare(align: string)
    ensures var left := OpeningMark(align) == ':';
      var right := ClosingMark(align) == ':';
      DrawnAlignment(align) == if left && right then AlignCenter else if right then AlignRight else if left then AlignLeft else AlignNone
  {
  }

  /**
   * Trimming a separator piece drops only a leading space; what is left is
   * a separator cell whose colons stand where the marks put them.
   */
  lemma {:induction false} MarkedDashes(first: char, w: nat, last: char)
    requires first == ':' || first == ' '
    requires last == ':' || last == '-'
    ensures var core := if first == ':' then [first] + Repeat('-', w) + [last] else Repeat('-', w) + [last];
      Trim([first] + Repeat('-', w) + [last]) == core && IsSeparatorCell(core)
      && (w >= 1 ==> (core[0] == ':' <==> first == ':') && (core[|core| - 1] == ':' <==> last == ':'))
  {
    var dashes := Repeat('-', w);
    var piece := [first] + dashes + [last];
    var core := if first == ':' then piece else dashes + [last];
    assert IsTrimmed(core);
    if first == ':' {
      TrimIdentity(piece);
    } else {
      TrimPadded(" ", core, []);
      assert " " + core + [] == piece;
    }
    assert forall k :: 0 <= k < |core| ==> core[k] == '-' || core[k] == ':';
  }

  /**
   * A separator piece is two characters longer than the width and made of
   * spaces, dashes and colons; trimmed, it is a separator cell and declares
   * the drawn alignment, as long as the width is at least one dash.
   */
  lemma {:induction false} SeparatorPieceFacts(align: string, w: nat)
    ensures |SeparatorPiece(align, w)| == w + 2
    ensures forall ch :: ch in SeparatorPiece(align, w) ==> ch == ' ' || ch == '-' || ch == ':'
    ensures IsSeparatorCell(Trim(SeparatorPiece(align, w)))
    ensures w >= 1 ==> AlignmentOf(Trim(SeparatorPiece(align, w))) == DrawnAlignment(align)
  {
    var first, last := OpeningMark(align), ClosingMark(align);
    SeparatorPieceShape(align, w);
    MarkedDashes(first, w, last);
    MarksDeclare(align);
    var piece := [first] + Repeat('-', w) + [last];
    forall ch | ch in piece ensures ch == ' ' || ch == '-' || ch == ':' {
      var k :| 0 <= k < |piece| && piece[k] == ch;
      if 1 <= k <= w {
        assert ch == Repeat('-', w)[k - 1];
      }
    }
  }

  /** The widths are at least 3 and cover the header and every cell of their column. */
  lemma {:induction false} WidthsCover(table: MarkdownTable)
    ensures forall c :: 0 <= c < |Widths(table)| ==> 3 <= Widths(table)[c] && |table.headers[c]| <= Widths(table)[c]
    ensures forall r, c :: 0 <= r < |table.rows| && 0 <= c < |Widths(table)| && c < |table.rows[r]| ==>
      |table.rows[r][c]| <= Widths(table)[c]
  {
    forall c | 0 <= c < |table.headers|
      ensures 3 <= Widths(table)[c] && |table.headers[c]| <= Widths(table)[c]
      ensures forall r :: 0 <= r < |table.rows| && c < |table.rows[r]| ==> |table.rows[r][c]| <= Widths(table)[c]
    {
      var _ := ColumnWidthIsMax(table, c);
    }
  }

  /** A row whose cells fit the widths is drawn `LineWidth(widths)` characters long. */
  lemma {:induction false} RowLineLength(cells: seq<string>, widths: seq<nat>)
    requires forall c :: 0 <= c < |widths| && c < |cells| ==> |cells[c]| <= widths[c]
    ensures |RowLine(cells, widths)| == LineWidth(widths)
  {
    var pieces := RowPieces(cells, widths);
    forall c | 0 <= c < |pieces| ensures |pieces[c]| == widths[c] + 2 {
      CellPieceFacts(Get(cells, c, ""), widths[c]);
    }
    FramedLength(pieces, widths);
  }

  lemma {:induction false} SeparatorLineLength(alignments: seq<string>, widths: seq<nat>)
    ensures |SeparatorLine(alignments, widths)| == LineWidth(widths)
  {
    var pieces := SeparatorPieces(alignments, widths);
    forall c | 0 <= c < |pieces| ensures |pieces[c]| == widths[c] + 2 {
      SeparatorPieceFacts(Get(alignments, c, AlignNone), widths[c]);
    }
    FramedLength(pieces, widths);
  }

  /** Every line of a serialized table has the same length: a pipe, and per column its width plus three. */
  lemma {:induction false} LinesEqualLength(table: MarkdownTable)
    ensures forall k :: 0 <= k < |TableLines(table)| ==> |TableLines(table)[k]| == LineWidth(Widths(table))
  {
    var widths := Widths(table);
    var lines := TableLines(table);
    WidthsCover(table);
    RowLineLength(table.headers, widths);
    SeparatorLineLength(table.alignments, widths);
    forall k | 0 <= k < |lines| ensures |lines[k]| == LineWidth(widths) {
      TableLineAt(table, k);
      if k >= 2 {
        RowLineLength(table.rows[k - 2], widths);
      }
    }
  }

  /** No header cell, and no row cell in a column the header has, holds `ch`: the cells the serializer writes. */
  predicate CellsAvoid(table: MarkdownTable, ch: char) {
    (forall c :: 0 <= c < |table.headers| ==> ch !in table.headers[c])
    && (forall r, c :: 0 <= r < |table.rows| && 0 <= c < |table.rows[r]| && c < |table.headers| ==> ch !in table.rows[r][c])
  }

  /** A row whose cells in the drawn columns are pipe-free is drawn with one pipe per column, plus one. */
  lemma {:induction false} RowLinePipes(cells: seq<string>, widths: seq<nat>)
    requires forall c :: 0 <= c < |cells| && c < |widths| ==> '|' !in cells[c]
    ensures Occurrences(RowLine(cells, widths), '|') == |widths| + 1
  {
    var pieces := RowPieces(cells, widths);
    forall c | 0 <= c < |pieces| ensures '|' !in pieces[c] {
      CellPieceFacts(Get(cells, c, ""), widths[c]);
    }
    FramedPipes(pieces);
    OccurrencesAppend("|", Framed(pieces), '|');
  }

  lemma {:induction false} SeparatorLinePipes(alignments: seq<string>, widths: seq<nat>)
    ensures Occurrences(SeparatorLine(alignments, widths), '|') == |widths| + 1
  {
    var pieces := SeparatorPieces(alignments, widths);
    forall c | 0 <= c < |pieces| ensures '|' !in pieces[c] {
      SeparatorPieceFacts(Get(alignments, c, AlignNone), widths[c]);
    }
    FramedPipes(pieces);
    OccurrencesAppend("|", Framed(pieces), '|');
  }

  /** With pipe-free cells, every line of a serialized table has one pipe per header, plus one. */
  lemma {:induction false} LinesPipeCount(table: MarkdownTable)
    requires CellsAvoid(table, '|')
    ensures forall k :: 0 <= k < |TableLines(table)| ==> Occurrences(TableLines(table)[k], '|') == |table.headers| + 1
  {
    var widths := Widths(table);
    var lines := TableLines(table);
    RowLinePipes(table.headers, widths);
    SeparatorLinePipes(table.alignments, widths);
    forall k | 0 <= k < |lines| ensures Occurrences(lines[k], '|') == |table.headers| + 1 {
      TableLineAt(table, k);
      if k >= 2 {
        RowLinePipes(table.rows[k - 2], widths);
      }
    }
  }

  // ---------------------------------------------------------------------
  // Reading serialized lines back
  // ---------------------------------------------------------------------

  /**
   * A framed line of pipe-free pieces is left alone by `trim`, its outer
   * pipes are both dropped, and the text between them splits back into the
   * pieces. It holds a pipe and does not start with `#`.
   */
  lemma {:induction false} FramedLineSplits(pieces: seq<string>)
    requires |pieces| >= 1
    requires forall c :: 0 <= c < |pieces| ==> '|' !in pieces[c]
    ensures var line := "|" + Framed(pieces);
      Trim(line) == line && Split(StripPipes(line), '|') == pieces && !IsHeadingLine(line) && '|' in line
  {
    var line := "|" + Framed(pieces);
    var joined := Join(pieces, '|');
    FramedJoin(pieces);
    assert line == "|" + joined + "|";
    TrimIdentity(line);
    assert line[1..] == joined + "|";
    assert (joined + "|")[..|joined|] == joined;
    assert StripPipes(line) == joined;
    SplitJoin(pieces, '|');
    assert line[0] == '|';
  }

  /**
   * A row drawn from clean cells reads back as those cells fitted to the
   * column count: missing cells come back empty and extra cells are gone.
   * It is a table row and not a heading, and it is a separator row exactly
   * when every fitted cell is a separator cell.
   */
  lemma {:induction false} ReadRowLine(cells: seq<string>, widths: seq<nat>)
    requires |widths| >= 1
    requires forall k :: 0 <= k < |cells| ==> IsCleanCell(cells[k])
    ensures ParseRow(RowLine(cells, widths)) == FitRow(cells, |widths|)
    ensures IsTableLine(RowLine(cells, widths)) && !IsHeadingLine(RowLine(cells, widths))
    ensures IsSeparatorLine(RowLine(cells, widths)) <==> AllSeparatorCells(FitRow(cells, |widths|))
  {
    var pieces := RowPieces(cells, widths);
    var fitted := FitRow(cells, |widths|);
    RowPiecesTrim(cells, widths, pieces, fitted);
    FramedLineSplits(pieces);
    var line := RowLine(cells, widths);
    ParseRowPieces(line, pieces);
    assert ParseRow(line) == fitted;
    SeparatorLineCells(line);
  }

  /** The pieces of a row of clean cells hold no pipe, and each trims back to its fitted cell. */
  lemma {:induction false} RowPiecesTrim(cells: seq<string>, widths: seq<nat>, pieces: seq<string>, fitted: seq<string>)
    requires forall k :: 0 <= k < |cells| ==> IsCleanCell(cells[k])
    requires pieces == RowPieces(cells, widths) && fitted == FitRow(cells, |widths|)
    ensures forall c :: 0 <= c < |pieces| ==> '|' !in pieces[c] && Trim(pieces[c]) == fitted[c]
  {
    forall c | 0 <= c < |pieces| ensures '|' !in pieces[c] && Trim(pieces[c]) == fitted[c] {
      CellPieceFacts(Get(cells, c, ""), widths[c]);
    }
  }

  /**
   * The separator row reads back as a separator row declaring the drawn
   * alignment of every column, provided each column is at least one dash
   * wide. It is a table row and not a heading.
   */
  lemma {:induction false} ReadSeparatorLine(alignments: seq<string>, widths: seq<nat>)
    requires |widths| >= 1
    requires forall c :: 0 <= c < |widths| ==> widths[c] >= 1
    ensures IsSeparatorLine(SeparatorLine(alignments, widths))
    ensures ParseAlignments(SeparatorLine(alignments, widths)) == DrawnAlignments(alignments, |widths|)
    ensures IsTableLine(SeparatorLine(alignments, widths)) && !IsHeadingLine(SeparatorLine(alignments, widths))
  {
    var pieces := SeparatorPieces(alignments, widths);
    forall c | 0 <= c < |pieces|
      ensures '|' !in pieces[c] && IsSeparatorCell(Trim(pieces[c]))
      ensures AlignmentOf(Trim(pieces[c])) == DrawnAlignments(alignments, |widths|)[c]
    {
      SeparatorPieceFacts(Get(alignments, c, AlignNone), widths[c]);
    }
    FramedLineSplits(pieces);
  }

  /** A framed line ends with a pipe, so `lines()` never drops a `'\r'` from it. */
  lemma {:induction false} FramedLineEnd(pieces: seq<string>)
    ensures DropCR("|" + Framed(pieces)) == "|" + Framed(pieces)
  {
    var line := "|" + Framed(pieces);
    assert line[|line| - 1] == '|';
  }

  /** The lines of a serialized table hold no newline when its cells hold none. */
  lemma {:induction false} TableLinesAvoidNewline(table: MarkdownTable)
    requires CellsAvoid(table, '\n')
    ensures forall k :: 0 <= k < |TableLines(table)| ==> '\n' !in TableLines(table)[k]
    ensures forall k :: 0 <= k < |TableLines(table)| ==> DropCR(TableLines(table)[k]) == TableLines(table)[k]
  {
    var widths := Widths(table);
    forall k | 0 <= k < |TableLines(table)|
      ensures '\n' !in TableLines(table)[k] && DropCR(TableLines(table)[k]) == TableLines(table)[k]
    {
      TableLineAt(table, k);
      if k == 1 {
        var pieces := SeparatorPieces(table.alignments, widths);
        forall c | 0 <= c < |pieces| ensures '\n' !in pieces[c] {
          SeparatorPieceFacts(Get(table.alignments, c, AlignNone), widths[c]);
        }
        FramedAvoids(pieces, '\n');
        FramedLineEnd(pieces);
      } else {
        var cells := if k == 0 then table.headers else table.rows[k - 2];
        assert forall c :: 0 <= c < |cells| && c < |widths| ==> '\n' !in cells[c];
        var pieces := RowPieces(cells, widths);
        forall c | 0 <= c < |pieces| ensures '\n' !in pieces[c] {
          CellPieceFacts(Get(cells, c, ""), widths[c]);
        }
        FramedAvoids(pieces, '\n');
        FramedLineEnd(pieces);
      }
    }
  }

  /** Splitting a serialized table's text into lines gives back exactly its lines. */
  lemma {:induction false} LinesOfSerialized(table: MarkdownTable)
    requires CellsAvoid(table, '\n')
    ensures Lines(Serialize(table)) == TableLines(table)
  {
    TableLinesAvoidNewline(table);
    LinesOfTerminated(TableLines(table));
  }
}
