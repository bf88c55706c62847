/**
 * Line recognisers of the pipe-table grammar: which lines are table rows,
 * which are separator rows, how a row splits into cells and how a separator
 * row declares column alignment. All are total functions of one line.
 */
module TableGrammar {
  import opened Strings

  /** The alignment tags a separator row can declare. */
  const AlignLeft: string := "left"
  const AlignRight: string := "right"
  const AlignCenter: string := "center"
  const AlignNone: string := "none"

  /**
   * The text between the outer pipes of a trimmed line. A leading pipe is
   * dropped first; a trailing pipe is then dropped from what is left, but
   * when there is none the whole trimmed line is used again, so a line with
   * a leading pipe and no trailing pipe keeps its leading pipe.
   */
  function StripPipes(t: string): (inner: string)
    ensures forall ch :: ch in inner ==> ch in t
  {
    var p := if |t| > 0 && t[0] == '|' then t[1..] else t;
    assert forall ch :: ch in p ==> ch in t by {
      if |t| > 0 && t[0] == '|' { assert t == [t[0]] + p; }
    }
    if |p| > 0 && p[|p| - 1] == '|' then
      assert p == p[..|p| - 1] + [p[|p| - 1]];
      p[..|p| - 1]
    else t
  }

  /** The cell text of a row: no pipe, no whitespace at either end. */
  predicate IsCleanCell(c: string) {
    '|' !in c && IsTrimmed(c)
  }

  /** The cells of a pipe-delimited row: the trimmed pieces between pipes. */
  function ParseRow(line: string): (cells: seq<string>)
    ensures forall k :: 0 <= k < |cells| ==> IsCleanCell(cells[k])
    ensures forall k, ch :: 0 <= k < |cells| && ch in cells[k] ==> ch in line
  {
    var pieces := Split(StripPipes(Trim(line)), '|');
    var cells := seq(|pieces|, k requires 0 <= k < |pieces| => Trim(pieces[k]));
    forall k | 0 <= k < |cells|
      ensures IsCleanCell(cells[k]) && forall ch :: ch in cells[k] ==> ch in line
    {
      TrimChars(line);
      TrimChars(pieces[k]);
    }
    cells
  }

  /** A separator cell: non-empty and made only of `-` and `:`. */
  predicate IsSeparatorCell(c: string) {
    c != [] && forall k :: 0 <= k < |c| ==> c[k] == '-' || c[k] == ':'
  }

  predicate AllSeparatorCells(cells: seq<string>) {
    forall k :: 0 <= k < |cells| ==> IsSeparatorCell(cells[k])
  }

  /**
   * A table row: a line that still has text after trimming and holds a pipe.
   * Since a pipe is not whitespace, that is the same as holding a pipe.
   */
  function IsTableLine(line: string): (r: bool)
    ensures r <==> '|' in line
  {
    var t := Trim(line);
    TrimChars(line);
    |t| > 0 && '|' in t
  }

  /**
   * A separator row: it holds a pipe and every piece between the pipes,
   * trimmed, is a separator cell.
   */
  predicate IsSeparatorLine(line: string) {
    var t := Trim(line);
    '|' in t && forall k :: 0 <= k < |Split(StripPipes(t), '|')| ==> IsSeparatorCell(Trim(Split(StripPipes(t), '|')[k]))
  }

  /** The alignment a separator cell declares by where its colons stand. */
  function AlignmentOf(cell: string): (a: string)
    ensures a in {AlignLeft, AlignRight, AlignCenter, AlignNone}
  {
    var left := |cell| > 0 && cell[0] == ':';
    var right := |cell| > 0 && cell[|cell| - 1] == ':';
    if left && right then AlignCenter
    else if right then AlignRight
    else if left then AlignLeft
    else AlignNone
  }

  /** One alignment per piece of the separator row. */
  function ParseAlignments(line: string): seq<string> {
    var pieces := Split(StripPipes(Trim(line)), '|');
    seq(|pieces|, k requires 0 <= k < |pieces| => AlignmentOf(Trim(pieces[k])))
  }

  /** A heading line: its trimmed text starts with `#`. */
  predicate IsHeadingLine(line: string) {
    var t := Trim(line);
    |t| > 0 && t[0] == '#'
  }

  /** `str::trim_start_matches('#')`. */
  function TrimHashes(s: string): (r: string)
    ensures |r| <= |s|
    ensures r == [] || r[0] != '#'
  {
    if s != [] && s[0] == '#' then TrimHashes(s[1..]) else s
  }

  /** What `trim_start_matches('#')` keeps is a suffix, and what it drops is all `#`. */
  lemma {:induction false} TrimHashesShape(s: string)
    ensures var r := TrimHashes(s);
      r == s[|s| - |r|..] && forall k :: 0 <= k < |s| - |r| ==> s[k] == '#'
  {
    if s != [] && s[0] == '#' {
      TrimHashesShape(s[1..]);
      assert forall k :: 1 <= k < |s| ==> s[k] == s[1..][k - 1];
    }
  }

  /** The heading's title: leading `#` markers and surrounding whitespace removed. */
  function HeadingText(line: string): (title: string)
    ensures IsTrimmed(title)
  {
    Trim(TrimHashes(Trim(line)))
  }

  // ---------------------------------------------------------------------
  // Properties of the recognisers
  // ---------------------------------------------------------------------

  /**
   * The leading-pipe fallback: when the trimmed line starts with a pipe but
   * does not end with one, the leading pipe is kept, so the first cell is
   * empty and there is one cell per pipe of the trimmed line, plus one.
   */
  lemma {:induction false} LeadingPipeOnlyKeepsEmptyFirstCell(line: string)
    requires var t := Trim(line); |t| > 0 && t[0] == '|' && t[|t| - 1] != '|'
    ensures var t := Trim(line);
      ParseRow(line)[0] == [] && |ParseRow(line)| == Occurrences(t, '|') + 1
  {
    var t := Trim(line);
    assert StripPipes(t) == t;
    ParseRowPieces(line, Split(t, '|'));
  }

  /** Both outer pipes present: they are both dropped. */
  lemma {:induction false} OuterPipesDropped(line: string)
    requires var t := Trim(line); |t| >= 2 && t[0] == '|' && t[|t| - 1] == '|'
    ensures var t := Trim(line);
      StripPipes(t) == t[1..|t| - 1] && |ParseRow(line)| == Occurrences(t, '|') - 1
  {
    var t := Trim(line);
    assert t == [t[0]] + t[1..|t| - 1] + [t[|t| - 1]];
    OccurrencesAppend([t[0]] + t[1..|t| - 1], [t[|t| - 1]], '|');
    OccurrencesAppend([t[0]], t[1..|t| - 1], '|');
    ParseRowPieces(line, Split(StripPipes(t), '|'));
  }

  /**
   * A separator row holds a pipe and every cell `ParseRow` gives for it is
   * a separator cell; so every separator row is also a table row.
   */
  lemma {:induction false} SeparatorLineCells(line: string)
    ensures IsSeparatorLine(line) <==> '|' in line && AllSeparatorCells(ParseRow(line))
    ensures IsSeparatorLine(line) ==> IsTableLine(line)
  {
    TrimChars(line);
    var pieces := Split(StripPipes(Trim(line)), '|');
    ParseRowPieces(line, pieces);
    assert AllSeparatorCells(ParseRow(line)) <==> forall k :: 0 <= k < |pieces| ==> IsSeparatorCell(Trim(pieces[k]));
  }

  /** The alignments of a separator row are read from the cells `ParseRow` gives for it, one for one. */
  lemma {:induction false} AlignmentsOfCells(line: string)
    ensures |ParseAlignments(line)| == |ParseRow(line)|
    ensures forall k :: 0 <= k < |ParseRow(line)| ==> ParseAlignments(line)[k] == AlignmentOf(ParseRow(line)[k])
  {
  }

  /** The cells of a row are its trimmed pieces, one for one. */
  lemma {:induction false} ParseRowPieces(line: string, pieces: seq<string>)
    requires pieces == Split(StripPipes(Trim(line)), '|')
    ensures |ParseRow(line)| == |pieces| == Occurrences(StripPipes(Trim(line)), '|') + 1
    ensures forall k :: 0 <= k < |pieces| ==> ParseRow(line)[k] == Trim(pieces[k])
  {
  }
}
