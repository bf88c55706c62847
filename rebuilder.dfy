/**
 * Writing a document back with its tables replaced: the original lines
 * between the tables are copied verbatim, each with a newline, each table is
 * written in place of its line range by the serializer, and a final newline
 * is dropped unless the document's last line was empty.
 *
 * `Rebuild` is the specification and `RebuildDocument` the loop proved equal
 * to it. The lemmas describe the result as a list of lines (`NewLines`): the
 * original lines with each table's range replaced by the table's lines.
 */
module DocumentRebuilder {
  import opened Strings
  import opened MarkdownParser
  import opened TableSerializer

  /** Where copying resumes before table `k`: the top of the document, or just past table `k - 1`. */
  function Cursor(tables: seq<MarkdownTable>, k: nat): nat
    requires k <= |tables|
  {
    if k == 0 then 0 else tables[k - 1].endLine + 1
  }

  /**
   * The line ranges the rebuild copies exist: each table starts at or after
   * the line where copying resumes and within the document, and the last
   * table ends within it. Otherwise the slices of the original lines fail.
   */
  predicate Placeable(lines: seq<string>, tables: seq<MarkdownTable>) {
    PlacedUpTo(lines, tables, |tables|) && Cursor(tables, |tables|) <= |lines|
  }

  /** The first `k` tables each start at or after the line where copying resumes, and within the document. */
  predicate PlacedUpTo(lines: seq<string>, tables: seq<MarkdownTable>, k: nat)
    requires k <= |tables|
  {
    k == 0 || (PlacedUpTo(lines, tables, k - 1) && Cursor(tables, k - 1) <= tables[k - 1].startLine <= |lines|)
  }

  /** Every prefix of placeable tables is placed, and each table starts where copying may resume. */
  lemma {:induction false} Placed(lines: seq<string>, tables: seq<MarkdownTable>, k: nat)
    requires Placeable(lines, tables) && k <= |tables|
    ensures PlacedUpTo(lines, tables, k)
    ensures k < |tables| ==> Cursor(tables, k) <= tables[k].startLine <= |lines|
    decreases |tables| - k
  {
    if k < |tables| {
      Placed(lines, tables, k + 1);
    }
  }

  /** The text the serializer writes for each table, in order. */
  function Texts(tables: seq<MarkdownTable>): (texts: seq<string>)
    ensures |texts| == |tables|
  {
    if tables == [] then [] else Texts(tables[..|tables| - 1]) + [Serialize(tables[|tables| - 1])]
  }

  lemma {:induction false} TextsAt(tables: seq<MarkdownTable>, k: nat)
    requires k < |tables|
    ensures Texts(tables)[k] == Serialize(tables[k])
  {
    if k < |tables| - 1 {
      TextsAt(tables[..|tables| - 1], k);
    }
  }

  /**
   * The text written for the first `k` tables: the lines copied before each,
   * then its text `texts[k]`.
   */
  function Emitted(lines: seq<string>, tables: seq<MarkdownTable>, texts: seq<string>, k: nat): string
    requires Placeable(lines, tables) && |texts| == |tables| && k <= |tables|
  {
    if k == 0 then []
    else
      Placed(lines, tables, k - 1);
      Emitted(lines, tables, texts, k - 1) + Terminated(lines[Cursor(tables, k - 1)..tables[k - 1].startLine])
         + texts[k - 1]
  }

  /** The text written for all the tables and the lines after the last one. */
  function Emit(lines: seq<string>, tables: seq<MarkdownTable>, texts: seq<string>): string
    requires Placeable(lines, tables) && |texts| == |tables|
  {
    Emitted(lines, tables, texts, |tables|) + Terminated(lines[Cursor(tables, |tables|)..])
  }

  /** The document's last line is empty. */
  predicate EndsWithEmptyLine(lines: seq<string>) {
    lines != [] && lines[|lines| - 1] == []
  }

  /**
   * The rebuilt document: with no tables, the lines joined by newlines;
   * otherwise the emitted text, less its final newline unless the last line
   * of the document is empty.
   */
  function Rebuild(lines: seq<string>, tables: seq<MarkdownTable>): string
    requires tables != [] ==> Placeable(lines, tables)
  {
    if tables == [] then JoinLines(lines)
    else
      var text := Emit(lines, tables, Texts(tables));
      if text != [] && text[|text| - 1] == '\n' && !EndsWithEmptyLine(lines) then text[..|text| - 1] else text
  }

  /** Three runs of lines, each followed by newlines, are the three runs together followed by newlines. */
  lemma {:induction false} TerminatedThree(a: seq<string>, b: seq<string>, c: seq<string>, x: string, y: string, z: string)
    requires x == Terminated(a) && y == Terminated(b) && z == Terminated(c)
    ensures x + y + z == Terminated(a + b + c)
  {
    TerminatedAppend(a, b);
    TerminatedAppend(a + b, c);
  }

  /** One more copied line and its newline. */
  lemma {:induction false} TerminatedSliceStep(prefix: string, lines: seq<string>, from: nat, j: nat)
    requires from <= j < |lines|
    ensures prefix + Terminated(lines[from..j]) + lines[j] + "\n" == prefix + Terminated(lines[from..j + 1])
  {
    var slice := lines[from..j + 1];
    assert slice[..j - from] == lines[from..j];
    assert slice[j - from] == lines[j];
    TerminatedStep(slice, j - from);
  }

  /** Copies `lines[from..to]` to the end of `out`, each line followed by a newline. */
  method PushLines(out: string, lines: seq<string>, from: nat, to: nat) returns (res: string)
    requires from <= to <= |lines|
    ensures res == out + Terminated(lines[from..to])
  {
    res := out;
    var j := from;
    while j < to
      invariant from <= j <= to
      invariant res == out + Terminated(lines[from..j])
    {
      TerminatedSliceStep(out, lines, from, j);
      res := res + lines[j] + "\n";
      j := j + 1;
    }
  }

  /** The rebuild: copy up to each table, write the table, copy the rest, then drop the final newline. */
  method RebuildDocument(lines: seq<string>, tables: seq<MarkdownTable>) returns (result: string)
    requires tables != [] ==> Placeable(lines, tables)
    ensures result == Rebuild(lines, tables)
  {
    if tables == [] {
      return JoinLines(lines);
    }
    result := EmitDocument(lines, tables);
    if |result| > 0 && result[|result| - 1] == '\n' && !(|lines| > 0 && lines[|lines| - 1] == []) {
      result := result[..|result| - 1];
    }
  }

  /** The text for all the tables and the lines around them, before the final newline is considered. */
  method EmitDocument(lines: seq<string>, tables: seq<MarkdownTable>) returns (result: string)
    requires Placeable(lines, tables)
    ensures result == Emit(lines, tables, Texts(tables))
  {
    result := [];
    var cursor := 0;
    var k := 0;
    while k < |tables|
      invariant k <= |tables| && cursor == Cursor(tables, k)
      invariant result == Emitted(lines, tables, Texts(tables), k)
    {
      result := PushTable(result, lines, tables, k);
      cursor := tables[k].endLine + 1;
      k := k + 1;
    }
    result := PushLines(result, lines, cursor, |lines|);
    assert lines[cursor..|lines|] == lines[Cursor(tables, |tables|)..];
  }

  /** Copies the lines before table `k` and writes the table. */
  method PushTable(out: string, lines: seq<string>, tables: seq<MarkdownTable>, k: nat) returns (res: string)
    requires Placeable(lines, tables) && k < |tables|
    requires out == Emitted(lines, tables, Texts(tables), k)
    ensures res == Emitted(lines, tables, Texts(tables), k + 1)
  {
    Placed(lines, tables, k);
    var table := tables[k];
    res := PushLines(out, lines, Cursor(tables, k), table.startLine);
    var text := SerializeTable(table);
    TextsAt(tables, k);
    EmittedStep(lines, tables, Texts(tables), k + 1);
    res := res + text;
  }

  /**
   * With tables, the emitted text always ends with a newline, since the
   * last table writes at least its header and separator rows. So the
   * final check only asks whether the document's last line was empty: the
   * rebuild is the emitted text with exactly its last newline taken off,
   * or the whole text when the last line is empty.
   */
  lemma {:induction false} FinalNewline(lines: seq<string>, tables: seq<MarkdownTable>, text: string)
    requires tables != [] && Placeable(lines, tables) && text == Emit(lines, tables, Texts(tables))
    ensures |text| > 0 && text[|text| - 1] == '\n'
    ensures EndsWithEmptyLine(lines) ==> Rebuild(lines, tables) == text
    ensures !EndsWithEmptyLine(lines) ==> Rebuild(lines, tables) + "\n" == text
  {
  }

  /** The text for `k` tables: the text for `k - 1`, the lines copied before table `k - 1`, and its text. */
  lemma {:induction false} EmittedStep(lines: seq<string>, tables: seq<MarkdownTable>, texts: seq<string>, k: nat)
    requires Placeable(lines, tables) && |texts| == |tables| && 0 < k <= |tables|
    requires Cursor(tables, k - 1) <= tables[k - 1].startLine <= |lines|
    ensures Emitted(lines, tables, texts, k) == Emitted(lines, tables, texts, k - 1)
      + Terminated(lines[Cursor(tables, k - 1)..tables[k - 1].startLine]) + texts[k - 1]
  {
  }

  // ---------------------------------------------------------------------
  // The rebuilt document as lines
  // ---------------------------------------------------------------------

  /** The lines the serializer writes for each table, in order. */
  function Blocks(tables: seq<MarkdownTable>): (blocks: seq<seq<string>>)
    ensures |blocks| == |tables|
  {
    if tables == [] then [] else Blocks(tables[..|tables| - 1]) + [TableLines(tables[|tables| - 1])]
  }

  lemma {:induction false} BlocksAt(tables: seq<MarkdownTable>, k: nat)
    requires k < |tables|
    ensures Blocks(tables)[k] == TableLines(tables[k])
  {
    if k < |tables| - 1 {
      BlocksAt(tables[..|tables| - 1], k);
    }
  }

  /** Each table's text is its lines, each followed by a newline. */
  lemma {:induction false} TextsOfBlocks(tables: seq<MarkdownTable>)
    ensures forall k :: 0 <= k < |tables| ==> Texts(tables)[k] == Terminated(Blocks(tables)[k])
  {
    forall k | 0 <= k < |tables| ensures Texts(tables)[k] == Terminated(Blocks(tables)[k]) {
      TextsAt(tables, k);
      BlocksAt(tables, k);
    }
  }

  /** The lines written for the first `k` tables: the lines copied before each, then its lines `blocks[k]`. */
  function Spliced(lines: seq<string>, tables: seq<MarkdownTable>, blocks: seq<seq<string>>, k: nat): seq<string>
    requires Placeable(lines, tables) && |blocks| == |tables| && k <= |tables|
  {
    if k == 0 then []
    else
      Placed(lines, tables, k - 1);
      Spliced(lines, tables, blocks, k - 1) + lines[Cursor(tables, k - 1)..tables[k - 1].startLine] + blocks[k - 1]
  }

  /** The lines of the rebuilt document: the original lines with each table's range replaced by its lines. */
  function NewLines(lines: seq<string>, tables: seq<MarkdownTable>, blocks: seq<seq<string>>): seq<string>
    requires Placeable(lines, tables) && |blocks| == |tables|
  {
    Spliced(lines, tables, blocks, |tables|) + lines[Cursor(tables, |tables|)..]
  }

  lemma {:induction false} SplicedStep(lines: seq<string>, tables: seq<MarkdownTable>, blocks: seq<seq<string>>, k: nat)
    requires Placeable(lines, tables) && |blocks| == |tables| && 0 < k <= |tables|
    requires Cursor(tables, k - 1) <= tables[k - 1].startLine <= |lines|
    ensures Spliced(lines, tables, blocks, k) == Spliced(lines, tables, blocks, k - 1)
      + lines[Cursor(tables, k - 1)..tables[k - 1].startLine] + blocks[k - 1]
  {
  }

  /** Written text and written lines agree: the text of each block is its lines, each with a newline. */
  predicate TextsMatch(texts: seq<string>, blocks: seq<seq<string>>) {
    |texts| == |blocks| && forall k :: 0 <= k < |texts| ==> texts[k] == Terminated(blocks[k])
  }

  lemma {:induction false} EmittedSpliced(lines: seq<string>, tables: seq<MarkdownTable>, texts: seq<string>,
                                          blocks: seq<seq<string>>, k: nat)
    requires Placeable(lines, tables) && |blocks| == |tables| && TextsMatch(texts, blocks) && k <= |tables|
    ensures Emitted(lines, tables, texts, k) == Terminated(Spliced(lines, tables, blocks, k))
  {
    if k > 0 {
      Placed(lines, tables, k - 1);
      var copied := lines[Cursor(tables, k - 1)..tables[k - 1].startLine];
      EmittedStep(lines, tables, texts, k);
      SplicedStep(lines, tables, blocks, k);
      EmittedSpliced(lines, tables, texts, blocks, k - 1);
      TerminatedThree(Spliced(lines, tables, blocks, k - 1), copied, blocks[k - 1],
                      Emitted(lines, tables, texts, k - 1), Terminated(copied), texts[k - 1]);
    }
  }

  /** The emitted text is every new line followed by a newline. */
  lemma {:induction false} EmitIsTerminated(lines: seq<string>, tables: seq<MarkdownTable>, texts: seq<string>,
                                            blocks: seq<seq<string>>)
    requires Placeable(lines, tables) && |blocks| == |tables| && TextsMatch(texts, blocks)
    ensures Emit(lines, tables, texts) == Terminated(NewLines(lines, tables, blocks))
  {
    EmittedSpliced(lines, tables, texts, blocks, |tables|);
    TerminatedAppend(Spliced(lines, tables, blocks, |tables|), lines[Cursor(tables, |tables|)..]);
  }

  /**
   * Each table's range matches its block: the block has one line per line
   * of the range.
   */
  predicate Matched(lines: seq<string>, tables: seq<MarkdownTable>, blocks: seq<seq<string>>) {
    && Placeable(lines, tables)
    && |blocks| == |tables|
    && forall k :: 0 <= k < |tables| ==> tables[k].endLine + 1 == tables[k].startLine + |blocks[k]|
  }

  /** With matching ranges, the lines written for the first `k` tables end where copying resumes. */
  lemma {:induction false} SplicedLength(lines: seq<string>, tables: seq<MarkdownTable>, blocks: seq<seq<string>>, k: nat)
    requires Matched(lines, tables, blocks) && k <= |tables|
    ensures |Spliced(lines, tables, blocks, k)| == Cursor(tables, k)
  {
    if k > 0 {
      Placed(lines, tables, k - 1);
      SplicedStep(lines, tables, blocks, k);
      SplicedLength(lines, tables, blocks, k - 1);
    }
  }

  /** The rebuilt document has as many lines as the original when the ranges match. */
  lemma {:induction false} NewLinesLength(lines: seq<string>, tables: seq<MarkdownTable>, blocks: seq<seq<string>>)
    requires Matched(lines, tables, blocks)
    ensures |NewLines(lines, tables, blocks)| == |lines|
  {
    SplicedLength(lines, tables, blocks, |tables|);
  }

  /** Lines written for fewer tables are a prefix of the rebuilt document. */
  lemma {:induction false} SplicedPrefix(lines: seq<string>, tables: seq<MarkdownTable>, blocks: seq<seq<string>>, k: nat, i: nat)
    requires Matched(lines, tables, blocks) && k <= |tables| && i < Cursor(tables, k)
    ensures i < |Spliced(lines, tables, blocks, k)| && i < |NewLines(lines, tables, blocks)|
      && NewLines(lines, tables, blocks)[i] == Spliced(lines, tables, blocks, k)[i]
    decreases |tables| - k
  {
    SplicedLength(lines, tables, blocks, k);
    NewLinesLength(lines, tables, blocks);
    if k < |tables| {
      Placed(lines, tables, k);
      SplicedStep(lines, tables, blocks, k + 1);
      SplicedLength(lines, tables, blocks, k + 1);
      SplicedPrefix(lines, tables, blocks, k + 1, i);
    }
  }

  /** Line `k` of block `b` stands at `startLine + k` of table `b` in the rebuilt document. */
  lemma {:induction false} NewLinesTable(lines: seq<string>, tables: seq<MarkdownTable>, blocks: seq<seq<string>>, b: nat, k: nat)
    requires Matched(lines, tables, blocks) && b < |tables| && k < |blocks[b]|
    ensures tables[b].startLine + k < |NewLines(lines, tables, blocks)|
    ensures NewLines(lines, tables, blocks)[tables[b].startLine + k] == blocks[b][k]
  {
    Placed(lines, tables, b);
    SplicedStep(lines, tables, blocks, b + 1);
    SplicedLength(lines, tables, blocks, b);
    SplicedPrefix(lines, tables, blocks, b + 1, tables[b].startLine + k);
  }

  /** A line outside every table's range is copied to the same place in the rebuilt document. */
  lemma {:induction false} NewLinesVerbatim(lines: seq<string>, tables: seq<MarkdownTable>, blocks: seq<seq<string>>, i: nat)
    requires Matched(lines, tables, blocks) && i < |lines|
    requires forall b :: 0 <= b < |tables| ==> i < tables[b].startLine || tables[b].endLine < i
    ensures i < |NewLines(lines, tables, blocks)| && NewLines(lines, tables, blocks)[i] == lines[i]
  {
    NewLinesLength(lines, tables, blocks);
    SplicedLength(lines, tables, blocks, |tables|);
    var c := Cursor(tables, |tables|);
    if i >= c {
      assert NewLines(lines, tables, blocks)[i] == lines[c..][i - c];
    } else {
      SplicedVerbatim(lines, tables, blocks, |tables|, i);
      SplicedPrefix(lines, tables, blocks, |tables|, i);
    }
  }

  lemma {:induction false} SplicedVerbatim(lines: seq<string>, tables: seq<MarkdownTable>, blocks: seq<seq<string>>, k: nat, i: nat)
    requires Matched(lines, tables, blocks) && k <= |tables| && i < Cursor(tables, k) && i < |lines|
    requires forall b :: 0 <= b < |tables| ==> i < tables[b].startLine || tables[b].endLine < i
    ensures i < |Spliced(lines, tables, blocks, k)| && Spliced(lines, tables, blocks, k)[i] == lines[i]
  {
    SplicedLength(lines, tables, blocks, k);
    Placed(lines, tables, k - 1);
    SplicedStep(lines, tables, blocks, k);
    var c := Cursor(tables, k - 1);
    SplicedLength(lines, tables, blocks, k - 1);
    if i < c {
      SplicedVerbatim(lines, tables, blocks, k - 1, i);
    } else {
      assert i < tables[k - 1].startLine;
      assert Spliced(lines, tables, blocks, k)[i] == lines[c..tables[k - 1].startLine][i - c];
    }
  }

  /**
   * The rebuilt document as lines: with no tables, the original lines
   * joined by newlines; otherwise the new lines each followed by a newline
   * when the original document ended with an empty line, and joined by
   * newlines (no final newline) when it did not.
   */
  lemma {:induction false} RebuildText(lines: seq<string>, tables: seq<MarkdownTable>)
    requires tables != [] ==> Placeable(lines, tables)
    ensures tables == [] ==> Rebuild(lines, tables) == JoinLines(lines)
    ensures tables != [] && EndsWithEmptyLine(lines) ==>
      Rebuild(lines, tables) == Terminated(NewLines(lines, tables, Blocks(tables)))
    ensures tables != [] && !EndsWithEmptyLine(lines) ==>
      Rebuild(lines, tables) == JoinLines(NewLines(lines, tables, Blocks(tables)))
  {
    if tables != [] {
      var blocks := Blocks(tables);
      var nl := NewLines(lines, tables, blocks);
      TextsOfBlocks(tables);
      EmitIsTerminated(lines, tables, Texts(tables), blocks);
      NewLinesNonEmpty(lines, tables, blocks);
      TerminatedJoin(nl);
      var joined := Join(nl, '\n');
      assert Emit(lines, tables, Texts(tables)) == joined + "\n";
      assert (joined + "\n")[..|joined|] == joined;
    }
  }

  /** A rebuilt document with at least one table has at least one line. */
  lemma {:induction false} NewLinesNonEmpty(lines: seq<string>, tables: seq<MarkdownTable>, blocks: seq<seq<string>>)
    requires Placeable(lines, tables) && |blocks| == |tables| && tables != [] && blocks[|tables| - 1] != []
    ensures NewLines(lines, tables, blocks) != []
  {
    Placed(lines, tables, |tables| - 1);
    SplicedStep(lines, tables, blocks, |tables|);
  }
}
