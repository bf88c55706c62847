# Markdown pipe-table engine

A Dafny model of the table engine of the markdown-sheet editor: the code
that finds pipe tables in a Markdown document, renders a table back to
padded pipe-table text, and writes a document back with its tables
replaced. The engine follows a loose form of GitHub Flavored Markdown
tables. It has no escaped pipes and no inline-code handling, and the model
follows the code, not the standard.

The model has four parts.

- **Line recognisers** (`TableGrammar`). These are total functions of one
  line: `IsTableLine`, `IsSeparatorLine`, `ParseRow`, `ParseAlignments` and
  the heading test.
  - The outer-pipe strip has a quirk: when a line has a leading pipe but no
    trailing one, the whole trimmed line is split. So `| a | b` reads as
    the cells `""`, `a`, `b`.
  - A separator cell is any non-empty mix of `-` and `:`.
- **Document parser** (`TableLayout`, `MarkdownParser`, `ParserFacts`).
  - `ParseMarkdown` is the single scanning loop. It is proved equal to
    `Parse`.
  - `Parse` classifies the lines, finds the spans of the tables over those
    classes alone (`TableLayout`), and reads each span into a table.
  - `ParserFacts` restates what this means over the document's own lines:
    - where tables lie, and which lines open and close them;
    - what their cells are;
    - that tables are ordered and none is missed;
    - which heading each table is filed under.
- **Serializer** (`TableSerializer`). `SerializeTable` is the width loop
  and the line-writing loops, proved equal to `Serialize`. Lemmas then show:
  - the column widths;
  - the separator shapes;
  - that all lines have equal length and the same pipe count;
  - that every written line reads back as the row it was written from.
- **Rebuilder** (`DocumentRebuilder`). `RebuildDocument` is the copy loop
  with its final newline rule, proved equal to `Rebuild`. The rebuilt text
  is then described as a list of lines: the original lines, with each
  table's range replaced by the table's lines.

On top of these, `RoundTrip` proves the round trip. Parsing a document,
rebuilding it from its own tables and parsing the result gives the same
tables: the same heading, header, rows and line range. Only the alignment
list changes: it comes back with one tag per column, and a missing or
unknown tag comes back as `none`.

The round trip holds on one condition: no body row, once fitted to the
header's width, may consist of separator cells only. `Counterexample`
shows that the condition is exact: no document with such a row gets its
tables back. The document `|a|`, `|-|`, `|-|x|` reads its last row as the
single cell `-`. That row is written back as `| -   |`, which is a
separator row. Read again, the document holds one table, on its first two
lines, with header `a`, alignment `none` and no rows.

Strings are sequences of Unicode scalar values. Whitespace is Rust's
`char::is_whitespace`. `str::lines()` splits at `'\n'`, drops one `'\r'`
before each `'\n'`, and does not yield a final empty line.

## Model

| member | source | states |
|---|---|---|
| TableGrammar.ParseRow | markdown-sheet/src-tauri/src/markdown_parser.rs:30-39 | every cell is trimmed and pipe-free, and holds only characters of the line |
| TableGrammar.ParseRowPieces | markdown-sheet/src-tauri/src/markdown_parser.rs:30-39 | the cells are the trimmed pieces of the inner text split at pipes, one more than the pipes in the inner text |
| TableGrammar.LeadingPipeOnlyKeepsEmptyFirstCell | markdown-sheet/src-tauri/src/markdown_parser.rs:33-37 | a line with a leading but no trailing pipe keeps its leading pipe, so its first cell is empty and it has one cell more than it has pipes |
| TableGrammar.OuterPipesDropped | markdown-sheet/src-tauri/src/markdown_parser.rs:33-38 | a line with both outer pipes loses exactly those two, and has one cell fewer than it has pipes |
| TableGrammar.IsTableLine | markdown-sheet/src-tauri/src/markdown_parser.rs:86-89 | a line is a table row exactly when it holds a pipe (a non-empty trimmed line is implied, since a pipe is not whitespace) |
| TableGrammar.SeparatorLineCells | markdown-sheet/src-tauri/src/markdown_parser.rs:42-59 | a line is a separator row if and only if it holds a pipe and every cell is a non-empty mix of `-` and `:`; every separator row is a table row |
| TableGrammar.AlignmentOf | markdown-sheet/src-tauri/src/markdown_parser.rs:72-80 | a cell's alignment is one of left, right, center and none |
| TableGrammar.AlignmentsOfCells | markdown-sheet/src-tauri/src/markdown_parser.rs:62-83 | there is one alignment per cell of the line, and each is the alignment its cell declares by its colons |
| TableGrammar.TrimHashesShape | markdown-sheet/src-tauri/src/markdown_parser.rs:104 | stripping hashes removes exactly the leading run of `#` and keeps the rest |
| TableGrammar.HeadingText | markdown-sheet/src-tauri/src/markdown_parser.rs:104 | a heading's title has no surrounding whitespace |
| MarkdownParser.FitRow | markdown-sheet/src-tauri/src/markdown_parser.rs:120-121 | a fitted row has exactly the header's number of cells: the row's own cells where it has them, the empty string elsewhere |
| MarkdownParser.ReadBody | markdown-sheet/src-tauri/src/markdown_parser.rs:116-124 | the inner loop stops at the first line that is not a body row, and collects each body row fitted to the header's width |
| MarkdownParser.ReadTable | markdown-sheet/src-tauri/src/markdown_parser.rs:110-133 | the table read at a header row is the table of the span that ends where its body ends |
| MarkdownParser.ScanLine | markdown-sheet/src-tauri/src/markdown_parser.rs:99-139 | one step of the scan moves forward and keeps the invariant: the heading in force, and the tables found so far plus those the scan finds from here, are all of the document's tables |
| MarkdownParser.ParseMarkdown | markdown-sheet/src-tauri/src/markdown_parser.rs:92-143 | the parser returns the document's lines and exactly the tables of the specification parse |
| TableLayout.SpansOrdered | markdown-sheet/src-tauri/src/markdown_parser.rs:99-140 | the spans the scan finds come in order, each ending before the next starts |
| TableLayout.SpansComplete | markdown-sheet/src-tauri/src/markdown_parser.rs:99-140 | every line that opens a table and is not a heading lies in some span |
| ParserFacts.TableOpens | markdown-sheet/src-tauri/src/markdown_parser.rs:103-113 | a table starts at a table row, not a heading, that is followed by a separator row, and ends within the document at least one line later |
| ParserFacts.TableBody | markdown-sheet/src-tauri/src/markdown_parser.rs:116-124 | every line from the third line of a table to its last line is a table row that is not a separator row |
| ParserFacts.TableCloses | markdown-sheet/src-tauri/src/markdown_parser.rs:117 | the line just after a table, if any, is not a body row |
| ParserFacts.TableCells | markdown-sheet/src-tauri/src/markdown_parser.rs:111-113 | a table's headers are its first line's cells and its alignments its second line's, not fitted to the header count; it has one row per body line |
| ParserFacts.TableRow | markdown-sheet/src-tauri/src/markdown_parser.rs:117-122 | each row is its body line's cells, fitted to the header's width |
| ParserFacts.RowsMatchHeader | markdown-sheet/src-tauri/src/markdown_parser.rs:120-121 | every row has exactly as many cells as the header |
| ParserFacts.TablesOrdered | markdown-sheet/src-tauri/src/markdown_parser.rs:99-140 | tables come in strictly ascending line order and never share a line |
| ParserFacts.TablesComplete | markdown-sheet/src-tauri/src/markdown_parser.rs:99-140 | every line that opens a table and is not a heading lies inside some table |
| ParserFacts.TitleIsHeadingTitle | markdown-sheet/src-tauri/src/markdown_parser.rs:100-107 | a heading line's title is its trimmed text less its leading `#`s, trimmed again |
| TableLayout.LastHeadingIsLast | markdown-sheet/src-tauri/src/markdown_parser.rs:100-107 | the heading in force is the last heading line of the range: no heading line follows it there, and there is none exactly when the range has no heading line |
| ParserFacts.FirstTableHeading | markdown-sheet/src-tauri/src/markdown_parser.rs:97-133 | the first table is filed under the last heading line before it, or under none |
| ParserFacts.NextTableHeading | markdown-sheet/src-tauri/src/markdown_parser.rs:99-133 | a later table is filed under the last heading line between it and the previous table, or else under the previous table's heading |
| TableSerializer.ColumnWidths | markdown-sheet/src-tauri/src/markdown_parser.rs:150-157 | the width loop computes each column's width |
| TableSerializer.ColumnWidthIsMax | markdown-sheet/src-tauri/src/markdown_parser.rs:150-157 | a column's width is at least 3, at least its header's length and at least every row's cell in that column, and it equals one of them |
| TableSerializer.WidthsCover | markdown-sheet/src-tauri/src/markdown_parser.rs:150-157 | every column is at least 3 wide and no header or cell is wider than its column |
| TableSerializer.PushRow | markdown-sheet/src-tauri/src/markdown_parser.rs:162-197 | a row is written as a pipe, then one padded piece and pipe per column, then a newline |
| TableSerializer.PushSeparator | markdown-sheet/src-tauri/src/markdown_parser.rs:170-186 | the separator row is written as a pipe, then one piece and pipe per column, then a newline |
| TableSerializer.SerializeTable | markdown-sheet/src-tauri/src/markdown_parser.rs:146-200 | the serializer writes the header row, the separator row and one line per body row, each ended by a newline |
| TableSerializer.CellPieceFacts | markdown-sheet/src-tauri/src/markdown_parser.rs:163-195 | a cell's piece is its padded width plus two spaces, adds only spaces, and trims back to the cell |
| TableSerializer.SeparatorPieceShape | markdown-sheet/src-tauri/src/markdown_parser.rs:178-183 | each separator piece is an opening mark, as many dashes as the width, and a closing mark |
| TableSerializer.MarksDeclare | markdown-sheet/src-tauri/src/markdown_parser.rs:173-183 | the marks of a piece declare the column's alignment, with a missing or unknown tag drawn as none |
| TableSerializer.SeparatorPieceFacts | markdown-sheet/src-tauri/src/markdown_parser.rs:178-183 | a separator piece is two wider than its column, holds only spaces, dashes and colons, trims to a separator cell, and reads back as the alignment drawn |
| TableSerializer.LinesEqualLength | markdown-sheet/src-tauri/src/markdown_parser.rs:162-197 | all lines of a serialized table have the same length |
| TableSerializer.LinesPipeCount | markdown-sheet/src-tauri/src/markdown_parser.rs:162-197 | when the header cells and the row cells the serializer writes are pipe-free, every line of a serialized table holds one more pipe than there are columns |
| TableSerializer.ReadRowLine | markdown-sheet/src-tauri/src/markdown_parser.rs:189-197 | a written row reads back as its cells fitted to the column count; it is a table row, not a heading, and a separator row exactly when all those cells are separator cells |
| TableSerializer.ReadSeparatorLine | markdown-sheet/src-tauri/src/markdown_parser.rs:170-186 | a written separator row is a separator row and a table row, not a heading, and reads back as the alignments drawn |
| TableSerializer.TableLinesAvoidNewline | markdown-sheet/src-tauri/src/markdown_parser.rs:162-197 | with newline-free cells, no serialized line holds a newline or ends in a carriage return |
| TableSerializer.LinesOfSerialized | markdown-sheet/src-tauri/src/markdown_parser.rs:146-200 | with newline-free cells, splitting the serialized text into lines gives back exactly the table's lines |
| DocumentRebuilder.PushLines | markdown-sheet/src-tauri/src/markdown_parser.rs:211-226 | copying a range of lines appends each line of it followed by a newline |
| DocumentRebuilder.PushTable | markdown-sheet/src-tauri/src/markdown_parser.rs:211-220 | one step of the table loop copies the lines before the table and appends the table's text |
| DocumentRebuilder.EmitDocument | markdown-sheet/src-tauri/src/markdown_parser.rs:208-226 | the loop writes every table in place with the lines between them, then the lines after the last table |
| DocumentRebuilder.RebuildDocument | markdown-sheet/src-tauri/src/markdown_parser.rs:203-234 | the rebuild joins the lines when there are no tables, and otherwise emits and then drops the final newline unless the last line is empty |
| DocumentRebuilder.FinalNewline | markdown-sheet/src-tauri/src/markdown_parser.rs:228-233 | with tables, the emitted text always ends with a newline, so the rebuild is that text with exactly one newline taken off, or the whole text when the last original line is empty |
| DocumentRebuilder.EmitIsTerminated | markdown-sheet/src-tauri/src/markdown_parser.rs:211-226 | the emitted text is the spliced lines, each followed by a newline |
| DocumentRebuilder.NewLinesLength | markdown-sheet/src-tauri/src/markdown_parser.rs:211-226 | when each table's text has as many lines as its range, the rebuilt document has as many lines as the original |
| DocumentRebuilder.NewLinesTable | markdown-sheet/src-tauri/src/markdown_parser.rs:218-219 | each table's lines stand at its own line range in the rebuilt document |
| DocumentRebuilder.NewLinesVerbatim | markdown-sheet/src-tauri/src/markdown_parser.rs:211-226 | every line outside all table ranges is copied unchanged to the same position |
| DocumentRebuilder.RebuildText | markdown-sheet/src-tauri/src/markdown_parser.rs:203-234 | the rebuilt text is the lines joined by newlines when there are no tables; otherwise it is the spliced lines, each followed by a newline when the last line is empty and joined by newlines when it is not |
| RoundTrip.ParsedMatched | markdown-sheet/src-tauri/src/markdown_parser.rs:126-133 | the parser's tables can always be written back, and each serialized table has as many lines as its range |
| RoundTrip.TableReread | markdown-sheet/src-tauri/src/markdown_parser.rs:110-133 | a span whose lines read the same gives the same table, with alignments normalized |
| RoundTrip.SameSpans | markdown-sheet/src-tauri/src/markdown_parser.rs:99-140 | the rebuilt document's lines have the same classes as the original's, so the scan finds the same spans |
| RoundTrip.ParseRebuildParse | markdown-sheet/src-tauri/src/markdown_parser.rs:249-258 | parse, rebuild and parse again gives back every table with the same heading, headers, rows and range, and alignments normalized, provided no body row reads as a separator row |
| Counterexample.SeparatorRowsBreakRoundTrip | markdown-sheet/src-tauri/src/markdown_parser.rs:249-258 | any document with a body row that reads as a separator row does not get its tables back from parse, rebuild and parse |
| Counterexample.RoundTripExactly | markdown-sheet/src-tauri/src/markdown_parser.rs:249-258 | parse, rebuild and parse gives back the tables, alignments normalized, if and only if no body row reads as a separator row |
| Counterexample.SeparatorRowBreaksRoundTrip | markdown-sheet/src-tauri/src/markdown_parser.rs:249-258 | the three-line sample document (header `a`, a separator row, and the body row with cells `-` and `x`) does not give its table back after parse, rebuild and parse: the reread document holds exactly one table, on lines 0 and 1, with header `a`, alignment `none` and no rows |

## Left out

- `commands.rs` and `lib.rs` are not part of this model. They hold the file-system commands and the Tauri wiring, which only call the parser and the rebuilder.
- The serde derives on `MarkdownTable` and `ParsedDocument` are not modelled. They only serve serialization across the IPC boundary.
- Table editing and the undo/redo history live in front-end code that is not part of this model.
- Column widths count characters. The source measures a header or cell by its UTF-8 byte length but pads by character count, so the two agree only on ASCII text; the model assumes ASCII text.
- `DocumentRebuilder.RebuildDocument`: requires the tables to be in order and within the document (`Placeable`). In the source, a range out of order or past the end makes the slice panic; the model does not describe that panic.
- `RoundTrip.ParseRebuildParse`: requires that no body row reads as a separator row once fitted, and promises the alignments only in normalized form. `Counterexample.RoundTripExactly` shows the condition is exactly the one under which the tables come back. The source's round-trip test compares only headers and rows, on a document that meets the condition.
- `str::lines()` handles a carriage return at the very end of the text, with no newline after it, differently in different Rust versions. The model drops a carriage return only when a newline follows it.
