/**
 * The layout of a Markdown document as the table parser sees it: each line
 * reduced to three facts (is it a heading line, a table row, a separator
 * row), and the scan that finds where tables start and end and which
 * heading line is in force for each. Nothing here looks at the text of a
 * line, so the structural facts about the scan (tables are in order, never
 * overlap, none is missed, each has the heading that precedes it) are
 * proved once, over these facts alone.
 */
module TableLayout {
  import opened Strings

  /** What the parser asks of one line. */
  datatype LineClass = LineClass(heading: bool, row: bool, separator: bool)

  /**
   * Where one table lies: its header row `start`, its last line `end` (the
   * separator row when it has no body), and the heading line in force.
   */
  datatype Span = Span(start: nat, end: nat, heading: Option<nat>)

  /** A body row: a table row that is not a separator row. */
  predicate IsBody(c: LineClass) {
    c.row && !c.separator
  }

  /** A table opens at `i`: a table row followed by a separator row. */
  predicate Opens(kinds: seq<LineClass>, i: nat) {
    i + 1 < |kinds| && kinds[i].row && kinds[i + 1].separator
  }

  /** The first line at or after `j` that is not a body row (or the end of the document). */
  function BodyEnd(kinds: seq<LineClass>, j: nat): (e: nat)
    requires j <= |kinds|
    ensures j <= e <= |kinds|
    ensures forall k {:trigger IsBody(kinds[k])} :: j <= k < e ==> IsBody(kinds[k])
    ensures e == |kinds| || !IsBody(kinds[e])
    decreases |kinds| - j
  {
    if j < |kinds| && IsBody(kinds[j]) then
      var e := BodyEnd(kinds, j + 1);
      assert forall k {:trigger IsBody(kinds[k])} :: j <= k < e ==> IsBody(kinds[k]) by {
        forall k | j <= k < e ensures IsBody(kinds[k]) {
          if k == j { } else { assert j + 1 <= k < e; }
        }
      }
      e
    else j
  }

  /** The heading line in force after line `i`. */
  function HeadingAfter(kinds: seq<LineClass>, i: nat, heading: Option<nat>): Option<nat>
    requires i < |kinds|
  {
    if kinds[i].heading then Some(i) else heading
  }

  /**
   * The tables found from line `i` on, when `heading` is the heading line in
   * force. A heading line is checked first, so a heading line never opens a
   * table; a table's body is skipped as a whole, so a heading line inside a
   * body does not change the heading.
   */
  function Spans(kinds: seq<LineClass>, i: nat, heading: Option<nat>): seq<Span>
    requires i <= |kinds|
    decreases |kinds| - i
  {
    if i == |kinds| then []
    else if kinds[i].heading then Spans(kinds, i + 1, Some(i))
    else if Opens(kinds, i) then
      var e := BodyEnd(kinds, i + 2);
      [Span(i, e - 1, heading)] + Spans(kinds, e, heading)
    else Spans(kinds, i + 1, heading)
  }

  /** A line that opens no table is passed over, updating the heading if it is one. */
  lemma {:induction false} SkipStep(kinds: seq<LineClass>, i: nat, heading: Option<nat>)
    requires i < |kinds| && (kinds[i].heading || !Opens(kinds, i))
    ensures Spans(kinds, i, heading) == Spans(kinds, i + 1, HeadingAfter(kinds, i, heading))
  {
  }

  /** A line that opens a table contributes its span; the scan resumes after the body. */
  lemma {:induction false} TableStep(kinds: seq<LineClass>, i: nat, heading: Option<nat>)
    requires Opens(kinds, i) && !kinds[i].heading
    ensures Spans(kinds, i, heading)
      == [Span(i, BodyEnd(kinds, i + 2) - 1, heading)] + Spans(kinds, BodyEnd(kinds, i + 2), heading)
  {
  }

  /**
   * A span as the scan produces it: it opens at a line that is not a heading,
   * and ends at the last body row that follows its separator row.
   */
  predicate IsSpan(kinds: seq<LineClass>, s: Span) {
    && Opens(kinds, s.start)
    && !kinds[s.start].heading
    && s.end + 1 == BodyEnd(kinds, s.start + 2)
  }

  /**
   * What a span says about the lines it covers: a table row that is not a
   * heading line, then a separator row, then body rows up to its last line,
   * and no body row right after it.
   */
  lemma {:induction false} SpanFrame(kinds: seq<LineClass>, s: Span)
    requires IsSpan(kinds, s)
    ensures s.start + 1 <= s.end < |kinds|
    ensures kinds[s.start].row && !kinds[s.start].heading && kinds[s.start + 1].separator
    ensures forall r :: s.start + 2 <= r <= s.end ==> IsBody(kinds[r])
    ensures s.end + 1 < |kinds| ==> !IsBody(kinds[s.end + 1])
  {
    var e := BodyEnd(kinds, s.start + 2);
    forall r | s.start + 2 <= r <= s.end
      ensures IsBody(kinds[r])
    {
      assert s.start + 2 <= r < e;
    }
  }

  /** `heading` names a heading line before `i`, if any. */
  predicate HeadingBefore(kinds: seq<LineClass>, i: nat, heading: Option<nat>) {
    heading.Some? ==> heading.value < i && heading.value < |kinds| && kinds[heading.value].heading
  }

  /**
   * Every span the scan finds is a span, starts at or after `i`, and has a
   * heading line above it (given that the heading in force is one).
   */
  lemma {:induction false} SpanFound(kinds: seq<LineClass>, i: nat, heading: Option<nat>, a: nat)
    requires i <= |kinds| && a < |Spans(kinds, i, heading)|
    requires HeadingBefore(kinds, i, heading)
    ensures var s := Spans(kinds, i, heading)[a];
      i <= s.start && s.start + 1 <= s.end < |kinds| && IsSpan(kinds, s) && HeadingBefore(kinds, s.start, s.heading)
    decreases |kinds| - i
  {
    if kinds[i].heading || !Opens(kinds, i) {
      SkipStep(kinds, i, heading);
      SpanFound(kinds, i + 1, HeadingAfter(kinds, i, heading), a);
    } else if a > 0 {
      var e := BodyEnd(kinds, i + 2);
      TableStep(kinds, i, heading);
      SpanFound(kinds, e, heading, a - 1);
    }
  }

  /** Consecutive spans do not overlap: each ends before the next one starts. */
  lemma {:induction false} SpansApart(kinds: seq<LineClass>, i: nat, heading: Option<nat>, a: nat)
    requires i <= |kinds| && a + 1 < |Spans(kinds, i, heading)|
    ensures Spans(kinds, i, heading)[a].end < Spans(kinds, i, heading)[a + 1].start
    decreases |kinds| - i
  {
    if kinds[i].heading || !Opens(kinds, i) {
      SkipStep(kinds, i, heading);
      SpansApart(kinds, i + 1, HeadingAfter(kinds, i, heading), a);
    } else {
      var e := BodyEnd(kinds, i + 2);
      TableStep(kinds, i, heading);
      if a == 0 {
        SpanStartsFrom(kinds, e, heading, 0);
      } else {
        SpansApart(kinds, e, heading, a - 1);
      }
    }
  }

  /** Every span found from `i` on starts at or after `i` and ends after it starts. */
  lemma {:induction false} SpanStartsFrom(kinds: seq<LineClass>, i: nat, heading: Option<nat>, a: nat)
    requires i <= |kinds| && a < |Spans(kinds, i, heading)|
    ensures var s := Spans(kinds, i, heading)[a]; i <= s.start < s.end < |kinds|
    decreases |kinds| - i
  {
    if kinds[i].heading || !Opens(kinds, i) {
      SkipStep(kinds, i, heading);
      SpanStartsFrom(kinds, i + 1, HeadingAfter(kinds, i, heading), a);
    } else if a > 0 {
      var e := BodyEnd(kinds, i + 2);
      TableStep(kinds, i, heading);
      SpanStartsFrom(kinds, e, heading, a - 1);
    }
  }

  /** Spans in document order, with no line shared between two of them. */
  predicate Ordered(spans: seq<Span>) {
    forall a, b :: 0 <= a < b < |spans| ==> spans[a].end < spans[b].start
  }

  lemma {:induction false} SpansOrderedPair(kinds: seq<LineClass>, i: nat, heading: Option<nat>, a: nat, b: nat)
    requires i <= |kinds| && a < b < |Spans(kinds, i, heading)|
    ensures Spans(kinds, i, heading)[a].end < Spans(kinds, i, heading)[b].start
    decreases b - a
  {
    SpansApart(kinds, i, heading, b - 1);
    if a < b - 1 {
      SpansOrderedPair(kinds, i, heading, a, b - 1);
      SpanStartsFrom(kinds, i, heading, b - 1);
    }
  }

  /** The spans of a document are in order and disjoint. */
  lemma {:induction false} SpansOrdered(kinds: seq<LineClass>, i: nat, heading: Option<nat>)
    requires i <= |kinds|
    ensures Ordered(Spans(kinds, i, heading))
  {
    var spans := Spans(kinds, i, heading);
    forall a, b | 0 <= a < b < |spans| ensures spans[a].end < spans[b].start {
      SpansOrderedPair(kinds, i, heading, a, b);
    }
  }

  /**
   * No table is missed: every line from `i` on that could open a table (and
   * is not a heading line) lies inside the `a`-th span found.
   */
  lemma {:induction false} SpansComplete(kinds: seq<LineClass>, i: nat, heading: Option<nat>, k: nat)
    returns (a: nat)
    requires i <= k && Opens(kinds, k) && !kinds[k].heading
    ensures a < |Spans(kinds, i, heading)|
    ensures Spans(kinds, i, heading)[a].start <= k <= Spans(kinds, i, heading)[a].end
    decreases |kinds| - i
  {
    if kinds[i].heading || !Opens(kinds, i) {
      assert i < k;
      SkipStep(kinds, i, heading);
      a := SpansComplete(kinds, i + 1, HeadingAfter(kinds, i, heading), k);
    } else {
      var e := BodyEnd(kinds, i + 2);
      TableStep(kinds, i, heading);
      if k < e {
        a := 0;
      } else {
        var b := SpansComplete(kinds, e, heading, k);
        a := b + 1;
      }
    }
  }

  /**
   * The last heading line in `kinds[lo..hi]`, or `outer` when there is
   * none; read from the end backwards.
   */
  function LastHeading(kinds: seq<LineClass>, lo: nat, hi: nat, outer: Option<nat>): (h: Option<nat>)
    requires lo <= hi <= |kinds|
    ensures h == outer || (h.Some? && lo <= h.value < hi && kinds[h.value].heading)
    decreases hi - lo
  {
    if hi == lo then outer
    else if kinds[hi - 1].heading then Some(hi - 1)
    else LastHeading(kinds, lo, hi - 1, outer)
  }

  /**
   * `LastHeading` finds the last heading line of the range: no heading line
   * follows it in the range, and it finds none exactly when the range has
   * no heading line.
   */
  lemma {:induction false} LastHeadingIsLast(kinds: seq<LineClass>, lo: nat, hi: nat)
    requires lo <= hi <= |kinds|
    ensures var h := LastHeading(kinds, lo, hi, None);
      && (h.Some? ==> lo <= h.value < hi && kinds[h.value].heading
                      && forall k :: h.value < k < hi ==> !kinds[k].heading)
      && (h == None <==> forall k :: lo <= k < hi ==> !kinds[k].heading)
    decreases hi - lo
  {
    if hi > lo && !kinds[hi - 1].heading {
      LastHeadingIsLast(kinds, lo, hi - 1);
    }
  }

  /**
   * The fallback only matters when the range holds no heading line: the
   * last heading line of the range, if any, wins over `outer`.
   */
  lemma {:induction false} LastHeadingOrOuter(kinds: seq<LineClass>, lo: nat, hi: nat, outer: Option<nat>)
    requires lo <= hi <= |kinds|
    ensures LastHeading(kinds, lo, hi, outer)
      == if LastHeading(kinds, lo, hi, None).Some? then LastHeading(kinds, lo, hi, None) else outer
    decreases hi - lo
  {
    if hi > lo && !kinds[hi - 1].heading {
      LastHeadingOrOuter(kinds, lo, hi - 1, outer);
    }
  }

  /** Reading the range forwards: the first line replaces `outer` if it is a heading line. */
  lemma {:induction false} LastHeadingFromFront(kinds: seq<LineClass>, lo: nat, hi: nat, outer: Option<nat>)
    requires lo < hi <= |kinds|
    ensures LastHeading(kinds, lo, hi, outer) == LastHeading(kinds, lo + 1, hi, HeadingAfter(kinds, lo, outer))
    decreases hi - lo
  {
    if hi - 1 > lo && !kinds[hi - 1].heading {
      LastHeadingFromFront(kinds, lo, hi - 1, outer);
    }
  }

  /**
   * The first span's heading is the last heading line between `i` and the
   * table, or the heading in force at `i` when there is none.
   */
  lemma {:induction false} FirstSpanHeading(kinds: seq<LineClass>, i: nat, heading: Option<nat>)
    requires i <= |kinds| && Spans(kinds, i, heading) != []
    ensures var s := Spans(kinds, i, heading)[0];
      i <= s.start <= |kinds| && s.heading == LastHeading(kinds, i, s.start, heading)
    decreases |kinds| - i
  {
    if kinds[i].heading || !Opens(kinds, i) {
      var s := Spans(kinds, i, heading)[0];
      SkipStep(kinds, i, heading);
      FirstSpanHeading(kinds, i + 1, HeadingAfter(kinds, i, heading));
      LastHeadingFromFront(kinds, i, s.start, heading);
    } else {
      TableStep(kinds, i, heading);
    }
  }

  /**
   * Every later span's heading is the last heading line between the
   * previous table and it; when there is none, the previous table's heading
   * carries over.
   */
  lemma {:induction false} NextSpanHeading(kinds: seq<LineClass>, i: nat, heading: Option<nat>, a: nat)
    requires i <= |kinds| && a + 1 < |Spans(kinds, i, heading)|
    ensures var spans := Spans(kinds, i, heading);
      spans[a].end + 1 <= spans[a + 1].start <= |kinds| &&
      spans[a + 1].heading == LastHeading(kinds, spans[a].end + 1, spans[a + 1].start, spans[a].heading)
    decreases |kinds| - i
  {
    if kinds[i].heading || !Opens(kinds, i) {
      SkipStep(kinds, i, heading);
      NextSpanHeading(kinds, i + 1, HeadingAfter(kinds, i, heading), a);
    } else {
      var e := BodyEnd(kinds, i + 2);
      TableStep(kinds, i, heading);
      if a == 0 {
        FirstSpanHeading(kinds, e, heading);
      } else {
        NextSpanHeading(kinds, e, heading, a - 1);
      }
    }
  }

  /**
   * A later span's heading is the last heading line between the previous
   * span and it, or the previous span's heading when there is none.
   */
  lemma {:induction false} NextSpanHeadingSplit(kinds: seq<LineClass>, a: nat, lo: nat, hi: nat)
    requires a + 1 < |Spans(kinds, 0, None)|
    requires lo == Spans(kinds, 0, None)[a].end + 1 && hi == Spans(kinds, 0, None)[a + 1].start
    ensures lo <= hi <= |kinds|
    ensures var h := LastHeading(kinds, lo, hi, None);
      Spans(kinds, 0, None)[a + 1].heading == if h.Some? then h else Spans(kinds, 0, None)[a].heading
  {
    var spans := Spans(kinds, 0, None);
    NextSpanHeading(kinds, 0, None, a);
    LastHeadingOrOuter(kinds, lo, hi, spans[a].heading);
  }

  // ---------------------------------------------------------------------
  // Two classifications that lead to the same scan
  // ---------------------------------------------------------------------

  /** Line `p` lies in a span after its first line: it is the separator row or a body row. */
  predicate Covered(spans: seq<Span>, p: nat) {
    spans != [] && ((spans[0].start < p <= spans[0].end) || Covered(spans[1..], p))
  }

  lemma {:induction false} CoveredAt(spans: seq<Span>, a: nat, p: nat)
    requires a < |spans| && spans[a].start < p <= spans[a].end
    ensures Covered(spans, p)
  {
    if a > 0 {
      CoveredAt(spans[1..], a - 1, p);
    }
  }

  /** The spans found from `i` on cover no line before or at `i`. */
  lemma {:induction false} CoveredFrom(kinds: seq<LineClass>, i: nat, heading: Option<nat>, p: nat)
    requires i <= |kinds| && p <= i
    ensures !Covered(Spans(kinds, i, heading), p)
    decreases |kinds| - i
  {
    if i < |kinds| {
      if kinds[i].heading || !Opens(kinds, i) {
        SkipStep(kinds, i, heading);
        CoveredFrom(kinds, i + 1, HeadingAfter(kinds, i, heading), p);
      } else {
        var e := BodyEnd(kinds, i + 2);
        TableStep(kinds, i, heading);
        CoveredFrom(kinds, e, heading, p);
        assert ([Span(i, e - 1, heading)] + Spans(kinds, e, heading))[1..] == Spans(kinds, e, heading);
      }
    }
  }

  /** Two classifications agree, from line `i` on, on which lines are table rows and which are separator rows. */
  predicate ShapesAgree(k1: seq<LineClass>, k2: seq<LineClass>, i: nat) {
    |k1| == |k2| && forall p :: i <= p < |k1| ==> k1[p].row == k2[p].row && k1[p].separator == k2[p].separator
  }

  lemma {:induction false} BodyEndAgree(k1: seq<LineClass>, k2: seq<LineClass>, j: nat)
    requires j <= |k1| && ShapesAgree(k1, k2, j)
    ensures BodyEnd(k2, j) == BodyEnd(k1, j)
    decreases |k1| - j
  {
    if j < |k1| && IsBody(k1[j]) {
      BodyEndAgree(k1, k2, j + 1);
    }
  }

  /**
   * The scan looks at heading lines only where it stops: two classifications
   * that agree on table rows and separator rows, and on heading lines
   * everywhere outside the spans found, find the same spans.
   */
  lemma {:induction false} SpansAgree(k1: seq<LineClass>, k2: seq<LineClass>, i: nat, heading: Option<nat>)
    requires i <= |k1| && ShapesAgree(k1, k2, i)
    requires forall p :: i <= p < |k1| && !Covered(Spans(k1, i, heading), p) ==> k1[p].heading == k2[p].heading
    ensures Spans(k2, i, heading) == Spans(k1, i, heading)
    decreases |k1| - i
  {
    if i < |k1| {
      CoveredFrom(k1, i, heading, i);
      if k1[i].heading || !Opens(k1, i) {
        SkipStep(k1, i, heading);
        SkipStep(k2, i, heading);
        SpansAgree(k1, k2, i + 1, HeadingAfter(k1, i, heading));
      } else {
        var e := BodyEnd(k1, i + 2);
        BodyEndAgree(k1, k2, i + 2);
        TableStep(k1, i, heading);
        TableStep(k2, i, heading);
        var rest := Spans(k1, e, heading);
        assert ([Span(i, e - 1, heading)] + rest)[1..] == rest;
        forall p | e <= p < |k1| && !Covered(rest, p) ensures k1[p].heading == k2[p].heading {
          assert !Covered(Spans(k1, i, heading), p);
        }
        SpansAgree(k1, k2, e, heading);
      }
    }
  }

  /**
   * The heading line a span is filed under is never inside a span, since
   * heading lines are read only where the scan stops; it is the heading in
   * force at `i` or a line from `i` on.
   */
  lemma {:induction false} SpanHeadingsUncovered(kinds: seq<LineClass>, i: nat, heading: Option<nat>)
    requires i <= |kinds| && (heading.Some? ==> heading.value < i)
    ensures var spans := Spans(kinds, i, heading);
      forall a :: 0 <= a < |spans| && spans[a].heading.Some? ==>
        (spans[a].heading == heading || i <= spans[a].heading.value) && !Covered(spans, spans[a].heading.value)
    decreases |kinds| - i
  {
    if i < |kinds| {
      if kinds[i].heading || !Opens(kinds, i) {
        SkipStep(kinds, i, heading);
        SpanHeadingsUncovered(kinds, i + 1, HeadingAfter(kinds, i, heading));
      } else {
        var e := BodyEnd(kinds, i + 2);
        TableStep(kinds, i, heading);
        SpanHeadingsUncovered(kinds, e, heading);
        var spans := Spans(kinds, i, heading);
        var rest := Spans(kinds, e, heading);
        assert spans[1..] == rest;
        forall a | 0 <= a < |spans| && spans[a].heading.Some?
          ensures !Covered(spans, spans[a].heading.value)
        {
          if spans[a].heading == heading {
            CoveredFrom(kinds, i, heading, heading.value);
          } else {
            assert spans[a] == rest[a - 1];
          }
        }
      }
    }
  }

  /** A line after the last that is neither a table row nor a separator row leaves the body ends alone. */
  lemma {:induction false} BodyEndPastBlank(kinds: seq<LineClass>, c: LineClass, j: nat)
    requires j <= |kinds| && !c.row
    ensures BodyEnd(kinds + [c], j) == BodyEnd(kinds, j)
    decreases |kinds| - j
  {
    if j < |kinds| {
      assert (kinds + [c])[j] == kinds[j];
      if IsBody(kinds[j]) {
        BodyEndPastBlank(kinds, c, j + 1);
      }
    } else {
      assert (kinds + [c])[j] == c;
    }
  }

  /** A final line that is neither a table row nor a separator row changes nothing in the scan. */
  lemma {:induction false} SpansPastBlank(kinds: seq<LineClass>, c: LineClass, i: nat, heading: Option<nat>)
    requires i <= |kinds| && !c.row && !c.separator
    ensures Spans(kinds + [c], i, heading) == Spans(kinds, i, heading)
    decreases |kinds| - i
  {
    var k2 := kinds + [c];
    if i == |kinds| {
      assert k2[i] == c && !Opens(k2, i);
    } else {
      assert k2[i] == kinds[i];
      assert Opens(k2, i) == Opens(kinds, i) by {
        if i + 1 < |kinds| {
          assert k2[i + 1] == kinds[i + 1];
        } else {
          assert k2[i + 1] == c;
        }
      }
      if kinds[i].heading || !Opens(kinds, i) {
        SkipStep(kinds, i, heading);
        SkipStep(k2, i, heading);
        SpansPastBlank(kinds, c, i + 1, HeadingAfter(kinds, i, heading));
      } else {
        TableStep(kinds, i, heading);
        TableStep(k2, i, heading);
        BodyEndPastBlank(kinds, c, i + 2);
        SpansPastBlank(kinds, c, BodyEnd(kinds, i + 2), heading);
      }
    }
  }
}
