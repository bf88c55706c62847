/**
 * The handful of Rust `str` operations the Markdown table engine relies on,
 * written out over `string` (a sequence of Unicode scalar values):
 * `char::is_whitespace`, `trim`, `split`, `join("\n")`, `lines()` and the
 * left-aligned padding of `format!("{:<width$}", ..)`.
 */
module Strings {

  datatype Option<T> = None | Some(value: T)

  /** Rust's `char::is_whitespace`: the Unicode White_Space property. */
  predicate IsWhitespace(c: char) {
    var n := c as int;
    (0x09 <= n <= 0x0D) || n == 0x20 || n == 0x85 || n == 0xA0 || n == 0x1680
    || (0x2000 <= n <= 0x200A) || n == 0x2028 || n == 0x2029 || n == 0x202F
    || n == 0x205F || n == 0x3000
  }

  predicate AllWhitespace(s: string) {
    forall k :: 0 <= k < |s| ==> IsWhitespace(s[k])
  }

  /** No whitespace at either end: what `trim` leaves behind. */
  predicate IsTrimmed(s: string) {
    s == [] || (!IsWhitespace(s[0]) && !IsWhitespace(s[|s| - 1]))
  }

  /** `str::trim_start`: the suffix left after dropping leading whitespace. */
  function TrimStart(s: string): (r: string)
    ensures |r| <= |s|
    ensures r == [] || !IsWhitespace(r[0])
  {
    if s != [] && IsWhitespace(s[0]) then TrimStart(s[1..]) else s
  }

  /** What `trim_start` drops is whitespace, and what it keeps is a suffix. */
  lemma {:induction false} TrimStartShape(s: string)
    ensures var r := TrimStart(s);
      r == s[|s| - |r|..] && forall k :: 0 <= k < |s| - |r| ==> IsWhitespace(s[k])
  {
    if s != [] && IsWhitespace(s[0]) {
      TrimStartShape(s[1..]);
      assert forall k :: 1 <= k < |s| ==> s[k] == s[1..][k - 1];
    }
  }

  /** `str::trim_end`: the prefix left after dropping trailing whitespace. */
  function TrimEnd(s: string): (r: string)
    ensures |r| <= |s|
    ensures r == [] || !IsWhitespace(r[|r| - 1])
  {
    if s != [] && IsWhitespace(s[|s| - 1]) then TrimEnd(s[..|s| - 1]) else s
  }

  /** What `trim_end` drops is whitespace, and what it keeps is a prefix. */
  lemma {:induction false} TrimEndShape(s: string)
    ensures var r := TrimEnd(s);
      r == s[..|r|] && forall k :: |r| <= k < |s| ==> IsWhitespace(s[k])
  {
    if s != [] && IsWhitespace(s[|s| - 1]) {
      TrimEndShape(s[..|s| - 1]);
      assert forall k :: 0 <= k < |s| - 1 ==> s[k] == s[..|s| - 1][k];
    }
  }

  /** A non-whitespace character of `s` lies inside the trimmed part. */
  lemma {:induction false} TrimKeeps(s: string, u: string, r: string, k: nat)
    requires u == TrimStart(s) && r == TrimEnd(u)
    requires k < |s| && !IsWhitespace(s[k])
    ensures |s| - |u| <= k < |s| - |u| + |r| && r[k - (|s| - |u|)] == s[k]
  {
    TrimStartShape(s);
    TrimEndShape(u);
    var off := |s| - |u|;
    assert s[k] == u[k - off];
  }

  lemma {:induction false} TrimFacts(s: string, u: string, r: string)
    requires u == TrimStart(s) && r == TrimEnd(u)
    ensures forall ch :: ch in r ==> ch in s
    ensures forall ch :: ch in s && !IsWhitespace(ch) ==> ch in r
  {
    TrimStartShape(s);
    TrimEndShape(u);
    var off := |s| - |u|;
    forall ch | ch in r ensures ch in s {
      var k :| 0 <= k < |r| && r[k] == ch;
      assert u[k] == ch;
      assert s[off + k] == ch;
    }
    forall ch | ch in s && !IsWhitespace(ch) ensures ch in r {
      var k :| 0 <= k < |s| && s[k] == ch;
      TrimKeeps(s, u, r, k);
    }
  }

  /**
   * `str::trim`: whitespace is removed from both ends and from nowhere else,
   * so every other character of the input survives.
   */
  function Trim(s: string): (r: string)
    ensures IsTrimmed(r)
  {
    var u := TrimStart(s);
    TrimEndShape(u);
    assert TrimEnd(u) != [] ==> TrimEnd(u)[0] == u[0];
    TrimEnd(u)
  }

  /** `trim` removes whitespace only, so no other character is lost or added. */
  lemma {:induction false} TrimChars(s: string)
    ensures forall ch :: ch in Trim(s) ==> ch in s
    ensures forall ch :: ch in s && !IsWhitespace(ch) ==> ch in Trim(s)
  {
    TrimFacts(s, TrimStart(s), TrimEnd(TrimStart(s)));
  }

  lemma {:induction false} TrimStartPast(a: string, x: string)
    requires AllWhitespace(a)
    requires x == [] || !IsWhitespace(x[0])
    ensures TrimStart(a + x) == x
    decreases |a|
  {
    if a == [] {
      assert a + x == x;
    } else {
      assert (a + x)[1..] == a[1..] + x;
      TrimStartPast(a[1..], x);
    }
  }

  lemma {:induction false} TrimEndPast(x: string, b: string)
    requires AllWhitespace(b)
    requires x == [] || !IsWhitespace(x[|x| - 1])
    ensures TrimEnd(x + b) == x
    decreases |b|
  {
    if b == [] {
      assert x + b == x;
    } else {
      assert (x + b)[..|x + b| - 1] == x + b[..|b| - 1];
      TrimEndPast(x, b[..|b| - 1]);
    }
  }

  /** Trimming a trimmed text surrounded by whitespace gives back that text. */
  lemma {:induction false} TrimPadded(a: string, c: string, b: string)
    requires AllWhitespace(a) && AllWhitespace(b) && IsTrimmed(c)
    ensures Trim(a + c + b) == c
  {
    if c == [] {
      assert a + c + b == (a + b) + [];
      TrimStartPast(a + b, []);
    } else {
      assert a + c + b == a + (c + b);
      TrimStartPast(a, c + b);
      TrimEndPast(c, b);
    }
  }

  /** A text that already has no whitespace at its ends is left alone by `trim`. */
  lemma {:induction false} TrimIdentity(s: string)
    requires IsTrimmed(s)
    ensures Trim(s) == s
  {
    TrimPadded([], s, []);
    assert [] + s + [] == s;
  }

  /** `trim_end` drops one more whitespace character at the end. */
  lemma {:induction false} TrimEndDropsLast(u: string, c: char)
    requires IsWhitespace(c)
    ensures TrimEnd(u + [c]) == TrimEnd(u)
  {
    assert (u + [c])[..|u|] == u;
  }

  /** One more whitespace character at the end changes nothing after `trim`. */
  lemma {:induction false} TrimIgnoresFinalWhitespace(x: string, c: char)
    requires IsWhitespace(c)
    ensures Trim(x + [c]) == Trim(x)
  {
    var u := TrimStart(x);
    TrimStartShape(x);
    var a := x[..|x| - |u|];
    assert AllWhitespace(a) by {
      forall k | 0 <= k < |a| ensures IsWhitespace(a[k]) {
        assert a[k] == x[k];
      }
    }
    assert x + [c] == a + (u + [c]) by {
      assert x == a + u;
    }
    if u == [] {
      assert AllWhitespace(a + [c]) by {
        forall k | 0 <= k < |a| + 1 ensures IsWhitespace((a + [c])[k]) {
          if k < |a| {
            assert (a + [c])[k] == a[k];
          }
        }
      }
      TrimStartPast(a + [c], []);
      assert a + [c] + [] == x + [c];
    } else {
      TrimStartPast(a, u + [c]);
      TrimEndDropsLast(u, c);
    }
  }

  /** The number of occurrences of `c` in `s`. */
  function Occurrences(s: string, c: char): nat {
    if s == [] then 0 else (if s[0] == c then 1 else 0) + Occurrences(s[1..], c)
  }

  lemma {:induction false} OccurrencesAppend(a: string, b: string, c: char)
    ensures Occurrences(a + b, c) == Occurrences(a, c) + Occurrences(b, c)
    decreases |a|
  {
    if a == [] {
      assert a + b == b;
    } else {
      assert (a + b)[1..] == a[1..] + b;
      OccurrencesAppend(a[1..], b, c);
    }
  }

  lemma {:induction false} OccurrencesAbsent(s: string, c: char)
    requires c !in s
    ensures Occurrences(s, c) == 0
    decreases |s|
  {
    if s != [] {
      assert s[0] in s;
      OccurrencesAbsent(s[1..], c);
    }
  }

  /**
   * `str::split` on one character: one piece per separator plus one, no
   * piece holds the separator, and every character of a piece comes from `s`.
   */
  function Split(s: string, sep: char): (r: seq<string>)
    ensures |r| == Occurrences(s, sep) + 1
    ensures forall k :: 0 <= k < |r| ==> sep !in r[k]
    ensures forall k, ch :: 0 <= k < |r| && ch in r[k] ==> ch in s
    ensures s != [] && s[0] == sep ==> r[0] == []
    ensures |r| == 1 ==> r[0] == s
  {
    if s == [] then [[]]
    else
      var rest := Split(s[1..], sep);
      assert s == [s[0]] + s[1..];
      if s[0] == sep then [[]] + rest else [[s[0]] + rest[0]] + rest[1..]
  }

  /** `parts.join(sep)` for a non-empty list of parts. */
  function Join(parts: seq<string>, sep: char): string
    requires |parts| >= 1
  {
    if |parts| == 1 then parts[0]
    else Join(parts[..|parts| - 1], sep) + [sep] + parts[|parts| - 1]
  }

  /** Every line followed by a newline, as a loop that pushes `line` then `'\n'` builds it. */
  function Terminated(lines: seq<string>): string {
    if lines == [] then []
    else Terminated(lines[..|lines| - 1]) + lines[|lines| - 1] + "\n"
  }

  /** One more line and its newline. */
  lemma {:induction false} TerminatedStep(lines: seq<string>, n: nat)
    requires n < |lines|
    ensures Terminated(lines[..n]) + lines[n] + "\n" == Terminated(lines[..n + 1])
  {
    assert lines[..n + 1][..n] == lines[..n];
  }

  /** `lines.join("\n")`, which is empty for no lines. */
  function JoinLines(lines: seq<string>): string {
    if lines == [] then [] else Join(lines, '\n')
  }

  /** A line read up to a `'\n'` loses one `'\r'` just before it, as `str::lines()` does. */
  function DropCR(line: string): (r: string)
    ensures line == r || line == r + ['\r']
  {
    if line != [] && line[|line| - 1] == '\r' then line[..|line| - 1] else line
  }

  /** `DropCR` applied to each line. */
  function DropCRs(lines: seq<string>): (r: seq<string>)
    ensures |r| == |lines| && forall k :: 0 <= k < |r| ==> r[k] == DropCR(lines[k])
  {
    seq(|lines|, k requires 0 <= k < |lines| => DropCR(lines[k]))
  }

  /**
   * `str::lines()`: the pieces between newlines, where a newline (optionally
   * preceded by `'\r'`) ends a line and a final newline does not open one
   * more, empty, line. A `'\r'` not followed by a newline is kept.
   */
  function Lines(s: string): (r: seq<string>)
    ensures forall k :: 0 <= k < |r| ==> '\n' !in r[k]
    ensures s != [] ==> |r| >= 1
  {
    if s == [] then []
    else
      var pieces := Split(s, '\n');
      var ended := DropCRs(pieces[..|pieces| - 1]);
      var last := pieces[|pieces| - 1];
      if last == [] then ended else ended + [last]
  }

  /** `n` copies of `c`, as `c.repeat(n)` builds them. */
  function Repeat(c: char, n: nat): (r: string)
    ensures |r| == n && forall k :: 0 <= k < n ==> r[k] == c
  {
    if n == 0 then [] else [c] + Repeat(c, n - 1)
  }

  /** `format!("{:<width$}", s)`: `s` followed by spaces up to `width` characters. */
  function PadRight(s: string, width: nat): (r: string)
    ensures |r| == if |s| < width then width else |s|
    ensures r[..|s|] == s && AllWhitespace(r[|s|..])
    ensures forall k :: |s| <= k < |r| ==> r[k] == ' '
  {
    if |s| < width then s + Repeat(' ', width - |s|) else s
  }

  lemma {:induction false} SplitAppend(a: string, b: string, sep: char)
    ensures Split(a + [sep] + b, sep) == Split(a, sep) + Split(b, sep)
    decreases |a|
  {
    if a == [] {
      assert a + [sep] + b == [sep] + b;
      assert ([sep] + b)[1..] == b;
    } else {
      assert (a + [sep] + b)[1..] == a[1..] + [sep] + b;
      SplitAppend(a[1..], b, sep);
    }
  }

  lemma {:induction false} SplitNoSeparator(s: string, sep: char)
    requires sep !in s
    ensures Split(s, sep) == [s]
    decreases |s|
  {
    if s != [] {
      assert s[0] in s;
      SplitNoSeparator(s[1..], sep);
      assert [s[0]] + s[1..] == s;
    }
  }

  /** Splitting the joined text gives back the parts when no part holds the separator. */
  lemma {:induction false} SplitJoin(parts: seq<string>, sep: char)
    requires |parts| >= 1
    requires forall k :: 0 <= k < |parts| ==> sep !in parts[k]
    ensures Split(Join(parts, sep), sep) == parts
    decreases |parts|
  {
    if |parts| == 1 {
      SplitNoSeparator(parts[0], sep);
    } else {
      var init := parts[..|parts| - 1];
      SplitJoin(init, sep);
      SplitAppend(Join(init, sep), parts[|parts| - 1], sep);
      SplitNoSeparator(parts[|parts| - 1], sep);
      assert init + [parts[|parts| - 1]] == parts;
    }
  }

  lemma {:induction false} TerminatedJoin(lines: seq<string>)
    requires |lines| >= 1
    ensures Terminated(lines) == Join(lines, '\n') + "\n"
    decreases |lines|
  {
    if |lines| > 1 {
      TerminatedJoin(lines[..|lines| - 1]);
    } else {
      assert Terminated(lines[..0]) == [];
    }
  }

  lemma {:induction false} TerminatedAppend(a: seq<string>, b: seq<string>)
    ensures Terminated(a + b) == Terminated(a) + Terminated(b)
    decreases |b|
  {
    if b == [] {
      assert a + b == a;
    } else {
      assert (a + b)[..|a + b| - 1] == a + b[..|b| - 1];
      TerminatedAppend(a, b[..|b| - 1]);
    }
  }

  lemma {:induction false} JoinNonEmpty(parts: seq<string>, sep: char)
    requires |parts| >= 1
    ensures Join(parts, sep) == [] ==> |parts| == 1 && parts[0] == []
    ensures parts[|parts| - 1] != [] ==> Join(parts, sep) != []
  {
  }

  /** Reading back newline-terminated lines gives those lines, less a `'\r'` before a newline. */
  lemma {:induction false} LinesOfTerminated(lines: seq<string>)
    requires forall k :: 0 <= k < |lines| ==> '\n' !in lines[k]
    ensures Lines(Terminated(lines)) == DropCRs(lines)
  {
    if lines != [] {
      var text := Terminated(lines);
      assert Split(text, '\n') == lines + [[]] by {
        TerminatedJoin(lines);
        SplitAppend(Join(lines, '\n'), [], '\n');
        assert Join(lines, '\n') + "\n" == Join(lines, '\n') + ['\n'] + [];
        SplitJoin(lines, '\n');
      }
      assert text != [];
      assert (lines + [[]])[..|lines|] == lines;
    }
  }

  /**
   * Reading back lines joined by newlines gives those lines, less a `'\r'`
   * before a newline, except that a final empty line is lost (its newline
   * reads as a line end).
   */
  lemma {:induction false} LinesOfJoinLines(lines: seq<string>)
    requires forall k :: 0 <= k < |lines| ==> '\n' !in lines[k]
    ensures lines == [] ==> Lines(JoinLines(lines)) == []
    ensures lines != [] && lines[|lines| - 1] == [] ==>
      Lines(JoinLines(lines)) == DropCRs(lines[..|lines| - 1])
    ensures lines != [] && lines[|lines| - 1] != [] ==>
      Lines(JoinLines(lines)) == DropCRs(lines[..|lines| - 1]) + [lines[|lines| - 1]]
  {
    if lines != [] {
      var text := JoinLines(lines);
      JoinNonEmpty(lines, '\n');
      if text == [] {
        assert lines[..|lines| - 1] == [];
      } else {
        SplitJoin(lines, '\n');
        assert Split(text, '\n') == lines;
        LinesOfPieces(text, lines);
      }
    }
  }

  /** `str::lines()` of a non-empty text, given its pieces between newlines. */
  lemma {:induction false} LinesOfPieces(text: string, pieces: seq<string>)
    requires text != [] && pieces == Split(text, '\n')
    ensures pieces[|pieces| - 1] == [] ==> Lines(text) == DropCRs(pieces[..|pieces| - 1])
    ensures pieces[|pieces| - 1] != [] ==> Lines(text) == DropCRs(pieces[..|pieces| - 1]) + [pieces[|pieces| - 1]]
  {
  }
}
