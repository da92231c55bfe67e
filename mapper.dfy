/** The Hadoop streaming mapper: reads CSV task rows and emits `title|completed<TAB>1` for
    every row with at least eleven fields and a non-empty title, skipping a header only on
    the first line. Input lines keep their trailing newline, as `sys.stdin` yields them. */
module HadoopMapper {
  import opened Maybe
  import opened PyText

  /** `parse_csv_line(line)`: a naive comma split of the line without its trailing
      newlines, each field stripped. */
  function ParseCsvLine(line: string): (parts: seq<string>)
    ensures |parts| == Count(RStripNewlines(line), ',') + 1
    ensures forall k :: 0 <= k < |parts| ==>
      parts[k] == Strip(Split(RStripNewlines(line), ',')[k])
  {
    var pieces := Split(RStripNewlines(line), ',');
    seq(|pieces|, k requires 0 <= k < |pieces| => Strip(pieces[k]))
  }

  /** Each field is comma-free and carries no surrounding whitespace, and the fields are
      the stripped pieces whose comma-join is the line without its trailing newlines. */
  lemma {:induction false} ParseCsvLineFields(line: string)
    ensures var parts := ParseCsvLine(line);
      forall k :: 0 <= k < |parts| ==>
        ',' !in parts[k] && (parts[k] == [] || (!IsSpace(parts[k][0]) && !IsSpace(parts[k][|parts[k]| - 1])))
    ensures Join(Split(RStripNewlines(line), ','), ',') == RStripNewlines(line)
  {
    var pieces := Split(RStripNewlines(line), ',');
    var parts := ParseCsvLine(line);
    SplitSepFree(RStripNewlines(line), ',');
    forall k | 0 <= k < |parts| ensures ',' !in parts[k] {
      assert ',' !in pieces[k];
      StripSubsequence(pieces[k], ',');
    }
    JoinSplit(RStripNewlines(line), ',');
  }

  /** Stripping never introduces a character that was not there. */
  lemma {:induction false} StripSubsequence(s: string, c: char)
    requires c !in s
    ensures c !in Strip(s)
  {
    hide Strip;
    var r := Strip(s);
    var i, j :| CutFrom(s, r, i, j, IsSpace);
    forall k | 0 <= k < |r| ensures r[k] != c {
      assert r[k] == s[i + k];
    }
  }

  /** The header shape: the lower-cased line starts with `id,`. Only the first line is
      checked against it. */
  predicate LooksLikeHeader(line: string)
  {
    "id," <= Lower(line)
  }

  /** The output line for one data row, or `None` where the row is dropped: fewer than
      eleven fields, or an empty title. */
  function MapLine(line: string): (out: Option<string>)
  {
    var parts := ParseCsvLine(line);
    if |parts| < 11 then None
    else
      var title := parts[1];
      var completed := Lower(parts[6]);
      if title != "" then Some(title + "|" + completed + "\t1\n") else None
  }

  /** A row yields a line exactly when it has at least eleven fields and a non-empty
      title; the line is `title|lower(completed)` followed by a tab and the count 1. */
  lemma MapLineCases(line: string)
    ensures var parts := ParseCsvLine(line);
      && (MapLine(line).Some? <==> |parts| >= 11 && parts[1] != "")
      && (MapLine(line).Some? ==>
            MapLine(line).value == parts[1] + "|" + Lower(parts[6]) + "\t1\n")
    ensures MapLine(line).Some? ==> Count(RStripNewlines(line), ',') >= 10
  {
  }

  /** The lines emitted for a run of data rows, in order (no header test). */
  function EmitAll(lines: seq<string>): seq<string>
  {
    if |lines| == 0 then []
    else EmitAll(lines[..|lines| - 1]) + ToSeq(MapLine(lines[|lines| - 1]))
  }

  /** What the mapper writes for its whole input: the first line is dropped when it looks
      like a header, and every remaining line is treated as data. */
  function MapperOutput(lines: seq<string>): seq<string>
  {
    if |lines| > 0 && LooksLikeHeader(lines[0]) then EmitAll(lines[1..]) else EmitAll(lines)
  }

  /** The emitted lines of two consecutive stretches of input are those of the first
      followed by those of the second. */
  lemma {:induction false} EmitAllAppend(a: seq<string>, b: seq<string>)
    ensures EmitAll(a + b) == EmitAll(a) + EmitAll(b)
    decreases |b|
  {
    hide MapLine, LooksLikeHeader;
    if |b| > 0 {
      var b' := b[..|b| - 1];
      assert (a + b)[..|a + b| - 1] == a + b';
      EmitAllAppend(a, b');
    } else {
      assert a + b == a;
    }
  }

  /** The mapper's streaming loop over `enumerate(sys.stdin)`. */
  method Mapper(lines: seq<string>) returns (out: seq<string>)
    ensures out == MapperOutput(lines)
  {
    hide MapLine, LooksLikeHeader;
    out := [];
    for i := 0 to |lines|
      invariant out == MapperOutput(lines[..i])
    {
      var line := lines[i];
      if i == 0 && LooksLikeHeader(line) {
        assert MapperOutput(lines[..1]) == EmitAll([]);
        continue;
      }
      var emitted := MapLine(line);
      if emitted.Some? {
        out := out + [emitted.value];
      }
      MapperStep(lines, i);
    }
    assert lines[..|lines|] == lines;
  }

  /** One step of the loop: line `i` contributes `MapLine(lines[i])` unless it is the first
      line and looks like a header. */
  lemma MapperStep(lines: seq<string>, i: nat)
    requires i < |lines|
    requires !(i == 0 && LooksLikeHeader(lines[0]))
    ensures MapperOutput(lines[..i + 1]) == MapperOutput(lines[..i]) + ToSeq(MapLine(lines[i]))
  {
    hide MapLine, LooksLikeHeader;
    var p := lines[..i + 1];
    assert p[..|p| - 1] == lines[..i];
    if i > 0 && LooksLikeHeader(lines[0]) {
      assert p[1..] == lines[1..i] + [lines[i]];
      assert lines[..i][1..] == lines[1..i];
      EmitAllAppend(lines[1..i], [lines[i]]);
      assert [lines[i]][..0] == [];
    }
  }

  /** Each input line yields at most one output line. */
  lemma {:induction false} EmitAllBound(lines: seq<string>)
    ensures |EmitAll(lines)| <= |lines|
  {
    hide MapLine, LooksLikeHeader;
    if |lines| > 0 {
      EmitAllBound(lines[..|lines| - 1]);
    }
  }

  lemma MapperBound(lines: seq<string>)
    ensures |MapperOutput(lines)| <= |lines|
  {
    hide MapLine, LooksLikeHeader;
    EmitAllBound(lines);
    if |lines| > 0 {
      EmitAllBound(lines[1..]);
    }
  }

  lemma EmitAllSingle(line: string)
    ensures EmitAll([line]) == ToSeq(MapLine(line))
  {
    hide MapLine, LooksLikeHeader;
    assert [line][..0] == [];
  }

  /** Only the first line can be taken for a header: a header-shaped line anywhere later
      is processed like any data row, and its output keeps its place in the order. */
  lemma LaterHeaderIsData(pre: seq<string>, line: string, post: seq<string>)
    requires |pre| > 0
    ensures MapperOutput(pre + [line] + post)
         == MapperOutput(pre) + ToSeq(MapLine(line)) + EmitAll(post)
  {
    hide MapLine, LooksLikeHeader;
    var all := pre + [line] + post;
    EmitAllSingle(line);
    assert all[0] == pre[0];
    if LooksLikeHeader(pre[0]) {
      var rest := pre[1..];
      assert all[1..] == rest + [line] + post;
      EmitAllAppend(rest + [line], post);
      EmitAllAppend(rest, [line]);
      assert MapperOutput(all) == EmitAll(all[1..]);
      assert MapperOutput(pre) == EmitAll(rest);
    } else {
      EmitAllAppend(pre + [line], post);
      EmitAllAppend(pre, [line]);
      assert MapperOutput(all) == EmitAll(all);
      assert MapperOutput(pre) == EmitAll(pre);
    }
  }

  /** A first line that does not look like a header is data like every other line. */
  lemma FirstLineData(lines: seq<string>)
    requires |lines| > 0 && !LooksLikeHeader(lines[0])
    ensures MapperOutput(lines) == ToSeq(MapLine(lines[0])) + EmitAll(lines[1..])
  {
    hide MapLine, LooksLikeHeader;
    assert lines == [lines[0]] + lines[1..];
    EmitAllAppend([lines[0]], lines[1..]);
    EmitAllSingle(lines[0]);
  }

  /** Every emitted line is the output of some input line. */
  lemma {:induction false} EmitAllFromInput(lines: seq<string>, k: nat)
    requires k < |EmitAll(lines)|
    ensures exists i :: 0 <= i < |lines| && MapLine(lines[i]) == Some(EmitAll(lines)[k])
  {
    hide MapLine, LooksLikeHeader;
    var n := |lines|;
    var front := EmitAll(lines[..n - 1]);
    if k < |front| {
      EmitAllFromInput(lines[..n - 1], k);
      var i :| 0 <= i < n - 1 && MapLine(lines[..n - 1][i]) == Some(front[k]);
      assert lines[..n - 1][i] == lines[i];
    } else {
      assert MapLine(lines[n - 1]) == Some(EmitAll(lines)[k]);
    }
  }
}
