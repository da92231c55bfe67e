/** The Hadoop streaming reducer: sums the integer values of consecutive lines that share a
    key and writes one `key<TAB>sum` line per run. */
module HadoopReducer {
  import opened Maybe
  import opened PyText

  datatype Record = Record(key: string, value: int)

  /** What a key read from a line looks like: non-empty, tab-free, and not starting with
      whitespace (the line was stripped, and the tab is itself whitespace). */
  predicate KeyOk(key: string)
  {
    |key| > 0 && !IsSpace(key[0]) && '\t' !in key
  }

  /** One input line as the loop body reads it: `None` for a blank line, a line with no
      tab, or a value `int()` rejects; otherwise the text before the first tab of the
      stripped line and the value after it. */
  function ParseLine(line: string): Option<Record>
  {
    var stripped := Strip(line);
    if stripped == [] then None
    else
      match SplitAtFirst(stripped, '\t')
      case None => None
      case Some((key, val)) =>
        match ParseInt(val)
        case None => None
        case Some(n) => Some(Record(key, n))
  }

  /** The records of the valid lines, in input order. */
  function Records(lines: seq<string>): seq<Record>
  {
    RecordsBefore(lines, |lines|)
  }

  /** The records of the valid lines among the first `n`. */
  function RecordsBefore(lines: seq<string>, n: nat): seq<Record>
    requires n <= |lines|
  {
    if n == 0 then [] else RecordsBefore(lines, n - 1) + ToSeq(ParseLine(lines[n - 1]))
  }

  /** Adds one record to a run-grouping: merged into the last run when the keys agree,
      otherwise opening a new run. */
  function AddToRuns(runs: seq<Record>, r: Record): seq<Record>
  {
    if |runs| > 0 && runs[|runs| - 1].key == r.key
    then runs[..|runs| - 1] + [Record(r.key, runs[|runs| - 1].value + r.value)]
    else runs + [r]
  }

  /** The run-grouping of a record sequence: one record per maximal run of equal
      consecutive keys, carrying the run's key and the sum of its values. */
  function Group(rs: seq<Record>): (runs: seq<Record>)
    ensures |runs| <= |rs|
    ensures |runs| == 0 <==> |rs| == 0
  {
    if |rs| == 0 then [] else AddToRuns(Group(rs[..|rs| - 1]), rs[|rs| - 1])
  }

  function Sum(rs: seq<Record>): int
  {
    if |rs| == 0 then 0 else Sum(rs[..|rs| - 1]) + rs[|rs| - 1].value
  }

  /** One output line: the key, a tab, the sum in decimal, and a newline. */
  function FormatRecord(r: Record): string
  {
    r.key + "\t" + IntToString(r.value) + "\n"
  }

  function FormatAll(rs: seq<Record>): (out: seq<string>)
    ensures |out| == |rs|
  {
    if |rs| == 0 then [] else FormatAll(rs[..|rs| - 1]) + [FormatRecord(rs[|rs| - 1])]
  }

  /** What the reducer writes for a whole input. */
  function ReducerOutput(lines: seq<string>): seq<string>
  {
    FormatAll(Group(Records(lines)))
  }

  ghost predicate AdjacentDistinct(rs: seq<Record>)
  {
    forall i :: 0 <= i < |rs| - 1 ==> rs[i].key != rs[i + 1].key
  }

  ghost predicate AllKeysOk(rs: seq<Record>)
  {
    forall i :: 0 <= i < |rs| ==> KeyOk(rs[i].key)
  }

  /** Records with the same key never sit apart from each other: the shape a sorted
      shuffle hands to the reducer. */
  ghost predicate KeysContiguous(rs: seq<Record>)
  {
    forall i, j, k :: 0 <= i < j < k < |rs| && rs[i].key == rs[k].key ==> rs[j].key == rs[i].key
  }

  // ---------------------------------------------------------------------------
  // The loop

  /** A single record is a run of its own. */
  lemma FirstRun(r: Record)
    ensures Group([r]) == [r]
  {
    assert [r][..0] == [];
  }

  lemma MergeRun(written: seq<Record>, key: string, sum: int, before: seq<Record>, r: Record)
    requires written + [Record(key, sum)] == Group(before)
    requires before != [] && r.key == key
    ensures written + [Record(key, sum + r.value)] == Group(before + [r])
  {
    assert (before + [r])[..|before|] == before;
    assert (written + [Record(key, sum)])[..|written|] == written;
  }

  lemma NewRun(written: seq<Record>, key: string, sum: int, before: seq<Record>, r: Record)
    requires written + [Record(key, sum)] == Group(before)
    requires before != [] && r.key != key
    ensures (written + [Record(key, sum)]) + [Record(r.key, r.value)] == Group(before + [r])
  {
    assert (before + [r])[..|before|] == before;
  }

  lemma FormatAllSnoc(rs: seq<Record>, r: Record)
    ensures FormatAll(rs + [r]) == FormatAll(rs) + [FormatRecord(r)]
  {
    assert (rs + [r])[..|rs|] == rs;
  }

  /** The state of the reducer after the first `i` lines. The current key is None exactly
      when no valid line has been read; otherwise the runs already printed (`written`),
      followed by the open run of the current key and sum, are the run-grouping of the
      records read so far. The output is the printed runs, formatted. */
  ghost predicate LoopState(lines: seq<string>, i: nat, currentKey: Option<string>, currentSum: int,
                            written: seq<Record>, out: seq<string>)
    requires i <= |lines|
  {
    var seen := RecordsBefore(lines, i);
    && (currentKey.None? <==> seen == [])
    && (currentKey.None? ==> written == [])
    && (currentKey.Some? ==> written + [Record(currentKey.value, currentSum)] == Group(seen))
    && out == FormatAll(written)
  }

  /** The reducer's pass over its input lines, with the flush of the last run after it. */
  method Reducer(lines: seq<string>) returns (out: seq<string>)
    ensures out == ReducerOutput(lines)
  {
    // Each step of the loop is justified by one lemma about `LoopState`.
    hide ParseLine, LoopState;
    var currentKey: Option<string> := None;
    var currentSum := 0;
    out := [];
    ghost var written: seq<Record> := [];
    LoopStart(lines);
    for i := 0 to |lines|
      invariant LoopState(lines, i, currentKey, currentSum, written, out)
    {
      var parsed := ParseLine(lines[i]);
      if parsed.None? {
        LoopSkip(lines, i, currentKey, currentSum, written, out);
        continue;
      }
      var key, val := parsed.value.key, parsed.value.value;
      if currentKey.None? {
        LoopFirst(lines, i, currentSum, written, out);
        currentKey, currentSum := Some(key), val;
      } else if key == currentKey.value {
        LoopMerge(lines, i, currentKey.value, currentSum, written, out);
        currentSum := currentSum + val;
      } else {
        LoopNewRun(lines, i, currentKey.value, currentSum, written, out);
        var done := Record(currentKey.value, currentSum);
        out := out + [FormatRecord(done)];
        written := written + [done];
        currentKey, currentSum := Some(key), val;
      }
    }
    LoopEnd(lines, currentKey, currentSum, written, out);
    if currentKey.Some? {
      out := out + [FormatRecord(Record(currentKey.value, currentSum))];
    }
  }

  lemma LoopStart(lines: seq<string>)
    ensures LoopState(lines, 0, None, 0, [], [])
  {
  }

  /** A line that does not parse leaves the state as it was. */
  lemma LoopSkip(lines: seq<string>, i: nat, currentKey: Option<string>, currentSum: int,
                 written: seq<Record>, out: seq<string>)
    requires i < |lines| && ParseLine(lines[i]).None?
    requires LoopState(lines, i, currentKey, currentSum, written, out)
    ensures LoopState(lines, i + 1, currentKey, currentSum, written, out)
  {
    hide ParseLine;
    assert RecordsBefore(lines, i + 1) == RecordsBefore(lines, i);
  }

  /** The first valid line opens the first run. */
  lemma LoopFirst(lines: seq<string>, i: nat, sum: int, written: seq<Record>, out: seq<string>)
    requires i < |lines| && ParseLine(lines[i]).Some?
    requires LoopState(lines, i, None, sum, written, out)
    ensures LoopState(lines, i + 1, Some(ParseLine(lines[i]).value.key),
                      ParseLine(lines[i]).value.value, written, out)
  {
    hide ParseLine, Group, FormatAll;
    var r := ParseLine(lines[i]).value;
    assert RecordsBefore(lines, i + 1) == [r];
    FirstRun(r);
  }

  /** A valid line with the open run's key adds its value to the open run. */
  lemma LoopMerge(lines: seq<string>, i: nat, key: string, sum: int,
                  written: seq<Record>, out: seq<string>)
    requires i < |lines| && ParseLine(lines[i]).Some? && ParseLine(lines[i]).value.key == key
    requires LoopState(lines, i, Some(key), sum, written, out)
    ensures LoopState(lines, i + 1, Some(key), sum + ParseLine(lines[i]).value.value, written, out)
  {
    hide ParseLine, Group, FormatAll;
    var r := ParseLine(lines[i]).value;
    var before := RecordsBefore(lines, i);
    assert RecordsBefore(lines, i + 1) == before + [r];
    MergeRun(written, key, sum, before, r);
  }

  /** A valid line with another key closes the open run, which is written out, and opens
      a new one. */
  lemma LoopNewRun(lines: seq<string>, i: nat, key: string, sum: int,
                   written: seq<Record>, out: seq<string>)
    requires i < |lines| && ParseLine(lines[i]).Some? && ParseLine(lines[i]).value.key != key
    requires LoopState(lines, i, Some(key), sum, written, out)
    ensures LoopState(lines, i + 1, Some(ParseLine(lines[i]).value.key), ParseLine(lines[i]).value.value,
                      written + [Record(key, sum)], out + [FormatRecord(Record(key, sum))])
  {
    hide ParseLine, Group, FormatAll;
    var r := ParseLine(lines[i]).value;
    var before := RecordsBefore(lines, i);
    assert RecordsBefore(lines, i + 1) == before + [r];
    NewRun(written, key, sum, before, r);
    FormatAllSnoc(written, Record(key, sum));
  }

  /** After the last line, flushing the open run (if any) completes the output. */
  lemma LoopEnd(lines: seq<string>, currentKey: Option<string>, currentSum: int,
                written: seq<Record>, out: seq<string>)
    requires LoopState(lines, |lines|, currentKey, currentSum, written, out)
    ensures currentKey.None? ==> out == ReducerOutput(lines)
    ensures currentKey.Some? ==>
      out + [FormatRecord(Record(currentKey.value, currentSum))] == ReducerOutput(lines)
  {
    if currentKey.Some? {
      FormatAllSnoc(written, Record(currentKey.value, currentSum));
    }
  }

  // ---------------------------------------------------------------------------
  // Reading one line

  /** A line that strips to nothing, or has no tab once stripped, is skipped. */
  lemma ParseLineRejects(line: string)
    ensures Strip(line) == [] ==> ParseLine(line).None?
    ensures '\t' !in Strip(line) ==> ParseLine(line).None?
  {
  }

  /** A stripped line `key<TAB>rest` with a tab-free `key` is read as `key` and `int(rest)`,
      and skipped exactly when `int(rest)` fails: the key is everything before the first tab. */
  lemma ParseLineOf(line: string, key: string, rest: string)
    requires '\t' !in key && Strip(line) == key + "\t" + rest
    ensures ParseInt(rest).None? ==> ParseLine(line).None?
    ensures ParseInt(rest).Some? ==> ParseLine(line) == Some(Record(key, ParseInt(rest).value))
  {
    hide Strip, ParseInt;
    SplitAtFirstOf(key, rest, '\t');
  }

  /** A line whose value holds one of the separators \x1c-\x1f is skipped, although
      `strip()` would treat that character as whitespace. */
  lemma SeparatorValueSkipped(line: string, key: string, rest: string, k: nat)
    requires '\t' !in key && Strip(line) == key + "\t" + rest
    requires k < |rest| && '\U{1C}' <= rest[k] <= '\U{1F}'
    ensures ParseLine(line).None?
  {
    ParseIntRejectsSeparator(rest, k);
    ParseLineOf(line, key, rest);
  }

  /** The input `k<TAB>\x1c5` on its own produces no output at all. */
  lemma SeparatorLineWritesNothing()
    ensures ReducerOutput(["k\t\U{1C}5\n"]) == []
  {
    hide ParseLine, Strip;
    var line := "k\t\U{1C}5\n";
    assert line == "k\t\U{1C}5" + "\n";
    StripCleanLine("k\t\U{1C}5");
    SeparatorValueSkipped(line, "k", "\U{1C}5", 0);
    RecordsSingle(line);
  }

  /** A key the loop reads is non-empty, tab-free and does not start with whitespace. */
  lemma ParseLineKeyOk(line: string)
    requires ParseLine(line).Some?
    ensures KeyOk(ParseLine(line).value.key)
  {
    var stripped := Strip(line);
    var parts := SplitAtFirst(stripped, '\t').value;
    assert stripped[0] == (parts.0 + ['\t'] + parts.1)[0];
  }

  /** A line the reducer itself writes reads back as the record it was written from. */
  lemma ParseFormatRoundTrip(r: Record)
    requires KeyOk(r.key)
    ensures ParseLine(FormatRecord(r)) == Some(r)
  {
    var v := IntToString(r.value);
    var x := r.key + "\t" + v;
    assert FormatRecord(r) == x + "\n";
    assert x[0] == r.key[0] && x[|x| - 1] == v[|v| - 1];
    StripCleanLine(x);
    SplitAtFirstOf(r.key, v, '\t');
    IntToStringRoundTrip(r.value);
  }

  // ---------------------------------------------------------------------------
  // Records of a line sequence

  lemma {:induction false} RecordsBeforePrefix(a: seq<string>, b: seq<string>, n: nat)
    requires n <= |a|
    ensures RecordsBefore(a + b, n) == RecordsBefore(a, n)
  {
    hide ParseLine;
    if n > 0 {
      RecordsBeforePrefix(a, b, n - 1);
      assert (a + b)[n - 1] == a[n - 1];
    }
  }

  lemma RecordsEmpty()
    ensures Records([]) == []
  {
  }

  /** One more line adds its record, if it has one, at the end. */
  lemma RecordsSnoc(s: seq<string>, line: string)
    ensures Records(s + [line]) == Records(s) + ToSeq(ParseLine(line))
  {
    hide ParseLine;
    RecordsBeforePrefix(s, [line], |s|);
    assert (s + [line])[|s|] == line;
  }

  /** Line by line: the records of a concatenation are the concatenation of the records. */
  lemma {:induction false} RecordsAppend(a: seq<string>, b: seq<string>)
    ensures Records(a + b) == Records(a) + Records(b)
    decreases |b|
  {
    hide ParseLine, Records;
    if |b| == 0 {
      assert a + b == a;
      RecordsEmpty();
    } else {
      var b' := b[..|b| - 1];
      var x := b[|b| - 1];
      assert b == b' + [x];
      assert a + b == (a + b') + [x];
      RecordsAppend(a, b');
      RecordsSnoc(a + b', x);
      RecordsSnoc(b', x);
    }
  }

  lemma RecordsSingle(line: string)
    ensures Records([line]) == ToSeq(ParseLine(line))
  {
    hide ParseLine;
    assert RecordsBefore([line], 0) == [];
  }

  /** A blank line, a line without a tab or with a value `int()` rejects is skipped: the
      output is as if it were not there. */
  lemma IgnoredLine(pre: seq<string>, line: string, post: seq<string>)
    requires ParseLine(line).None?
    ensures Records(pre + [line] + post) == Records(pre + post)
    ensures ReducerOutput(pre + [line] + post) == ReducerOutput(pre + post)
  {
    hide ParseLine, Records, Group, FormatAll;
    RecordsAppend(pre + [line], post);
    RecordsSnoc(pre, line);
    RecordsAppend(pre, post);
  }

  /** Every key read from the input is a well-formed key. */
  lemma {:induction false} RecordsKeysOk(lines: seq<string>, n: nat)
    requires n <= |lines|
    ensures AllKeysOk(RecordsBefore(lines, n))
  {
    hide ParseLine;
    if n > 0 {
      RecordsKeysOk(lines, n - 1);
      if ParseLine(lines[n - 1]).Some? {
        ParseLineKeyOk(lines[n - 1]);
      }
    }
  }

  /** The reducer's own output lines read back as the runs they were written from. */
  lemma {:induction false} RecordsOfFormatAll(rs: seq<Record>)
    requires AllKeysOk(rs)
    ensures Records(FormatAll(rs)) == rs
    decreases |rs|
  {
    hide ParseLine, FormatRecord, KeyOk;
    if |rs| > 0 {
      var init := rs[..|rs| - 1];
      var last := rs[|rs| - 1];
      assert rs == init + [last];
      assert AllKeysOk(init) by {
        assert forall i :: 0 <= i < |init| ==> init[i] == rs[i];
      }
      RecordsOfFormatAll(init);
      var front := FormatAll(init);
      var line := FormatRecord(last);
      assert KeyOk(last.key);
      ParseFormatRoundTrip(last);
      RecordsSingle(line);
      RecordsAppend(front, [line]);
      assert FormatAll(rs) == front + [line];
    }
  }

  // ---------------------------------------------------------------------------
  // The run-grouping

  lemma GroupSnoc(rs: seq<Record>, r: Record)
    ensures Group(rs + [r]) == AddToRuns(Group(rs), r)
  {
    assert (rs + [r])[..|rs|] == rs;
  }

  /** The last run carries the key of the last record. */
  lemma GroupLastKey(rs: seq<Record>)
    requires |rs| > 0
    ensures Group(rs)[|Group(rs)| - 1].key == rs[|rs| - 1].key
  {
  }

  /** No two neighbouring runs share a key. */
  lemma {:induction false} GroupAdjacentDistinct(rs: seq<Record>)
    ensures AdjacentDistinct(Group(rs))
    decreases |rs|
  {
    hide Group;
    if |rs| > 0 {
      var init := rs[..|rs| - 1];
      var r := rs[|rs| - 1];
      var g := Group(init);
      GroupAdjacentDistinct(init);
      GroupSnoc(init, r);
      assert rs == init + [r];
      if |g| > 0 && g[|g| - 1].key == r.key {
        MergeKeepsKeys(g, r);
      } else {
        assert Group(rs) == g + [r];
      }
    }
  }

  lemma SumSnoc(rs: seq<Record>, r: Record)
    ensures Sum(rs + [r]) == Sum(rs) + r.value
  {
    assert (rs + [r])[..|rs|] == rs;
  }

  /** Merging a record into the runs adds its value to the total. */
  lemma AddToRunsSum(runs: seq<Record>, r: Record)
    ensures Sum(AddToRuns(runs, r)) == Sum(runs) + r.value
  {
    if |runs| > 0 && runs[|runs| - 1].key == r.key {
      var init := runs[..|runs| - 1];
      SumSnoc(init, Record(r.key, runs[|runs| - 1].value + r.value));
      assert runs == init + [runs[|runs| - 1]];
      SumSnoc(init, runs[|runs| - 1]);
    } else {
      SumSnoc(runs, r);
    }
  }

  /** Conservation: the runs sum to the same total as the records. */
  lemma {:induction false} GroupSum(rs: seq<Record>)
    ensures Sum(Group(rs)) == Sum(rs)
    decreases |rs|
  {
    if |rs| > 0 {
      GroupSum(rs[..|rs| - 1]);
      AddToRunsSum(Group(rs[..|rs| - 1]), rs[|rs| - 1]);
    }
  }

  /** A sequence whose neighbours already differ in key is its own grouping. */
  lemma {:induction false} GroupOfAdjacentDistinct(rs: seq<Record>)
    requires AdjacentDistinct(rs)
    ensures Group(rs) == rs
    decreases |rs|
  {
    if |rs| > 0 {
      var init := rs[..|rs| - 1];
      assert AdjacentDistinct(init);
      GroupOfAdjacentDistinct(init);
      if |init| > 0 {
        assert init[|init| - 1].key != rs[|rs| - 1].key;
      }
      assert rs == init + [rs[|rs| - 1]];
    }
  }

  /** A run of one key collapses to a single record holding the run's total. */
  lemma {:induction false} GroupSingleKey(rs: seq<Record>, key: string)
    requires |rs| > 0
    requires forall i :: 0 <= i < |rs| ==> rs[i].key == key
    ensures Group(rs) == [Record(key, Sum(rs))]
    decreases |rs|
  {
    var init := rs[..|rs| - 1];
    var last := rs[|rs| - 1];
    var total := Sum(init) + last.value;
    assert Sum(rs) == total;
    assert last.key == key;
    if |init| == 0 {
      assert Group(init) == [] && total == last.value;
      assert AddToRuns([], last) == [Record(key, total)];
    } else {
      assert forall i :: 0 <= i < |init| ==> init[i] == rs[i];
      GroupSingleKey(init, key);
      var g := [Record(key, Sum(init))];
      assert g[..0] == [];
      assert AddToRuns(g, last) == [Record(key, total)];
    }
    assert Group(rs) == AddToRuns(Group(init), last);
  }

  lemma AddToRunsAppend(a: seq<Record>, b: seq<Record>, r: Record)
    requires |b| > 0
    ensures AddToRuns(a + b, r) == a + AddToRuns(b, r)
  {
    if b[|b| - 1].key == r.key {
      assert (a + b)[..|a + b| - 1] == a + b[..|b| - 1];
    }
  }

  /** Where neighbouring blocks end and start with different keys, the grouping of the
      whole is the groupings of the blocks side by side. */
  lemma {:induction false} GroupConcat(xs: seq<Record>, ys: seq<Record>)
    requires |xs| > 0 && |ys| > 0
    requires xs[|xs| - 1].key != ys[0].key
    ensures Group(xs + ys) == Group(xs) + Group(ys)
    decreases |ys|
  {
    hide Group;
    var y := ys[|ys| - 1];
    var ys' := ys[..|ys| - 1];
    assert ys == ys' + [y];
    assert xs + ys == (xs + ys') + [y];
    GroupSnoc(xs + ys', y);
    GroupSnoc(ys', y);
    if |ys'| == 0 {
      assert xs + ys' == xs;
      GroupLastKey(xs);
      assert Group(ys') == [];
      assert AddToRuns(Group(xs), y) == Group(xs) + [y];
      assert AddToRuns([], y) == [y];
    } else {
      assert ys'[0] == ys[0];
      GroupConcat(xs, ys');
      AddToRunsAppend(Group(xs), Group(ys'), y);
    }
  }

  /** Every run's key is the key of some record. */
  lemma {:induction false} GroupKeysFrom(rs: seq<Record>, j: nat)
    requires j < |Group(rs)|
    ensures exists i :: 0 <= i < |rs| && rs[i].key == Group(rs)[j].key
    decreases |rs|
  {
    var init := rs[..|rs| - 1];
    var g := Group(init);
    var r := rs[|rs| - 1];
    if j < |g| && !(j == |g| - 1 && g[j].key == r.key) {
      GroupKeysFrom(init, j);
      var i :| 0 <= i < |init| && init[i].key == g[j].key;
      assert rs[i] == init[i];
      assert Group(rs)[j] == g[j];
    } else {
      assert Group(rs)[j].key == r.key;
    }
  }

  ghost predicate DistinctKeys(rs: seq<Record>)
  {
    forall i, j :: 0 <= i < j < |rs| ==> rs[i].key != rs[j].key
  }

  /** Merging into the last run keeps every run's key. */
  lemma MergeKeepsKeys(runs: seq<Record>, r: Record)
    requires |runs| > 0 && runs[|runs| - 1].key == r.key
    ensures |AddToRuns(runs, r)| == |runs|
    ensures forall i :: 0 <= i < |runs| ==> AddToRuns(runs, r)[i].key == runs[i].key
  {
  }

  /** Under contiguous keys, a record whose key differs from the last run's key differs
      from the key of every earlier run too. */
  lemma NewKeyIsFresh(rs: seq<Record>, r: Record)
    requires KeysContiguous(rs + [r])
    requires |Group(rs)| > 0 && Group(rs)[|Group(rs)| - 1].key != r.key
    ensures forall j :: 0 <= j < |Group(rs)| ==> Group(rs)[j].key != r.key
  {
    var g := Group(rs);
    var all := rs + [r];
    GroupLastKey(rs);
    forall j | 0 <= j < |g|
      ensures g[j].key != r.key
    {
      GroupKeysFrom(rs, j);
      var i :| 0 <= i < |rs| && rs[i].key == g[j].key;
      assert all[i] == rs[i];
      assert all[|rs| - 1] == rs[|rs| - 1];
      assert all[|rs|] == r;
    }
  }

  /** When equal keys arrive together (the reducer's input after a sort), each key
      appears in exactly one run. */
  lemma {:induction false} GroupKeysDistinct(rs: seq<Record>)
    requires KeysContiguous(rs)
    ensures DistinctKeys(Group(rs))
    decreases |rs|
  {
    hide Group;
    if |rs| > 0 {
      var init := rs[..|rs| - 1];
      var r := rs[|rs| - 1];
      assert rs == init + [r];
      var g := Group(init);
      assert KeysContiguous(init) by {
        assert forall i :: 0 <= i < |init| ==> init[i] == rs[i];
      }
      GroupKeysDistinct(init);
      GroupSnoc(init, r);
      if |g| > 0 && g[|g| - 1].key == r.key {
        MergeKeepsKeys(g, r);
      } else if |g| > 0 {
        NewKeyIsFresh(init, r);
        assert Group(rs) == g + [r];
      } else {
        assert Group(rs) == [r];
      }
    }
  }

  // ---------------------------------------------------------------------------
  // The reducer's output

  /** The written lines read back as the run-grouping of the valid input lines. */
  lemma OutputReadsBack(lines: seq<string>)
    ensures Records(ReducerOutput(lines)) == Group(Records(lines))
  {
    var rs := Records(lines);
    RecordsKeysOk(lines, |lines|);
    GroupKeysOk(rs);
    RecordsOfFormatAll(Group(rs));
  }

  /** Keys of the runs are keys of the records, so well-formed keys stay well-formed. */
  lemma GroupKeysOk(rs: seq<Record>)
    requires AllKeysOk(rs)
    ensures AllKeysOk(Group(rs))
  {
    forall j | 0 <= j < |Group(rs)|
      ensures KeyOk(Group(rs)[j].key)
    {
      GroupKeysFrom(rs, j);
    }
  }

  /** The sum of all emitted counts equals the sum of the values of the valid lines;
      no two consecutive output lines share a key; no valid line means no output. */
  lemma ReducerSummary(lines: seq<string>)
    ensures Sum(Records(ReducerOutput(lines))) == Sum(Records(lines))
    ensures AdjacentDistinct(Records(ReducerOutput(lines)))
    ensures ReducerOutput(lines) == [] <==> Records(lines) == []
  {
    OutputReadsBack(lines);
    GroupSum(Records(lines));
    GroupAdjacentDistinct(Records(lines));
  }

  /** The run still open when the input ends is written: the last output line carries
      the key of the last valid line. */
  lemma LastRunFlushed(lines: seq<string>)
    requires Records(lines) != []
    ensures var out := Records(ReducerOutput(lines));
      |out| > 0 && out[|out| - 1].key == Records(lines)[|Records(lines)| - 1].key
  {
    OutputReadsBack(lines);
    GroupLastKey(Records(lines));
  }

  /** Feeding the reducer its own output changes nothing. */
  lemma ReducerIdempotent(lines: seq<string>)
    ensures ReducerOutput(ReducerOutput(lines)) == ReducerOutput(lines)
  {
    OutputReadsBack(lines);
    GroupAdjacentDistinct(Records(lines));
    GroupOfAdjacentDistinct(Group(Records(lines)));
  }
}
