/** The mapper and the reducer run back to back: the reducer reads the mapper's lines in
    whatever order the streaming framework hands them over (it sorts them; here that is
    any reordering of the mapper's output). */
module Pipeline {
  import opened Maybe
  import opened PyText
  import opened HadoopMapper
  import opened HadoopReducer

  /** The title and completed fields of a data row carry no tab, so the tab the mapper
      writes is the first one in its line. */
  predicate TabFreeFields(line: string)
  {
    var parts := ParseCsvLine(line);
    |parts| >= 11 ==> '\t' !in parts[1] && '\t' !in parts[6]
  }

  /** Lower-casing keeps tabs where they are and does not turn a non-blank last character
      into whitespace. */
  lemma LowerTab(s: string)
    ensures '\t' in Lower(s) <==> '\t' in s
    ensures |s| > 0 && !IsSpace(s[|s| - 1]) ==> !IsSpace(Lower(s)[|s| - 1])
  {
    assert forall i :: 0 <= i < |s| ==> (Lower(s)[i] == '\t' <==> s[i] == '\t');
  }

  /** The reducer reads a mapper line as the key `title|completed` with the count 1. */
  lemma MappedLineReads(line: string)
    requires MapLine(line).Some? && TabFreeFields(line)
    ensures var parts := ParseCsvLine(line);
      ParseLine(MapLine(line).value) == Some(Record(parts[1] + "|" + Lower(parts[6]), 1))
  {
    hide ParseLine, MapLine, ParseCsvLine, Strip, Lower, Split;
    var parts := ParseCsvLine(line);
    MapLineCases(line);
    ParseCsvLineFields(line);
    var key := parts[1] + "|" + Lower(parts[6]);
    LowerTab(parts[6]);
    assert key[0] == parts[1][0];
    assert KeyOk(key);
    assert IntToString(1) == "1";
    assert FormatRecord(Record(key, 1)) == MapLine(line).value;
    ParseFormatRoundTrip(Record(key, 1));
  }

  /** A title or completed field holding a tab spoils the count: the reducer splits the
      mapper's line at that earlier tab, what follows it is not a number, and the line is
      skipped, so the row is not counted. */
  lemma TabInFieldDropped(line: string)
    requires MapLine(line).Some? && !TabFreeFields(line)
    ensures ParseLine(MapLine(line).value).None?
  {
    hide ParseLine, MapLine, ParseCsvLine, Strip, Lower, Split;
    var parts := ParseCsvLine(line);
    MapLineCases(line);
    ParseCsvLineFields(line);
    LowerTab(parts[6]);
    if '\t' in parts[1] {
      TabInTitle(parts[1], Lower(parts[6]));
    } else {
      TabInCompleted(parts[1], Lower(parts[6]));
    }
  }

  /** The mapper's line for a title with a tab: the text after that tab holds the `|`. */
  lemma TabInTitle(title: string, completed: string)
    requires '\t' in title && !IsSpace(title[0])
    ensures ParseLine(title + "|" + completed + "\t1\n").None?
  {
    hide ParseLine, Strip, ParseInt, SplitAtFirst;
    var x := title + "|" + completed + "\t1";
    assert x + "\n" == title + "|" + completed + "\t1\n";
    assert x[0] == title[0] && x[|x| - 1] == '1';
    StripCleanLine(x);
    var (a, b) := SplitAtFirst(title, '\t').value;
    var rest := b + "|" + completed + "\t1";
    assert x == a + "\t" + rest;
    assert rest[|b|] == '|' && rest[|rest| - 1] == '1';
    ParseIntRejects(rest, |b|, |b|, |rest| - 1);
    ParseLineOf(x + "\n", a, rest);
  }

  /** The mapper's line for a tab-free title and a completed field with a tab: the text
      after that tab has a tab between two non-blank characters. */
  lemma TabInCompleted(title: string, completed: string)
    requires '\t' !in title && |title| > 0 && !IsSpace(title[0])
    requires '\t' in completed && !IsSpace(completed[|completed| - 1])
    ensures ParseLine(title + "|" + completed + "\t1\n").None?
  {
    hide ParseLine, Strip, ParseInt, SplitAtFirst;
    var x := title + "|" + completed + "\t1";
    assert x + "\n" == title + "|" + completed + "\t1\n";
    assert x[0] == title[0] && x[|x| - 1] == '1';
    StripCleanLine(x);
    var (c1, c2) := SplitAtFirst(completed, '\t').value;
    assert completed[|completed| - 1] == c2[|c2| - 1];
    var key := title + "|" + c1;
    var rest := c2 + "\t1";
    assert x == key + "\t" + rest;
    assert rest[|c2| - 1] == c2[|c2| - 1] && rest[|c2|] == '\t' && rest[|rest| - 1] == '1';
    ParseIntRejects(rest, |c2| - 1, |c2|, |rest| - 1);
    ParseLineOf(x + "\n", key, rest);
  }

  /** Every line the mapper writes reads back, for the reducer, as one record of value 1. */
  lemma MapperLineCountsOne(lines: seq<string>, k: nat)
    requires forall i :: 0 <= i < |lines| ==> TabFreeFields(lines[i])
    requires k < |MapperOutput(lines)|
    ensures ParseLine(MapperOutput(lines)[k]).Some?
    ensures ParseLine(MapperOutput(lines)[k]).value.value == 1
  {
    hide ParseLine, MapLine, LooksLikeHeader, TabFreeFields;
    var header := |lines| > 0 && LooksLikeHeader(lines[0]);
    var src := if header then lines[1..] else lines;
    assert MapperOutput(lines) == EmitAll(src);
    EmitAllFromInput(src, k);
    var i :| 0 <= i < |src| && MapLine(src[i]) == Some(EmitAll(src)[k]);
    if header {
      assert src[i] == lines[i + 1];
    }
    MappedLineReads(src[i]);
  }

  /** Lines that each read as one record of value 1 add up to their number. */
  lemma {:induction false} OnesSum(outs: seq<string>)
    requires forall k :: 0 <= k < |outs| ==> ParseLine(outs[k]).Some? && ParseLine(outs[k]).value.value == 1
    ensures Sum(Records(outs)) == |outs|
  {
    hide ParseLine;
    if |outs| > 0 {
      var init, last := outs[..|outs| - 1], outs[|outs| - 1];
      assert outs == init + [last];
      assert forall k :: 0 <= k < |init| ==> init[k] == outs[k];
      OnesSum(init);
      RecordsSnoc(init, last);
      SumSnoc(Records(init), ParseLine(last).value);
    } else {
      RecordsEmpty();
    }
  }

  /** The counts the reducer writes add up to the number of lines the mapper wrote, for
      any order the framework hands those lines over in (its sort included): every
      accepted row is counted once. */
  lemma PipelineTotal(lines: seq<string>, shuffled: seq<string>)
    requires forall i :: 0 <= i < |lines| ==> TabFreeFields(lines[i])
    requires multiset(shuffled) == multiset(MapperOutput(lines))
    ensures Sum(Records(ReducerOutput(shuffled))) == |MapperOutput(lines)|
  {
    hide ParseLine, MapLine, LooksLikeHeader, TabFreeFields, MapperOutput;
    var mapped := MapperOutput(lines);
    assert |shuffled| == |multiset(shuffled)| == |multiset(mapped)| == |mapped|;
    forall k | 0 <= k < |shuffled|
      ensures ParseLine(shuffled[k]).Some? && ParseLine(shuffled[k]).value.value == 1
    {
      assert shuffled[k] in multiset(mapped);
      var m :| 0 <= m < |mapped| && mapped[m] == shuffled[k];
      MapperLineCountsOne(lines, m);
    }
    OnesSum(shuffled);
    ReducerSummary(shuffled);
  }
}
