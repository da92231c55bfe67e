# Supabase CDC bridge and Hadoop task-count job, in Dafny

This project models three small pieces of logic.

- **Supabase webhook bridge** (`kafka2/supabase-webhook/server.js`). An Express handler
  receives a Supabase database webhook. It turns the webhook into a change event in the
  style of Debezium, with the operation code `c`/`u`/`d`, `before`/`after` rows, a
  `source` block and a schema. It then publishes the event to the Kafka topic
  `supabase-habit.public.tasks`. The message key is taken from the row's `id`. The
  handler answers 503 while the producer is not connected.
- **Hadoop streaming mapper** (`hadoop/python/mapper.py`). It reads CSV task rows and
  skips a header on the first line only. For each row with at least eleven fields and a
  non-empty title it writes `title|completed<TAB>1`.
- **Hadoop streaming reducer** (`hadoop/python/reducer.py`). It reads `key<TAB>value`
  lines and skips malformed ones. It sums the values of each run of consecutive equal
  keys and writes one `key<TAB>sum` line per run, flushing the last run at the end.

Modules:

- `Maybe` holds `Option`.
- `PyText` holds the Python `str` operations the scripts use: `strip`, `rstrip("\n")`,
  `lower`, `split`, `split(sep, 1)`, `int` and `%d`.
- `SupabaseWebhook` holds the JSON values and JavaScript `||` truthiness, the operation
  table, `transformToCDC`, the message key and the `Bridge` class. `Bridge` has the
  readiness flag and the log of `producer.send` calls.
- `HadoopMapper` holds the mapper.
- `HadoopReducer` holds the reducer loop, proved against the run-grouping `Group` of the
  valid lines.
- `Pipeline` connects the two Hadoop scripts: the reducer reads each mapper line back as
  `(title|completed, 1)`. For rows whose title and completed fields hold no tab, the
  counts it writes add up to the number of mapper lines, whatever order those lines reach
  it in.

Modelling choices:

- JavaScript `x || y` is modelled exactly. A falsy `old_record`, `record` or `id` (`null`,
  `""`, `0`, `false`, absent) falls through to the next choice.
- `opMap[type]` is a plain object lookup. A `type` that names a property inherited from
  `Object.prototype` (`"toString"`, say) yields that inherited member, not `'u'`. The
  model keeps this case as `Op.Inherited` rather than assuming it away.
- The two `Date.now()` readings are parameters. They may differ, so there are two.
- The outcome of `producer.send` is a parameter: `None` when it resolves, `Some(message)`
  when it rejects. The call is recorded in `sendCalls` either way.
- Python text handling follows Python 3 `str` on ASCII. Whitespace for `strip()` is
  space, `\t`, `\n`, `\r`, `\v`, `\f` and `\x1c`-`\x1f`. `lower()` changes `A`-`Z` only.
  `int()` skips a narrower set around the number: space, `\t`, `\n`, `\r`, `\v` and `\f`.
  It fails on `\x1c`-`\x1f` (`int("\x1c5")` raises). Inside, it accepts an optional sign
  and ASCII digits.
- Input and output streams are sequences of lines. Each input line keeps its trailing
  newline, as iterating over `sys.stdin` yields it.

## Model

| member | source | states |
|---|---|---|
| SupabaseWebhook.OrNull | kafka2/supabase-webhook/server.js:94-95 | `v \|\| null` is `v` itself exactly when `v` is truthy, and null otherwise |
| SupabaseWebhook.OpFor | kafka2/supabase-webhook/server.js:78-84 | no contract of its own; characterised by `OpTable` and `OpIsCud` |
| SupabaseWebhook.Letter | kafka2/supabase-webhook/server.js:78-82 | the published letter is `c` exactly for a create, `u` exactly for an update and `d` exactly for a delete |
| SupabaseWebhook.OpTable | kafka2/supabase-webhook/server.js:78-84 | `op` is `c` exactly for `INSERT` and `d` exactly for `DELETE`; it is `u` for `UPDATE`, a missing type and every other ordinary string; it is an inherited member exactly for a prototype property name |
| SupabaseWebhook.OpIsCud | kafka2/supabase-webhook/server.js:84 | for a type that is not an `Object.prototype` property name, `op` is one of `c`, `u`, `d` |
| SupabaseWebhook.TransformToCDC | kafka2/supabase-webhook/server.js:74-115 | no contract of its own; characterised by `TransformFields` and `TransformOnlyTimestampsVary` |
| SupabaseWebhook.TransformFields | kafka2/supabase-webhook/server.js:74-115 | `before`/`after` are `old_record`/`record` when truthy, else null; top-level `op`/`before`/`after` equal the payload's; `op` comes from the table; the source block is version `1.0.0`, connector `supabase-webhook`, name `supabase-habit`, snapshot `false`, db `postgres`, schema `public`, with the webhook's `table` and the first clock reading; the top-level `source`, the `transaction` and the `schema` are fixed; `payload.ts_ms` is the second clock reading |
| SupabaseWebhook.TransformOnlyTimestampsVary | kafka2/supabase-webhook/server.js:100-107 | two transforms of the same webhook differ at most in the two `ts_ms` fields |
| SupabaseWebhook.MessageKey | kafka2/supabase-webhook/server.js:55 | no contract of its own; characterised by `MessageKeyChoice` |
| SupabaseWebhook.MessageKeyChoice | kafka2/supabase-webhook/server.js:55 | the key is `after.id` if truthy, else `before.id` if truthy, else null; it is never a falsy non-null value |
| SupabaseWebhook.MessageKeyOfWebhook | kafka2/supabase-webhook/server.js:55 | the same three-way choice, stated on the webhook's `record` and `old_record` |
| SupabaseWebhook.PublishedMessage | kafka2/supabase-webhook/server.js:52-62 | a publish is one message to `supabase-habit.public.tasks`; its `operation` header is `op`, its `source` header is `supabase-webhook`, its key follows the key rule and its value is the envelope |
| SupabaseWebhook.Bridge.constructor | kafka2/supabase-webhook/server.js:20 | the process starts not ready, with nothing sent |
| SupabaseWebhook.Bridge.OnConnected | kafka2/supabase-webhook/server.js:21-23 | a successful connect makes the producer ready |
| SupabaseWebhook.Bridge.HandleWebhook | kafka2/supabase-webhook/server.js:38-71 | not ready: 503 `Kafka not ready` and no send call; ready: exactly one send of the transformed event, then 200 with `operation = op`, or 500 with the error message when the send rejects |
| PyText.Strip | hadoop/python/reducer.py:10 | the stripped line is a slice of the line; everything cut before and after it is whitespace, and it neither starts nor ends with whitespace |
| PyText.TrimStart | hadoop/python/reducer.py:10 | the result is a suffix of the input, everything cut belongs to the given character class, and it does not start with a character of that class |
| PyText.TrimEnd | hadoop/python/reducer.py:10 | the result is a prefix of the input, everything cut belongs to the given character class, and it does not end with a character of that class |
| PyText.RStripNewlines | hadoop/python/mapper.py:9 | the result is a prefix of the line, everything cut is `\n`, and it does not end with `\n` |
| PyText.Lower | hadoop/python/mapper.py:22 | same length, each character lowered, no upper-case ASCII letter left |
| PyText.Split | hadoop/python/mapper.py:9 | one more piece than separators |
| PyText.SplitSepFree | hadoop/python/mapper.py:9 | no piece of a split contains the separator |
| PyText.JoinSplit | hadoop/python/mapper.py:9 | joining the pieces of a split gives back the string |
| PyText.SplitJoin | hadoop/python/mapper.py:9 | splitting a join of separator-free pieces gives back the pieces |
| PyText.SplitAtFirst | hadoop/python/reducer.py:14 | `None` exactly when there is no separator; otherwise the string is `before + sep + after` with `before` separator-free |
| PyText.SplitAtFirstOf | hadoop/python/reducer.py:14 | splitting `a + sep + b` with separator-free `a` gives `(a, b)` |
| PyText.NatToString | hadoop/python/reducer.py:25 | `"%d"` of a natural number is a non-empty digit string with no leading zero; it starts with `0` exactly for 0 |
| PyText.IntToString | hadoop/python/reducer.py:25 | `"%d"` of an integer starts with `-` exactly when the integer is negative; the rest is a non-empty digit string with no leading zero |
| PyText.ParseInt | hadoop/python/reducer.py:15 | no contract of its own; characterised by `ParseIntAccepts` (what it reads), `ParseIntRejects` and `ParseIntRejectsSeparator` (what it refuses) and `IntToStringRoundTrip` |
| PyText.ParseIntAccepts | hadoop/python/reducer.py:15 | `int()` reads `int()`-whitespace, an optional `+` or `-`, a non-empty run of digits (leading zeros allowed) and `int()`-whitespace as the signed value of the digits |
| PyText.TrimBothSlice | hadoop/python/reducer.py:10 | trimming both ends leaves a slice of the text, with only characters of the class cut on either side |
| PyText.ParseIntRejects | hadoop/python/reducer.py:15 | `int()` fails when a non-digit stands inside the number: between two characters it does not skip, or a non-skipped non-sign anywhere |
| PyText.ParseIntRejectsSeparator | hadoop/python/reducer.py:10-15 | a character in `\x1c`-`\x1f` is whitespace to `strip()`, yet `int()` fails on any text that contains one |
| PyText.NatToStringRoundTrip | hadoop/python/reducer.py:25 | the decimal digits of `n` read back as `n` |
| PyText.IntToStringRoundTrip | hadoop/python/reducer.py:14-25 | `int("%d" % n) == n` for every integer |
| PyText.StripCleanLine | hadoop/python/reducer.py:10-25 | stripping a newline-terminated line with no edge whitespace gives the line without its newline |
| HadoopMapper.ParseCsvLine | hadoop/python/mapper.py:7-9 | there are (commas in the line without its trailing newlines) + 1 fields, each the stripped piece of the comma split |
| HadoopMapper.ParseCsvLineFields | hadoop/python/mapper.py:7-9 | every field is comma-free with no surrounding whitespace, and the pieces join back to the line |
| HadoopMapper.MapLine | hadoop/python/mapper.py:16-25 | no contract of its own; characterised by `MapLineCases` |
| HadoopMapper.MapLineCases | hadoop/python/mapper.py:16-25 | a row yields a line exactly when it has at least 11 fields and a non-empty title; the line is `parts[1] + "\|" + lower(parts[6]) + "\t1\n"` |
| HadoopMapper.MapperOutput | hadoop/python/mapper.py:12-25 | no contract of its own; characterised by `LaterHeaderIsData`, `FirstLineData`, `MapperBound` and `EmitAllFromInput` |
| HadoopMapper.Mapper | hadoop/python/mapper.py:12-25 | the streaming loop writes exactly `MapperOutput(lines)` |
| HadoopMapper.MapperStep | hadoop/python/mapper.py:12-25 | each line after the header check adds its own output, if any, at the end |
| HadoopMapper.EmitAllAppend | hadoop/python/mapper.py:12-25 | output order follows input order: the output of two stretches is the first's followed by the second's |
| HadoopMapper.MapperBound | hadoop/python/mapper.py:12-25 | at most one output line per input line |
| HadoopMapper.EmitAllBound | hadoop/python/mapper.py:16-25 | at most one output line per data row |
| HadoopMapper.LaterHeaderIsData | hadoop/python/mapper.py:13-15 | only line 0 can be skipped as a header; a header-shaped line later is processed as data, in place |
| HadoopMapper.FirstLineData | hadoop/python/mapper.py:13-15 | a first line whose lower-case form does not start with `id,` is processed as data |
| HadoopMapper.EmitAllFromInput | hadoop/python/mapper.py:16-25 | every output line is the output of some input row |
| HadoopReducer.ParseLine | hadoop/python/reducer.py:10-17 | no contract of its own; characterised by `ParseLineRejects`, `ParseLineOf` and `ParseLineKeyOk` |
| HadoopReducer.ParseLineRejects | hadoop/python/reducer.py:10-17 | a line that strips to nothing, or has no tab, is skipped |
| HadoopReducer.ParseLineOf | hadoop/python/reducer.py:10-17 | for a stripped line `key<TAB>rest` with tab-free `key`, the record is `(key, int(rest))`, and the line is skipped exactly when `int(rest)` fails |
| HadoopReducer.SeparatorValueSkipped | hadoop/python/reducer.py:10-17 | a line whose value holds one of `\x1c`-`\x1f` is skipped |
| HadoopReducer.SeparatorLineWritesNothing | hadoop/python/reducer.py:6-31 | the input `k<TAB>\x1c5` on its own produces no output |
| HadoopReducer.ParseLineKeyOk | hadoop/python/reducer.py:10-14 | a key read from a line is non-empty, tab-free and does not start with whitespace |
| HadoopReducer.Reducer | hadoop/python/reducer.py:6-31 | the loop with its final flush writes exactly the formatted run-grouping of the valid lines |
| HadoopReducer.LoopStart | hadoop/python/reducer.py:6-7 | before any line: no current key and nothing written |
| HadoopReducer.LoopSkip | hadoop/python/reducer.py:10-17 | a malformed line leaves the key, the sum and the output unchanged |
| HadoopReducer.LoopFirst | hadoop/python/reducer.py:19-21 | the first valid line opens the first run with its key and value |
| HadoopReducer.LoopMerge | hadoop/python/reducer.py:22-23 | a line with the current key adds its value to the open run |
| HadoopReducer.LoopNewRun | hadoop/python/reducer.py:24-27 | a line with another key writes the open run and opens a new one |
| HadoopReducer.LoopEnd | hadoop/python/reducer.py:29-31 | after the last line, flushing the open run, if any, completes the output |
| HadoopReducer.MergeRun | hadoop/python/reducer.py:22-23 | merging a record with the last run's key adds its value to that run of the grouping |
| HadoopReducer.NewRun | hadoop/python/reducer.py:24-27 | a record with a new key appends a run of its own to the grouping |
| HadoopReducer.ParseFormatRoundTrip | hadoop/python/reducer.py:14-25 | a line the reducer writes reads back as the record it was written from |
| HadoopReducer.RecordsAppend | hadoop/python/reducer.py:9-17 | lines are read independently: the records of a concatenation are the concatenation of the records |
| HadoopReducer.RecordsSnoc | hadoop/python/reducer.py:9-17 | one more line adds its record, if any, at the end |
| HadoopReducer.IgnoredLine | hadoop/python/reducer.py:10-17 | a blank, tab-free or non-integer line can be removed without changing the records or the output |
| HadoopReducer.RecordsKeysOk | hadoop/python/reducer.py:10-14 | every key read from the input is well formed |
| HadoopReducer.RecordsOfFormatAll | hadoop/python/reducer.py:25-31 | the written lines read back as the runs they were written from |
| HadoopReducer.Group | hadoop/python/reducer.py:19-27 | there are no more runs than records, and none exactly when there is no record; characterised further by the `Group` lemmas below |
| HadoopReducer.ReducerOutput | hadoop/python/reducer.py:6-31 | no contract of its own; characterised by `Reducer`, `OutputReadsBack` and `ReducerSummary` |
| HadoopReducer.GroupAdjacentDistinct | hadoop/python/reducer.py:22-27 | no two neighbouring runs share a key |
| HadoopReducer.GroupSum | hadoop/python/reducer.py:19-31 | the runs sum to the same total as the records |
| HadoopReducer.AddToRunsSum | hadoop/python/reducer.py:19-27 | each step of the loop adds the line's value to the total |
| HadoopReducer.GroupOfAdjacentDistinct | hadoop/python/reducer.py:19-31 | records whose neighbours already differ in key are their own grouping |
| HadoopReducer.GroupSingleKey | hadoop/python/reducer.py:22-23 | a run of one key becomes one record holding the run's total |
| HadoopReducer.GroupConcat | hadoop/python/reducer.py:24-27 | where one block ends and the next starts with different keys, the grouping splits at that boundary |
| HadoopReducer.GroupLastKey | hadoop/python/reducer.py:24-27 | the last run carries the key of the last record |
| HadoopReducer.GroupKeysFrom | hadoop/python/reducer.py:19-27 | every run's key is the key of some record |
| HadoopReducer.GroupKeysDistinct | hadoop/python/reducer.py:19-31 | when equal keys arrive together, as after a sort, each key appears in exactly one run |
| HadoopReducer.OutputReadsBack | hadoop/python/reducer.py:19-31 | the output lines read back as the run-grouping of the valid input lines |
| HadoopReducer.ReducerSummary | hadoop/python/reducer.py:19-31 | the emitted counts sum to the sum of the valid values; no two consecutive output lines share a key; no valid line means no output, and vice versa |
| HadoopReducer.LastRunFlushed | hadoop/python/reducer.py:29-31 | when there is a valid line, the last output line carries the key of the last valid line |
| HadoopReducer.ReducerIdempotent | hadoop/python/reducer.py:6-31 | feeding the reducer its own output changes nothing |
| Pipeline.MappedLineReads | hadoop/python/mapper.py:21-25 | the reducer reads a mapper line as the key `title\|completed` with the value 1 |
| Pipeline.TabInFieldDropped | hadoop/python/reducer.py:10-17 | the mapper line of a row whose title or completed field holds a tab is skipped by the reducer |
| Pipeline.TabInTitle | hadoop/python/reducer.py:14-17 | a mapper line whose title holds a tab is skipped, because the text after that tab holds the `\|` |
| Pipeline.TabInCompleted | hadoop/python/reducer.py:14-17 | a mapper line whose completed field holds a tab is skipped, because the text after that tab has a tab inside it |
| Pipeline.MapperLineCountsOne | hadoop/python/mapper.py:12-25 | every line the mapper writes reads back as one record of value 1 |
| Pipeline.OnesSum | hadoop/python/reducer.py:9-23 | lines that each read as a record of value 1 add up to their number |
| Pipeline.PipelineTotal | hadoop/python/mapper.py:12-25 | for any reordering of the mapper's lines, the sort included, the counts the reducer writes add up to the number of lines the mapper wrote |

## Left out

- Express wiring is not modelled: the app, body parsing, `app.listen`, the `/health` route and its `Date().toISOString()`. It is HTTP plumbing.
- The kafkajs client is not modelled (`connect`, `send`, `disconnect`). It is a foreign asynchronous library. A send is a recorded call whose outcome is a parameter.
- The race between the asynchronous connect and incoming requests is not modelled. It is concurrency. `producerReady` is a field that `OnConnected` sets.
- `JSON.stringify` of the message value and all console logging are not modelled. The value is the envelope itself.
- SIGINT handling and process exit are not modelled.
- SupabaseWebhook.Webhook: a `type` that is not a string (a number, an object) is not modelled. `eventType` is an optional string.
- SupabaseWebhook.TransformToCDC: the exception a non-object body would raise inside the handler (leading to the 500 path) is not modelled. The body is always an object with the four optional properties.
- SupabaseWebhook.Json: JavaScript numbers are mathematical reals, so `NaN` (falsy) and floating-point rounding are not represented.
- What kafkajs does with a header whose value is an inherited function (`Op.Inherited`) is not modelled. The model records the request as made.
- PyText: Python 3 is assumed. The scripts name no version (`#!/usr/bin/env python`). Under Python 2, `str` is bytes, and `strip()` keeps `\x1c`-`\x1f`, so `Strip` and `IsSpace` would differ on such input.
- PyText: Unicode whitespace, Unicode case mapping, Unicode digits and underscores in `int()` are not modelled. Text is treated as ASCII, Python 3 `str`.
- The Hadoop sort between mapper and reducer is not in these files. It is any reordering of the mapper's lines (`PipelineTotal`). Each key appears in one run only under `KeysContiguous` (`GroupKeysDistinct`).
- Pipeline.MappedLineReads, Pipeline.MapperLineCountsOne, Pipeline.PipelineTotal: rows whose title or completed field holds a tab are excluded. The reducer skips their lines (`TabInFieldDropped`), so such rows are not counted.
- PyText.ParseInt, PyText.IntToString, PyText.IntToStringRoundTrip, HadoopReducer.Reducer: the model has no limit on the number of digits. CPython 3.11 and later refuse by default to convert more than 4300 digits between `int` and `str`. Under that limit a longer value fails `int()`, and its line is skipped. A longer sum makes `"%d"` raise at reducer.py line 25 or 31, which ends the script. The script names no Python version, and earlier versions have no limit.
- Reading standard input and writing standard output are not modelled. They are sequences of lines.
