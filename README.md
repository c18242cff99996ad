# croner core, modelled in Dafny

croner is a small cron daemon. It reads a configuration file of
`[job:<id>]` sections. Each section has a `schedule` (a five-field cron
expression), a `command`, and optionally a fanout plan: `fanout = n`, or
several `fanout[] = ...` entries. The daemon keeps one queue entry per job,
ordered by next deadline. When an entry falls due it runs the job's
instances and queues the job again. When the file's modification time or
size changes it reloads the file. Each job's output is tagged with an ANSI
colour picked per job id.

This project models the daemon's core:

- **CronParser** (`parser.dfy`): the cron expression compiler. It turns
  text into one bitmask per field. A mask is the set of its set bits. The
  source's `parse_field` loops are methods proved equal to the functions
  that specify them.
- **Shell** (`shell.dfy`): the command tokenizer. `Lex` is a byte-at-a-time
  state machine that states what the tokenizer computes. The imperative
  `ParseCommandFull` is proved equal to it. `ParseCommand` is the corrected
  form of the source's `parse_command` (see "## Findings"): its fast paths
  are proved equal to `Lex`. The fast path as written is
  `ParseCommandAsWritten`, proved equal to `Lex` on text whose whitespace is
  all ASCII.
- **Loader** (`loader.dfy`): the configuration loader and the reloading
  cache. `LoadConfig` is the source's byte-index loop, proved equal to the
  pure line-by-line `Loaded`. `ConfigCache` is a class whose
  `ReloadIfChanged` takes the file as a `FileView` value: open or metadata
  failure, the fingerprint, and the contents.
- **Models** (`models.rs`, in `models.dfy`): jobs and their expansion into
  instances.
- **Scheduler** (`scheduler.dfy`): the queue ordering, `init`, one turn of
  the `run` loop with the clocks passed in, `compute_next_run` and
  `hash_id`.
- **CliColors** (`cli_colors.dfy`): the colour picker. Its `colorOrder` is
  an array shuffled in place.

`Text` (`text.dfy`) holds the byte-level pieces of Rust's `str` and integer
parsing that these modules use. `Wrappers` (`wrappers.dfy`) holds `Option`
and `Result`.

Strings are UTF-8 byte sequences. The clocks enter as parameters:

- `secs` is the wall clock in seconds since 1970-01-01;
- `now` is the monotonic clock that deadlines are measured on;
- `nanos` is the sub-second reading that seeds the colour shuffle.

The source's model file is taken as the definition of a job: its
`JobSpec` has an id, a schedule, a raw command and a fanout plan. The
loader's `finalize_job` builds a `JobSpec` with different fields from the
ones `models.rs` declares. The model uses the `models.rs` shape and keeps
the loader's checks and its choice of plan.

## Model

| member | source | states |
|---|---|---|
| CronParser.ParseU8 | src/parser.rs:49-54 | a parsed value fits a `u8` (below 256) |
| CronParser.PlusSignAccepted | src/parser.rs:49-54 | `u8::from_str` accepts a leading `+`: `+7` is 7 and sets only bit 7 of the minutes |
| CronParser.Span | src/parser.rs:65-68 | the bits `a..=b` are exactly the values between `a` and `b` |
| CronParser.SetSpan | src/parser.rs:65-68 | the `for v in start..=end` loop adds exactly the bits `a..=b` to the mask |
| CronParser.SetSteps | src/parser.rs:69-75 | the `while v <= end { v += step }` loop adds exactly the bits the step sequence visits |
| CronParser.ParseField | src/parser.rs:60-102 | the imperative field compiler returns the same mask or error as the part-by-part specification |
| CronParser.Parse | src/parser.rs:27-47 | `parse` returns what `Compile` specifies: five whitespace-separated fields, compiled in order |
| CronParser.PartsErrorPropagates | src/parser.rs:64-101 | the first failing comma part ends the field with its error (the `?` and `return Err`) |
| CronParser.SpanCount | src/parser.rs:65-68 | `a..=b` has `b - a + 1` bits |
| CronParser.WildcardSetsWholeRange | src/parser.rs:65-68 | `*` sets exactly the field's range: 60, 24, 31, 12 and 7 bits |
| CronParser.StepBitsExact | src/parser.rs:72-75 | the step loop sets exactly `v + k*step` up to `end` |
| CronParser.StepPart | src/parser.rs:69-75 | `*/s`: an unparseable or zero step is "Invalid step"; otherwise exactly `start + k*s` within the range |
| CronParser.QuarterHourStep | src/parser.rs:69-75 | `*/15` on minutes sets exactly {0, 15, 30, 45} |
| CronParser.RangePart | src/parser.rs:76-91 | `a-b` succeeds iff it splits into two `u8`s with `start <= a <= b <= end`, then sets exactly `a..=b`; otherwise "Invalid range" |
| CronParser.ValuePart | src/parser.rs:92-98 | a bare value sets exactly its bit iff it parses and is in range; otherwise "Invalid value" |
| CronParser.FieldIsUnionOfParts | src/parser.rs:56-58 | a field compiles iff every part does; a bit is set iff some part sets it |
| CronParser.FieldOrderIrrelevant | src/parser.rs:64 | part lists with the same members compile alike: order and repetition do not matter |
| CronParser.FieldOkIffEveryPart | src/parser.rs:64-101 | a field compiles exactly when each of its parts does |
| CronParser.FieldBitIffSomePart | src/parser.rs:56-58 | a compiled field's bit is set exactly when some part sets it |
| CronParser.PartInRange | src/parser.rs:60-101 | a part that compiles sets at least one bit, and all its bits lie in the field's range |
| CronParser.FieldInRange | src/parser.rs:60-101 | a field that compiles has a bit set and every bit in range |
| CronParser.CompiledBitsInRange | src/parser.rs:3-7 | on success every field is non-empty and in range, so the narrowing casts lose nothing |
| CronParser.FieldErrorNamesPart | src/parser.rs:60-101 | a field's error names a part and is never a field-count error |
| CronParser.FieldCountError | src/parser.rs:28-35 | "Expected 5 fields" is reported iff the trimmed input does not have five fields |
| CronParser.FirstFailingField | src/parser.rs:40-46 | five fields compile iff each does; otherwise the first failing field's error, in the order minute, hour, day, month, weekday |
| CronParser.ZeroStepNeverFinishes | src/parser.rs:72-75 | as written, `*/0` never leaves the step loop however long it runs |
| CronParser.Step255WrapsOnDays | src/parser.rs:72-75 | as written, `*/255` on days wraps `v` to 0 and sets bit 0, outside 1..31 |
| CronParser.CorrectedStepEdgeCases | src/parser.rs:69-75 | corrected: `*/0` is "Invalid step" and `*/255` on days sets only day 1 |
| Shell.ParseCommandFull | src/shell.rs:93-180 | the index loop with its quote and escape flags computes the state machine `Lex` |
| Shell.SkipWhitespace | src/shell.rs:151-157 | skipping a run of whitespace at a token boundary leaves the tokens of the rest of the input unchanged |
| Shell.ParseCommand | src/shell.rs:18-37 | every path (empty, single token, plain text, full tokenizer) gives what `Lex` gives |
| Shell.GetCommand | src/shell.rs:4-6 | the arguments on success, no arguments on any error |
| Shell.GetCommandAsOsStr | src/shell.rs:9-15 | the same arguments as `get_command`, and none on error |
| Shell.EstimateTokens | src/shell.rs:58-77 | the count of whitespace-to-text transitions is the number of ASCII-whitespace-separated words, at least 1 |
| Shell.EmptyCommandHasNoArguments | src/shell.rs:22-24 | empty input, and input of spaces only, gives no arguments |
| Shell.SingleTokenLexesToItself | src/shell.rs:27-29 | input without quotes, backslashes or ASCII whitespace is exactly one argument, the input |
| Shell.PlainTextSplitsOnAsciiWhitespace | src/shell.rs:141-160 | without quotes and backslashes the tokenizer splits on runs of ASCII whitespace |
| Shell.PlainRunSplits | src/shell.rs:141-160 | from any plain state, plain text adds its ASCII-whitespace-separated words to the arguments |
| Shell.WordCountIsStarts | src/shell.rs:58-77 | the number of words is the number of word starts |
| Shell.NoEmptyTokens | src/shell.rs:80-83 | no argument is ever empty: `''` and `""` give no argument |
| Shell.RunKeepsTokensNonEmpty | src/shell.rs:80-83 | reading more input keeps every finished argument non-empty |
| Shell.SingleQuotedWord | src/shell.rs:119-127 | a single-quoted word is one argument holding exactly its bytes, backslashes included; `''` gives none |
| Shell.SingleQuotedRun | src/shell.rs:119-127 | inside single quotes every byte up to the closing quote is copied literally |
| Shell.DoubleQuotedWord | src/shell.rs:129-139 | a double-quoted word without `"` or `\` is one argument holding exactly its bytes, whitespace included |
| Shell.DoubleQuotedRun | src/shell.rs:129-139 | inside double quotes, bytes other than `"` and `\` are copied literally |
| Shell.EscapedByte | src/shell.rs:107-117 | an escaped byte, outside quotes or inside double quotes, maps `n`, `t` and `r` to LF, TAB and CR, and any other byte to itself |
| Shell.DanglingBackslashError | src/shell.rs:165-167 | a final unescaped backslash outside single quotes is the dangling-backslash error |
| Shell.UnclosedQuoteError | src/shell.rs:168-170 | a single quote opened and never closed is the unclosed-quote error |
| Shell.DoubleQuoteStaysOpen | src/shell.rs:129-139 | text without `"` or `\` keeps a double quote open and not escaping |
| Shell.UnclosedDoubleQuoteError | src/shell.rs:168-170 | a double quote opened and never closed (no `"` or `\` after it) is the unclosed-quote error |
| Shell.SingleQuoteStaysOpen | src/shell.rs:119-127 | text without `'` never closes an open single quote |
| Shell.RunAppend | src/shell.rs:93-160 | reading `a` then `b` is reading `a + b` |
| Shell.RunShift | src/shell.rs:93-160 | arguments already finished never influence the rest of the run |
| Shell.Concatenation | src/shell.rs:93-180 | two well-formed commands joined by a space tokenize to their argument lists one after the other |
| Shell.QuoteAllRoundTrip | src/shell.rs:119-127 | single-quoting non-empty arguments without `'` and joining them with spaces tokenizes back to the same arguments |
| Shell.NoBreakSpaceSplitsOnFastPath | src/shell.rs:32-34 | as written, fast path B splits `a<U+00A0>b c` into three arguments |
| Shell.FullTokenizerKeepsNoBreakSpace | src/shell.rs:93-180 | the full tokenizer keeps `a<U+00A0>b` as one argument of `a<U+00A0>b c` |
| Shell.SingleTokenKeepsNoBreakSpace | src/shell.rs:27-29 | as written, `a<U+00A0>b` alone is one argument: the code treats the no-break space inconsistently |
| Shell.WordsAgree | src/shell.rs:32-34 | without non-ASCII White_Space characters, `split_whitespace` and ASCII splitting give the same words |
| Shell.AsWrittenAgreesOnAsciiWhitespace | src/shell.rs:18-37 | as written, `parse_command` gives what the full tokenizer gives on every input whose whitespace is all ASCII |
| Models.InstanceId | src/models.rs:50 | an instance id is the job id, a `-`, then the index |
| Models.InstanceIdRoundTrip | src/models.rs:50 | the index in an instance id reads back as the index |
| Models.InstanceIdsDistinct | src/models.rs:50 | distinct indices give distinct instance ids |
| Models.ExpandWithoutFanout | src/models.rs:30-37 | no plan: one instance with the job's own id and the tokenized command |
| Models.ExpandCount | src/models.rs:56-64 | `Int(n)`: exactly `n` instances in index order, ids `<id>-0` to `<id>-(n-1)`, all with the same argument vector |
| Models.ExpandList | src/models.rs:39-54 | `List(l)`: one instance per entry in entry order, the i-th with id `<id>-i` and argv from the command and entry i together |
| Models.ExpandIdsDistinct | src/models.rs:28-66 | the plan's size is the number of instances, and their ids are pairwise distinct |
| Models.ListArgvIsBaseThenEntry | src/models.rs:42-48 | when the command and the entry each tokenize, the entry's argv is the command's arguments followed by the entry's |
| Models.MalformedCommandGivesEmptyArgv | src/models.rs:31 | a malformed command gives instances with an empty argument vector, never an error |
| Loader.AsciiTrimmed | src/loader.rs:290-304 | the trimmed slice is the inner slice whose outside is all ASCII whitespace and whose two ends are not |
| Loader.TrimAscii | src/loader.rs:290-304 | the two loops return exactly that maximal inner slice |
| Loader.LeadingWs | src/loader.rs:291-296 | the count of leading bytes that are ASCII whitespace, with a non-whitespace byte after them |
| Loader.TrailingWs | src/loader.rs:297-302 | the count of trailing bytes that are ASCII whitespace, with a non-whitespace byte before them |
| Loader.TrimIdempotent | src/loader.rs:290-304 | trimming twice is trimming once |
| Loader.Find | src/loader.rs:326-333 | the position of the first occurrence of the byte, or none exactly when it does not occur |
| Loader.Memchr | src/loader.rs:326-333 | the scan returns the first occurrence |
| Loader.HeaderRoundTrip | src/loader.rs:312-323 | `[job:<id>]`, with an id that has no whitespace at its ends, reads back as that id |
| Loader.HeaderShape | src/loader.rs:312-323 | a line is a header iff it has the header's shape and a non-blank trimmed id, so the 7-byte guard adds nothing |
| Loader.KeyValueRoundTrip | src/loader.rs:336-341 | a pair splits at the first `=`, so an `=` in the value stays in the value; both sides are trimmed |
| Loader.NoEqualsNoPair | src/loader.rs:144-147 | a line without `=` is not a pair |
| Loader.CommentDropped | src/loader.rs:107-111 | everything from the first `#` on is dropped, and the rest is trimmed |
| Loader.StripCr | src/loader.rs:100-102 | exactly a final carriage return is removed, when there is one; what is left is a prefix of the line |
| Loader.CutComment | src/loader.rs:106-109 | the line is cut at its first `#`: a prefix holding no `#`, followed in the line by a `#`; a line with no `#` is kept whole |
| Loader.CleanLineScan | src/loader.rs:100-111 | the line cleaning (one `\r`, comment, trim) as the loader does it |
| Loader.NextLine | src/loader.rs:90-111 | the next line is cut at the first `\n` and cleaned; the scan resumes just past the `\n` |
| Loader.LineLen | src/loader.rs:90-94 | a line ends at the first `\n` or at the end of the data |
| Loader.CloseOpen | src/loader.rs:118-128 | closing the open section finalizes it, refuses a seen id and keeps the job |
| Loader.LoadLinesStep | src/loader.rs:87-227 | one turn of the line loop: a blank line is skipped, any other is processed |
| Loader.LoadConfig | src/loader.rs:61-243 | the byte loop returns exactly what the line-by-line specification `Loaded` returns |
| Loader.ApplyKeyOutcome | src/loader.rs:156-225 | a pair's problems are reported at its own line; a pair is accepted iff its key is known and the section still allows it; an unknown key is named |
| Loader.ApplyKeyKeeps | src/loader.rs:156-225 | `schedule`, `command` and `fanout` are set at most once, `fanout[]` only appends, and the builder stays consistent |
| Loader.FanoutPlansExclusive | src/loader.rs:182-213 | `fanout` and `fanout[]` reject each other in either order |
| Loader.FinalizeJobOutcome | src/loader.rs:245-287 | finalizing succeeds iff the id, a compiling schedule and a command are present; errors come in that order; the plan is `Int`, else `List`, else none |
| Loader.FinalizeJobOk | src/loader.rs:245-287 | a finalized job has a non-empty id, a satisfiable in-range schedule and a non-empty command |
| Loader.CloseSectionKeeps | src/loader.rs:118-128 | closing a section keeps the ids distinct and only appends |
| Loader.KeepJob | src/loader.rs:125-128 | appending a finalized job whose id is new keeps every job finalized and the ids distinct |
| Loader.ProcessLineKeeps | src/loader.rs:116-226 | one line keeps the loader's state consistent and only appends |
| Loader.HandleLine | src/loader.rs:116-226 | the header branch and the key/value branch of the loop compute one step of the line-by-line loader |
| Loader.LoadLinesKeeps | src/loader.rs:87-242 | the rest of the file keeps the jobs well formed; the jobs kept so far come first, in file order |
| Loader.LoadedJobsOk | src/loader.rs:61-243 | a successful load returns finalized jobs with pairwise distinct ids |
| Loader.DuplicateIdRefused | src/loader.rs:123-125 | closing a section whose job finalizes fails with the duplicate id named exactly when a job kept before has that id |
| Loader.BomIgnored | src/loader.rs:83-85 | a leading byte-order mark changes nothing, line numbers included |
| Loader.ConfigCache.constructor | src/loader.rs:17-23 | a new cache has no jobs and no fingerprint |
| Loader.ConfigCache.ReloadIfChanged | src/loader.rs:27-48 | open or metadata failure is an error; an unchanged fingerprint is `Ok(false)` and changes nothing; a failed load changes nothing; a successful one replaces jobs, time and size together and is `Ok(true)` |
| CliColors.Sgr | src/cli_colors.rs:12-27 | a palette entry is `ESC [`, then the code, then `m` |
| CliColors.PaletteIsAnsi | src/cli_colors.rs:12-27 | every palette entry is an ANSI escape sequence |
| CliColors.SwapIndex | src/cli_colors.rs:49 | the swap partner `j` of position `i` is at most `i` |
| CliColors.Swap | src/cli_colors.rs:50 | a swap exchanges two places and leaves the rest alone |
| CliColors.SwapPermutes | src/cli_colors.rs:50 | a swap keeps an order of the fourteen colours an order |
| CliColors.ShufflePermutes | src/cli_colors.rs:48-51 | the shuffle keeps an order of the fourteen colours an order |
| CliColors.IdentityIsOrder | src/cli_colors.rs:31 | the starting order `0..14` is an order |
| CliColors.CliColorPicker.constructor | src/cli_colors.rs:11-38 | the identity order shuffled once; no key assigned; cycle at 0 |
| CliColors.CliColorPicker.Shuffle | src/cli_colors.rs:41-54 | the in-place Fisher-Yates pass leaves the order the shuffle specifies, still an order, and starts a new cycle |
| CliColors.CliColorPicker.Get | src/cli_colors.rs:57-78 | a palette colour; the key is assigned; the table grows to `key + 1` with no other key changed; an assigned key changes nothing; a new key takes the next colour of the cycle, after a reshuffle when all fourteen are used |
| CliColors.CliColorPicker.AssignNext | src/cli_colors.rs:68-77 | a key without a colour takes the next colour of the cycle, after a reshuffle when all fourteen are used; the picker stays consistent |
| CliColors.CliColorPicker.TakeNext | src/cli_colors.rs:73-77 | in an unfinished cycle the key gets the colour at the cycle position, which then advances by one; no other key changes |
| CliColors.CliColorPicker.CycleColorsDistinct | src/cli_colors.rs:73-75 | keys given colours in one cycle have pairwise distinct colours |
| CliColors.CliColorPicker.FullCycleUsesWholePalette | src/cli_colors.rs:69-75 | a finished cycle has used every colour of the palette |
| Scheduler.ComputeNextRun | src/scheduler.rs:164-191 | the deadline is `now + 60*k`, where `k` is the least `k >= 1` such that minute `secs/60 + k` matches; `k` is at most a week of minutes |
| Scheduler.NextRunUnique | src/scheduler.rs:170-189 | the next run is unique |
| Scheduler.MatchWithinAWeek | src/scheduler.rs:173-190 | a satisfiable schedule matches within the following week, so the search ends |
| Scheduler.WeekOffset | src/scheduler.rs:174-183 | every minute, hour and weekday occur together at some offset within one week |
| Scheduler.Periodic | src/scheduler.rs:174-179 | minute, hour and weekday repeat every week |
| Scheduler.WellFormedIsSatisfiable | src/scheduler.rs:181-183 | a loaded schedule is satisfiable |
| Scheduler.DayAndMonthIgnored | src/scheduler.rs:181-183 | the day-of-month and month masks play no part in matching |
| Scheduler.HashId | src/scheduler.rs:156-162 | the wrapping fold is the id's base-31 value modulo 2^64 |
| Scheduler.WrapStep | src/scheduler.rs:159 | wrapping after each operation is wrapping once at the end |
| Scheduler.LastByteDistinguishes | src/scheduler.rs:156-162 | ids differing only in the last byte hash differently (`alpha` and `alphA`) |
| Scheduler.AlphaAndBetaDiffer | src/scheduler.rs:156-162 | `alpha` and `beta` hash differently |
| Scheduler.CmpReversesDeadlines | src/scheduler.rs:28-43 | the order is on deadlines reversed: an earlier deadline ranks higher |
| Scheduler.Top | src/scheduler.rs:71 | the popped entry is a greatest one, so it has the earliest deadline |
| Scheduler.JobsOf | src/scheduler.rs:22-26 | the jobs of the queue entries, in order |
| Scheduler.ReplaceKeepsJobs | src/scheduler.rs:72-83 | popping an entry and pushing one for the same job keeps the queue's jobs |
| Scheduler.Scheduler.constructor | src/scheduler.rs:46-53 | an empty queue, the given cache, and a new colour picker: no key assigned, the cycle at 0, the identity order shuffled once |
| Scheduler.Scheduler.Init | src/scheduler.rs:55-63 | one entry per cached job, in cache order, each at its next deadline |
| Scheduler.Scheduler.Refresh | src/scheduler.rs:67-69 | the reload's outcome as `reload_if_changed` gives it (open or metadata failure, unchanged fingerprint, failed load, new jobs and fingerprint); the queue is rebuilt only on `Ok(true)`; otherwise queue and cache are untouched |
| Scheduler.Scheduler.Dispatch | src/scheduler.rs:71-86 | the earliest entry is popped; a due one runs and is queued again at its next deadline, and its id's hash holds a colour with no other key's colour changed; one not due is pushed back unchanged and the colour picker is untouched; the size and the jobs are unchanged |
| Scheduler.Scheduler.Requeue | src/scheduler.rs:74-82 | after a pop and a push for the same job, the other entries keep their order, the new entry is last, and the jobs and their well-formedness are kept |
| Scheduler.Scheduler.RunJob | src/scheduler.rs:90-152 | the job's instances are its expansion, and its colour is the one its id's hash is assigned; no other key's colour changes, and a hash already assigned keeps its colour and leaves the picker as it was |
| Scheduler.Scheduler.RunDue | src/scheduler.rs:73-78 | a due entry runs its job's expansion and is replaced by an entry for the same job at its next deadline; the colour picker changes as in `RunJob` |
| Scheduler.Scheduler.RunOnce | src/scheduler.rs:65-88 | one turn keeps one queue entry per cached job |

## Left out

- File system access in `reload_if_changed` and `load_config` (`File::open`, `metadata`, `modified`, `fs::read`). The file is a `FileView` value. A failed read is `contents == None`. Both functions read the same file: the model assumes it does not change between the two reads.
- Error text. The model has error kinds with the parts, ids, keys and line numbers the messages carry; the `format!` strings are not modelled.
- The `from_utf8` failure branches after the whole-file check (src/loader.rs:162-165, 176-179, 192-195, 213-216, 320). Every slice is cut at ASCII bytes of valid UTF-8, so they cannot be reached. The same holds for the invalid-UTF-8 token paths of src/shell.rs:84-90 and 173-176 on `&str` input.
- Process spawning in `run_job` (`sh -c` / `cmd /C`, pipes, relay threads, the printer). `Scheduler.RunJob` keeps only what decides the run: the expansion and the colour.
- `thread::sleep` and the empty-queue pause in `run`; src/printer.rs and src/main.rs (output, argument scanning, exit).
- Clock readings. `compute_next_run` reads the wall clock, then `Instant::now()` again on return. The model takes one `secs` and one `now` per call of `Scheduler.Scheduler.Init` or `Scheduler.Scheduler.Dispatch`, and ignores sub-second time.
- Scheduler.Top: among entries with equal deadlines, `BinaryHeap::pop` may return any of them. The model picks the first. Only the earliest-deadline property is claimed.
- CliColors.CliColorPicker.Get: the memory needed to resize `job_colors` to `hash + 1` slots (the key is a 64-bit hash) is not modelled. Nor is the overflow of `job_id + 1` when the hash is `usize::MAX`.
- Scheduler.Scheduler.RunOnce: states the queue-size facts of one turn only. The run order of equal deadlines and the effect on the terminal are not modelled.
- `finalize_job`'s `base_cmd` field and its call to `JobSpec::build_fanout_list_from_strings`. Neither exists in the `JobSpec` of src/models.rs. The job keeps its raw command and the raw `fanout[]` entries, and `Models.Expand` tokenizes them as src/models.rs does.
- The test file for the scheduler sets `CronSchedule` fields that src/parser.rs does not declare. It is not used as evidence here.
- `CronParser::new` is the constant table `FIELD_RANGES`. `set_bit` on a `u64` is set insertion, so the masks carry no width.
- Shell.ParseCommand, Shell.GetCommand, Shell.GetCommandAsOsStr, Shell.Tokens, Models.Expand and the `ran` of Scheduler.Scheduler.Dispatch follow the corrected fast path of the third "## Findings" row. On text holding a non-ASCII White_Space character, such as `a<U+00A0>b c`, the source's `get_command` splits there and the model does not. `Shell.ParseCommandAsWritten` is the code as written.
- CronParser.Parse, CronParser.ParseField, CronParser.FieldBits, CronParser.PartBits and CronParser.StepPart follow the corrected step loop of the first two "## Findings" rows. They reject `*/0`, where the source never returns. On days and months they give `{1}` for `*/255`, where the source gives `{0, 1}`. The loop as written is `CronParser.ZeroStepNeverFinishes` and `CronParser.Step255WrapsOnDays`.
- Lemmas proved with empty bodies are kept as statements of the source's promises: `Models.ExpandCount`, `Loader.FinalizeJobOutcome`, `Scheduler.NextRunUnique` and the like.

## Findings

| source | as written | input that shows it | evidently intended | confidence | as-written member | corrected member |
|---|---|---|---|---|---|---|
| src/parser.rs:72-75 | a step of 0 is accepted, and `v += 0` never leaves the loop | `*/0` in any field | reject a zero step as an invalid step | high, not executed | CronParser.ZeroStepNeverFinishes | CronParser.CorrectedStepEdgeCases |
| src/parser.rs:72-75 | `v += step` on a `u8` wraps (a panic in a debug build), so the loop revisits the range from 0 | `*/255` in the day or month field: `1 + 255` becomes 0, bit 0 is set | the steps `start + k*step` within the range, day 1 only | high, not executed | CronParser.Step255WrapsOnDays | CronParser.CorrectedStepEdgeCases |
| src/shell.rs:32-34 | fast path B uses `split_whitespace`, which also splits on non-ASCII White_Space characters | `a<U+00A0>b c` gives `a`, `b`, `c`; the full tokenizer and `is_single_token` keep `a<U+00A0>b` together | split only on the tokenizer's ASCII whitespace, as `parse_command_full` does | high, not executed | Shell.NoBreakSpaceSplitsOnFastPath | Shell.ParseCommand |
