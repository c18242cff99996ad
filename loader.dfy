/**
 * The configuration loader (src/loader.rs).
 *
 * A configuration file is UTF-8 text, optionally behind a byte-order mark,
 * made of lines. Each line loses one trailing carriage return, everything
 * from its first `#`, and surrounding ASCII whitespace; blank lines are
 * skipped. A line `[job:<id>]` opens a section; the other lines are
 * `key = value` pairs filling the open section's builder. A section is
 * finalized into a `JobSpec` when the next header or the end of the file
 * closes it. The first error ends the load.
 */
module Loader {
  import opened Wrappers
  import opened Text
  import opened CronParser
  import opened Models

  /** The UTF-8 byte-order mark. */
  const BOM: Bytes := [0xEF, 0xBB, 0xBF]
  /** `[job:` */
  const HEADER_OPEN: Bytes := [91, 106, 111, 98, 58]
  /** `schedule` */
  const KEY_SCHEDULE: Bytes := [115, 99, 104, 101, 100, 117, 108, 101]
  /** `command` */
  const KEY_COMMAND: Bytes := [99, 111, 109, 109, 97, 110, 100]
  /** `fanout` */
  const KEY_FANOUT: Bytes := [102, 97, 110, 111, 117, 116]
  /** `fanout[]` */
  const KEY_FANOUT_LIST: Bytes := [102, 97, 110, 111, 117, 116, 91, 93]

  /** Why finalizing a section failed. */
  datatype FinalizeError =
    | EmptyJobId
    | MissingSchedule(id: Bytes)
    | InvalidSchedule(id: Bytes, cause: CronError)
    | MissingCommand(id: Bytes)

  /** What was wrong with one line. */
  datatype LineError =
    | ExpectedKeyValue
    | KeyOutsideSection
    | DuplicateSchedule
    | DuplicateCommand
    | EmptyCommand
    | FanoutConflictsWithList
    | DuplicateFanout
    | FanoutNotInteger
    | ListConflictsWithFanout
    | EmptyFanoutEntry
    | UnknownKey(key: Bytes)
    | Finalize(cause: FinalizeError)

  datatype LoadError =
    | OpenFailed
    | MetadataFailed
    | ReadFailed
    | NotUtf8
    | AtLine(line: nat, error: LineError)
    | DuplicateJobId(id: Bytes)

  /** The section being read: its raw values, as yet unchecked. */
  datatype JobBuilder = JobBuilder(
    id: Bytes,
    schedule: Option<Bytes>,
    command: Option<Bytes>,
    fanoutInt: Option<nat>,
    fanoutList: seq<Bytes>,
    firstLine: nat)

  /** The loader's state between lines: the jobs finalized so far, their
    * ids, and the open section. */
  datatype LoadState = LoadState(jobs: seq<JobSpec>, seen: set<Bytes>, cur: Option<JobBuilder>)

  const EMPTY_STATE := LoadState([], {}, None)

  // ---------------------------------------------------------------------
  // Trimming and searching bytes

  /** Number of ASCII whitespace bytes `s` starts with. */
  function LeadingWs(s: Bytes): (k: nat)
    ensures k <= |s|
    ensures forall i :: 0 <= i < k ==> IsAsciiWhitespace(s[i])
    ensures k < |s| ==> !IsAsciiWhitespace(s[k])
    decreases |s|
  {
    if s == [] || !IsAsciiWhitespace(s[0]) then 0 else 1 + LeadingWs(s[1..])
  }

  /** Number of ASCII whitespace bytes `s` ends with. */
  function TrailingWs(s: Bytes): (k: nat)
    ensures k <= |s|
    ensures forall i :: |s| - k <= i < |s| ==> IsAsciiWhitespace(s[i])
    ensures k < |s| ==> !IsAsciiWhitespace(s[|s| - 1 - k])
    decreases |s|
  {
    if s == [] || !IsAsciiWhitespace(s[|s| - 1]) then 0 else 1 + TrailingWs(s[..|s| - 1])
  }

  /** `trim_ascii`: the slice of `s` left when the ASCII whitespace at both
    * ends is removed. It is the inner slice of `s` whose outside is all
    * whitespace and whose ends are not. */
  function AsciiTrimmed(s: Bytes): (r: Bytes)
    ensures LeadingWs(s) + |r| <= |s|
    ensures r == s[LeadingWs(s)..LeadingWs(s) + |r|]
    ensures forall i :: 0 <= i < LeadingWs(s) ==> IsAsciiWhitespace(s[i])
    ensures forall i :: LeadingWs(s) + |r| <= i < |s| ==> IsAsciiWhitespace(s[i])
    ensures r != [] ==> !IsAsciiWhitespace(r[0]) && !IsAsciiWhitespace(r[|r| - 1])
  {
    var k := LeadingWs(s);
    var t := s[k..];
    var m := TrailingWs(t);
    TailOfSuffix(s, k, m);
    t[..|t| - m]
  }

  /** Whitespace at the end of `s[k..]` is whitespace at the end of `s`. */
  lemma TailOfSuffix(s: Bytes, k: nat, m: nat)
    requires k <= |s| && m <= |s| - k
    requires forall i :: |s| - k - m <= i < |s| - k ==> IsAsciiWhitespace(s[k..][i])
    ensures forall i :: |s| - m <= i < |s| ==> IsAsciiWhitespace(s[i])
  {
    forall i | |s| - m <= i < |s| ensures IsAsciiWhitespace(s[i]) {
      assert s[i] == s[k..][i - k];
    }
  }

  /** `trim_ascii` itself: one loop eats the front, one the back. */
  method TrimAscii(s: Bytes) returns (r: Bytes)
    ensures r == AsciiTrimmed(s)
  {
    var lo, hi := 0, |s|;
    while lo < hi && IsAsciiWhitespace(s[lo])
      invariant lo <= hi == |s|
      invariant forall i :: 0 <= i < lo ==> IsAsciiWhitespace(s[i])
    {
      lo := lo + 1;
    }
    LeadingWsUnique(s, lo);
    ghost var t := s[lo..];
    while hi > lo && IsAsciiWhitespace(s[hi - 1])
      invariant lo <= hi <= |s|
      invariant forall i :: hi <= i < |s| ==> IsAsciiWhitespace(s[i])
    {
      hi := hi - 1;
    }
    TrailingWsUnique(t, |s| - hi);
    r := s[lo..hi];
  }

  /** `LeadingWs` is the only count with its two defining properties. */
  lemma LeadingWsUnique(s: Bytes, k: nat)
    requires k <= |s|
    requires forall i :: 0 <= i < k ==> IsAsciiWhitespace(s[i])
    requires k < |s| ==> !IsAsciiWhitespace(s[k])
    ensures LeadingWs(s) == k
  {
  }

  /** `TrailingWs` is the only count with its two defining properties. */
  lemma TrailingWsUnique(s: Bytes, k: nat)
    requires k <= |s|
    requires forall i :: |s| - k <= i < |s| ==> IsAsciiWhitespace(s[i])
    requires k < |s| ==> !IsAsciiWhitespace(s[|s| - 1 - k])
    ensures TrailingWs(s) == k
  {
  }

  /** Trimming a trimmed slice changes nothing, so trimming a value twice
    * (once when the pair is split, once per key) is the same as once. */
  lemma TrimIdempotent(s: Bytes)
    ensures AsciiTrimmed(AsciiTrimmed(s)) == AsciiTrimmed(s)
  {
    var r := AsciiTrimmed(s);
    LeadingWsUnique(r, 0);
    TrailingWsUnique(r, 0);
  }

  /** The position of the first `needle` in `hay`, if any. */
  function Find(hay: Bytes, needle: byte): (r: Option<nat>)
    ensures r.Some? ==> r.value < |hay| && hay[r.value] == needle && needle !in hay[..r.value]
    ensures r.None? <==> needle !in hay
    decreases |hay|
  {
    if hay == [] then None
    else if hay[0] == needle then Some(0)
    else match Find(hay[1..], needle)
      case None => None
      case Some(k) => assert hay[..k + 1] == [hay[0]] + hay[1..][..k]; Some(k + 1)
  }

  /** `memchr`: a forward scan for the first `needle`. */
  method Memchr(hay: Bytes, needle: byte) returns (r: Option<nat>)
    ensures r == Find(hay, needle)
  {
    for i := 0 to |hay|
      invariant needle !in hay[..i]
    {
      if hay[i] == needle {
        FindUnique(hay, needle, i);
        return Some(i);
      }
      assert hay[..i + 1] == hay[..i] + [hay[i]];
    }
    assert hay[..|hay|] == hay;
    return None;
  }

  /** `Find` names the first occurrence and no other position. */
  lemma FindUnique(hay: Bytes, needle: byte, i: nat)
    requires i < |hay| && hay[i] == needle && needle !in hay[..i]
    ensures Find(hay, needle) == Some(i)
  {
  }

  // ---------------------------------------------------------------------
  // One line

  /** `parse_section_header`: `[job:<id>]` with a non-empty id once trimmed. */
  function ParseSectionHeader(line: Bytes): Option<Bytes> {
    if |line| >= 7 && line[..5] == HEADER_OPEN && line[|line| - 1] == RBRACKET then
      var id := AsciiTrimmed(line[5..|line| - 1]);
      if id == [] then None else Some(id)
    else None
  }

  /** `parse_key_value`: split at the first `=`, both sides trimmed. */
  function ParseKeyValue(line: Bytes): Option<(Bytes, Bytes)> {
    match Find(line, EQUALS)
    case None => None
    case Some(eq) => Some((AsciiTrimmed(line[..eq]), AsciiTrimmed(line[eq + 1..])))
  }

  /** The bytes of a raw line that the loader looks at: one trailing `\r`
    * dropped, then everything from the first `#`, then ASCII whitespace. */
  function CleanLine(raw: Bytes): Bytes {
    AsciiTrimmed(CutComment(StripCr(raw)))
  }

  /** The line without one trailing `\r`. */
  function StripCr(raw: Bytes): (r: Bytes)
    ensures |raw| - 1 <= |r| <= |raw| && r == raw[..|r|]
    ensures (|raw| > 0 && raw[|raw| - 1] == CR) <==> |r| == |raw| - 1
  {
    if |raw| > 0 && raw[|raw| - 1] == CR then raw[..|raw| - 1] else raw
  }

  /** The line up to its first `#`. */
  function CutComment(line: Bytes): (r: Bytes)
    ensures |r| <= |line| && HASH !in r && r == line[..|r|]
    ensures HASH in line ==> |r| < |line| && line[|r|] == HASH
    ensures HASH !in line ==> r == line
  {
    match Find(line, HASH) case None => line case Some(h) => line[..h]
  }

  /** A header written out as text reads back as its id. */
  lemma HeaderRoundTrip(id: Bytes)
    requires id != [] && !IsAsciiWhitespace(id[0]) && !IsAsciiWhitespace(id[|id| - 1])
    ensures ParseSectionHeader(HEADER_OPEN + id + [RBRACKET]) == Some(id)
  {
    var line := HEADER_OPEN + id + [RBRACKET];
    assert line[..5] == HEADER_OPEN;
    assert line[5..|line| - 1] == id;
    LeadingWsUnique(id, 0);
    TrailingWsUnique(id, 0);
    assert AsciiTrimmed(id) == id;
  }

  /** A line is a header exactly when it has the header's shape and a
    * non-blank id; the id is the trimmed inside of the brackets. */
  lemma HeaderShape(line: Bytes)
    ensures ParseSectionHeader(line).Some? <==>
      (|line| >= 6 && line[..5] == HEADER_OPEN && line[|line| - 1] == RBRACKET
       && AsciiTrimmed(line[5..|line| - 1]) != [])
  {
    if |line| == 6 && line[..5] == HEADER_OPEN && line[5] == RBRACKET {
      assert line[5..5] == [];
    }
  }

  /** `key=value` splits at the `=` when the key has none of its own; any
    * `=` in the value stays in the value. */
  lemma KeyValueRoundTrip(key: Bytes, value: Bytes)
    requires EQUALS !in key
    ensures ParseKeyValue(key + [EQUALS] + value) == Some((AsciiTrimmed(key), AsciiTrimmed(value)))
  {
    var line := key + [EQUALS] + value;
    assert line[..|key|] == key;
    FindUnique(line, EQUALS, |key|);
    assert line[|key| + 1..] == value;
  }

  /** A line without `=` is not a pair. */
  lemma NoEqualsNoPair(line: Bytes)
    requires EQUALS !in line
    ensures ParseKeyValue(line).None?
  {
  }

  /** Everything from the first `#` on is a comment. */
  lemma CommentDropped(code: Bytes, comment: Bytes)
    requires HASH !in code
    ensures CleanLine(code + [HASH] + comment) == AsciiTrimmed(code)
  {
    var raw := code + [HASH] + comment;
    var noCr := StripCr(raw);
    assert |noCr| > |code| by {
      if comment == [] { assert raw[|raw| - 1] == HASH; }
    }
    assert noCr[..|code|] == code by {
      assert noCr[..|code|] == raw[..|code|];
      assert raw[..|code|] == code;
    }
    assert noCr[|code|] == raw[|code|] == HASH;
    FindUnique(noCr, HASH, |code|);
  }

  // ---------------------------------------------------------------------
  // Sections

  /** The fanout plan of a section: a count wins over a list; neither
    * means a single instance. */
  function Plan(b: JobBuilder): Fanout {
    if b.fanoutInt.Some? then Int(b.fanoutInt.value)
    else if b.fanoutList != [] then List(b.fanoutList)
    else NoFanout
  }

  /** `finalize_job`: the id `str::trim`med and non-empty, then a schedule
    * that is present and compiles, then a command. */
  function FinalizeJob(b: JobBuilder): Result<JobSpec, FinalizeError> {
    var id := Trimmed(b.id);
    if id == [] then Err(EmptyJobId)
    else match b.schedule
      case None => Err(MissingSchedule(id))
      case Some(text) =>
        match Compile(text)
        case Err(e) => Err(InvalidSchedule(id, e))
        case Ok(schedule) =>
          match b.command
          case None => Err(MissingCommand(id))
          case Some(command) => Ok(JobSpec(id, schedule, command, Plan(b)))
  }

  /** One `key = value` pair applied to the open section, with the checks
    * in the order the loader makes them. */
  function ApplyKey(b: JobBuilder, key: Bytes, value: Bytes, lineno: nat): Result<JobBuilder, LoadError> {
    var v := AsciiTrimmed(value);
    if key == KEY_SCHEDULE then
      if b.schedule.Some? then Err(AtLine(lineno, DuplicateSchedule))
      else Ok(b.(schedule := Some(v)))
    else if key == KEY_COMMAND then
      if b.command.Some? then Err(AtLine(lineno, DuplicateCommand))
      else if v == [] then Err(AtLine(lineno, EmptyCommand))
      else Ok(b.(command := Some(v)))
    else if key == KEY_FANOUT then
      if b.fanoutList != [] then Err(AtLine(lineno, FanoutConflictsWithList))
      else if b.fanoutInt.Some? then Err(AtLine(lineno, DuplicateFanout))
      else match ParseUnsigned(v, USIZE_MAX)
        case None => Err(AtLine(lineno, FanoutNotInteger))
        case Some(n) => Ok(b.(fanoutInt := Some(n)))
    else if key == KEY_FANOUT_LIST then
      if b.fanoutInt.Some? then Err(AtLine(lineno, ListConflictsWithFanout))
      else if v == [] then Err(AtLine(lineno, EmptyFanoutEntry))
      else Ok(b.(fanoutList := b.fanoutList + [v]))
    else Err(AtLine(lineno, UnknownKey(key)))
  }

  /** Closing the open section: finalize it (an error is reported at the
    * section's header line), refuse an id seen before, keep the job. */
  function CloseSection(st: LoadState): Result<LoadState, LoadError> {
    match st.cur
    case None => Ok(st)
    case Some(b) =>
      match FinalizeJob(b)
      case Err(e) => Err(AtLine(b.firstLine, Finalize(e)))
      case Ok(job) =>
        if job.id in st.seen then Err(DuplicateJobId(job.id))
        else Ok(LoadState(st.jobs + [job], st.seen + {job.id}, None))
  }

  /** One cleaned, non-blank line: a header closes the open section and
    * opens a new one; anything else must be a pair inside a section. */
  function ProcessLine(st: LoadState, line: Bytes, lineno: nat): Result<LoadState, LoadError> {
    match ParseSectionHeader(line)
    case Some(id) =>
      (match CloseSection(st)
       case Err(e) => Err(e)
       case Ok(closed) => Ok(closed.(cur := Some(JobBuilder(id, None, None, None, [], lineno)))))
    case None =>
      match ParseKeyValue(line)
      case None => Err(AtLine(lineno, ExpectedKeyValue))
      case Some(kv) =>
        match st.cur
        case None => Err(AtLine(lineno, KeyOutsideSection))
        case Some(b) =>
          match ApplyKey(b, kv.0, kv.1, lineno)
          case Err(e) => Err(e)
          case Ok(b1) => Ok(st.(cur := Some(b1)))
  }

  // ---------------------------------------------------------------------
  // The whole file

  /** Length of the first line of `t`: the bytes before the first `\n`. */
  function LineLen(t: Bytes): (k: nat)
    ensures k <= |t|
    ensures forall j :: 0 <= j < k ==> t[j] != LF
    ensures k < |t| ==> t[k] == LF
    decreases |t|
  {
    if t == [] || t[0] == LF then 0 else 1 + LineLen(t[1..])
  }

  /** What follows the first line and its `\n`. */
  function AfterLine(t: Bytes): (r: Bytes)
    ensures t != [] ==> |r| < |t|
  {
    var k := LineLen(t);
    if k < |t| then t[k + 1..] else []
  }

  /** The lines of `rest`, the first of them numbered `lineno + 1`, applied
    * to `st`; at the end of the text the open section is closed. */
  function LoadLines(rest: Bytes, lineno: nat, st: LoadState): Result<seq<JobSpec>, LoadError>
    decreases |rest|
  {
    if rest == [] then
      match CloseSection(st)
      case Err(e) => Err(e)
      case Ok(closed) => Ok(closed.jobs)
    else
      var line := CleanLine(rest[..LineLen(rest)]);
      if line == [] then LoadLines(AfterLine(rest), lineno + 1, st)
      else
        match ProcessLine(st, line, lineno + 1)
        case Err(e) => Err(e)
        case Ok(next) => LoadLines(AfterLine(rest), lineno + 1, next)
  }

  /** The text behind an optional byte-order mark. */
  function SkipBom(data: Bytes): Bytes {
    if |data| >= 3 && data[..3] == BOM then data[3..] else data
  }

  /** `load_config` on the bytes of a file, or on a failed read. */
  function Loaded(read: Option<Bytes>): Result<seq<JobSpec>, LoadError> {
    match read
    case None => Err(ReadFailed)
    case Some(data) =>
      if !IsUtf8(data) then Err(NotUtf8)
      else LoadLines(SkipBom(data), 0, EMPTY_STATE)
  }

  /** `load_config`: the scan over the bytes with its state in variables. */
  method LoadConfig(read: Option<Bytes>) returns (r: Result<seq<JobSpec>, LoadError>)
    ensures r == Loaded(read)
  {
    if read.None? {
      return Err(ReadFailed);
    }
    var data := read.value;
    if !IsUtf8(data) {
      return Err(NotUtf8);
    }
    var jobs: seq<JobSpec> := [];
    var seen: set<Bytes> := {};
    var cur: Option<JobBuilder> := None;
    var n := |data|;
    var i := 0;
    var lineno := 0;
    if n >= 3 && data[..3] == BOM {
      i := 3;
    }
    assert data[i..] == SkipBom(data);
    while i < n
      invariant 0 <= i <= n
      invariant LoadLines(data[i..], lineno, LoadState(jobs, seen, cur)) == Loaded(read)
      decreases n - i
    {
      ghost var rest := data[i..];
      ghost var st := LoadState(jobs, seen, cur);
      lineno := lineno + 1;
      var line;
      line, i := NextLine(data, i);
      LoadLinesStep(rest, lineno - 1, st, line);
      if line == [] {
        continue;
      }
      var next := HandleLine(jobs, seen, cur, line, lineno);
      if next.Err? {
        return Err(next.error);
      }
      jobs, seen, cur := next.value.jobs, next.value.seen, next.value.cur;
    }
    assert data[i..] == [];
    var closed := CloseOpen(jobs, seen, cur);
    if closed.Err? {
      return Err(closed.error);
    }
    return Ok(closed.value.jobs);
  }

  /** One cleaned, non-blank line, as the body of the loader's loop
    * handles it: a header closes the open section and opens the next; a
    * pair goes to the open section. */
  method HandleLine(jobs: seq<JobSpec>, seen: set<Bytes>, cur: Option<JobBuilder>, line: Bytes, lineno: nat)
    returns (r: Result<LoadState, LoadError>)
    ensures r == ProcessLine(LoadState(jobs, seen, cur), line, lineno)
  {
    var header := ParseSectionHeader(line);
    if header.Some? {
      var closed := CloseOpen(jobs, seen, cur);
      if closed.Err? {
        return Err(closed.error);
      }
      return Ok(closed.value.(cur := Some(JobBuilder(header.value, None, None, None, [], lineno))));
    }
    var kv := ParseKeyValue(line);
    if kv.None? {
      return Err(AtLine(lineno, ExpectedKeyValue));
    }
    if cur.None? {
      return Err(AtLine(lineno, KeyOutsideSection));
    }
    var updated := ApplyKey(cur.value, kv.value.0, kv.value.1, lineno);
    if updated.Err? {
      return Err(updated.error);
    }
    return Ok(LoadState(jobs, seen, Some(updated.value)));
  }

  /** The line starting at `i`: its bytes up to the `\n` (or the end),
    * cleaned, and the index just past the `\n`. */
  method NextLine(data: Bytes, i: nat) returns (line: Bytes, next: nat)
    requires i < |data|
    ensures next <= |data|
    ensures line == CleanLine(data[i..][..LineLen(data[i..])])
    ensures data[next..] == AfterLine(data[i..])
  {
    ghost var t := data[i..];
    next := i;
    while next < |data| && data[next] != LF
      invariant i <= next <= |data|
      invariant forall k :: i <= k < next ==> data[k] != LF
    {
      next := next + 1;
    }
    var lineEnd := next;
    ghost var k := lineEnd - i;
    forall j | 0 <= j < k ensures t[j] != LF {
      assert t[j] == data[i + j];
    }
    LineLenUnique(t, k);
    if next < |data| && data[next] == LF {
      next := next + 1;
      assert data[next..] == t[k + 1..];
    }
    assert t[..k] == data[i..lineEnd];
    line := CleanLineScan(data[i..lineEnd]);
  }

  /** The open section closed, as the loader does it at a header and again
    * at the end of the file: the builder is taken, finalized and kept. */
  method CloseOpen(jobs: seq<JobSpec>, seen: set<Bytes>, cur: Option<JobBuilder>)
    returns (r: Result<LoadState, LoadError>)
    ensures r == CloseSection(LoadState(jobs, seen, cur))
  {
    if cur.None? {
      return Ok(LoadState(jobs, seen, None));
    }
    var prev := cur.value;
    var job := FinalizeJob(prev);
    if job.Err? {
      return Err(AtLine(prev.firstLine, Finalize(job.error)));
    }
    if job.value.id in seen {
      return Err(DuplicateJobId(job.value.id));
    }
    return Ok(LoadState(jobs + [job.value], seen + {job.value.id}, None));
  }

  /** One step of `LoadLines`: the first line, cleaned, then the rest. */
  lemma LoadLinesStep(rest: Bytes, lineno: nat, st: LoadState, line: Bytes)
    requires rest != [] && line == CleanLine(rest[..LineLen(rest)])
    ensures LoadLines(rest, lineno, st) ==
      if line == [] then LoadLines(AfterLine(rest), lineno + 1, st)
      else match ProcessLine(st, line, lineno + 1)
        case Err(e) => Err(e)
        case Ok(next) => LoadLines(AfterLine(rest), lineno + 1, next)
  {
  }

  /** The per-line cleaning as the loader does it on its slice. */
  method CleanLineScan(raw: Bytes) returns (line: Bytes)
    ensures line == CleanLine(raw)
  {
    line := raw;
    if |line| > 0 && line[|line| - 1] == CR {
      line := line[..|line| - 1];
    }
    var hash := Memchr(line, HASH);
    if hash.Some? {
      line := line[..hash.value];
    }
    line := TrimAscii(line);
  }

  /** `LineLen` is the only length with its two defining properties. */
  lemma LineLenUnique(t: Bytes, k: nat)
    requires k <= |t|
    requires forall j :: 0 <= j < k ==> t[j] != LF
    requires k < |t| ==> t[k] == LF
    ensures LineLen(t) == k
  {
  }

  // ---------------------------------------------------------------------
  // What a successful load guarantees

  /** A finalized job: a non-empty id, a schedule whose masks are non-empty
    * and in range, a non-empty command, a count that fits `usize`, and a
    * list plan only with non-empty entries. */
  predicate JobOk(job: JobSpec) {
    && job.id != []
    && WellFormed(job.schedule)
    && job.command != []
    && (job.fanout.Int? ==> job.fanout.count <= USIZE_MAX)
    && (job.fanout.List? ==> job.fanout.entries != [] && forall e :: e in job.fanout.entries ==> e != [])
  }

  /** Every job finalized, no two sharing an id. */
  predicate JobsOk(jobs: seq<JobSpec>) {
    && (forall j :: j in jobs ==> JobOk(j))
    && (forall p, q :: 0 <= p < q < |jobs| ==> jobs[p].id != jobs[q].id)
  }

  /** A section's builder never holds both plans, an empty command or an
    * empty list entry. */
  predicate BuilderOk(b: JobBuilder) {
    && !(b.fanoutInt.Some? && b.fanoutList != [])
    && (b.command.Some? ==> b.command.value != [])
    && (b.fanoutInt.Some? ==> b.fanoutInt.value <= USIZE_MAX)
    && (forall e :: e in b.fanoutList ==> e != [])
  }

  /** `seen` is exactly the set of ids kept so far. */
  predicate StateOk(st: LoadState) {
    && JobsOk(st.jobs)
    && st.seen == (set j | j in st.jobs :: j.id)
    && (st.cur.Some? ==> BuilderOk(st.cur.value))
  }

  /** A well-formed section finalizes to a well-formed job. */
  lemma FinalizeJobOk(b: JobBuilder)
    requires BuilderOk(b)
    ensures FinalizeJob(b).Ok? ==> JobOk(FinalizeJob(b).value)
  {
    if FinalizeJob(b).Ok? {
      CompiledBitsInRange(b.schedule.value);
    }
  }

  /** A pair never overwrites a value already given: `schedule`, `command`
    * and `fanout` are set at most once and `fanout[]` only appends; the
    * builder stays well formed. */
  lemma ApplyKeyKeeps(b: JobBuilder, key: Bytes, value: Bytes, lineno: nat)
    requires BuilderOk(b)
    ensures ApplyKey(b, key, value, lineno).Ok? ==>
      var b1 := ApplyKey(b, key, value, lineno).value;
      && BuilderOk(b1)
      && b1.id == b.id && b1.firstLine == b.firstLine
      && (b.schedule.Some? ==> b1.schedule == b.schedule)
      && (b.command.Some? ==> b1.command == b.command)
      && (b.fanoutInt.Some? ==> b1.fanoutInt == b.fanoutInt)
      && b.fanoutList <= b1.fanoutList
  {
  }

  /** A pair's problems are reported at its own line, and a pair is
    * accepted exactly when its key is one of the four and the section
    * still allows it: `schedule` and `command` once each (a command not
    * blank), `fanout` once, as a `usize`, and not after `fanout[]`, and
    * non-blank `fanout[]` entries only without `fanout`. */
  lemma ApplyKeyOutcome(b: JobBuilder, key: Bytes, value: Bytes, lineno: nat)
    ensures ApplyKey(b, key, value, lineno).Err? ==>
      ApplyKey(b, key, value, lineno).error.AtLine? && ApplyKey(b, key, value, lineno).error.line == lineno
    ensures var v := AsciiTrimmed(value);
      ApplyKey(b, key, value, lineno).Ok? <==>
        || (key == KEY_SCHEDULE && b.schedule.None?)
        || (key == KEY_COMMAND && b.command.None? && v != [])
        || (key == KEY_FANOUT && b.fanoutList == [] && b.fanoutInt.None? && ParseUnsigned(v, USIZE_MAX).Some?)
        || (key == KEY_FANOUT_LIST && b.fanoutInt.None? && v != [])
    ensures key != KEY_SCHEDULE && key != KEY_COMMAND && key != KEY_FANOUT && key != KEY_FANOUT_LIST ==>
      ApplyKey(b, key, value, lineno) == Err(AtLine(lineno, UnknownKey(key)))
  {
    assert KEY_SCHEDULE != KEY_COMMAND && KEY_SCHEDULE != KEY_FANOUT && KEY_SCHEDULE != KEY_FANOUT_LIST;
    assert KEY_COMMAND != KEY_FANOUT && KEY_COMMAND != KEY_FANOUT_LIST && KEY_FANOUT != KEY_FANOUT_LIST;
  }

  /** `fanout` and `fanout[]` exclude each other in either order. */
  lemma FanoutPlansExclusive(b: JobBuilder, count: Bytes, entry: Bytes, n: nat, m: nat)
    ensures ApplyKey(b, KEY_FANOUT, count, n).Ok? ==>
      ApplyKey(ApplyKey(b, KEY_FANOUT, count, n).value, KEY_FANOUT_LIST, entry, m) == Err(AtLine(m, ListConflictsWithFanout))
    ensures ApplyKey(b, KEY_FANOUT_LIST, entry, n).Ok? ==>
      ApplyKey(ApplyKey(b, KEY_FANOUT_LIST, entry, n).value, KEY_FANOUT, count, m) == Err(AtLine(m, FanoutConflictsWithList))
  {
    assert KEY_FANOUT != KEY_SCHEDULE && KEY_FANOUT != KEY_COMMAND;
    assert KEY_FANOUT_LIST != KEY_SCHEDULE && KEY_FANOUT_LIST != KEY_COMMAND && KEY_FANOUT_LIST != KEY_FANOUT;
  }

  /** Finalizing succeeds exactly when the trimmed id is non-empty and a
    * schedule that compiles and a command are present; the problems are
    * reported in that order, so a missing or invalid schedule hides a
    * missing command. The plan is a count when `fanout` was given, else the
    * list when `fanout[]` was, else a single instance. */
  lemma FinalizeJobOutcome(b: JobBuilder)
    ensures FinalizeJob(b).Ok? <==>
      Trimmed(b.id) != [] && b.schedule.Some? && Compile(b.schedule.value).Ok? && b.command.Some?
    ensures Trimmed(b.id) == [] ==> FinalizeJob(b) == Err(EmptyJobId)
    ensures Trimmed(b.id) != [] && b.schedule.None? ==> FinalizeJob(b) == Err(MissingSchedule(Trimmed(b.id)))
    ensures Trimmed(b.id) != [] && b.schedule.Some? && Compile(b.schedule.value).Err? ==>
      FinalizeJob(b) == Err(InvalidSchedule(Trimmed(b.id), Compile(b.schedule.value).error))
    ensures FinalizeJob(b).Ok? ==>
      var job := FinalizeJob(b).value;
      && job.id == Trimmed(b.id)
      && job.schedule == Compile(b.schedule.value).value
      && job.command == b.command.value
      && (b.fanoutInt.Some? ==> job.fanout == Int(b.fanoutInt.value))
      && (b.fanoutInt.None? && b.fanoutList != [] ==> job.fanout == List(b.fanoutList))
      && (b.fanoutInt.None? && b.fanoutList == [] ==> job.fanout == NoFanout)
  {
  }

  /** Closing a section keeps the state well formed and only appends. */
  lemma CloseSectionKeeps(st: LoadState)
    requires StateOk(st)
    ensures CloseSection(st).Ok? ==>
      StateOk(CloseSection(st).value) && CloseSection(st).value.cur.None?
      && st.jobs <= CloseSection(st).value.jobs
  {
    if st.cur.Some? && CloseSection(st).Ok? {
      var job := FinalizeJob(st.cur.value).value;
      FinalizeJobOk(st.cur.value);
      assert CloseSection(st).value == LoadState(st.jobs + [job], st.seen + {job.id}, None);
      KeepJob(st, job);
    }
  }

  /** A section whose job finalizes is refused exactly when a job kept
    * before has its id, and then with the duplicate id named. */
  lemma DuplicateIdRefused(st: LoadState)
    requires StateOk(st) && st.cur.Some? && FinalizeJob(st.cur.value).Ok?
    ensures (exists j :: j in st.jobs && j.id == FinalizeJob(st.cur.value).value.id)
      <==> CloseSection(st) == Err(DuplicateJobId(FinalizeJob(st.cur.value).value.id))
  {
    var id := FinalizeJob(st.cur.value).value.id;
    if id in st.seen {
      var j :| j in st.jobs && j.id == id;
    }
  }

  /** Keeping a well-formed job with a new id keeps the state well formed. */
  lemma KeepJob(st: LoadState, job: JobSpec)
    requires StateOk(st) && JobOk(job) && job.id !in st.seen
    ensures StateOk(LoadState(st.jobs + [job], st.seen + {job.id}, None))
  {
    var jobs := st.jobs + [job];
    forall j | j in jobs ensures JobOk(j) {
      if j != job { assert j in st.jobs; }
    }
    forall p, q | 0 <= p < q < |jobs| ensures jobs[p].id != jobs[q].id {
      if q == |jobs| - 1 {
        assert jobs[p] in st.jobs;
      } else {
        assert jobs[p] == st.jobs[p] && jobs[q] == st.jobs[q];
      }
    }
    forall x ensures x in (set j | j in jobs :: j.id) <==> x in st.seen + {job.id} {
      if x in st.seen {
        var j :| j in st.jobs && j.id == x;
        assert j in jobs;
      }
      if x in (set j | j in jobs :: j.id) {
        var j :| j in jobs && j.id == x;
        if j != job { assert j in st.jobs; }
      }
    }
  }

  /** One line keeps the state well formed and only appends. */
  lemma ProcessLineKeeps(st: LoadState, line: Bytes, lineno: nat)
    requires StateOk(st)
    ensures ProcessLine(st, line, lineno).Ok? ==>
      StateOk(ProcessLine(st, line, lineno).value) && st.jobs <= ProcessLine(st, line, lineno).value.jobs
  {
    CloseSectionKeeps(st);
    if ParseSectionHeader(line).None? && ParseKeyValue(line).Some? && st.cur.Some? {
      var kv := ParseKeyValue(line).value;
      ApplyKeyKeeps(st.cur.value, kv.0, kv.1, lineno);
    }
  }

  /** The rest of the file keeps the state well formed; the jobs kept so
    * far come first in the result. */
  lemma {:induction false} LoadLinesKeeps(rest: Bytes, lineno: nat, st: LoadState)
    requires StateOk(st)
    ensures LoadLines(rest, lineno, st).Ok? ==>
      JobsOk(LoadLines(rest, lineno, st).value) && st.jobs <= LoadLines(rest, lineno, st).value
    decreases |rest|
  {
    if rest == [] {
      CloseSectionKeeps(st);
    } else {
      var line := CleanLine(rest[..LineLen(rest)]);
      if line == [] {
        LoadLinesKeeps(AfterLine(rest), lineno + 1, st);
      } else {
        ProcessLineKeeps(st, line, lineno + 1);
        if ProcessLine(st, line, lineno + 1).Ok? {
          LoadLinesKeeps(AfterLine(rest), lineno + 1, ProcessLine(st, line, lineno + 1).value);
        }
      }
    }
  }

  /** Whatever a load returns is well formed: every job finalized and
    * every id distinct. */
  lemma LoadedJobsOk(read: Option<Bytes>)
    ensures Loaded(read).Ok? ==> JobsOk(Loaded(read).value)
  {
    if read.Some? {
      LoadLinesKeeps(SkipBom(read.value), 0, EMPTY_STATE);
    }
  }

  /** A leading byte-order mark changes nothing. */
  lemma BomIgnored(body: Bytes)
    requires !(|body| >= 3 && body[..3] == BOM)
    ensures Loaded(Some(BOM + body)) == Loaded(Some(body))
  {
    var data := BOM + body;
    assert data[..3] == BOM && data[3..] == body;
    assert IsUtf8(data) == IsUtf8(body);
  }

  // ---------------------------------------------------------------------
  // The reloading cache

  /** What opening the file and reading its metadata gave: the modification
    * time if the platform reports one, the size, and the contents (`None`
    * when the read fails). */
  datatype FileView =
    | Unopenable
    | NoMetadata
    | Opened(modified: Option<int>, size: nat, contents: Option<Bytes>)

  /** `SystemTime::UNIX_EPOCH`, the time used when none is reported. */
  const UNIX_EPOCH: int := 0

  function ModifiedOrEpoch(modified: Option<int>): int {
    match modified case None => UNIX_EPOCH case Some(t) => t
  }

  /** `ConfigCache`: the last good job list and the fingerprint (modification
    * time and size) of the file it came from. */
  class ConfigCache {
    var jobs: seq<JobSpec>
    var lastModified: Option<int>
    var fileSize: Option<nat>

    ghost predicate Valid()
      reads this
    {
      JobsOk(jobs)
    }

    constructor()
      ensures jobs == [] && lastModified == None && fileSize == None
      ensures Valid()
    {
      jobs := [];
      lastModified := None;
      fileSize := None;
    }

    /** `reload_if_changed`: `Ok(false)` when the fingerprint is the one
      * recorded; otherwise a new load replaces the jobs and the fingerprint
      * together, or fails and leaves the cache as it was. */
    method ReloadIfChanged(file: FileView) returns (r: Result<bool, LoadError>)
      requires Valid()
      modifies this
      ensures Valid()
      ensures file.Unopenable? ==> r == Err(OpenFailed) && unchanged(this)
      ensures file.NoMetadata? ==> r == Err(MetadataFailed) && unchanged(this)
      ensures file.Opened? ==>
        var modified := ModifiedOrEpoch(file.modified);
        if old(lastModified) == Some(modified) && old(fileSize) == Some(file.size) then
          r == Ok(false) && unchanged(this)
        else match Loaded(file.contents)
          case Err(e) => r == Err(e) && unchanged(this)
          case Ok(loaded) =>
            r == Ok(true) && jobs == loaded && lastModified == Some(modified) && fileSize == Some(file.size)
    {
      if file.Unopenable? {
        return Err(OpenFailed);
      }
      if file.NoMetadata? {
        return Err(MetadataFailed);
      }
      var modified := ModifiedOrEpoch(file.modified);
      var size := file.size;
      if lastModified == Some(modified) && fileSize == Some(size) {
        return Ok(false);
      }
      var loaded := LoadConfig(file.contents);
      if loaded.Err? {
        return Err(loaded.error);
      }
      LoadedJobsOk(file.contents);
      jobs := loaded.value;
      lastModified := Some(modified);
      fileSize := Some(size);
      return Ok(true);
    }
  }
}
