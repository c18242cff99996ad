/**
 * The scheduler (src/scheduler.rs): a queue of (deadline, job) entries, a
 * minute-by-minute search for a schedule's next run, and the job-id hash
 * that picks a job's colour.
 *
 * Time is in whole units passed in by the caller: `secs` is the wall clock
 * in seconds since 1970-01-01 (UTC), `now` the monotonic clock the
 * deadlines are measured on, and `nanos` the sub-second reading that seeds
 * the colour shuffle.
 */
module Scheduler {
  import opened Wrappers
  import opened Text
  import opened CronParser
  import opened Models
  import opened Loader
  import opened CliColors

  const MINUTES_PER_DAY: nat := 60 * 24
  /** The schedule's pattern of minute, hour and weekday repeats weekly. */
  const WEEK_MINUTES: nat := 7 * MINUTES_PER_DAY
  /** 1970-01-01 was a Thursday: weekday 4, counting Sunday as 0. */
  const EPOCH_WEEKDAY: nat := 4

  // ---------------------------------------------------------------------
  // The next run of a schedule

  /** The minute, hour and weekday of minute `t` since the epoch. */
  function MinuteOf(t: nat): nat { t % 60 }
  function HourOf(t: nat): nat { (t / 60) % 24 }
  function WeekdayOf(t: nat): nat { (t / MINUTES_PER_DAY + EPOCH_WEEKDAY) % 7 }

  /** Minute `t` is one the schedule runs at. Only the minute, hour and
    * weekday masks are consulted; the day-of-month and month masks are not. */
  predicate Matches(s: CronSchedule, t: nat) {
    MinuteOf(t) in s.minute && HourOf(t) in s.hour && WeekdayOf(t) in s.weekday
  }

  /** Each consulted mask has a bit that some minute can hit. */
  predicate Satisfiable(s: CronSchedule) {
    && (exists m :: m in s.minute && m < 60)
    && (exists h :: h in s.hour && h < 24)
    && (exists w :: w in s.weekday && w < 7)
  }

  /** `k` minutes after minute `m` is the first matching minute after `m`. */
  predicate IsNextRun(s: CronSchedule, m: nat, k: int) {
    && k >= 1
    && Matches(s, m + k)
    && forall t :: m < t < m + k ==> !Matches(s, t)
  }

  /** `when` is `now` plus the next run's distance in whole minutes. */
  predicate IsDeadline(s: CronSchedule, secs: nat, now: int, when: int) {
    && when > now
    && (when - now) % 60 == 0
    && IsNextRun(s, secs / 60, (when - now) / 60)
  }

  /** `compute_next_run`: step minute by minute from the one after the
    * current minute until the minute, hour and weekday bits are all set. */
  method ComputeNextRun(s: CronSchedule, secs: nat, now: int) returns (when: int)
    requires Satisfiable(s)
    ensures IsDeadline(s, secs, now, when)
    ensures when - now <= 60 * WEEK_MINUTES
  {
    var minutes := secs / 60;
    var next := minutes + 1;
    ghost var target := MatchWithinAWeek(s, minutes);
    while true
      invariant minutes < next <= target
      invariant forall t :: minutes < t < next ==> !Matches(s, t)
      decreases target - next
    {
      var minute := next % 60;
      var hour := (next / 60) % 24;
      var days := next / MINUTES_PER_DAY;
      var weekday := (days + EPOCH_WEEKDAY) % 7;
      if minute in s.minute && hour in s.hour && weekday in s.weekday {
        var delta := (next - minutes) * 60;
        DivMod(delta, 60, next - minutes, 0);
        return now + delta;
      }
      next := next + 1;
    }
  }

  /** The next run is determined: there is only one. */
  lemma NextRunUnique(s: CronSchedule, m: nat, k1: int, k2: int)
    requires IsNextRun(s, m, k1) && IsNextRun(s, m, k2)
    ensures k1 == k2
  {
  }

  /** A satisfiable schedule matches some minute of every week-long window:
    * the search stops within `7 * 24 * 60` steps. */
  lemma MatchWithinAWeek(s: CronSchedule, m: nat) returns (t: nat)
    requires Satisfiable(s)
    ensures m < t <= m + WEEK_MINUTES && Matches(s, t)
  {
    var mi :| mi in s.minute && mi < 60;
    var h :| h in s.hour && h < 24;
    var w :| w in s.weekday && w < 7;
    var r := WeekOffset(mi, h, w);
    var base := m / WEEK_MINUTES;
    DivMod(m, WEEK_MINUTES, base, m % WEEK_MINUTES);
    var q := if WEEK_MINUTES * base + r > m then base else base + 1;
    Periodic(q, r);
    t := WEEK_MINUTES * q + r;
  }

  /** The minute of the week with a given minute, hour and weekday. */
  lemma WeekOffset(mi: nat, h: nat, w: nat) returns (r: nat)
    requires mi < 60 && h < 24 && w < 7
    ensures r < WEEK_MINUTES && MinuteOf(r) == mi && HourOf(r) == h && WeekdayOf(r) == w
  {
    var day := if w >= EPOCH_WEEKDAY then w - EPOCH_WEEKDAY else w + 7 - EPOCH_WEEKDAY;
    r := day * MINUTES_PER_DAY + h * 60 + mi;
    DivMod(r, 60, day * 24 + h, mi);
    DivMod(day * 24 + h, 24, day, h);
    DivMod(r, MINUTES_PER_DAY, day, h * 60 + mi);
    DivMod(day + EPOCH_WEEKDAY, 7, if w < EPOCH_WEEKDAY then 1 else 0, w);
  }

  /** Minute, hour and weekday repeat every week. */
  lemma Periodic(q: nat, r: nat)
    requires r < WEEK_MINUTES
    ensures MinuteOf(WEEK_MINUTES * q + r) == MinuteOf(r)
    ensures HourOf(WEEK_MINUTES * q + r) == HourOf(r)
    ensures WeekdayOf(WEEK_MINUTES * q + r) == WeekdayOf(r)
  {
    var x := WEEK_MINUTES * q + r;
    DivMod(r, 60, r / 60, r % 60);
    DivMod(x, 60, 168 * q + r / 60, r % 60);
    DivMod(r / 60, 24, (r / 60) / 24, (r / 60) % 24);
    DivMod(168 * q + r / 60, 24, 7 * q + (r / 60) / 24, (r / 60) % 24);
    DivMod(r, MINUTES_PER_DAY, r / MINUTES_PER_DAY, r % MINUTES_PER_DAY);
    DivMod(x, MINUTES_PER_DAY, 7 * q + r / MINUTES_PER_DAY, r % MINUTES_PER_DAY);
    var d := r / MINUTES_PER_DAY + EPOCH_WEEKDAY;
    DivMod(d, 7, d / 7, d % 7);
    DivMod(7 * q + d, 7, q + d / 7, d % 7);
  }

  /** Quotient and remainder are the unique `q`, `r` with `x == d*q + r`
    * and `0 <= r < d`. */
  lemma DivMod(x: int, d: int, q: int, r: int)
    requires d > 0 && x == d * q + r && 0 <= r < d
    ensures x / d == q && x % d == r
  {
    ModUnique(x, d, q, r);
    assert d * (x / d) + r == x;
    assert d * (x / d - q) == 0;
    if x / d - q >= 1 || x / d - q <= -1 {
      MulBounds(d, x / d - q);
    }
  }

  /** Loaded schedules are satisfiable, so the search always ends. */
  lemma WellFormedIsSatisfiable(s: CronSchedule)
    requires WellFormed(s)
    ensures Satisfiable(s)
  {
    var m :| m in s.minute;
    var h :| h in s.hour;
    var w :| w in s.weekday;
  }

  /** The day-of-month and month masks play no part in the next run. */
  lemma DayAndMonthIgnored(s: CronSchedule, day: Mask, month: Mask, t: nat)
    ensures Matches(s.(day := day, month := month), t) == Matches(s, t)
  {
  }

  // ---------------------------------------------------------------------
  // The job-id hash

  /** The id's bytes read as a number in base 31, without wrapping. */
  function Poly(s: Bytes): nat
    decreases |s|
  {
    if s == [] then 0 else Poly(s[..|s| - 1]) * 31 + s[|s| - 1]
  }

  /** `hash_id`: `h = h * 31 + byte` with `usize` wrapping arithmetic. It
    * is the base-31 value of the id modulo 2^64. */
  method HashId(id: Bytes) returns (h: nat)
    ensures h == Poly(id) % USIZE_MODULUS
  {
    h := 0;
    for i := 0 to |id|
      invariant h == Poly(id[..i]) % USIZE_MODULUS
    {
      assert id[..i + 1][..i] == id[..i];
      WrapStep(Poly(id[..i]), id[i]);
      h := (h * 31 % USIZE_MODULUS + id[i]) % USIZE_MODULUS;
    }
    assert id[..|id|] == id;
  }

  /** Wrapping after each operation is wrapping once at the end. */
  lemma WrapStep(x: nat, b: nat)
    ensures (x % USIZE_MODULUS * 31 % USIZE_MODULUS + b) % USIZE_MODULUS == (x * 31 + b) % USIZE_MODULUS
  {
    var M := USIZE_MODULUS;
    var q, r := x / M, x % M;
    var q2, r2 := (r * 31) / M, (r * 31) % M;
    var q3, r3 := (r2 + b) / M, (r2 + b) % M;
    assert x * 31 + b == M * (31 * q + q2 + q3) + r3;
    ModUnique(x * 31 + b, M, 31 * q + q2 + q3, r3);
  }

  /** Two ids that differ only in their last byte hash differently. */
  lemma LastByteDistinguishes(p: Bytes, a: byte, b: byte)
    requires a != b
    ensures Poly(p + [a]) % USIZE_MODULUS != Poly(p + [b]) % USIZE_MODULUS
  {
    var M := USIZE_MODULUS;
    assert (p + [a])[..|p|] == p && (p + [b])[..|p|] == p;
    var x: int, y: int := Poly(p + [a]), Poly(p + [b]);
    assert x - y == a - b;
    if x % M == y % M {
      assert x == M * (x / M) + x % M && y == M * (y / M) + y % M;
      assert M * (x / M - y / M) == a - b;
      MulBounds(M, x / M - y / M);
    }
  }

  /** `alpha` and `beta` hash differently (and `alphA` differs from `alpha`
    * by `LastByteDistinguishes`). */
  lemma AlphaAndBetaDiffer()
    ensures Poly([97, 108, 112, 104, 97]) % USIZE_MODULUS != Poly([98, 101, 116, 97]) % USIZE_MODULUS
  {
    var alpha: Bytes := [97, 108, 112, 104, 97];
    var beta: Bytes := [98, 101, 116, 97];
    assert Poly(alpha[..1]) == 97;
    assert alpha[..2][..1] == alpha[..1];
    assert Poly(alpha[..2]) == 3115;
    assert alpha[..3][..2] == alpha[..2];
    assert Poly(alpha[..3]) == 96677;
    assert alpha[..4][..3] == alpha[..3];
    assert Poly(alpha[..4]) == 2997091;
    assert alpha[..4] == alpha[..|alpha| - 1];
    assert Poly(alpha) == 92909918;
    assert Poly(beta[..1]) == 98;
    assert beta[..2][..1] == beta[..1];
    assert Poly(beta[..2]) == 3139;
    assert beta[..3][..2] == beta[..2];
    assert Poly(beta[..3]) == 97425;
    assert beta[..3] == beta[..|beta| - 1];
    assert Poly(beta) == 3020272;
  }

  // ---------------------------------------------------------------------
  // The queue

  /** A queue entry: a deadline on the monotonic clock and its job. */
  datatype ScheduledJob = ScheduledJob(when: int, job: JobSpec)

  /** `Ord for ScheduledJob`: the deadlines compared the other way round,
    * as -1, 0, 1 for less, equal, greater. */
  function Cmp(a: ScheduledJob, b: ScheduledJob): int {
    if b.when < a.when then -1 else if b.when == a.when then 0 else 1
  }

  /** The order is reversed: `a` ranks at least as high as `b` exactly when
    * its deadline is no later, and the order is antisymmetric. */
  lemma CmpReversesDeadlines(a: ScheduledJob, b: ScheduledJob)
    ensures Cmp(a, b) >= 0 <==> a.when <= b.when
    ensures Cmp(a, b) == -Cmp(b, a)
    ensures Cmp(a, b) == 0 <==> a.when == b.when
  {
  }

  /** `BinaryHeap::pop`: the position of a greatest entry, which is an
    * entry with the earliest deadline. */
  function Top(q: seq<ScheduledJob>): (i: nat)
    requires q != []
    ensures i < |q|
    ensures forall j :: 0 <= j < |q| ==> Cmp(q[i], q[j]) >= 0
    ensures forall j :: 0 <= j < |q| ==> q[i].when <= q[j].when
    decreases |q|
  {
    if |q| == 1 then 0
    else
      var i := Top(q[..|q| - 1]);
      if Cmp(q[|q| - 1], q[i]) > 0 then |q| - 1 else i
  }

  function Remove(q: seq<ScheduledJob>, i: nat): seq<ScheduledJob>
    requires i < |q|
  {
    q[..i] + q[i + 1..]
  }

  /** The jobs of the entries, in queue order. */
  function JobsOf(q: seq<ScheduledJob>): (r: seq<JobSpec>)
    ensures |r| == |q| && forall i :: 0 <= i < |q| ==> r[i] == q[i].job
  {
    seq(|q|, i requires 0 <= i < |q| => q[i].job)
  }

  /** The replaced entry goes to the back; the others keep their order. */
  lemma ReplaceShape(q: seq<ScheduledJob>, i: nat, e: ScheduledJob)
    requires i < |q|
    ensures var r := Remove(q, i) + [e]; |r| == |q| && r[..|q| - 1] == Remove(q, i) && r[|q| - 1] == e
  {
    var r := Remove(q, i) + [e];
    assert r[..|q| - 1] == Remove(q, i);
  }

  /** Taking an entry out and putting one for the same job back keeps the
    * jobs of the queue, with their multiplicity, and keeps every job well
    * formed. */
  lemma ReplaceKeepsJobs(q: seq<ScheduledJob>, i: nat, e: ScheduledJob)
    requires i < |q| && e.job == q[i].job
    ensures multiset(JobsOf(Remove(q, i) + [e])) == multiset(JobsOf(q))
    ensures (forall x :: x in q ==> JobOk(x.job)) ==> forall x :: x in Remove(q, i) + [e] ==> JobOk(x.job)
  {
    assert q == q[..i] + [q[i]] + q[i + 1..];
    assert JobsOf(q) == JobsOf(q[..i]) + [q[i].job] + JobsOf(q[i + 1..]);
    assert JobsOf(Remove(q, i) + [e]) == JobsOf(q[..i]) + JobsOf(q[i + 1..]) + [e.job];
    if forall x :: x in q ==> JobOk(x.job) {
      forall x | x in Remove(q, i) + [e] ensures JobOk(x.job) {
        if x != e {
          assert x in q[..i] || x in q[i + 1..];
        } else {
          assert q[i] in q;
        }
      }
    }
  }

  /** `Scheduler`: the queue, the configuration cache and the colour picker
    * (the printer is output and is not part of this model). */
  /** One dispatch from queue `q0` leaves queue `q` and started `ran`: the
    * earliest entry `e` is popped; when due, its job's instances start and
    * an entry for the same job at its next deadline is pushed; otherwise
    * `e` is pushed back as it was. */
  ghost predicate DispatchedTop(q0: seq<ScheduledJob>, q: seq<ScheduledJob>, ran: Option<seq<JobInstance>>, secs: nat, now: int)
    requires q0 != []
  {
    var i := Top(q0);
    var e := q0[i];
    && |q| == |q0|
    && q[..|q| - 1] == Remove(q0, i)
    && (e.when <= now ==>
          && ran == Some(Expand(e.job))
          && q[|q| - 1].job == e.job
          && IsDeadline(e.job.schedule, secs, now, q[|q| - 1].when))
    && (e.when > now ==> ran == None && q[|q| - 1] == e)
  }

  class Scheduler {
    var queue: seq<ScheduledJob>
    const cache: ConfigCache
    const colors: CliColorPicker

    ghost predicate Valid()
      reads this, cache, colors, colors.colorOrder
    {
      && cache.Valid()
      && colors.Valid()
      && (forall e :: e in queue ==> JobOk(e.job))
    }

    /** Each cached job has exactly one entry in the queue. */
    ghost predicate Tracks()
      reads this, cache
    {
      multiset(JobsOf(queue)) == multiset(cache.jobs)
    }

    /** The colour picker is as it was at the start of the call. */
    twostate predicate PickerUnchanged()
      reads this, colors, colors.colorOrder
    {
      && colors.jobColors == old(colors.jobColors)
      && colors.nextColorIdx == old(colors.nextColorIdx)
      && colors.colorOrder[..] == old(colors.colorOrder[..])
    }

    /** `Scheduler::new`: an empty queue and a new colour picker. */
    constructor(cache: ConfigCache, nanos: nat)
      requires cache.Valid()
      ensures Valid() && fresh(colors) && fresh(colors.colorOrder)
      ensures this.cache == cache && queue == []
      ensures colors.jobColors == [] && colors.nextColorIdx == 0
      ensures colors.colorOrder[..] == ShuffleFrom(IDENTITY, nanos, PALETTE_SIZE - 1)
    {
      this.cache := cache;
      colors := new CliColorPicker(nanos);
      queue := [];
    }

    /** `init`: the queue emptied, then one entry per cached job with its
      * next deadline. */
    method Init(secs: nat, now: int)
      requires Valid()
      modifies this
      ensures Valid() && Tracks()
      ensures JobsOf(queue) == cache.jobs
      ensures forall i :: 0 <= i < |queue| ==> IsDeadline(queue[i].job.schedule, secs, now, queue[i].when)
    {
      queue := [];
      for i := 0 to |cache.jobs|
        invariant JobsOf(queue) == cache.jobs[..i]
        invariant forall k :: 0 <= k < |queue| ==> IsDeadline(queue[k].job.schedule, secs, now, queue[k].when)
        invariant forall e :: e in queue ==> JobOk(e.job)
      {
        var job := cache.jobs[i];
        assert job in cache.jobs;
        WellFormedIsSatisfiable(job.schedule);
        var when := ComputeNextRun(job.schedule, secs, now);
        queue := queue + [ScheduledJob(when, job)];
        assert JobsOf(queue) == cache.jobs[..i + 1];
      }
      assert cache.jobs[..|cache.jobs|] == cache.jobs;
    }

    /** The start of each turn of `run`: reload the configuration and
      * rebuild the queue only when the reload returned `Ok(true)`. */
    method Refresh(file: FileView, secs: nat, now: int) returns (r: Result<bool, LoadError>)
      requires Valid()
      modifies this, cache
      ensures Valid()
      ensures r == Ok(true) ==> JobsOf(queue) == cache.jobs && Tracks()
      ensures r == Ok(true) ==>
        forall i :: 0 <= i < |queue| ==> IsDeadline(queue[i].job.schedule, secs, now, queue[i].when)
      ensures r != Ok(true) ==> queue == old(queue) && unchanged(cache)
      ensures file.Unopenable? ==> r == Err(OpenFailed)
      ensures file.NoMetadata? ==> r == Err(MetadataFailed)
      ensures file.Opened? ==>
        var modified := ModifiedOrEpoch(file.modified);
        if old(cache.lastModified) == Some(modified) && old(cache.fileSize) == Some(file.size) then
          r == Ok(false)
        else match Loaded(file.contents)
          case Err(e) => r == Err(e)
          case Ok(loaded) =>
            r == Ok(true) && cache.jobs == loaded
            && cache.lastModified == Some(modified) && cache.fileSize == Some(file.size)
      ensures old(Tracks()) ==> Tracks()
    {
      r := cache.ReloadIfChanged(file);
      if r == Ok(true) {
        Init(secs, now);
      }
    }

    /** The rest of each turn: take the entry with the earliest deadline;
      * when it is due, run its job and queue it again at its next deadline,
      * otherwise put it back as it was. Returns the instances started. */
    method Dispatch(secs: nat, now: int, nanos: nat) returns (ran: Option<seq<JobInstance>>)
      requires Valid()
      modifies this, colors, colors.colorOrder
      ensures Valid()
      ensures old(queue) == [] ==> queue == [] && ran == None
      ensures old(queue) != [] ==> DispatchedTop(old(queue), queue, ran, secs, now)
      ensures old(queue) != [] && ran.Some? ==>
        var key := Poly(old(queue)[Top(old(queue))].job.id) % USIZE_MODULUS;
        colors.Assigned(key) && KeepsColors(old(colors.jobColors), colors.jobColors, key)
      ensures ran == None ==> PickerUnchanged()
      ensures multiset(JobsOf(queue)) == multiset(JobsOf(old(queue)))
      ensures cache.jobs == old(cache.jobs)
    {
      if queue == [] {
        return None;
      }
      var i := Top(queue);
      var e := queue[i];
      var next := e;
      if e.when <= now {
        assert e in queue;
        var instances;
        next, instances := RunDue(e, secs, now, nanos);
        ran := Some(instances);
      } else {
        ran := None;
      }
      Requeue(i, next);
    }

    /** `queue.push` after `queue.pop`: entry `i` leaves and `next`, for
      * the same job, goes in. */
    method Requeue(i: nat, next: ScheduledJob)
      requires i < |queue| && next.job == queue[i].job
      modifies this
      ensures |queue| == |old(queue)|
      ensures queue[..|queue| - 1] == Remove(old(queue), i) && queue[|queue| - 1] == next
      ensures multiset(JobsOf(queue)) == multiset(JobsOf(old(queue)))
      ensures (forall x :: x in old(queue) ==> JobOk(x.job)) ==> forall x :: x in queue ==> JobOk(x.job)
    {
      ReplaceKeepsJobs(queue, i, next);
      ReplaceShape(queue, i, next);
      queue := Remove(queue, i) + [next];
    }

    /** A due entry: its job is run, and the entry that replaces it has
      * the same job at its next deadline. */
    method RunDue(e: ScheduledJob, secs: nat, now: int, nanos: nat)
      returns (next: ScheduledJob, instances: seq<JobInstance>)
      requires colors.Valid() && JobOk(e.job)
      modifies colors, colors.colorOrder
      ensures colors.Valid()
      ensures instances == Expand(e.job)
      ensures next.job == e.job && IsDeadline(e.job.schedule, secs, now, next.when)
      ensures var key := Poly(e.job.id) % USIZE_MODULUS;
        && colors.Assigned(key)
        && KeepsColors(old(colors.jobColors), colors.jobColors, key)
        && (old(colors.Assigned(key)) ==> PickerUnchanged())
    {
      var color;
      instances, color := RunJob(e.job, nanos);
      WellFormedIsSatisfiable(e.job.schedule);
      var when := ComputeNextRun(e.job.schedule, secs, now);
      next := ScheduledJob(when, e.job);
    }

    /** `run_job`, short of starting processes: the job's instances and the
      * colour its id hashes to. */
    method RunJob(job: JobSpec, nanos: nat) returns (instances: seq<JobInstance>, color: Bytes)
      requires colors.Valid()
      modifies colors, colors.colorOrder
      ensures colors.Valid()
      ensures instances == Expand(job)
      ensures var key := Poly(job.id) % USIZE_MODULUS;
        && colors.Assigned(key) && color == PALETTE[colors.jobColors[key].value]
        && KeepsColors(old(colors.jobColors), colors.jobColors, key)
        && (old(colors.Assigned(key)) ==> PickerUnchanged())
    {
      instances := Expand(job);
      var key := HashId(job.id);
      color := colors.Get(key, nanos);
    }

    /** One turn of `run`. */
    method RunOnce(file: FileView, secs: nat, now: int, nanos: nat)
      returns (reload: Result<bool, LoadError>, ran: Option<seq<JobInstance>>)
      requires Valid() && Tracks()
      modifies this, cache, colors, colors.colorOrder
      ensures Valid() && Tracks()
      ensures reload != Ok(true) ==> |queue| == old(|queue|)
      ensures reload == Ok(true) ==> |queue| == |cache.jobs|
    {
      reload := Refresh(file, secs, now);
      ghost var mid := queue;
      ran := Dispatch(secs, now, nanos);
      assert |JobsOf(queue)| == |multiset(JobsOf(queue))| == |multiset(JobsOf(mid))| == |mid|;
    }
  }
}
