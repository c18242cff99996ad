/**
 * Jobs and their expansion into runnable instances (src/models.rs).
 *
 * A job with a fanout plan runs as several instances, each with its own id
 * `<job id>-<index>`; without one it runs as a single instance under its own
 * id. Argument vectors come from the command tokenizer.
 */
module Models {
  import opened Wrappers
  import opened Text
  import opened CronParser
  import opened Shell

  datatype JobInstance = JobInstance(id: Bytes, command: seq<Bytes>)

  /** The fanout plan: none, `n` identical copies, or one instance per
    * `fanout[]` entry, whose text is appended to the command. */
  datatype Fanout = NoFanout | Int(count: nat) | List(entries: seq<Bytes>)

  datatype JobSpec = JobSpec(id: Bytes, schedule: CronSchedule, command: Bytes, fanout: Fanout)

  /** `format!("{}-{}", id, i)` */
  function InstanceId(id: Bytes, i: nat): (r: Bytes)
    ensures |r| > |id| + 1 && r[..|id|] == id && r[|id|] == DASH
  {
    id + [DASH] + Decimal(i)
  }

  /** `JobSpec::expand`. */
  function Expand(job: JobSpec): seq<JobInstance> {
    match job.fanout
    case NoFanout => [JobInstance(job.id, Tokens(job.command))]
    case List(l) =>
      seq(|l|, i requires 0 <= i < |l| =>
        JobInstance(InstanceId(job.id, i), Tokens(job.command + [SPACE] + l[i])))
    case Int(n) =>
      var cmd := Tokens(job.command);
      seq(n, i requires 0 <= i < n => JobInstance(InstanceId(job.id, i), cmd))
  }

  /** The number of instances a plan produces. */
  function PlanSize(job: JobSpec): nat {
    match job.fanout
    case NoFanout => 1
    case Int(n) => n
    case List(l) => |l|
  }

  // ---------------------------------------------------------------------
  // Properties

  /** The index in an instance id reads back as the index. */
  lemma InstanceIdRoundTrip(id: Bytes, i: nat)
    ensures InstanceId(id, i)[|id| + 1..] == Decimal(i)
    ensures ParseUnsigned(InstanceId(id, i)[|id| + 1..], i) == Some(i)
  {
    assert InstanceId(id, i)[|id| + 1..] == Decimal(i);
    DecimalParses(i, i);
  }

  /** Instances of one job get distinct ids. */
  lemma InstanceIdsDistinct(id: Bytes, i: nat, j: nat)
    requires i != j
    ensures InstanceId(id, i) != InstanceId(id, j)
  {
    if InstanceId(id, i) == InstanceId(id, j) {
      InstanceIdRoundTrip(id, i);
      InstanceIdRoundTrip(id, j);
      DecimalInjective(i, j);
    }
  }

  /** With no plan: one instance, the job's own id, the tokenized command. */
  lemma ExpandWithoutFanout(job: JobSpec)
    requires job.fanout.NoFanout?
    ensures |Expand(job)| == 1
    ensures Expand(job)[0].id == job.id && Expand(job)[0].command == Tokens(job.command)
  {
  }

  /** `Int(n)`: exactly `n` instances in index order, ids `<id>-0` to
    * `<id>-(n-1)`, all with the same argument vector. */
  lemma ExpandCount(job: JobSpec)
    requires job.fanout.Int?
    ensures |Expand(job)| == job.fanout.count
    ensures forall i :: 0 <= i < |Expand(job)| ==>
      Expand(job)[i] == JobInstance(InstanceId(job.id, i), Tokens(job.command))
  {
  }

  /** `List(l)`: one instance per entry in entry order, the i-th with id
    * `<id>-i` and the command and the entry tokenized together. */
  lemma ExpandList(job: JobSpec)
    requires job.fanout.List?
    ensures |Expand(job)| == |job.fanout.entries|
    ensures forall i :: 0 <= i < |Expand(job)| ==>
      Expand(job)[i] == JobInstance(InstanceId(job.id, i), Tokens(job.command + [SPACE] + job.fanout.entries[i]))
  {
  }

  /** The instance ids of one job are pairwise distinct. */
  lemma ExpandIdsDistinct(job: JobSpec)
    ensures |Expand(job)| == PlanSize(job)
    ensures forall i, j :: 0 <= i < j < |Expand(job)| ==> Expand(job)[i].id != Expand(job)[j].id
  {
    forall i, j | 0 <= i < j < |Expand(job)| ensures Expand(job)[i].id != Expand(job)[j].id {
      InstanceIdsDistinct(job.id, i, j);
    }
  }

  /** When the command and an entry are each well formed, the entry's
    * instance runs the command's arguments followed by the entry's. */
  lemma ListArgvIsBaseThenEntry(job: JobSpec, i: nat)
    requires job.fanout.List? && i < |job.fanout.entries|
    requires Lex(job.command).Ok? && Lex(job.fanout.entries[i]).Ok?
    ensures Expand(job)[i].command == Tokens(job.command) + Tokens(job.fanout.entries[i])
  {
    Concatenation(job.command, job.fanout.entries[i]);
  }

  /** A malformed command gives instances with an empty argument vector,
    * never an error. */
  lemma MalformedCommandGivesEmptyArgv(job: JobSpec)
    requires Lex(job.command).Err? && !job.fanout.List?
    ensures forall i :: 0 <= i < |Expand(job)| ==> Expand(job)[i].command == []
  {
  }
}
