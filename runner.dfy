/** The run plan handed to the external scenario runner, and the order in which
    its commands are executed. */
module Runner {
  import opened Text
  import opened Json

  /** One command of the plan: the job it belongs to and the runner's arguments. Arguments
      are read from the compiled matrix as they are, so one may be absent or not a string. */
  datatype PlanEntry = PlanEntry(jobId: Option<Value>, args: seq<Option<Value>>)

  /** The process to start for one command: the interpreter and its arguments. */
  datatype Invocation = Invocation(command: string, args: seq<Option<Value>>)

  /** The value of `--record-video`; an absent option means `true`. */
  function VideoFlag(recordVideo: Option<bool>): (r: string)
    ensures r == "true" || r == "false"
    ensures r == "false" <==> recordVideo == Some(false)
  {
    if recordVideo.None? || recordVideo.value then "true" else "false"
  }

  /** The plan entry of one compiled job; reading a property of `null` throws. */
  function EntryOf(job: Value, flag: string): (r: Result<PlanEntry>)
    ensures r.Err? <==> job.Null?
    ensures r.Ok? ==> r.value.jobId == Prop(job, "job_id") && |r.value.args| == 9
    ensures r.Ok? ==> r.value.args[0] == Some(Str("run-scenario")) && r.value.args[8] == Some(Str(flag))
    ensures r.Ok? ==> r.value.args[2] == Prop(job, "scenario_path") && r.value.args[4] == Prop(job, "output_dir")
                      && r.value.args[6] == Prop(job, "markdown_path")
    ensures r.Ok? ==> r.value.args[1] == Some(Str("--scenario")) && r.value.args[3] == Some(Str("--output"))
                      && r.value.args[5] == Some(Str("--markdown")) && r.value.args[7] == Some(Str("--record-video"))
  {
    if job.Null? then Err(PropertyOfNull("job_id"))
    else Ok(PlanEntry(Prop(job, "job_id"),
                      [Some(Str("run-scenario")), Some(Str("--scenario")), Prop(job, "scenario_path"),
                       Some(Str("--output")), Prop(job, "output_dir"),
                       Some(Str("--markdown")), Prop(job, "markdown_path"),
                       Some(Str("--record-video")), Some(Str(flag))]))
  }

  /** `compiledMatrix.jobs` when the matrix is truthy and that is an array. */
  function PlanJobs(compiledMatrix: Option<Value>): Option<seq<Value>> {
    if !Truthy(compiledMatrix) then None
    else match PropOf(compiledMatrix, "jobs")
      case Some(Arr(items)) => Some(items)
      case _ => None
  }

  /** `buildRunPlan`: one entry per compiled job, in order. */
  function BuildRunPlan(compiledMatrix: Option<Value>, recordVideo: Option<bool>): (r: Result<seq<PlanEntry>>)
    ensures PlanJobs(compiledMatrix).None? ==> r == Err(JobsRequired)
    ensures r.Ok? <==> PlanJobs(compiledMatrix).Some? && forall i :: 0 <= i < |PlanJobs(compiledMatrix).value| ==>
                         !PlanJobs(compiledMatrix).value[i].Null?
    ensures r.Ok? ==> |r.value| == |PlanJobs(compiledMatrix).value|
    ensures r.Ok? ==> forall i :: 0 <= i < |r.value| ==>
      EntryOf(PlanJobs(compiledMatrix).value[i], VideoFlag(recordVideo)) == Ok(r.value[i])
    ensures r.Err? && PlanJobs(compiledMatrix).Some? ==> r == Err(PropertyOfNull("job_id"))
  {
    match PlanJobs(compiledMatrix)
    case None => Err(JobsRequired)
    case Some(jobs) =>
      var flag := VideoFlag(recordVideo);
      var results := seq(|jobs|, i requires 0 <= i < |jobs| => EntryOf(jobs[i], flag));
      assert forall i :: 0 <= i < |jobs| ==> results[i] == EntryOf(jobs[i], flag);
      var r := AllOk(results);
      if r.Err? then
        var k :| 0 <= k < |results| && results[k] == Err(r.error);
        r
      else r
  }

  /** Every entry of a plan has the runner's nine-argument layout, with the job's paths in
      places 2, 4 and 6 and the video flag last. */
  lemma PlanLayout(compiledMatrix: Option<Value>, recordVideo: Option<bool>, i: nat)
    requires BuildRunPlan(compiledMatrix, recordVideo).Ok? && i < |BuildRunPlan(compiledMatrix, recordVideo).value|
    ensures var job := PlanJobs(compiledMatrix).value[i];
      BuildRunPlan(compiledMatrix, recordVideo).value[i] ==
        PlanEntry(Prop(job, "job_id"),
                  [Some(Str("run-scenario")), Some(Str("--scenario")), Prop(job, "scenario_path"),
                   Some(Str("--output")), Prop(job, "output_dir"),
                   Some(Str("--markdown")), Prop(job, "markdown_path"),
                   Some(Str("--record-video")), Some(Str(VideoFlag(recordVideo)))])
  {
    var job := PlanJobs(compiledMatrix).value[i];
    assert EntryOf(job, VideoFlag(recordVideo)) == Ok(BuildRunPlan(compiledMatrix, recordVideo).value[i]);
  }

  /** The runner's entry point, below the working directory. */
  function CliPath(cwd: string): string {
    JoinPath([cwd, "node_modules", "@metyatech", "automation-scenario-studio", "dist", "src", "cli.js"])
  }

  /** `buildStudioInvocation`: the interpreter runs the runner's entry point with the plan's arguments. */
  function BuildStudioInvocation(cwd: string, execPath: string, args: seq<Option<Value>>): (r: Invocation)
    ensures r.command == execPath && |r.args| == |args| + 1
    ensures r.args[0] == Some(Str(CliPath(cwd))) && r.args[1..] == args
  {
    Invocation(execPath, [Some(Str(CliPath(cwd)))] + args)
  }

  /** `path.join` of non-empty segments puts one "/" between neighbours. */
  lemma {:induction false} JoinPathSegments(parts: seq<string>)
    requires |parts| >= 1 && forall i :: 0 <= i < |parts| ==> parts[i] != ""
    ensures JoinPath(parts) == parts[0] + (if |parts| == 1 then "" else "/" + JoinPath(parts[1..]))
    ensures JoinPath(parts) != ""
  {
    if |parts| > 1 {
      JoinPathSegments(parts[1..]);
    }
  }

  lemma JoinSix(a: string, b: string, c: string, d: string, e: string, f: string)
    requires a != "" && b != "" && c != "" && d != "" && e != "" && f != ""
    ensures JoinPath([a, b, c, d, e, f]) == a + "/" + b + "/" + c + "/" + d + "/" + e + "/" + f
  {
    var p := [a, b, c, d, e, f];
    JoinPathSegments(p); JoinPathSegments(p[1..]); JoinPathSegments(p[2..]);
    JoinPathSegments(p[3..]); JoinPathSegments(p[4..]); JoinPathSegments(p[5..]);
    assert p[1..][1..] == p[2..] && p[2..][1..] == p[3..] && p[3..][1..] == p[4..] && p[4..][1..] == p[5..];
    assert p[5..] == [f];
  }

  /** The entry point sits at `<cwd>/node_modules/@metyatech/automation-scenario-studio/dist/src/cli.js`,
      or at the same path relative to the current directory when `cwd` is empty. */
  lemma CliPathText(cwd: string)
    ensures var entry := "node_modules" + "/" + "@metyatech" + "/" + "automation-scenario-studio" + "/" + "dist"
                         + "/" + "src" + "/" + "cli.js";
      CliPath(cwd) == if cwd == "" then entry else cwd + "/" + entry
  {
    var tail := ["node_modules", "@metyatech", "automation-scenario-studio", "dist", "src", "cli.js"];
    JoinSix(tail[0], tail[1], tail[2], tail[3], tail[4], tail[5]);
    assert [tail[0], tail[1], tail[2], tail[3], tail[4], tail[5]] == tail;
    var parts := [cwd] + tail;
    assert parts == [cwd, "node_modules", "@metyatech", "automation-scenario-studio", "dist", "src", "cli.js"];
    assert parts[1..] == tail;
  }

  /** The position of the first entry whose command exits with a non-zero code. */
  function FirstFailure(plan: seq<PlanEntry>, exitCode: PlanEntry -> int): (r: Option<nat>)
    ensures r.Some? ==> r.value < |plan| && exitCode(plan[r.value]) != 0
    ensures r.Some? ==> forall j :: 0 <= j < r.value ==> exitCode(plan[j]) == 0
    ensures r.None? <==> forall j :: 0 <= j < |plan| ==> exitCode(plan[j]) == 0
    decreases |plan|
  {
    if plan == [] then None
    else if exitCode(plan[0]) != 0 then Some(0)
    else match FirstFailure(plan[1..], exitCode)
      case None => None
      case Some(k) => Some(k + 1)
  }

  /** The commands the run executes: the whole plan, or the plan up to and including its first failure. */
  function Executed(plan: seq<PlanEntry>, exitCode: PlanEntry -> int): (r: seq<PlanEntry>)
    ensures |r| <= |plan| && r == plan[..|r|]
  {
    match FirstFailure(plan, exitCode)
    case None => plan
    case Some(k) => plan[..k + 1]
  }

  /** What the run returns: the plan, or the failure of its first failing command. */
  function RunResult(plan: seq<PlanEntry>, exitCode: PlanEntry -> int): (r: Result<seq<PlanEntry>>)
    ensures r.Ok? <==> FirstFailure(plan, exitCode).None?
    ensures r.Ok? ==> r.value == plan
  {
    match FirstFailure(plan, exitCode)
    case None => Ok(plan)
    case Some(k) => Err(CommandFailed(plan[k].jobId, exitCode(plan[k])))
  }

  /** The command executor `runCompiledJobs` is given, with the commands it has run so far.
      The exit code of each command is what the external process reports. */
  class CommandRunner {
    var executed: seq<PlanEntry>
    const exitCode: PlanEntry -> int

    constructor(exitCode: PlanEntry -> int)
      ensures executed == [] && this.exitCode == exitCode
    {
      executed := [];
      this.exitCode := exitCode;
    }

    /** Run one command and wait for it; a non-zero exit rejects with the job and the code. */
    method Execute(entry: PlanEntry) returns (r: Outcome)
      modifies this
      ensures executed == old(executed) + [entry]
      ensures r == if exitCode(entry) == 0 then Pass else Fail(CommandFailed(entry.jobId, exitCode(entry)))
    {
      executed := executed + [entry];
      if exitCode(entry) == 0 {
        r := Pass;
      } else {
        r := Fail(CommandFailed(entry.jobId, exitCode(entry)));
      }
    }
  }

  /** The sequential loop of `runCompiledJobs`: each entry in turn, stopping at the first failure. */
  method ExecutePlan(entries: seq<PlanEntry>, runner: CommandRunner) returns (r: Result<seq<PlanEntry>>)
    modifies runner
    ensures r == RunResult(entries, runner.exitCode)
    ensures runner.executed == old(runner.executed) + Executed(entries, runner.exitCode)
  {
    for i := 0 to |entries|
      invariant runner.executed == old(runner.executed) + entries[..i]
      invariant forall j :: 0 <= j < i ==> runner.exitCode(entries[j]) == 0
    {
      var o := runner.Execute(entries[i]);
      assert entries[..i + 1] == entries[..i] + [entries[i]];
      if o.Fail? {
        FirstFailureAt(entries, runner.exitCode, i);
        return Err(o.error);
      }
    }
    assert entries[..|entries|] == entries;
    return Ok(entries);
  }

  /** `runCompiledJobs`: build the plan; a dry run returns it untouched, otherwise each
      command runs in plan order and the first failure stops the run. */
  method RunCompiledJobs(compiledMatrix: Option<Value>, dryRun: bool, recordVideo: Option<bool>,
                         runner: CommandRunner) returns (r: Result<seq<PlanEntry>>)
    modifies runner
    ensures var plan := BuildRunPlan(compiledMatrix, recordVideo);
      if plan.Err? || dryRun then r == plan && runner.executed == old(runner.executed)
      else r == RunResult(plan.value, runner.exitCode)
           && runner.executed == old(runner.executed) + Executed(plan.value, runner.exitCode)
  {
    var plan := BuildRunPlan(compiledMatrix, recordVideo);
    if plan.Err? || dryRun {
      return plan;
    }
    r := ExecutePlan(plan.value, runner);
  }

  /** The first failure is the failing entry with only successes before it. */
  lemma FirstFailureAt(plan: seq<PlanEntry>, exitCode: PlanEntry -> int, k: nat)
    requires k < |plan| && exitCode(plan[k]) != 0
    requires forall j :: 0 <= j < k ==> exitCode(plan[j]) == 0
    ensures FirstFailure(plan, exitCode) == Some(k)
  {
    var f := FirstFailure(plan, exitCode);
    assert f.Some?;
  }

  /** When every command succeeds, each entry of the plan runs exactly once, in plan order. */
  lemma AllSucceedRunsWholePlan(plan: seq<PlanEntry>, exitCode: PlanEntry -> int)
    requires forall j :: 0 <= j < |plan| ==> exitCode(plan[j]) == 0
    ensures Executed(plan, exitCode) == plan && RunResult(plan, exitCode) == Ok(plan)
  {
  }

  /** After a failure nothing more runs: the failing command is the last one executed. */
  lemma FailureStopsTheRun(plan: seq<PlanEntry>, exitCode: PlanEntry -> int)
    requires RunResult(plan, exitCode).Err?
    ensures Executed(plan, exitCode) != []
    ensures var ran := Executed(plan, exitCode);
      exitCode(ran[|ran| - 1]) != 0 && forall j :: 0 <= j < |ran| - 1 ==> exitCode(ran[j]) == 0
    ensures RunResult(plan, exitCode) ==
      Err(CommandFailed(Executed(plan, exitCode)[|Executed(plan, exitCode)| - 1].jobId,
                        exitCode(Executed(plan, exitCode)[|Executed(plan, exitCode)| - 1])))
  {
  }
}
