/** Structural validation of profiles, blueprints and matrices, with the
    per-target lists of allowed step actions. */
module Contracts {
  import opened Text
  import opened Json

  /** Actions a step of a web blueprint may use. */
  const WebActions: set<string> := {
    "open_url", "click", "double_click", "right_click", "drag_drop", "drag",
    "type_text", "type", "wait_for", "wait", "assert", "press_keys", "keys",
    "shortcut", "screenshot", "start_video", "stop_video", "emit_annotation"
  }

  /** Actions a step of a unity blueprint may use. */
  const UnityActions: set<string> := {
    "click", "double_click", "right_click", "drag_drop", "drag", "type_text",
    "type", "wait_for", "wait", "assert", "press_keys", "keys", "shortcut",
    "open_menu", "menu", "select_hierarchy", "screenshot", "start_video",
    "stop_video", "emit_annotation"
  }

  /** The two lists differ exactly in the editor actions and `open_url`. */
  lemma ActionListsDiffer()
    ensures WebActions == UnityActions - {"open_menu", "menu", "select_hierarchy"} + {"open_url"}
    ensures "open_url" !in UnityActions
    ensures WebActions * UnityActions == UnityActions - {"open_menu", "menu", "select_hierarchy"}
  {
  }

  /** The list a step is checked against: the web list for "web", the unity list for anything else. */
  function AllowedActions(target: string): (r: set<string>)
    ensures r == WebActions <==> target == "web"
  {
    if target == "web" then WebActions else UnityActions
  }

  /** A non-null, non-array object. */
  predicate IsObject(v: Option<Value>) {
    v.Some? && v.value.Obj?
  }

  /** `ensureObject`: rejects absent and `null` values, other falsy values,
      non-objects and arrays. */
  function EnsureObject(value: Option<Value>, what: string): (r: Outcome)
    ensures r == Pass <==> IsObject(value)
    ensures r.Fail? ==> r.error == NotAnObject(what)
  {
    if !Truthy(value) || !(value.value.Arr? || value.value.Obj?) || value.value.Arr? then Fail(NotAnObject(what))
    else Pass
  }

  /** `ensureString`: rejects non-strings and strings that trim to nothing. */
  function EnsureString(value: Option<Value>, what: string): (r: Outcome)
    ensures r == Pass <==> IsNonBlankString(value)
    ensures r.Fail? ==> r.error == NotANonEmptyString(what)
  {
    if !(value.Some? && value.value.Str?) || Trim(value.value.s) == "" then Fail(NotANonEmptyString(what))
    else Pass
  }

  predicate IsTarget(v: Option<Value>) {
    v == Some(Str("web")) || v == Some(Str("unity"))
  }

  /** `ensureTarget`: only the strings "web" and "unity" pass. */
  function EnsureTarget(value: Option<Value>, what: string): (r: Outcome)
    ensures r == Pass <==> IsTarget(value)
    ensures r.Fail? ==> r.error == NotATarget(what)
  {
    if !StrictEquals(value, Some(Str("web"))) && !StrictEquals(value, Some(Str("unity"))) then Fail(NotATarget(what))
    else Pass
  }

  /** The `!== undefined` guard around an object check. */
  function OptionalObject(value: Option<Value>, what: string): (r: Outcome)
    ensures r == Pass <==> value.None? || IsObject(value)
  {
    if value.None? then Pass else EnsureObject(value, what)
  }

  /** The `!== undefined` guard around a string check. */
  function OptionalString(value: Option<Value>, what: string): (r: Outcome)
    ensures r == Pass <==> value.None? || IsNonBlankString(value)
  {
    if value.None? then Pass else EnsureString(value, what)
  }

  // ---------------------------------------------------------------- profiles

  /** What an accepted profile looks like. */
  predicate ProfileShape(profile: Value) {
    profile.Obj?
    && IsNonBlankString(Prop(profile, "schema_version"))
    && IsNonBlankString(Prop(profile, "profile_id"))
    && IsNonBlankString(Prop(profile, "name"))
    && IsTarget(Prop(profile, "target"))
    && (Prop(profile, "versions").None? || IsObject(Prop(profile, "versions")))
    && (Prop(profile, "capabilities").None? || IsObject(Prop(profile, "capabilities")))
    && (Prop(profile, "anchors").None? || IsObject(Prop(profile, "anchors")))
  }

  /** `validateProfile`: the first failing check, in the source's order. */
  function ValidateProfile(profile: Value): (r: Outcome)
    ensures r == Pass <==> ProfileShape(profile)
    ensures !profile.Obj? ==> r == Fail(NotAnObject("profile"))
  {
    var value := Some(profile);
    :- EnsureObject(value, "profile");
    :- EnsureString(Prop(profile, "schema_version"), "profile.schema_version");
    :- EnsureString(Prop(profile, "profile_id"), "profile.profile_id");
    :- EnsureString(Prop(profile, "name"), "profile.name");
    :- EnsureTarget(Prop(profile, "target"), "profile.target");
    :- OptionalObject(Prop(profile, "versions"), "profile.versions");
    :- OptionalObject(Prop(profile, "capabilities"), "profile.capabilities");
    OptionalObject(Prop(profile, "anchors"), "profile.anchors")
  }

  // ---------------------------------------------------------------- blueprints

  /** What an accepted step looks like, for the given blueprint target. */
  predicate StepShape(step: Value, target: string) {
    step.Obj?
    && (Prop(step, "id").None? || IsNonBlankString(Prop(step, "id")))
    && (Prop(step, "title").None? || IsNonBlankString(Prop(step, "title")))
    && (Prop(step, "step_template").None? || IsObject(Prop(step, "step_template")))
    && (Prop(step, "step_template").None? ==>
          IsNonBlankString(Prop(step, "action"))
          && IsObject(Prop(step, "params_template"))
          && Prop(step, "action").value.s in AllowedActions(target))
  }

  /** `validateBlueprintStep`. */
  function ValidateBlueprintStep(step: Value, target: string): (r: Outcome)
    ensures r == Pass <==> StepShape(step, target)
    ensures step.Obj? && Prop(step, "step_template").None? && IsNonBlankString(Prop(step, "action"))
      && IsObject(Prop(step, "params_template"))
      && (Prop(step, "id").None? || IsNonBlankString(Prop(step, "id")))
      && (Prop(step, "title").None? || IsNonBlankString(Prop(step, "title")))
      && Prop(step, "action").value.s !in AllowedActions(target)
      ==> r == Fail(UnsupportedAction(Prop(step, "action").value.s, target, Prop(step, "id")))
  {
    var value := Some(step);
    :- EnsureObject(value, "blueprint step");
    :- OptionalString(Prop(step, "id"), "step.id");
    :- OptionalString(Prop(step, "title"), "step.title");
    :- OptionalObject(Prop(step, "step_template"), "step.step_template");
    if Prop(step, "step_template").None? then
      :- EnsureString(Prop(step, "action"), "step.action");
      :- EnsureObject(Prop(step, "params_template"), "step.params_template");
      var action := Prop(step, "action").value.s;
      if action !in AllowedActions(target) then Fail(UnsupportedAction(action, target, Prop(step, "id")))
      else Pass
    else Pass
  }

  /** `steps.forEach(validateBlueprintStep)`: the first failing step decides. */
  function ValidateSteps(steps: seq<Value>, target: string): (r: Outcome)
    ensures r == Pass <==> forall i :: 0 <= i < |steps| ==> StepShape(steps[i], target)
  {
    if steps == [] then Pass
    else
      :- ValidateBlueprintStep(steps[0], target);
      assert forall i :: 1 <= i < |steps| ==> steps[1..][i - 1] == steps[i];
      ValidateSteps(steps[1..], target)
  }

  /** The items of the property `key` when it is a non-empty array, as `validateBlueprint`
      demands of `steps` and `validateMatrix` of `jobs`. */
  function ItemsOf(doc: Value, key: string): (r: Option<seq<Value>>)
    ensures r.Some? <==> Prop(doc, key).Some? && Prop(doc, key).value.Arr? && Prop(doc, key).value.items != []
    ensures r.Some? ==> r.value != [] && Prop(doc, key) == Some(Arr(r.value))
  {
    match Prop(doc, key)
    case Some(Arr(items)) => if items == [] then None else Some(items)
    case _ => None
  }

  /** What an accepted blueprint looks like: every step checked against the blueprint's own target. */
  predicate BlueprintShape(blueprint: Value) {
    blueprint.Obj?
    && IsNonBlankString(Prop(blueprint, "schema_version"))
    && IsNonBlankString(Prop(blueprint, "blueprint_id"))
    && IsNonBlankString(Prop(blueprint, "name"))
    && IsTarget(Prop(blueprint, "target"))
    && IsObject(Prop(blueprint, "metadata_template"))
    && ItemsOf(blueprint, "steps").Some?
    && forall i :: 0 <= i < |ItemsOf(blueprint, "steps").value| ==>
         StepShape(ItemsOf(blueprint, "steps").value[i], Prop(blueprint, "target").value.s)
  }

  /** `validateBlueprint`. */
  function ValidateBlueprint(blueprint: Value): (r: Outcome)
    ensures r == Pass <==> BlueprintShape(blueprint)
  {
    var value := Some(blueprint);
    :- EnsureObject(value, "blueprint");
    :- EnsureString(Prop(blueprint, "schema_version"), "blueprint.schema_version");
    :- EnsureString(Prop(blueprint, "blueprint_id"), "blueprint.blueprint_id");
    :- EnsureString(Prop(blueprint, "name"), "blueprint.name");
    :- EnsureTarget(Prop(blueprint, "target"), "blueprint.target");
    :- EnsureObject(Prop(blueprint, "metadata_template"), "blueprint.metadata_template");
    if ItemsOf(blueprint, "steps").None? then Fail(NoSteps)
    else ValidateSteps(ItemsOf(blueprint, "steps").value, Prop(blueprint, "target").value.s)
  }

  /** A well-formed unity blueprint whose one step opens a URL is rejected, naming
      the action, the target and the step. */
  lemma OpenUrlRejectedOnUnity(blueprint: Value, step: Value)
    requires blueprint.Obj? && IsNonBlankString(Prop(blueprint, "schema_version"))
    requires IsNonBlankString(Prop(blueprint, "blueprint_id")) && IsNonBlankString(Prop(blueprint, "name"))
    requires Prop(blueprint, "target") == Some(Str("unity"))
    requires IsObject(Prop(blueprint, "metadata_template"))
    requires Prop(blueprint, "steps") == Some(Arr([step]))
    requires step.Obj? && Prop(step, "step_template").None? && Prop(step, "action") == Some(Str("open_url"))
    requires IsObject(Prop(step, "params_template"))
    requires Prop(step, "id").None? || IsNonBlankString(Prop(step, "id"))
    requires Prop(step, "title").None? || IsNonBlankString(Prop(step, "title"))
    ensures ValidateBlueprint(blueprint) == Fail(UnsupportedAction("open_url", "unity", Prop(step, "id")))
  {
    assert IsTarget(Prop(blueprint, "target"));
    assert ItemsOf(blueprint, "steps") == Some([step]);
    BlueprintHeaderPasses(blueprint);
    assert ValidateBlueprint(blueprint) == ValidateSteps([step], "unity");
    OpenUrlStepRejected(step);
  }

  lemma OpenUrlStepRejected(step: Value)
    requires step.Obj? && Prop(step, "step_template").None? && Prop(step, "action") == Some(Str("open_url"))
    requires IsObject(Prop(step, "params_template"))
    requires Prop(step, "id").None? || IsNonBlankString(Prop(step, "id"))
    requires Prop(step, "title").None? || IsNonBlankString(Prop(step, "title"))
    ensures ValidateSteps([step], "unity") == Fail(UnsupportedAction("open_url", "unity", Prop(step, "id")))
  {
    assert "open_url" !in AllowedActions("unity");
    assert IsNonBlankString(Some(Str("open_url"))) by { assert !IsWhitespace("open_url"[0]); }
    assert ValidateBlueprintStep(step, "unity") == Fail(UnsupportedAction("open_url", "unity", Prop(step, "id")));
  }

  /** Once the blueprint's own fields pass, its verdict is that of its steps. */
  lemma BlueprintHeaderPasses(blueprint: Value)
    requires blueprint.Obj? && IsNonBlankString(Prop(blueprint, "schema_version"))
    requires IsNonBlankString(Prop(blueprint, "blueprint_id")) && IsNonBlankString(Prop(blueprint, "name"))
    requires IsTarget(Prop(blueprint, "target")) && IsObject(Prop(blueprint, "metadata_template"))
    requires ItemsOf(blueprint, "steps").Some?
    ensures ValidateBlueprint(blueprint) == ValidateSteps(ItemsOf(blueprint, "steps").value, Prop(blueprint, "target").value.s)
  {
  }

  // ---------------------------------------------------------------- matrices

  /** What an accepted matrix job looks like. */
  predicate JobShape(job: Value) {
    job.Obj? && IsNonBlankString(Prop(job, "job_id"))
    && IsNonBlankString(Prop(job, "profile_id")) && IsNonBlankString(Prop(job, "blueprint_id"))
  }

  /** `validateMatrixJob`. */
  function ValidateMatrixJob(job: Value): (r: Outcome)
    ensures r == Pass <==> JobShape(job)
  {
    var value := Some(job);
    :- EnsureObject(value, "matrix job");
    :- EnsureString(Prop(job, "job_id"), "job.job_id");
    :- EnsureString(Prop(job, "profile_id"), "job.profile_id");
    EnsureString(Prop(job, "blueprint_id"), "job.blueprint_id")
  }

  /** The `job_id` of a job, read once the job has passed `ValidateMatrixJob`. */
  function JobId(job: Value): string {
    match Prop(job, "job_id")
    case Some(Str(s)) => s
    case _ => ""
  }

  /** The job loop, with the ids already seen. */
  function CheckJobs(jobs: seq<Value>, seen: set<string>): Outcome
  {
    if jobs == [] then Pass
    else
      :- ValidateMatrixJob(jobs[0]);
      if JobId(jobs[0]) in seen then Fail(DuplicateJobId(JobId(jobs[0])))
      else CheckJobs(jobs[1..], seen + {JobId(jobs[0])})
  }

  /** `validateMatrix`, as a function of the matrix. */
  function MatrixVerdict(matrix: Value): Outcome {
    var value := Some(matrix);
    :- EnsureObject(value, "matrix");
    :- EnsureString(Prop(matrix, "schema_version"), "matrix.schema_version");
    :- EnsureString(Prop(matrix, "matrix_id"), "matrix.matrix_id");
    if ItemsOf(matrix, "jobs").None? then Fail(NoJobs)
    else CheckJobs(ItemsOf(matrix, "jobs").value, {})
  }

  /** `validateMatrix` as the source writes it: one pass over the jobs with a set of seen ids. */
  method ValidateMatrix(matrix: Value) returns (r: Outcome)
    ensures r == MatrixVerdict(matrix)
  {
    var head := EnsureObject(Some(matrix), "matrix");
    if head.Fail? { return head; }
    head := EnsureString(Prop(matrix, "schema_version"), "matrix.schema_version");
    if head.Fail? { return head; }
    head := EnsureString(Prop(matrix, "matrix_id"), "matrix.matrix_id");
    if head.Fail? { return head; }
    if ItemsOf(matrix, "jobs").None? {
      return Fail(NoJobs);
    }
    var jobs := ItemsOf(matrix, "jobs").value;
    var seen: set<string> := {};
    for i := 0 to |jobs|
      invariant CheckJobs(jobs, {}) == CheckJobs(jobs[i..], seen)
    {
      assert jobs[i..][1..] == jobs[i + 1..];
      var check := ValidateMatrixJob(jobs[i]);
      if check.Fail? {
        return check;
      }
      var id := JobId(jobs[i]);
      if id in seen {
        return Fail(DuplicateJobId(id));
      }
      seen := seen + {id};
    }
    return Pass;
  }

  predicate AllJobsValid(jobs: seq<Value>) {
    forall i :: 0 <= i < |jobs| ==> JobShape(jobs[i])
  }

  /** The ids of the jobs are pairwise distinct. */
  predicate DistinctIds(jobs: seq<Value>) {
    forall i, j :: 0 <= i < j < |jobs| ==> JobId(jobs[i]) != JobId(jobs[j])
  }

  lemma AllJobsValidCons(jobs: seq<Value>)
    requires jobs != [] && JobShape(jobs[0])
    ensures AllJobsValid(jobs) <==> AllJobsValid(jobs[1..])
  {
    if AllJobsValid(jobs[1..]) { AllJobsValidGrow(jobs); }
    if AllJobsValid(jobs) { AllJobsValidShrink(jobs); }
  }

  lemma AllJobsValidGrow(jobs: seq<Value>)
    requires jobs != [] && JobShape(jobs[0]) && AllJobsValid(jobs[1..])
    ensures AllJobsValid(jobs)
  {
    forall i | 0 <= i < |jobs| ensures JobShape(jobs[i]) {
      if i > 0 { assert jobs[i] == jobs[1..][i - 1]; }
    }
  }

  lemma AllJobsValidShrink(jobs: seq<Value>)
    requires jobs != [] && AllJobsValid(jobs)
    ensures AllJobsValid(jobs[1..])
  {
    forall i | 0 <= i < |jobs[1..]| ensures JobShape(jobs[1..][i]) {
      assert jobs[i + 1] == jobs[1..][i];
    }
  }

  /** No job's id is in `seen`. */
  predicate NoneSeen(jobs: seq<Value>, seen: set<string>) {
    forall i :: 0 <= i < |jobs| ==> JobId(jobs[i]) !in seen
  }

  /** The ids of the jobs. */
  function Ids(jobs: seq<Value>): set<string> {
    set i | 0 <= i < |jobs| :: JobId(jobs[i])
  }

  lemma NoneSeenCons(jobs: seq<Value>, seen: set<string>)
    requires jobs != []
    ensures NoneSeen(jobs, seen) <==> JobId(jobs[0]) !in seen && NoneSeen(jobs[1..], seen)
  {
    var tail := jobs[1..];
    assert forall i :: 0 <= i < |tail| ==> tail[i] == jobs[i + 1];
    if JobId(jobs[0]) !in seen && NoneSeen(tail, seen) {
      forall i | 0 <= i < |jobs| ensures JobId(jobs[i]) !in seen {
        if i > 0 { assert jobs[i] == tail[i - 1]; }
      }
    }
  }

  lemma NoneSeenUnion(jobs: seq<Value>, a: set<string>, b: set<string>)
    ensures NoneSeen(jobs, a + b) <==> NoneSeen(jobs, a) && NoneSeen(jobs, b)
  {
  }

  lemma IdsCons(jobs: seq<Value>)
    requires jobs != []
    ensures Ids(jobs) == {JobId(jobs[0])} + Ids(jobs[1..])
  {
    var tail := jobs[1..];
    forall x | x in Ids(jobs) ensures x in {JobId(jobs[0])} + Ids(tail) {
      var i :| 0 <= i < |jobs| && JobId(jobs[i]) == x;
      if i > 0 { assert jobs[i] == tail[i - 1]; }
    }
    forall x | x in Ids(tail) ensures x in Ids(jobs) {
      var i :| 0 <= i < |tail| && JobId(tail[i]) == x;
      assert tail[i] == jobs[i + 1];
    }
  }

  lemma DistinctCons(jobs: seq<Value>)
    requires jobs != []
    ensures DistinctIds(jobs) <==> DistinctIds(jobs[1..]) && NoneSeen(jobs[1..], {JobId(jobs[0])})
  {
    var tail := jobs[1..];
    assert forall i :: 0 <= i < |tail| ==> tail[i] == jobs[i + 1];
    if DistinctIds(tail) && NoneSeen(tail, {JobId(jobs[0])}) {
      forall i, j | 0 <= i < j < |jobs| ensures JobId(jobs[i]) != JobId(jobs[j]) {
        assert JobId(jobs[j]) == JobId(tail[j - 1]);
        if i > 0 { assert JobId(jobs[i]) == JobId(tail[i - 1]); }
      }
    }
  }

  /** The job loop passes iff every job is well formed, the ids are pairwise
      distinct and none was seen before. */
  lemma {:induction false} CheckJobsPasses(jobs: seq<Value>, seen: set<string>)
    ensures CheckJobs(jobs, seen) == Pass <==> AllJobsValid(jobs) && DistinctIds(jobs) && NoneSeen(jobs, seen)
  {
    if jobs != [] {
      var tail := jobs[1..];
      var id := JobId(jobs[0]);
      NoneSeenCons(jobs, seen);
      if JobShape(jobs[0]) && id !in seen {
        assert CheckJobs(jobs, seen) == CheckJobs(tail, seen + {id});
        CheckJobsPasses(tail, seen + {id});
        DistinctCons(jobs);
        AllJobsValidCons(jobs);
        NoneSeenUnion(tail, seen, {id});
      }
    }
  }

  /** An accepted matrix has jobs with pairwise distinct ids, and every matrix with such jobs is accepted. */
  lemma AcceptedMatrixHasDistinctIds(matrix: Value)
    ensures MatrixVerdict(matrix) == Pass <==>
      matrix.Obj? && IsNonBlankString(Prop(matrix, "schema_version")) && IsNonBlankString(Prop(matrix, "matrix_id"))
      && ItemsOf(matrix, "jobs").Some? && AllJobsValid(ItemsOf(matrix, "jobs").value) && DistinctIds(ItemsOf(matrix, "jobs").value)
  {
    if ItemsOf(matrix, "jobs").Some? {
      CheckJobsPasses(ItemsOf(matrix, "jobs").value, {});
    }
  }

  /** A matrix with an empty job list is rejected with the "at least one job" error. */
  lemma EmptyJobsRejected(matrix: Value)
    requires matrix.Obj? && IsNonBlankString(Prop(matrix, "schema_version")) && IsNonBlankString(Prop(matrix, "matrix_id"))
    requires Prop(matrix, "jobs") == Some(Arr([]))
    ensures MatrixVerdict(matrix) == Fail(NoJobs)
  {
  }

  /** A repeated id fails on its second occurrence, naming it, when every job up to it is
      well formed and the ids before it are distinct. */
  lemma FirstDuplicateNamed(jobs: seq<Value>, k: nat)
    requires k < |jobs| && AllJobsValid(jobs[..k + 1]) && DistinctIds(jobs[..k])
    requires JobId(jobs[k]) in Ids(jobs[..k])
    ensures CheckJobs(jobs, {}) == Fail(DuplicateJobId(JobId(jobs[k])))
  {
    forall i | 0 <= i <= k ensures JobShape(jobs[i]) {
      assert jobs[..k + 1][i] == jobs[i];
    }
    forall i, j | 0 <= i < j < k ensures JobId(jobs[i]) != JobId(jobs[j]) {
      assert jobs[..k][i] == jobs[i] && jobs[..k][j] == jobs[j];
    }
    var w :| 0 <= w < k && JobId(jobs[..k][w]) == JobId(jobs[k]);
    assert jobs[..k][w] == jobs[w];
    CheckJobsFrom(jobs, 0, k, {});
    assert jobs[0..] == jobs;
  }

  /** One turn of the job loop on a well-formed job. */
  lemma CheckJobsStep(jobs: seq<Value>, seen: set<string>)
    requires jobs != [] && JobShape(jobs[0])
    ensures CheckJobs(jobs, seen) ==
      if JobId(jobs[0]) in seen then Fail(DuplicateJobId(JobId(jobs[0])))
      else CheckJobs(jobs[1..], seen + {JobId(jobs[0])})
  {
  }

  /** The job loop from job `i` on fails at job `k` when the jobs before it are well formed,
      new and distinct, and job `k` repeats an id. */
  lemma {:induction false} CheckJobsFrom(jobs: seq<Value>, i: nat, k: nat, seen: set<string>)
    requires i <= k < |jobs|
    requires forall m :: i <= m <= k ==> JobShape(jobs[m])
    requires forall a, b :: i <= a < b < k ==> JobId(jobs[a]) != JobId(jobs[b])
    requires forall m :: i <= m < k ==> JobId(jobs[m]) !in seen
    requires JobId(jobs[k]) in seen || exists m :: i <= m < k && JobId(jobs[m]) == JobId(jobs[k])
    ensures CheckJobs(jobs[i..], seen) == Fail(DuplicateJobId(JobId(jobs[k])))
    decreases k - i
  {
    var rest := jobs[i..];
    assert rest[0] == jobs[i];
    assert rest[1..] == jobs[i + 1..];
    CheckJobsStep(rest, seen);
    if i < k {
      var seen' := seen + {JobId(jobs[i])};
      if JobId(jobs[k]) !in seen {
        var w :| i <= w < k && JobId(jobs[w]) == JobId(jobs[k]);
        assert w == i || (i + 1 <= w < k && JobId(jobs[w]) == JobId(jobs[k]));
      }
      CheckJobsFrom(jobs, i + 1, k, seen');
    }
  }
}
