# Portable automation compiler, modelled in Dafny

The portable automation compiler turns a *matrix* of jobs into compiled scenario records. Each job names a
*profile* (a target machine: `web` or `unity`, its versions and capabilities) and a *blueprint* (an ordered
list of steps with templated parameters). The compiler then builds the *run plan* that drives the external
scenario runner. This project models its core and proves properties of that model:

- `conditions.cjs` — dotted path lookup that keeps an absent value apart from an explicit `null`, version
  coercion and comparison, and the boolean condition grammar (`all`, `any`, `not`, `capability`,
  `equals`, `exists`, `version_gte`/`gt`/`lte`/`lt`);
- `compiler.cjs` — id sanitising, `{{ path }}` interpolation, `$ref`/`$template` template resolution,
  ordered capability derivation, per-job compilation and matrix assembly;
- `contracts.cjs` — the structural validators for profiles, blueprints and matrices, and the action lists
  of each target;
- `runner.cjs` — the run plan, the runner invocation, and the dry-run or sequential execution of the plan;
- `cli.cjs` — the argument parser, option coercion, the profile scaffold, the job filter, and keyed
  loading of documents.

Files:

- `text.dfy` (module `Text`) and `json.dfy` (module `Json`) model the JavaScript primitives the code
  relies on:
  - `trim`, `split`/`join` and `toLowerCase`;
  - JSON values, with objects as entry lists in insertion order (JavaScript's order for keys that are not integer-like);
  - property read and write, object spread, truthiness, `===` and `String(...)`;
  - `Array.prototype.map` over a callback that may throw.
- `conditions.dfy`, `compiler.dfy`, `contracts.dfy`, `runner.dfy` and `cli.dfy` follow the five source
  files.

A thrown `Error` is an `Err` of the `Error` datatype. The constructor names what the message names: the
path, the job id, the offending action, both filters, and so on. `undefined` is `None`.

The imperative parts are written as Dafny methods with loops, each proved equal to a specification
function about which the properties are proved:

- `GetPathValue`, the cursor loop;
- `CreateCapabilities`, the loop growing `fromRules`;
- `CompileJob`, the loop pushing steps;
- `ValidateMatrix`, the loop over jobs with the `seen` set;
- `ParseCliArgs`, the index loop filling `parsed`;
- `ScaffoldProfileTemplate`, which reassigns fields of `base`;
- `LoadJsonFilesByKey`, the loop filling `map`;
- `RunCompiledJobs`, the sequential `executeCommand` loop.

The command executor is a class, `Runner.CommandRunner`. It records the commands it has run, and a given
function decides each command's exit code.

## Model

| member | source | states |
|---|---|---|
| Text.Trim | automation/portable/lib/contracts.cjs:54 | `trim()` leaves no whitespace at either end, and the result is empty iff the string is all whitespace |
| Text.TrimPadded | automation/portable/cli.cjs:250 | trimming removes exactly the whitespace padding around a word that starts and ends with a non-space |
| Text.JoinSplit | automation/portable/cli.cjs:9 | `s.split(sep).join(sep)` gives back `s` |
| Text.SplitJoinReplaces | automation/portable/cli.cjs:9 | `s.split(sep).join(repl)` has the same length as `s` and replaces exactly the occurrences of `sep` |
| Text.Lower | automation/portable/lib/compiler.cjs:13 | the result has the input's length and each character is the ASCII lower-case form of the input's character at that position |
| Json.Put | automation/portable/cli.cjs:46 | `obj[k] = v`: reads `v` back at `k`; every other key is unchanged; an existing key keeps its place and a new key goes last, which is JavaScript's order for keys that are not integer-like; distinct keys stay distinct |
| Json.MergeGet | automation/portable/lib/compiler.cjs:85-88 | in `{...a, ...b}` a key of `b` always wins and every other key keeps its value from `a` |
| Json.AllOk | automation/portable/lib/compiler.cjs:180-205 | `map` with a callback that may throw succeeds iff every element does, and then holds every result in order; otherwise it gives the error of the first element that throws |
| Json.AllOkFirstError | automation/portable/lib/compiler.cjs:180-205 | the first element that throws decides the error |
| Json.StrictEqualsSame | automation/portable/lib/conditions.cjs:72 | strictly equal operands are the same value |
| Conditions.GetPath | automation/portable/lib/conditions.cjs:5-19 | the lookup throws iff the path is not a non-blank string |
| Conditions.GetPathValue | automation/portable/lib/conditions.cjs:10-18 | the cursor loop over the segments computes `GetPath` |
| Conditions.GetPathCompose | automation/portable/lib/conditions.cjs:10-18 | the value at `a.b` is the value at `b` inside the value at `a`, and is absent when there is nothing at `a` |
| Conditions.GetPathSingle | automation/portable/lib/conditions.cjs:12-16 | a path without dots reads one own property of an object, or an index or the `length` of an array; anything else gives absent |
| Conditions.NullLeafKept | automation/portable/lib/conditions.cjs:13-18 | an explicit `null` leaf is returned as `null`, and every path below it is absent |
| Conditions.Coerce | automation/portable/lib/conditions.cjs:27 | coercion finds no version iff the text has no digit |
| Conditions.NormalizeVersion | automation/portable/lib/conditions.cjs:21-32 | a non-string or blank input has no version; otherwise the version is that of the trimmed text |
| Conditions.CoerceRendered | automation/portable/lib/conditions.cjs:27-31 | coercing the text `major.minor.patch` of a version gives back that version |
| Conditions.NormalizeRendered | automation/portable/lib/conditions.cjs:21-32 | a version's text with whitespace padding on both sides normalises to that version |
| Conditions.CompareTriples | automation/portable/lib/conditions.cjs:40 | the comparison is -1, 0 or 1; it is -1 iff the left version is numerically smaller in major.minor.patch order, 1 iff it is larger, and 0 iff they are equal |
| Conditions.CompareVersions | automation/portable/lib/conditions.cjs:34-41 | the comparison throws, naming both sides, iff either side fails to normalise; otherwise it is the numeric comparison of the two versions |
| Conditions.CompareVersionsAntisymmetric | automation/portable/lib/conditions.cjs:34-41 | swapping the operands negates the result, and a version compared with itself gives 0 |
| Conditions.Evaluate | automation/portable/lib/conditions.cjs:44-46 | an absent condition holds |
| Conditions.EvalScalars | automation/portable/lib/conditions.cjs:44-55 | every falsy condition holds, literal `false` included; `true` holds; an array throws "not an array"; any other non-object throws "must be an object" |
| Conditions.EvalAllEvery | automation/portable/lib/conditions.cjs:57-59 | `all` is true iff every item is true; otherwise its result is that of the first item that is not true, so a later item's error is never reached |
| Conditions.EvalAnySome | automation/portable/lib/conditions.cjs:60-62 | `any` is false iff every item is false; otherwise its result is that of the first item that is not false |
| Conditions.EmptyCombinators | automation/portable/lib/conditions.cjs:57-62 | `all: []` is true whatever else the object holds, and `any: []` is false when there is no `all` |
| Conditions.LeafShapes | automation/portable/lib/conditions.cjs:57-66 | the leaf shapes are tried whenever neither `all` nor `any` is an array and there is no `not` key; an `all` or `any` of another type does not stop them |
| Conditions.NotNegates | automation/portable/lib/conditions.cjs:63-65 | `not` negates its operand, and `not: null` is false because `null` holds |
| Conditions.NotShape | automation/portable/lib/conditions.cjs:57-65 | an object with `not`, where neither `all` nor `any` is an array, gives the negation of its operand, or the operand's error |
| Conditions.CapabilityAtPath | automation/portable/lib/conditions.cjs:66-69 | `capability: n` reads the path `capabilities.n` and holds iff the value there is exactly `true`; an error in reading the path is passed on |
| Conditions.EqualsAtPath | automation/portable/lib/conditions.cjs:70-73 | `equals` with any path holds iff the value at the path is strictly equal to the literal; an error in reading the path is passed on |
| Conditions.ExistsAtPath | automation/portable/lib/conditions.cjs:74-81 | `exists` with any non-empty path holds iff a value, `null` included, is present at the path |
| Conditions.VersionAtPath | automation/portable/lib/conditions.cjs:82-97 | a version test with any path compares the value at the path with the literal and accepts by the operator's sign test; path and version errors are passed on |
| Conditions.CapabilityExactlyTrue | automation/portable/lib/conditions.cjs:66-69 | `capability: n` holds iff the capability `n` is exactly `true`; absent, `false` or any other value gives false |
| Conditions.CapabilityPath | automation/portable/lib/conditions.cjs:67 | `capabilities.n` reads the entry `n` of the context's `capabilities` object |
| Conditions.EqualsIsStrict | automation/portable/lib/conditions.cjs:70-73 | `equals` is strict equality of the value at the path with the literal: the number 1 does not equal the string "1" |
| Conditions.ExistsTellsNullFromAbsent | automation/portable/lib/conditions.cjs:74-81 | `exists` is true iff the property is present, so an explicit `null` exists |
| Conditions.VersionCompares | automation/portable/lib/conditions.cjs:82-97 | `version_gte`, `version_gt`, `version_lte` and `version_lt` hold iff the comparison of the value at the path with the literal is at least 0, positive, at most 0 or negative; versions that do not normalise throw |
| Conditions.VersionDispatch | automation/portable/lib/conditions.cjs:82-97 | a condition holding one version key runs that key's test |
| Conditions.UnrecognisedIsUnsupported | automation/portable/lib/conditions.cjs:99 | an object with no key the grammar knows throws "unsupported condition", naming the object |
| Compiler.DashWhitespace | automation/portable/lib/compiler.cjs:14 | no whitespace is left, and text without whitespace is unchanged |
| Compiler.MaskDisallowed | automation/portable/lib/compiler.cjs:15 | every character is in `[a-z0-9-_]` afterwards, the length is kept, and text already in that set is unchanged |
| Compiler.CollapseHyphens | automation/portable/lib/compiler.cjs:16 | no two hyphens are adjacent afterwards, no character is introduced, the first and last characters are kept, and text without a hyphen run is unchanged |
| Compiler.TrimHyphens | automation/portable/lib/compiler.cjs:17 | after collapsing, neither end is a hyphen; text without hyphen ends is unchanged |
| Compiler.SanitizeId | automation/portable/lib/compiler.cjs:11-18 | a sanitised id holds only `[a-z0-9-_]`, has no two adjacent hyphens and no hyphen at either end |
| Compiler.SanitizeIdFixesCleanIds | automation/portable/lib/compiler.cjs:11-18 | a clean id is left as it is, so sanitising is idempotent |
| Compiler.TokenAt | automation/portable/lib/compiler.cjs:24 | a recognised token starts with `{`, spans at least five characters and names a non-empty path of path characters |
| Compiler.TokenRecognised | automation/portable/lib/compiler.cjs:24 | `{{`, optional whitespace, a path, optional whitespace and `}}` are recognised as one token naming that path |
| Compiler.InterpolateNoTokens | automation/portable/lib/compiler.cjs:20-32 | a string in which no token starts comes back unchanged |
| Compiler.InterpolateReplaces | automation/portable/lib/compiler.cjs:25-31 | where a token starts, the text of its value is written and interpolation resumes after the token; an absent or `null` value throws a missing reference naming the path |
| Compiler.InterpolateToken | automation/portable/lib/compiler.cjs:25-31 | literal text, a token and the rest of the template give the literal, the value's text and the interpolated rest; the value's text is not scanned again |
| Compiler.InterpolateLiteralPrefix | automation/portable/lib/compiler.cjs:25 | literal text without `{` is copied in front of the interpolated rest |
| Compiler.InterpolateWholeToken | automation/portable/lib/compiler.cjs:25-31 | a template that is one token interpolates to the text of the value it names, or throws a missing reference |
| Compiler.InterpolateText | automation/portable/lib/compiler.cjs:21-23 | a non-string template is returned as it is; a string template gives a string |
| Compiler.InterpolateValue | automation/portable/lib/compiler.cjs:21-23 | an absent template stays absent |
| Compiler.Resolve | automation/portable/lib/compiler.cjs:34-59 | resolving keeps the shape of a template: `null`, booleans and numbers are unchanged, arrays keep their length, strings stay strings, and plain objects keep their keys in order |
| Compiler.ResolveItems | automation/portable/lib/compiler.cjs:36 | every array element is resolved, in order |
| Compiler.ResolveFields | automation/portable/lib/compiler.cjs:52-56 | every entry's value is resolved and every key is kept in its place |
| Compiler.RefSplicesRawValue | automation/portable/lib/compiler.cjs:42-48 | a string `$ref` splices in the raw value it names, takes precedence over `$template` and drops every other key; an absent or `null` value throws a missing reference |
| Compiler.RuleName | automation/portable/lib/compiler.cjs:68-73 | a rule is applied only when it is an object with a non-blank string `capability` |
| Compiler.BaseContext | automation/portable/lib/compiler.cjs:98-103 | the base context holds `matrix`, `job`, `profile` and `blueprint`, and neither `capabilities` nor `scenario` |
| Compiler.WithCapabilities | automation/portable/lib/compiler.cjs:74-79 | a rule's context is the base context with `capabilities` set to what was derived so far |
| Compiler.CreateCapabilities | automation/portable/lib/compiler.cjs:61-89 | the loop over the rules computes `Capabilities`: the derived capabilities overlaid with the profile's own, or the error of the first condition that throws |
| Compiler.CapabilitiesOfRules | automation/portable/lib/compiler.cjs:85-88 | the result is the rule loop's error, or what the rules derived overlaid with `profile.capabilities` |
| Compiler.DeriveRulesStopsAtError | automation/portable/lib/compiler.cjs:67-83 | a rule whose condition throws ends the whole loop with that error |
| Compiler.DeriveRulesDerived | automation/portable/lib/compiler.cjs:80-82 | rules only ever set values to `true`, at most once per capability, and only for a capability some rule names |
| Compiler.DeriveRulesStep | automation/portable/lib/compiler.cjs:67-83 | one more rule extends the loop by one application of that rule to the capabilities derived so far, so every rule sees all earlier rules' results |
| Compiler.RulesSeeEarlierRules | automation/portable/lib/compiler.cjs:74-79 | a later rule is evaluated with the capability an earlier rule derived: the rules run in order |
| Compiler.ProfileCapabilitiesWin | automation/portable/lib/compiler.cjs:85-88 | a capability set in the profile overrides the derived one; every other derived capability is kept |
| Compiler.NoRulesNoDerivedCapabilities | automation/portable/lib/compiler.cjs:176 | with the default empty rules document, the capabilities are exactly the profile's own |
| Compiler.DescriptionOf | automation/portable/lib/compiler.cjs:119-122 | a step without `description` gets `""` |
| Compiler.CompileStep | automation/portable/lib/compiler.cjs:115-125 | a kept step copies its action, holds its resolved `params_template`, has an id iff the blueprint step has one, and fails with the parameters' error first |
| Compiler.CompiledStepsAreKeptSteps | automation/portable/lib/compiler.cjs:111-126 | the compiled steps are exactly the steps whose `when` holds, each compiled, in blueprint order |
| Compiler.UnconditionalStepsKept | automation/portable/lib/compiler.cjs:112 | steps without a `when` are all kept |
| Compiler.CompileStepsStopsAtError | automation/portable/lib/compiler.cjs:111-126 | a step whose condition or template throws ends the loop with that error |
| Compiler.ScenarioId | automation/portable/lib/compiler.cjs:128-132 | without a truthy template the id is the sanitised `<blueprint_id>-<profile_id>`; a string template gives the sanitised interpolation or its error; any other truthy template gives its sanitised text; the id is always clean |
| Compiler.ScenarioIdFromTemplate | automation/portable/lib/compiler.cjs:128-132 | the template `unity-{{profile.profile_id}}` with profile id `alice-pc` gives the id `unity-alice-pc` |
| Compiler.AssembleJob | automation/portable/lib/compiler.cjs:128-169 | the record has schema `1.0.0`, a clean scenario id, the compiled steps and capabilities, and the job, profile and blueprint ids and target copied; the scenario id, name, scenario path, output directory, markdown path and metadata are each what its own computation gives in the job context |
| Compiler.JobContext | automation/portable/lib/compiler.cjs:105-108 | the job context adds `capabilities` to the base context and has no `scenario` |
| Compiler.CompileJobSpec | automation/portable/lib/compiler.cjs:91-170 | a target mismatch throws before anything else, naming the job and both targets; a compiled job has a clean scenario id, the job's id, the shared target, the derived capabilities, and at most as many steps as the blueprint |
| Compiler.CompileJob | automation/portable/lib/compiler.cjs:91-170 | the step-pushing loop computes `CompileJobSpec` |
| Compiler.CompiledJobFields | automation/portable/lib/compiler.cjs:104-169 | a compiled job's scenario id, name, scenario path, output directory and markdown path are those computed in the context of its own capabilities |
| Compiler.CompiledJobDefaults | automation/portable/lib/compiler.cjs:128-152 | a job with no id, path, output or markdown template gets the id sanitised from `<blueprint_id>-<profile_id>`, the path `automation/scenarios/generated/<id>.scenario.json`, the output directory `artifacts/<id>` and the markdown path `docs/controls/auto-<id>.md` |
| Compiler.CompileJobAfterCapabilities | automation/portable/lib/compiler.cjs:104-170 | after the target check and the capabilities, a job is its step loop followed by the scenario record |
| Compiler.DefaultScenarioPathUntouched | automation/portable/lib/compiler.cjs:137-144 | without a template the scenario path is `automation/scenarios/generated/<id>.scenario.json` |
| Compiler.DefaultOutputDir | automation/portable/lib/compiler.cjs:146-148 | without a template the output directory is `artifacts/<id>` |
| Compiler.ScenarioPathSeesScenario | automation/portable/lib/compiler.cjs:137-144 | `{{scenario.id}}` in the scenario path template reads the scenario id |
| Compiler.DefaultMarkdownPath | automation/portable/lib/compiler.cjs:149-152 | without a template the markdown path is `docs/controls/auto-<id>.md` |
| Compiler.OutputDirCannotSeeScenario | automation/portable/lib/compiler.cjs:146-148 | `{{scenario.id}}` in the output directory template is a missing reference, because the job context has no `scenario` |
| Compiler.MarkdownPathCannotSeeScenario | automation/portable/lib/compiler.cjs:149-151 | `{{scenario.id}}` in the markdown path template is a missing reference, because the job context has no `scenario` |
| Compiler.TwoSegmentTokenFound | automation/portable/lib/compiler.cjs:25-31 | `{{a.b}}` is replaced by the text of `b` inside the object under `a` |
| Compiler.TwoSegmentTokenAbsent | automation/portable/lib/compiler.cjs:26-29 | `{{a.b}}` with nothing under `a` throws a missing reference naming `a.b` |
| Compiler.CompileMatrixJob | automation/portable/lib/compiler.cjs:180-205 | a missing profile is reported before a missing blueprint, both naming the job; a compiled job had a valid profile and blueprint, and keeps the job's id |
| Compiler.CompileJobs | automation/portable/lib/compiler.cjs:180-205 | the compiled jobs are one per matrix job, in order |
| Compiler.JobResults | automation/portable/lib/compiler.cjs:180-205 | each matrix job's compilation result, in order |
| Compiler.CompileMatrix | automation/portable/lib/compiler.cjs:172-212 | a matrix that fails validation throws that error before any job compiles; the result has the matrix id, the given timestamp and one job per matrix job, the i-th being the i-th matrix job compiled with the given capability rules or, when none are given, the empty rules document; a validated matrix fails exactly when one of its jobs fails, with that job's error |
| Compiler.CompileJobsFirstError | automation/portable/lib/compiler.cjs:180-205 | the first job that fails to compile decides the error |
| Compiler.CompileJobsKeepIds | automation/portable/lib/compiler.cjs:154 | every compiled job carries its matrix job's id |
| Compiler.CompiledJobIds | automation/portable/lib/compiler.cjs:172-212 | the compiled jobs keep the matrix's job ids, in order, and so are pairwise distinct |
| Compiler.AcceptedJobIdsDiffer | automation/portable/lib/contracts.cjs:139-146 | the jobs of an accepted matrix have pairwise different ids |
| Compiler.MissingProfileReported | automation/portable/lib/compiler.cjs:184-188 | a job whose profile was not loaded throws naming that profile and job, once every earlier job compiled |
| Contracts.ActionListsDiffer | automation/portable/lib/contracts.cjs:3-45 | the web list is the unity list without `open_menu`, `menu` and `select_hierarchy`, plus `open_url` |
| Contracts.AllowedActions | automation/portable/lib/contracts.cjs:100 | a step is checked against the web list iff its target is `web` |
| Contracts.EnsureObject | automation/portable/lib/contracts.cjs:47-51 | passes iff the value is present, not `null`, an object and not an array; the error names the field |
| Contracts.EnsureString | automation/portable/lib/contracts.cjs:53-57 | passes iff the value is a string that does not trim to nothing |
| Contracts.EnsureTarget | automation/portable/lib/contracts.cjs:59-63 | passes iff the value is the string `web` or `unity` |
| Contracts.OptionalObject | automation/portable/lib/contracts.cjs:72-80 | an absent value passes; a present one must be an object |
| Contracts.OptionalString | automation/portable/lib/contracts.cjs:85-90 | an absent value passes; a present one must be a non-blank string |
| Contracts.ValidateProfile | automation/portable/lib/contracts.cjs:65-81 | accepts iff the schema version, id and name are non-blank strings, the target is web or unity, and `versions`, `capabilities` and `anchors` are each absent or an object |
| Contracts.ValidateBlueprintStep | automation/portable/lib/contracts.cjs:83-107 | accepts iff `id` and `title` are absent or non-blank, and either `step_template` is an object or the step has a non-blank action from its target's list and an object `params_template`; a listed action missing from the list is reported with the action, target and step id |
| Contracts.ValidateSteps | automation/portable/lib/contracts.cjs:120 | the steps pass iff every step passes against the blueprint's target |
| Contracts.ItemsOf | automation/portable/lib/contracts.cjs:117-119 | the items are given exactly when the property is a non-empty array, and they are that array's items; this is the `steps` test of `validateBlueprint` and the `jobs` test of `validateMatrix` |
| Contracts.ValidateBlueprint | automation/portable/lib/contracts.cjs:109-121 | accepts iff the header fields are well formed, `metadata_template` is an object, and `steps` is a non-empty array each of whose steps passes against the blueprint's own target |
| Contracts.OpenUrlRejectedOnUnity | automation/portable/lib/contracts.cjs:100-105 | an otherwise well-formed unity blueprint with an `open_url` step throws the unsupported-action error for `open_url` on `unity` at that step |
| Contracts.BlueprintHeaderPasses | automation/portable/lib/contracts.cjs:109-121 | once the header passes, the blueprint's verdict is that of its steps |
| Contracts.ValidateMatrixJob | automation/portable/lib/contracts.cjs:123-128 | accepts iff the job is an object with non-blank `job_id`, `profile_id` and `blueprint_id` |
| Contracts.ValidateMatrix | automation/portable/lib/contracts.cjs:130-147 | the loop over the jobs with the `seen` set computes the matrix verdict |
| Contracts.CheckJobsPasses | automation/portable/lib/contracts.cjs:139-146 | the job loop passes iff every job is well formed, the ids are pairwise distinct, and none was seen before |
| Contracts.AcceptedMatrixHasDistinctIds | automation/portable/lib/contracts.cjs:130-147 | a matrix is accepted iff its header is well formed, its jobs form a non-empty array of well-formed jobs, and their ids are pairwise distinct |
| Contracts.EmptyJobsRejected | automation/portable/lib/contracts.cjs:135-137 | an empty job list throws "must contain at least one job" |
| Contracts.FirstDuplicateNamed | automation/portable/lib/contracts.cjs:142-144 | the first repeated id throws, naming that id |
| Runner.VideoFlag | automation/portable/lib/runner.cjs:11 | the flag is `"false"` only when `recordVideo` is false, and `"true"` otherwise, absence included |
| Runner.EntryOf | automation/portable/lib/runner.cjs:12-25 | an entry copies the job id and has nine arguments, with the job's paths after their option names and the flag last; a `null` job throws |
| Runner.BuildRunPlan | automation/portable/lib/runner.cjs:6-26 | the plan throws unless `compiledMatrix.jobs` is an array, and throws reading `job_id` when a job is `null`; otherwise it has one entry per job, in order |
| Runner.PlanLayout | automation/portable/lib/runner.cjs:12-25 | every entry is exactly `["run-scenario","--scenario",p,"--output",o,"--markdown",m,"--record-video",f]` |
| Runner.BuildStudioInvocation | automation/portable/lib/runner.cjs:28-42 | the interpreter runs the runner's entry point followed by the plan's arguments |
| Runner.CliPathText | automation/portable/lib/runner.cjs:29-37 | the entry point is `<cwd>/node_modules/@metyatech/automation-scenario-studio/dist/src/cli.js` |
| Runner.FirstFailure | automation/portable/lib/runner.cjs:84-86 | locates the first command with a non-zero exit code, with only successes before it |
| Runner.Executed | automation/portable/lib/runner.cjs:84-86 | the commands run are a prefix of the plan |
| Runner.RunResult | automation/portable/lib/runner.cjs:84-87 | the run returns the plan iff no command fails |
| Runner.CommandRunner.Execute | automation/portable/lib/runner.cjs:85 | records the entry and reports the failure of a non-zero exit code, naming the job |
| Runner.ExecutePlan | automation/portable/lib/runner.cjs:84-87 | the loop runs the commands in plan order, up to and including the first failure, and returns the plan or that failure |
| Runner.RunCompiledJobs | automation/portable/lib/runner.cjs:68-88 | a dry run, or a plan that throws, returns the plan without running any command; otherwise the commands run in plan order and the plan is returned when all succeed |
| Runner.AllSucceedRunsWholePlan | automation/portable/lib/runner.cjs:84-87 | when every command succeeds, each entry runs exactly once, in plan order, and the plan is returned |
| Runner.FailureStopsTheRun | automation/portable/lib/runner.cjs:84-86 | after a failure nothing more runs: the failing command is the last one run, and its failure is the result |
| Cli.ToPosixPath | automation/portable/cli.cjs:8-10 | every separator is replaced by `/` and every other character is kept |
| Cli.PosixPathHasNoSeparator | automation/portable/cli.cjs:8-10 | no separator is left, and on a platform whose separator is `/` the path is unchanged |
| Cli.ParseCliArgs | automation/portable/cli.cjs:213-233 | the index loop computes `ParseArgs` |
| Cli.CommandIsFirstToken | automation/portable/cli.cjs:214-217 | when no later token is `--command`, the first token is the command, whatever it looks like; a `--command` option would overwrite it |
| Cli.OptionTakesValue | automation/portable/cli.cjs:223-230 | `--key value` stores the value and the value token is consumed |
| Cli.OptionIsFlag | automation/portable/cli.cjs:224-228 | `--key` followed by nothing, an empty token or another option stores `true` |
| Cli.StrayTokensIgnored | automation/portable/cli.cjs:220-222 | non-option tokens in front of the first option are skipped (a non-option token straight after an option is that option's value) |
| Cli.ParsedOptionValues | automation/portable/cli.cjs:223-230 | every key but `command` holds `true` or a string that is neither empty nor an option token |
| Cli.ParsedKeysAreNamed | automation/portable/cli.cjs:223 | every key except `command` comes from some `--key` token |
| Cli.KeepsAbsentKey | automation/portable/cli.cjs:218-231 | a key that no `--key` token names keeps its entry |
| Cli.SingleOption | automation/portable/cli.cjs:213-233 | `cmd --key value` stores the value and `cmd --key` stores `true` |
| Cli.LaterOptionWins | automation/portable/cli.cjs:229 | a later occurrence of an option overwrites an earlier one |
| Cli.RequireOption | automation/portable/cli.cjs:235-241 | returns the value iff it is a non-blank string; otherwise throws `--<name> is required.` |
| Cli.RequiredOptionNeedsValue | automation/portable/cli.cjs:235-241 | a bare `--name` does not satisfy a required option, and `--name value` does |
| Cli.ParseBoolOption | automation/portable/cli.cjs:243-258 | an absent value gives the fallback and a boolean gives itself; any other value is true or false exactly when its trimmed, lower-cased text is `true` or `false`, and otherwise throws, naming the value |
| Cli.BoolOptionText | automation/portable/cli.cjs:250-256 | surrounding whitespace and letter case do not matter for `true` and `false` |
| Cli.BareFlagIsTrue | automation/portable/cli.cjs:224-258 | a bare `--flag` reads as `true`, whatever the fallback |
| Cli.ScaffoldProfileTemplate | automation/portable/cli.cjs:52-96 | a target other than unity or web throws; otherwise the scaffold echoes id, name and target with schema `1.0.0`, has the skeleton's keys followed by `unity`, or `web` and `selectors`, keeps the skeleton's `versions` (`unity` and `vrchat_sdk` both empty), empty `capabilities` and empty `variables`, holds the target's blocks, and is accepted by the profile validator when id and name are non-blank |
| Cli.ScaffoldValid | automation/portable/cli.cjs:52-96 | a scaffold with a non-blank id and name passes `validateProfile` |
| Cli.UnityScaffold | automation/portable/cli.cjs:71-84 | the unity branch adds the `unity` block and replaces `anchors` with the sample anchor, leaving the header, `versions`, `capabilities` and `variables` as the skeleton has them |
| Cli.WebScaffold | automation/portable/cli.cjs:85-93 | the web branch adds the `web` and `selectors` blocks and keeps `anchors` empty, leaving the header, `versions`, `capabilities` and `variables` as the skeleton has them |
| Cli.Selection | automation/portable/cli.cjs:137-145 | a job is kept iff each truthy filter strictly equals the job's own job or profile id |
| Cli.SelectionAppend | automation/portable/cli.cjs:137-145 | the filter keeps order |
| Cli.NoFilterKeepsAll | automation/portable/cli.cjs:137-145 | without filters every job is kept |
| Cli.FilterText | automation/portable/cli.cjs:149-151 | a filter that is not set is shown as `any` |
| Cli.FilterJobs | automation/portable/cli.cjs:137-153 | the filter succeeds iff some job is selected, and then gives the selection; otherwise it throws "no jobs matched filters" naming both filters |
| Cli.FilterByJobId | automation/portable/cli.cjs:138-140 | filtering by a non-empty job id keeps exactly the jobs that carry that id (an empty id is falsy and filters nothing) |
| Cli.Matching | automation/portable/cli.cjs:31-36 | only files whose name ends with the suffix are read |
| Cli.DocumentKey | automation/portable/cli.cjs:39-42 | a document's key is its `keyField` property when that is a non-blank string |
| Cli.AdmitKeepsFiled | automation/portable/cli.cjs:39-46 | on a map where every entry is filed under its document's key, an admitted document is appended and the map stays filed, and a document is a duplicate exactly when its key is already in the map |
| Cli.Admit | automation/portable/cli.cjs:30-47 | one entry: skipped unless it is a matching file; then a `null` document throws, a missing key throws naming the file, a key already filed (a truthy entry) throws a duplicate, and otherwise the document is filed under its key |
| Cli.LoadJsonFilesByKey | automation/portable/cli.cjs:22-50 | the loop filling the map computes `LoadByKey` and stops at the first bad document |
| Cli.LoadedByKey | automation/portable/cli.cjs:22-50 | a successful load has exactly one entry per matching document, each document under its own key, and no key twice |
| Cli.DuplicateRejected | automation/portable/cli.cjs:39-45 | two matching documents with the same key, or both without one, make the load throw |
| Cli.LoadByKeyIgnoresOthers | automation/portable/cli.cjs:31-36 | directories and files with another suffix play no part in the result |
| Cli.FiledPut | automation/portable/cli.cjs:46 | filing a document under its own new key appends it and keeps every document under its own key |

## Left out

- File and process I/O are not modelled:
  - `readJsonFile`, `writeJsonFile` and `fs.readdir`;
  - the `runCli` console dispatch;
  - the scenario and manifest writes of `compileFromFiles`, with its `path.resolve`/`path.basename`/`path.relative` calls.

  `LoadJsonFilesByKey` takes the directory entries with their parsed documents as input.
- `spawnStudioCommand` (child process, exit event) is outside the model. `executeCommand` is the `CommandRunner` class, whose exit code for each entry is a given function, and a rejected promise is an `Err`.
- The clock. `generated_at` is a parameter (`generatedAt`) of `CompileMatrix`, not `new Date().toISOString()`.
- `String(number)` is JavaScript's shortest round-trip float formatting, so it is a parameter `fmt: NumFormat`. Numbers are `real`.
- `path.join` is modelled as joining the non-empty segments with `/`, without normalising `.`, `..` or repeated separators. The platform separator of `toPosixPath` is a parameter.
- `semver.coerce` is simplified: the first run of digits is the major part, then up to two `.digits` parts, and missing parts are 0. Its 16-digit limit per part and `MAX_SAFE_INTEGER` check are left out, as is the prerelease part of `semver.compare`, which coerced versions never have.
- Conditions.NormalizeVersion, Conditions.CompareVersions: because of the coercion simplification above, their contracts follow the simplified coercion rather than the library's.
- Text.Lower: only ASCII letters are lowered, because Unicode case mappings are not modelled.
- Json.Put: JavaScript lists integer-like keys (`"0"`, `"42"`) first, in ascending numeric order. The model keeps every key in insertion order, so key order differs for integer-like keys, such as a numeric capability or rule name.
- Json.StrictEquals: reference identity is not modelled, so two arrays or two objects always compare unequal. In the source `===` is true when a path leads back to the very object given as the literal.
- Property reads see only an object's own entries, and arrays only their index and `length` keys. Prototype members such as `"toString" in {}` and `__proto__` assignment are not modelled, and neither are string indexing or a string's `length`.
- Compiler.CompileJobSpec, Compiler.CompileJob: both require the blueprint's `steps` to be a non-empty array. `compileJob` is only reached after `validateBlueprint` has passed (compiler.cjs:196), and `CompileMatrixJob` discharges the requirement.
- Cli.ParseCliArgs: with an empty `argv` the source stores `command: undefined`, an own key with an undefined value. The model leaves the key out. Both read back as `undefined`.
- `compileFromFiles` is modelled only in its filter step (`FilterJobs`). Its use of `compileMatrix` is the model's `CompileMatrix`.
- Behaviour described only by the test files, not by the code, is not modelled. It includes the `step_template` compilation, action aliases, `kind`/`target`/`timing` fields and schema `2.0.0`. The compiled steps are `{id, title, description, action, params}` with schema `1.0.0`, as compiler.cjs:115-125 and 162 write them.
- `evaluateCondition(false)` returns `true`: the falsy test at conditions.cjs:44-46 comes before the boolean test at 47-49. The model follows the code (`Conditions.EvalScalars`).
