/** The command-line front end: argument parsing, option coercion, the profile scaffold,
    the job filter and the loading of documents keyed by their id. */
module Cli {
  import opened Text
  import opened Json
  import opened Contracts
  import opened Compiler

  // ------------------------------------------------------------- toPosixPath

  /** `inputPath.split(sep).join("/")` for the platform separator `sep`. */
  function ToPosixPath(inputPath: string, sep: char): (r: string)
    ensures |r| == |inputPath|
    ensures forall i :: 0 <= i < |inputPath| ==> r[i] == if inputPath[i] == sep then '/' else inputPath[i]
  {
    SplitJoinReplaces(inputPath, sep, '/');
    Join(Split(inputPath, sep), '/')
  }

  /** No separator is left, and on a POSIX platform the path is unchanged. */
  lemma PosixPathHasNoSeparator(inputPath: string, sep: char)
    ensures sep != '/' ==> sep !in ToPosixPath(inputPath, sep)
    ensures ToPosixPath(inputPath, '/') == inputPath
  {
    JoinSplit(inputPath, '/');
    var r := ToPosixPath(inputPath, sep);
    assert forall i :: 0 <= i < |r| ==> r[i] == if inputPath[i] == sep then '/' else inputPath[i];
  }

  // ------------------------------------------------------------- parseCliArgs

  /** The parsed arguments start as `{command}`; with no arguments at all the command is absent. */
  function InitialParsed(argv: seq<string>): seq<Field> {
    if argv == [] then [] else [Field("command", Str(argv[0]))]
  }

  /** A token names an option when it starts with `--`. */
  predicate IsOptionToken(token: string) {
    StartsWith(token, "--")
  }

  /** A token after an option is its value unless it is empty or itself an option. */
  predicate IsValueToken(token: string) {
    token != "" && !IsOptionToken(token)
  }

  /** The option loop from position `i` of the arguments after the command. */
  function ParseFrom(args: seq<string>, i: nat, parsed: seq<Field>): seq<Field>
    requires i <= |args|
    decreases |args| - i
  {
    if i == |args| then parsed
    else if !IsOptionToken(args[i]) then ParseFrom(args, i + 1, parsed)
    else
      var key := args[i][2..];
      if i + 1 == |args| || !IsValueToken(args[i + 1]) then ParseFrom(args, i + 1, Put(parsed, key, Bool(true)))
      else ParseFrom(args, i + 2, Put(parsed, key, Str(args[i + 1])))
  }

  /** `parseCliArgs` as a function of `argv`. */
  function ParseArgs(argv: seq<string>): seq<Field> {
    ParseFrom(if argv == [] then [] else argv[1..], 0, InitialParsed(argv))
  }

  /** `parseCliArgs` as the source writes it: a cursor over the tokens and a dictionary it fills. */
  method ParseCliArgs(argv: seq<string>) returns (parsed: seq<Field>)
    ensures parsed == ParseArgs(argv)
  {
    var args := if argv == [] then [] else argv[1..];
    parsed := InitialParsed(argv);
    var index := 0;
    while index < |args|
      invariant index <= |args|
      invariant ParseFrom(args, index, parsed) == ParseArgs(argv)
      decreases |args| - index
    {
      var token := args[index];
      if !StartsWith(token, "--") {
        index := index + 1;
        continue;
      }
      var key := token[2..];
      if index + 1 == |args| || args[index + 1] == "" || StartsWith(args[index + 1], "--") {
        parsed := Put(parsed, key, Bool(true));
        index := index + 1;
        continue;
      }
      parsed := Put(parsed, key, Str(args[index + 1]));
      index := index + 2;
    }
  }

  /** What the loop stores: a bare `true`, or a value token. */
  predicate OptionValue(v: Value) {
    v == Bool(true) || (v.Str? && IsValueToken(v.s))
  }

  /** Every option but `command` holds `true` or a value token. */
  ghost predicate OptionsWellFormed(parsed: seq<Field>) {
    forall k :: k != "command" && Get(parsed, k).Some? ==> OptionValue(Get(parsed, k).value)
  }

  lemma {:induction false} ParseFromWellFormed(args: seq<string>, i: nat, parsed: seq<Field>)
    requires i <= |args| && OptionsWellFormed(parsed)
    ensures OptionsWellFormed(ParseFrom(args, i, parsed))
    decreases |args| - i
  {
    if i < |args| {
      if !IsOptionToken(args[i]) {
        ParseFromWellFormed(args, i + 1, parsed);
      } else {
        var key := args[i][2..];
        var v := if i + 1 == |args| || !IsValueToken(args[i + 1]) then Bool(true) else Str(args[i + 1]);
        var next := Put(parsed, key, v);
        assert OptionsWellFormed(next) by {
          forall k | k != "command" && Get(next, k).Some? ensures OptionValue(Get(next, k).value) {
            if k != key { assert Get(next, k) == Get(parsed, k); }
          }
        }
        ParseFromWellFormed(args, if v == Bool(true) then i + 1 else i + 2, next);
      }
    }
  }

  /** Each option holds `true` or a string that is neither empty nor an option name. */
  lemma ParsedOptionValues(argv: seq<string>)
    ensures OptionsWellFormed(ParseArgs(argv))
  {
    ParseFromWellFormed(if argv == [] then [] else argv[1..], 0, InitialParsed(argv));
  }

  /** Every key comes from some `--key` token. */
  ghost predicate KeysNamed(parsed: seq<Field>, args: seq<string>) {
    forall k :: k != "command" && Get(parsed, k).Some? ==> exists j :: 0 <= j < |args| && args[j] == "--" + k
  }

  lemma OptionTokenKey(token: string)
    requires IsOptionToken(token)
    ensures token == "--" + token[2..]
  {
    assert token[..2] == "--";
  }

  lemma {:induction false} ParseFromKeysNamed(args: seq<string>, i: nat, parsed: seq<Field>)
    requires i <= |args| && KeysNamed(parsed, args)
    ensures KeysNamed(ParseFrom(args, i, parsed), args)
    decreases |args| - i
  {
    if i < |args| {
      if !IsOptionToken(args[i]) {
        ParseFromKeysNamed(args, i + 1, parsed);
      } else {
        var key := args[i][2..];
        OptionTokenKey(args[i]);
        var v := if i + 1 == |args| || !IsValueToken(args[i + 1]) then Bool(true) else Str(args[i + 1]);
        var next := Put(parsed, key, v);
        assert KeysNamed(next, args) by {
          forall k | k != "command" && Get(next, k).Some?
            ensures exists j :: 0 <= j < |args| && args[j] == "--" + k
          {
            if k != key { assert Get(next, k) == Get(parsed, k); } else { assert args[i] == "--" + k; }
          }
        }
        ParseFromKeysNamed(args, if v == Bool(true) then i + 1 else i + 2, next);
      }
    }
  }

  /** Stray tokens and values never become keys: every key but `command` is named by a `--key` token. */
  lemma ParsedKeysAreNamed(argv: seq<string>)
    ensures forall k :: k != "command" && Get(ParseArgs(argv), k).Some? ==>
      exists j :: 1 <= j < |argv| && argv[j] == "--" + k
  {
    var args := if argv == [] then [] else argv[1..];
    ParseFromKeysNamed(args, 0, InitialParsed(argv));
    forall k | k != "command" && Get(ParseArgs(argv), k).Some?
      ensures exists j :: 1 <= j < |argv| && argv[j] == "--" + k
    {
      var j :| 0 <= j < |args| && args[j] == "--" + k;
      assert argv[j + 1] == args[j];
    }
  }

  /** The first token is the command, whatever it looks like. */
  lemma CommandIsFirstToken(command: string, args: seq<string>)
    requires forall j :: 0 <= j < |args| ==> args[j] != "--command"
    ensures Get(ParseArgs([command] + args), "command") == Some(Str(command))
  {
    ParseFromKeysNamed(args, 0, [Field("command", Str(command))]);
    KeepsAbsentKey(args, 0, [Field("command", Str(command))], "command");
    assert ([command] + args)[1..] == args;
  }

  /** A key no `--key` token names keeps its entry. */
  lemma {:induction false} KeepsAbsentKey(args: seq<string>, i: nat, parsed: seq<Field>, k: string)
    requires i <= |args| && forall j :: 0 <= j < |args| ==> args[j] != "--" + k
    ensures Get(ParseFrom(args, i, parsed), k) == Get(parsed, k)
    decreases |args| - i
  {
    if i < |args| {
      if !IsOptionToken(args[i]) {
        KeepsAbsentKey(args, i + 1, parsed, k);
      } else {
        var key := args[i][2..];
        OptionTokenKey(args[i]);
        var v := if i + 1 == |args| || !IsValueToken(args[i + 1]) then Bool(true) else Str(args[i + 1]);
        assert key != k;
        KeepsAbsentKey(args, if v == Bool(true) then i + 1 else i + 2, Put(parsed, key, v), k);
      }
    }
  }

  /** `--key value` stores the value; a value token is consumed and not read as an option. */
  lemma OptionTakesValue(args: seq<string>, i: nat, parsed: seq<Field>, key: string)
    requires i + 1 < |args| && args[i] == "--" + key && IsValueToken(args[i + 1])
    ensures ParseFrom(args, i, parsed) == ParseFrom(args, i + 2, Put(parsed, key, Str(args[i + 1])))
  {
    assert args[i][..2] == "--" && args[i][2..] == key;
  }

  /** `--key` followed by nothing, an empty token or another option stores `true`. */
  lemma OptionIsFlag(args: seq<string>, i: nat, parsed: seq<Field>, key: string)
    requires i < |args| && args[i] == "--" + key && (i + 1 == |args| || !IsValueToken(args[i + 1]))
    ensures ParseFrom(args, i, parsed) == ParseFrom(args, i + 1, Put(parsed, key, Bool(true)))
  {
    assert args[i][..2] == "--" && args[i][2..] == key;
  }

  /** Tokens that are not options, outside option values, are skipped. */
  lemma {:induction false} StrayTokensIgnored(strays: seq<string>, rest: seq<string>, parsed: seq<Field>)
    requires forall j :: 0 <= j < |strays| ==> !IsOptionToken(strays[j])
    ensures ParseFrom(strays + rest, 0, parsed) == ParseFrom(rest, 0, parsed)
  {
    var args := strays + rest;
    assert forall m :: 0 <= m < |rest| ==> args[|strays| + m] == rest[m];
    ParseFromShift(args, |strays|, rest, 0, parsed);
    assert forall j :: 0 <= j < |strays| ==> args[j] == strays[j];
    SkipStrays(args, |strays|, parsed);
  }

  lemma {:induction false} SkipStrays(args: seq<string>, n: nat, parsed: seq<Field>)
    requires n <= |args| && forall j :: 0 <= j < n ==> !IsOptionToken(args[j])
    ensures ParseFrom(args, 0, parsed) == ParseFrom(args, n, parsed)
    decreases n
  {
    if n > 0 {
      SkipStrays(args, n - 1, parsed);
    }
  }

  /** Parsing the tail of `pre + rest` is parsing `rest`. */
  lemma {:induction false} ParseFromShift(args: seq<string>, n: nat, rest: seq<string>, j: nat, parsed: seq<Field>)
    requires j <= |rest| && |args| == n + |rest| && forall m :: 0 <= m < |rest| ==> args[n + m] == rest[m]
    ensures ParseFrom(args, n + j, parsed) == ParseFrom(rest, j, parsed)
    decreases |rest| - j
  {
    if j < |rest| {
      assert args[n + j] == rest[j];
      if j + 1 < |rest| { assert args[n + j + 1] == rest[j + 1]; }
      var k, p := ShiftStep(args, n, rest, j, parsed);
      ParseFromShift(args, n, rest, k, p);
    }
  }

  /** One step of the option loop reads the same tokens in `args` from `n + j` as in `rest` from `j`. */
  lemma ShiftStep(args: seq<string>, n: nat, rest: seq<string>, j: nat, parsed: seq<Field>) returns (k: nat, p: seq<Field>)
    requires j < |rest| && |args| == n + |rest| && args[n + j] == rest[j]
    requires j + 1 < |rest| ==> args[n + j + 1] == rest[j + 1]
    ensures j < k <= |rest|
    ensures ParseFrom(args, n + j, parsed) == ParseFrom(args, n + k, p)
    ensures ParseFrom(rest, j, parsed) == ParseFrom(rest, k, p)
  {
    k, p := StepOf(rest, j, parsed);
    var k', p' := StepOf(args, n + j, parsed);
    assert k' == n + k && p' == p;
  }

  /** Where one step of the option loop from `i` goes on, and with what. */
  lemma StepOf(args: seq<string>, i: nat, parsed: seq<Field>) returns (k: nat, p: seq<Field>)
    requires i < |args|
    ensures i < k <= |args| && ParseFrom(args, i, parsed) == ParseFrom(args, k, p)
    ensures !IsOptionToken(args[i]) ==> k == i + 1 && p == parsed
    ensures IsOptionToken(args[i]) && (i + 1 == |args| || !IsValueToken(args[i + 1])) ==>
      k == i + 1 && p == Put(parsed, args[i][2..], Bool(true))
    ensures IsOptionToken(args[i]) && i + 1 < |args| && IsValueToken(args[i + 1]) ==>
      k == i + 2 && p == Put(parsed, args[i][2..], Str(args[i + 1]))
  {
    if !IsOptionToken(args[i]) {
      k, p := i + 1, parsed;
    } else if i + 1 == |args| || !IsValueToken(args[i + 1]) {
      k, p := i + 1, Put(parsed, args[i][2..], Bool(true));
    } else {
      k, p := i + 2, Put(parsed, args[i][2..], Str(args[i + 1]));
    }
  }

  /** `cmd --key value` and `cmd --key`. */
  lemma SingleOption(command: string, key: string, value: string)
    requires key != "command" && IsValueToken(value)
    ensures Get(ParseArgs([command, "--" + key, value]), key) == Some(Str(value))
    ensures Get(ParseArgs([command, "--" + key]), key) == Some(Bool(true))
    ensures Get(ParseArgs([command, "--" + key, value]), "command") == Some(Str(command))
  {
    var init := [Field("command", Str(command))];
    var args := [command, "--" + key, value][1..];
    assert args == ["--" + key, value];
    OptionTakesValue(args, 0, init, key);
    var flagArgs := [command, "--" + key][1..];
    assert flagArgs == ["--" + key];
    OptionIsFlag(flagArgs, 0, init, key);
  }

  /** A later occurrence of an option overwrites an earlier one. */
  lemma LaterOptionWins(command: string, key: string, first: string, second: string)
    requires IsValueToken(first) && IsValueToken(second)
    ensures Get(ParseArgs([command, "--" + key, first, "--" + key, second]), key) == Some(Str(second))
  {
    var init := [Field("command", Str(command))];
    var args := [command, "--" + key, first, "--" + key, second][1..];
    assert args == ["--" + key, first, "--" + key, second];
    OptionTakesValue(args, 0, init, key);
    var once := Put(init, key, Str(first));
    OptionTakesValue(args, 2, once, key);
  }

  // ------------------------------------------------------- requireOption, parseBoolOption

  /** `requireOption`: the option's value when it is a non-blank string. */
  function RequireOption(parsed: seq<Field>, optionName: string): (r: Result<string>)
    ensures r.Ok? <==> Get(parsed, optionName).Some? && Get(parsed, optionName).value.Str?
                       && !IsBlank(Get(parsed, optionName).value.s)
    ensures r.Ok? ==> Get(parsed, optionName) == Some(Str(r.value))
    ensures r.Err? ==> r.error == OptionRequired(optionName)
  {
    match Get(parsed, optionName)
    case Some(Str(s)) => if Trim(s) == "" then Err(OptionRequired(optionName)) else Ok(s)
    case _ => Err(OptionRequired(optionName))
  }

  /** A bare `--name` does not satisfy a required option; `--name value` does. */
  lemma RequiredOptionNeedsValue(command: string, optionName: string, value: string)
    requires optionName != "command" && IsValueToken(value) && !IsBlank(value)
    ensures RequireOption(ParseArgs([command, "--" + optionName]), optionName) == Err(OptionRequired(optionName))
    ensures RequireOption(ParseArgs([command, "--" + optionName, value]), optionName) == Ok(value)
  {
    SingleOption(command, optionName, value);
  }

  /** `parseBoolOption`: the fallback when absent, a boolean as it is, otherwise the trimmed,
      lower-cased text `"true"` or `"false"`. */
  function ParseBoolOption(value: Option<Value>, fallback: bool, fmt: NumFormat): (r: Result<bool>)
    ensures value.None? ==> r == Ok(fallback)
    ensures value.Some? && value.value.Bool? ==> r == Ok(value.value.b)
    ensures r.Err? ==> value.Some? && !value.value.Bool? && r.error == InvalidBoolean(ToStr(value.value, fmt))
    ensures r.Ok? && value.Some? && !value.value.Bool? ==>
      Lower(Trim(ToStr(value.value, fmt))) == if r.value then "true" else "false"
  {
    if value.None? then Ok(fallback)
    else if value.value.Bool? then Ok(value.value.b)
    else
      var normalized := Lower(Trim(ToStr(value.value, fmt)));
      if normalized == "true" then Ok(true)
      else if normalized == "false" then Ok(false)
      else Err(InvalidBoolean(ToStr(value.value, fmt)))
  }

  /** A word spelling `true` or `false` in any case starts and ends with a letter. */
  lemma BoolWordEnds(word: string)
    requires Lower(word) == "true" || Lower(word) == "false"
    ensures word != [] && !IsWhitespace(word[0]) && !IsWhitespace(word[|word| - 1])
  {
    var lower := Lower(word);
    assert |word| == |lower| >= 4;
    assert LowerChar(word[0]) == lower[0] && (lower[0] == 't' || lower[0] == 'f');
    assert LowerChar(word[|word| - 1]) == lower[|lower| - 1] == 'e';
  }

  /** A text normalising to `true` or `false` reads as that boolean. */
  lemma BoolText(s: string, fallback: bool, fmt: NumFormat)
    requires Lower(Trim(s)) == "true" || Lower(Trim(s)) == "false"
    ensures ParseBoolOption(Some(Str(s)), fallback, fmt) == Ok(Lower(Trim(s)) == "true")
  {
    assert ToStr(Str(s), fmt) == s;
    assert "false" != "true" by {
      assert |"false"| == 5;
    }
  }

  /** Surrounding whitespace and letter case do not matter. */
  lemma BoolOptionText(pre: string, word: string, post: string, fallback: bool, fmt: NumFormat)
    requires IsBlank(pre) && IsBlank(post)
    requires Lower(word) == "true" || Lower(word) == "false"
    ensures ParseBoolOption(Some(Str(pre + word + post)), fallback, fmt) == Ok(Lower(word) == "true")
  {
    BoolWordEnds(word);
    TrimPadded(pre, word, post);
    BoolText(pre + word + post, fallback, fmt);
  }

  /** A bare `--flag` reads as `true`, whatever the fallback. */
  lemma BareFlagIsTrue(command: string, key: string, fallback: bool, fmt: NumFormat)
    requires key != "command"
    ensures ParseBoolOption(Get(ParseArgs([command, "--" + key]), key), fallback, fmt) == Ok(true)
  {
    SingleOption(command, key, "x");
  }

  // ------------------------------------------------------- scaffoldProfileTemplate

  const UnityBlock: Value := Obj([Field("execution_mode", Str("attach")),
                                  Field("project_path", Str("./path/to/unity-project")),
                                  Field("window_hint", Str("Unity"))])

  const SampleAnchors: Value := Obj([Field("sample_anchor", Obj([Field("x_ratio", Num(0.5)), Field("y_ratio", Num(0.5)),
                                                                 Field("box_width", Num(180.0)),
                                                                 Field("box_height", Num(48.0))]))])

  const WebBlock: Value := Obj([Field("start_url", Str("https://example.com")), Field("browser", Str("chrome"))])

  const SampleSelectors: Value := Obj([Field("sample_button", Str("css:button.sample"))])

  /** The keys every scaffold starts with, in order. */
  const ScaffoldKeys: seq<string> := ["schema_version", "profile_id", "name", "target", "versions",
                                      "capabilities", "variables", "anchors"]

  /** The empty version pins of a new profile. */
  const VersionsBlock: Value := Obj([Field("unity", Str("")), Field("vrchat_sdk", Str(""))])

  /** The skeleton every scaffold starts from. */
  function Skeleton(profileId: string, name: string, target: string): seq<Field> {
    [Field("schema_version", Str("1.0.0")), Field("profile_id", Str(profileId)), Field("name", Str(name)),
     Field("target", Str(target)),
     Field("versions", VersionsBlock), Field("capabilities", Obj([])), Field("variables", Obj([])), Field("anchors", Obj([]))]
  }

  /** The echoed header of a scaffold. */
  predicate ScaffoldHeader(fields: seq<Field>, profileId: string, name: string, target: string) {
    Get(fields, "schema_version") == Some(Str("1.0.0")) && Get(fields, "profile_id") == Some(Str(profileId))
    && Get(fields, "name") == Some(Str(name)) && Get(fields, "target") == Some(Str(target))
  }

  /** The skeleton's `versions`, `capabilities` and `variables`, which no target branch touches. */
  predicate ScaffoldDefaults(fields: seq<Field>) {
    Get(fields, "versions") == Some(VersionsBlock) && Get(fields, "capabilities") == Some(Obj([]))
    && Get(fields, "variables") == Some(Obj([]))
  }

  /** `scaffoldProfileTemplate`: the common skeleton, then the target's own blocks written into it. */
  method ScaffoldProfileTemplate(profileId: string, name: string, target: string) returns (r: Result<Value>)
    ensures target != "unity" && target != "web" ==> r == Err(ScaffoldTarget(target))
    ensures r.Ok? ==> r.value.Obj? && Unique(r.value.fields) && ScaffoldHeader(r.value.fields, profileId, name, target)
    ensures r.Ok? ==> Prop(r.value, "versions") == Some(VersionsBlock) && Prop(r.value, "capabilities") == Some(Obj([]))
                      && Prop(r.value, "variables") == Some(Obj([]))
    ensures r.Ok? ==> Keys(r.value.fields) == ScaffoldKeys + (if target == "unity" then ["unity"] else ["web", "selectors"])
    ensures r.Ok? && target == "unity" ==> Prop(r.value, "unity") == Some(UnityBlock) && Prop(r.value, "anchors") == Some(SampleAnchors)
    ensures r.Ok? && target == "web" ==> Prop(r.value, "web") == Some(WebBlock) && Prop(r.value, "selectors") == Some(SampleSelectors)
                                         && Prop(r.value, "anchors") == Some(Obj([]))
    ensures r.Ok? && !IsBlank(profileId) && !IsBlank(name) ==> ValidateProfile(r.value) == Pass
  {
    if target != "unity" && target != "web" {
      return Err(ScaffoldTarget(target));
    }
    var base := Skeleton(profileId, name, target);
    if target == "unity" {
      base := Put(base, "unity", UnityBlock);
      base := Put(base, "anchors", SampleAnchors);
      UnityScaffold(profileId, name);
    } else {
      base := Put(base, "web", WebBlock);
      base := Put(base, "selectors", SampleSelectors);
      WebScaffold(profileId, name);
    }
    r := Ok(Obj(base));
  }

  /** What a scaffold's fields must hold for the profile validator to accept it. */
  predicate ProfileReady(fields: seq<Field>) {
    IsObject(Get(fields, "versions")) && IsObject(Get(fields, "capabilities")) && IsObject(Get(fields, "anchors"))
  }

  /** Writing one key outside the header keeps the header. */
  lemma HeaderPut(fields: seq<Field>, profileId: string, name: string, target: string, k: string, v: Value)
    requires ScaffoldHeader(fields, profileId, name, target)
    requires k != "schema_version" && k != "profile_id" && k != "name" && k != "target"
    ensures ScaffoldHeader(Put(fields, k, v), profileId, name, target)
  {
    var next := Put(fields, k, v);
    assert Get(next, "schema_version") == Get(fields, "schema_version");
    assert Get(next, "profile_id") == Get(fields, "profile_id");
    assert Get(next, "name") == Get(fields, "name");
    assert Get(next, "target") == Get(fields, "target");
  }

  /** Writing one key other than `versions` and `capabilities`, and an object if it is `anchors`, keeps
      a scaffold ready for validation. */
  lemma ReadyPut(fields: seq<Field>, k: string, v: Value)
    requires ProfileReady(fields)
    requires k != "versions" && k != "capabilities" && (k == "anchors" ==> v.Obj?)
    ensures ProfileReady(Put(fields, k, v))
  {
    var next := Put(fields, k, v);
    if k == "anchors" {
      assert Get(next, "anchors") == Some(v);
    } else {
      assert Get(next, "anchors") == Get(fields, "anchors");
    }
    assert Get(next, "versions") == Get(fields, "versions");
    assert Get(next, "capabilities") == Get(fields, "capabilities");
  }

  /** Writing one key other than `versions`, `capabilities` and `variables` keeps their defaults. */
  lemma DefaultsPut(fields: seq<Field>, k: string, v: Value)
    requires ScaffoldDefaults(fields) && k != "versions" && k != "capabilities" && k != "variables"
    ensures ScaffoldDefaults(Put(fields, k, v))
  {
    var next := Put(fields, k, v);
    assert Get(next, "versions") == Get(fields, "versions");
    assert Get(next, "capabilities") == Get(fields, "capabilities");
    assert Get(next, "variables") == Get(fields, "variables");
  }

  lemma BlocksKeepDefaults(base: seq<Field>, k1: string, v1: Value, k2: string, v2: Value)
    requires ScaffoldDefaults(base)
    requires k1 != "versions" && k1 != "capabilities" && k1 != "variables"
    requires k2 != "versions" && k2 != "capabilities" && k2 != "variables"
    ensures ScaffoldDefaults(Put(Put(base, k1, v1), k2, v2))
  {
    DefaultsPut(base, k1, v1);
    DefaultsPut(Put(base, k1, v1), k2, v2);
  }

  /** The target's two blocks, a new key `k1` and then `k2`, leave the header in place. */
  lemma BlocksKeepHeader(base: seq<Field>, profileId: string, name: string, target: string,
                         k1: string, v1: Value, k2: string, v2: Value)
    requires ScaffoldHeader(base, profileId, name, target)
    requires k1 != "schema_version" && k1 != "profile_id" && k1 != "name" && k1 != "target"
    requires k2 != "schema_version" && k2 != "profile_id" && k2 != "name" && k2 != "target"
    ensures ScaffoldHeader(Put(Put(base, k1, v1), k2, v2), profileId, name, target)
  {
    HeaderPut(base, profileId, name, target, k1, v1);
    HeaderPut(Put(base, k1, v1), profileId, name, target, k2, v2);
  }

  lemma BlocksKeepReady(base: seq<Field>, k1: string, v1: Value, k2: string, v2: Value)
    requires ProfileReady(base)
    requires k1 != "versions" && k1 != "capabilities" && k1 != "anchors"
    requires k2 != "versions" && k2 != "capabilities" && (k2 == "anchors" ==> v2.Obj?)
    ensures ProfileReady(Put(Put(base, k1, v1), k2, v2))
  {
    ReadyPut(base, k1, v1);
    ReadyPut(Put(base, k1, v1), k2, v2);
  }

  /** The first block's key goes last; the second one follows it unless it was already there. */
  lemma BlockKeys(base: seq<Field>, k1: string, v1: Value, k2: string, v2: Value)
    requires Find(base, k1).None? && k1 != k2
    ensures Keys(Put(Put(base, k1, v1), k2, v2)) == Keys(base) + [k1] + (if Find(base, k2).Some? then [] else [k2])
  {
    assert Get(Put(base, k1, v1), k2) == Get(base, k2);
  }

  /** The second block does not overwrite the first. */
  lemma BlocksKeepFirst(base: seq<Field>, k1: string, v1: Value, k2: string, v2: Value)
    requires k1 != k2
    ensures Get(Put(Put(base, k1, v1), k2, v2), k1) == Some(v1)
  {
  }

  lemma KeysAppendTwo(ks: seq<string>, a: string, b: string)
    ensures ks + [a] + [b] == ks + [a, b]
  {
  }

  lemma UnityScaffold(profileId: string, name: string)
    ensures var fields := Put(Put(Skeleton(profileId, name, "unity"), "unity", UnityBlock), "anchors", SampleAnchors);
      Unique(fields) && ScaffoldHeader(fields, profileId, name, "unity") && Keys(fields) == ScaffoldKeys + ["unity"]
      && ScaffoldDefaults(fields)
      && Get(fields, "unity") == Some(UnityBlock) && Get(fields, "anchors") == Some(SampleAnchors)
      && (!IsBlank(profileId) && !IsBlank(name) ==> ValidateProfile(Obj(fields)) == Pass)
  {
    var base := Skeleton(profileId, name, "unity");
    SkeletonFacts(profileId, name, "unity", "unity");
    BlocksKeepHeader(base, profileId, name, "unity", "unity", UnityBlock, "anchors", SampleAnchors);
    BlocksKeepReady(base, "unity", UnityBlock, "anchors", SampleAnchors);
    BlocksKeepDefaults(base, "unity", UnityBlock, "anchors", SampleAnchors);
    BlockKeys(base, "unity", UnityBlock, "anchors", SampleAnchors);
    BlocksKeepFirst(base, "unity", UnityBlock, "anchors", SampleAnchors);
    var fields := Put(Put(base, "unity", UnityBlock), "anchors", SampleAnchors);
    if !IsBlank(profileId) && !IsBlank(name) {
      ScaffoldValid(fields, profileId, name, "unity");
    }
  }

  lemma WebScaffold(profileId: string, name: string)
    ensures var fields := Put(Put(Skeleton(profileId, name, "web"), "web", WebBlock), "selectors", SampleSelectors);
      Unique(fields) && ScaffoldHeader(fields, profileId, name, "web") && Keys(fields) == ScaffoldKeys + ["web", "selectors"]
      && ScaffoldDefaults(fields)
      && Get(fields, "web") == Some(WebBlock) && Get(fields, "selectors") == Some(SampleSelectors)
      && Get(fields, "anchors") == Some(Obj([]))
      && (!IsBlank(profileId) && !IsBlank(name) ==> ValidateProfile(Obj(fields)) == Pass)
  {
    var base := Skeleton(profileId, name, "web");
    SkeletonFacts(profileId, name, "web", "web");
    ScaffoldKeysDiffer();
    SkeletonAbsent(profileId, name, "web", "selectors");
    BlocksKeepHeader(base, profileId, name, "web", "web", WebBlock, "selectors", SampleSelectors);
    BlocksKeepReady(base, "web", WebBlock, "selectors", SampleSelectors);
    BlocksKeepDefaults(base, "web", WebBlock, "selectors", SampleSelectors);
    BlockKeys(base, "web", WebBlock, "selectors", SampleSelectors);
    BlocksKeepFirst(base, "web", WebBlock, "selectors", SampleSelectors);
    KeysAppendTwo(ScaffoldKeys, "web", "selectors");
    var fields := Put(Put(base, "web", WebBlock), "selectors", SampleSelectors);
    assert Get(fields, "anchors") == Get(base, "anchors");
    if !IsBlank(profileId) && !IsBlank(name) {
      ScaffoldValid(fields, profileId, name, "web");
    }
  }

  /** A key the skeleton does not list is absent from it. */
  lemma SkeletonAbsent(profileId: string, name: string, target: string, k: string)
    requires k !in ScaffoldKeys
    ensures Find(Skeleton(profileId, name, target), k).None?
  {
    SkeletonKeys(profileId, name, target);
    var base := Skeleton(profileId, name, target);
    forall j | 0 <= j < |base| ensures base[j].key != k {
      assert base[j].key == Keys(base)[j] == ScaffoldKeys[j];
    }
  }

  /** The facts about the skeleton the two target branches build on. */
  lemma SkeletonFacts(profileId: string, name: string, target: string, k: string)
    requires k == "unity" || k == "web"
    ensures var base := Skeleton(profileId, name, target);
      Unique(base) && Keys(base) == ScaffoldKeys && ScaffoldHeader(base, profileId, name, target) && ProfileReady(base)
      && Get(base, "anchors") == Some(Obj([])) && Find(base, k).None? && ScaffoldDefaults(base)
  {
    SkeletonKeys(profileId, name, target);
    SkeletonHeader(profileId, name, target);
    SkeletonBlocks(profileId, name, target);
    ScaffoldKeysDiffer();
    SkeletonAbsent(profileId, name, target, k);
  }

  lemma SkeletonKeys(profileId: string, name: string, target: string)
    ensures Keys(Skeleton(profileId, name, target)) == ScaffoldKeys && Unique(Skeleton(profileId, name, target))
  {
  }

  lemma SkeletonHeader(profileId: string, name: string, target: string)
    ensures var base := Skeleton(profileId, name, target);
      Get(base, "schema_version") == Some(Str("1.0.0")) && Get(base, "profile_id") == Some(Str(profileId))
      && Get(base, "name") == Some(Str(name)) && Get(base, "target") == Some(Str(target))
  {
    var base := Skeleton(profileId, name, target);
    FindFirst(base, "schema_version", 0);
    FindFirst(base, "profile_id", 1);
    FindFirst(base, "name", 2);
    FindFirst(base, "target", 3);
  }

  lemma SkeletonBlocks(profileId: string, name: string, target: string)
    ensures var base := Skeleton(profileId, name, target);
      ScaffoldDefaults(base) && Get(base, "anchors") == Some(Obj([]))
  {
    var base := Skeleton(profileId, name, target);
    SkeletonKeys(profileId, name, target);
    SkeletonEntry(base, "versions", 4, VersionsBlock);
    SkeletonEntry(base, "capabilities", 5, Obj([]));
    SkeletonEntry(base, "variables", 6, Obj([]));
    SkeletonEntry(base, "anchors", 7, Obj([]));
  }

  /** An entry of a map without repeated keys is what its key reads. */
  lemma SkeletonEntry(base: seq<Field>, k: string, i: nat, v: Value)
    requires Unique(base) && i < |base| && base[i] == Field(k, v)
    ensures Get(base, k) == Some(v)
  {
    FindFirst(base, k, i);
  }

  /** The target blocks use keys of their own. */
  lemma ScaffoldKeysDiffer()
    ensures forall k :: k in ScaffoldKeys ==> k != "unity" && k != "web" && k != "selectors"
    ensures "unity" != "anchors" && "web" != "selectors" && "anchors" in ScaffoldKeys && "anchors" != "selectors"
  {
  }

  /** A scaffold with a non-blank id and name is an acceptable profile. */
  lemma ScaffoldValid(fields: seq<Field>, profileId: string, name: string, target: string)
    requires ScaffoldHeader(fields, profileId, name, target) && ProfileReady(fields)
    requires !IsBlank(profileId) && !IsBlank(name) && (target == "unity" || target == "web")
    ensures ValidateProfile(Obj(fields)) == Pass
  {
    ScaffoldShape(fields, profileId, name, target);
  }

  lemma ScaffoldShape(fields: seq<Field>, profileId: string, name: string, target: string)
    requires ScaffoldHeader(fields, profileId, name, target) && ProfileReady(fields)
    requires !IsBlank(profileId) && !IsBlank(name) && (target == "unity" || target == "web")
    ensures ProfileShape(Obj(fields))
  {
    assert !IsBlank("1.0.0") by { assert !IsWhitespace("1.0.0"[0]); }
  }

  // ------------------------------------------------------- the job filter of compileFromFiles

  /** A job passes the filter when each filter that is set (truthy) equals the job's own id. */
  predicate Selected(job: CompiledJob, jobId: Option<Value>, profileId: Option<Value>) {
    (!Truthy(jobId) || StrictEquals(job.jobId, jobId)) && (!Truthy(profileId) || StrictEquals(job.profileId, profileId))
  }

  /** `jobs.filter(...)`: the selected jobs, in their order. */
  function Selection(jobs: seq<CompiledJob>, jobId: Option<Value>, profileId: Option<Value>): (r: seq<CompiledJob>)
    ensures |r| <= |jobs|
    ensures forall job :: job in r <==> job in jobs && Selected(job, jobId, profileId)
    decreases |jobs|
  {
    if jobs == [] then []
    else
      var rest := Selection(jobs[1..], jobId, profileId);
      assert forall job :: job in jobs <==> job == jobs[0] || job in jobs[1..];
      if Selected(jobs[0], jobId, profileId) then [jobs[0]] + rest else rest
  }

  /** The filter keeps order: selecting from two runs of jobs is selecting from each. */
  lemma {:induction false} SelectionAppend(a: seq<CompiledJob>, b: seq<CompiledJob>, jobId: Option<Value>, profileId: Option<Value>)
    ensures Selection(a + b, jobId, profileId) == Selection(a, jobId, profileId) + Selection(b, jobId, profileId)
    decreases |a|
  {
    if a != [] {
      assert (a + b)[0] == a[0];
      assert (a + b)[1..] == a[1..] + b;
      SelectionAppend(a[1..], b, jobId, profileId);
    } else {
      assert a + b == b;
    }
  }

  /** Without filters every job is kept. */
  lemma {:induction false} NoFilterKeepsAll(jobs: seq<CompiledJob>, jobId: Option<Value>, profileId: Option<Value>)
    requires !Truthy(jobId) && !Truthy(profileId)
    ensures Selection(jobs, jobId, profileId) == jobs
    decreases |jobs|
  {
    if jobs != [] {
      NoFilterKeepsAll(jobs[1..], jobId, profileId);
    }
  }

  /** How a filter is shown in the error: its text, or `any` when it is not set. */
  function FilterText(filter: Option<Value>, fmt: NumFormat): (r: string)
    ensures !Truthy(filter) ==> r == "any"
    ensures Truthy(filter) ==> r == ToStr(filter.value, fmt)
  {
    if Truthy(filter) then ToStr(filter.value, fmt) else "any"
  }

  /** The filter step: the selected jobs, or an error naming both filters when none is left. */
  function FilterJobs(jobs: seq<CompiledJob>, jobId: Option<Value>, profileId: Option<Value>, fmt: NumFormat)
    : (r: Result<seq<CompiledJob>>)
    ensures r.Ok? <==> exists job :: job in jobs && Selected(job, jobId, profileId)
    ensures r.Ok? ==> r.value == Selection(jobs, jobId, profileId) && r.value != []
    ensures r.Err? ==> r.error == NoJobsMatched(FilterText(jobId, fmt), FilterText(profileId, fmt))
  {
    var selected := Selection(jobs, jobId, profileId);
    if selected == [] then Err(NoJobsMatched(FilterText(jobId, fmt), FilterText(profileId, fmt)))
    else
      assert selected[0] in selected;
      Ok(selected)
  }

  /** Filtering by a job id keeps exactly the jobs carrying that id. */
  lemma FilterByJobId(jobs: seq<CompiledJob>, id: string, fmt: NumFormat)
    requires id != ""
    ensures forall job :: job in Selection(jobs, Some(Str(id)), None) <==> job in jobs && job.jobId == Some(Str(id))
  {
    forall job | job in jobs
      ensures Selected(job, Some(Str(id)), None) <==> job.jobId == Some(Str(id))
    {
      if Selected(job, Some(Str(id)), None) {
        StrictEqualsSame(job.jobId, Some(Str(id)));
      }
    }
  }

  // ------------------------------------------------------- loadJsonFilesByKey

  /** A directory entry together with the document its file holds. */
  datatype DirEntry = DirEntry(name: string, isFile: bool, document: Value)

  /** Only files whose name ends with the suffix are read. */
  predicate Matches(entry: DirEntry, suffixFilter: string) {
    entry.isFile && EndsWith(entry.name, suffixFilter)
  }

  /** The entries that are read, in directory order. */
  function Matching(entries: seq<DirEntry>, suffixFilter: string): (r: seq<DirEntry>)
    ensures forall e :: e in r <==> e in entries && Matches(e, suffixFilter)
    decreases |entries|
  {
    if entries == [] then []
    else
      var rest := Matching(entries[1..], suffixFilter);
      assert forall e :: e in entries <==> e == entries[0] || e in entries[1..];
      if Matches(entries[0], suffixFilter) then [entries[0]] + rest else rest
  }

  /** `parsed[keyField]` when it is a non-blank string. */
  function DocumentKey(document: Value, keyField: string): (r: Option<string>)
    ensures r.Some? <==> IsNonBlankString(Prop(document, keyField))
    ensures r.Some? ==> document.Obj? && Prop(document, keyField) == Some(Str(r.value))
  {
    match Prop(document, keyField)
    case Some(Str(s)) => if Trim(s) == "" then None else Some(s)
    case _ => None
  }

  /** One iteration of the loop: skip the entry, file its document under its key, or fail. */
  function Admit(byKey: seq<Field>, entry: DirEntry, dirPath: string, keyField: string, suffixFilter: string)
    : (r: Result<seq<Field>>)
    ensures !Matches(entry, suffixFilter) ==> r == Ok(byKey)
    ensures Matches(entry, suffixFilter) && entry.document.Null? ==> r == Err(PropertyOfNull(keyField))
    ensures Matches(entry, suffixFilter) && !entry.document.Null? && DocumentKey(entry.document, keyField).None? ==>
      r == Err(MissingKeyField(JoinPath([dirPath, entry.name]), keyField))
    ensures Matches(entry, suffixFilter) && DocumentKey(entry.document, keyField).Some? ==>
      var key := DocumentKey(entry.document, keyField).value;
      r == if Truthy(Get(byKey, key)) then Err(DuplicateKey(keyField, key, dirPath)) else Ok(Put(byKey, key, entry.document))
  {
    if !entry.isFile || !EndsWith(entry.name, suffixFilter) then Ok(byKey)
    else if entry.document.Null? then Err(PropertyOfNull(keyField))
    else match DocumentKey(entry.document, keyField)
      case None => Err(MissingKeyField(JoinPath([dirPath, entry.name]), keyField))
      case Some(key) =>
        if Truthy(Get(byKey, key)) then Err(DuplicateKey(keyField, key, dirPath))
        else Ok(Put(byKey, key, entry.document))
  }

  /** The loop from entry `i` on, with the map filled so far. */
  function LoadFrom(entries: seq<DirEntry>, i: nat, byKey: seq<Field>, dirPath: string, keyField: string,
                    suffixFilter: string): Result<seq<Field>>
    requires i <= |entries|
    decreases |entries| - i
  {
    if i == |entries| then Ok(byKey)
    else match Admit(byKey, entries[i], dirPath, keyField, suffixFilter)
      case Err(e) => Err(e)
      case Ok(next) => LoadFrom(entries, i + 1, next, dirPath, keyField, suffixFilter)
  }

  /** `loadJsonFilesByKey` over documents already read, as a function of its inputs. */
  function LoadByKey(entries: seq<DirEntry>, dirPath: string, keyField: string, suffixFilter: string)
    : Result<seq<Field>>
  {
    LoadFrom(entries, 0, [], dirPath, keyField, suffixFilter)
  }

  /** `loadJsonFilesByKey`: the loop filling the map, stopping at the first bad document. */
  method LoadJsonFilesByKey(entries: seq<DirEntry>, dirPath: string, keyField: string, suffixFilter: string)
    returns (r: Result<seq<Field>>)
    ensures r == LoadByKey(entries, dirPath, keyField, suffixFilter)
  {
    var byKey: seq<Field> := [];
    for i := 0 to |entries|
      invariant LoadFrom(entries, i, byKey, dirPath, keyField, suffixFilter) == LoadByKey(entries, dirPath, keyField, suffixFilter)
    {
      var entry := entries[i];
      if !entry.isFile || !EndsWith(entry.name, suffixFilter) {
        continue;
      }
      if entry.document.Null? {
        return Err(PropertyOfNull(keyField));
      }
      var key := Prop(entry.document, keyField);
      if !(key.Some? && key.value.Str?) || Trim(key.value.s) == "" {
        return Err(MissingKeyField(JoinPath([dirPath, entry.name]), keyField));
      }
      if Truthy(Get(byKey, key.value.s)) {
        return Err(DuplicateKey(keyField, key.value.s, dirPath));
      }
      byKey := Put(byKey, key.value.s, entry.document);
    }
    r := Ok(byKey);
  }

  /** Every document in the map is filed under its own key, once. */
  ghost predicate Filed(byKey: seq<Field>, keyField: string) {
    Unique(byKey) && forall i :: 0 <= i < |byKey| ==> DocumentKey(byKey[i].val, keyField) == Some(byKey[i].key)
  }

  /** In a filed map the duplicate test `map[key]` is a test for presence. */
  lemma FiledTruthy(byKey: seq<Field>, keyField: string, key: string)
    requires Filed(byKey, keyField)
    ensures Truthy(Get(byKey, key)) <==> Find(byKey, key).Some?
  {
    match Find(byKey, key)
    case None =>
    case Some(i) =>
      assert DocumentKey(byKey[i].val, keyField).Some?;
  }

  /** Filing a document under its own new key keeps the map filed. */
  lemma FiledPut(byKey: seq<Field>, keyField: string, key: string, document: Value)
    requires Filed(byKey, keyField) && Find(byKey, key).None? && DocumentKey(document, keyField) == Some(key)
    ensures Filed(Put(byKey, key, document), keyField)
    ensures Put(byKey, key, document) == byKey + [Field(key, document)]
  {
    var r := Put(byKey, key, document);
    assert r == byKey + [Field(key, document)];
    forall i | 0 <= i < |r| ensures DocumentKey(r[i].val, keyField) == Some(r[i].key) {
      if i < |byKey| {
        assert r[i] == byKey[i];
      }
    }
  }

  /** On a filed map one entry keeps the map filed: a matching document is appended under its key,
      and it is a duplicate exactly when that key is already filed. */
  lemma AdmitKeepsFiled(byKey: seq<Field>, entry: DirEntry, dirPath: string, keyField: string, suffixFilter: string)
    requires Filed(byKey, keyField)
    ensures var r := Admit(byKey, entry, dirPath, keyField, suffixFilter);
      r.Ok? ==> Filed(r.value, keyField)
    ensures var r := Admit(byKey, entry, dirPath, keyField, suffixFilter);
      Matches(entry, suffixFilter) && r.Ok? ==> r.value == byKey + [Field(DocumentKey(entry.document, keyField).value, entry.document)]
    ensures Matches(entry, suffixFilter) && DocumentKey(entry.document, keyField).Some? ==>
      var key := DocumentKey(entry.document, keyField).value;
      Admit(byKey, entry, dirPath, keyField, suffixFilter) == Err(DuplicateKey(keyField, key, dirPath)) <==> Find(byKey, key).Some?
  {
    if Matches(entry, suffixFilter) && DocumentKey(entry.document, keyField).Some? {
      var key := DocumentKey(entry.document, keyField).value;
      FiledTruthy(byKey, keyField, key);
      if Find(byKey, key).None? {
        FiledPut(byKey, keyField, key, entry.document);
      }
    }
  }

  /** What a successful run from entry `i` on adds to the map. */
  lemma {:induction false} LoadFromFacts(entries: seq<DirEntry>, i: nat, byKey: seq<Field>, dirPath: string,
                                         keyField: string, suffixFilter: string)
    requires i <= |entries| && Filed(byKey, keyField)
    requires LoadFrom(entries, i, byKey, dirPath, keyField, suffixFilter).Ok?
    ensures var m := LoadFrom(entries, i, byKey, dirPath, keyField, suffixFilter).value;
      Filed(m, keyField) && |m| == |byKey| + |Matching(entries[i..], suffixFilter)|
      && (forall k :: Find(byKey, k).Some? ==> Get(m, k) == Get(byKey, k))
      && (forall j :: i <= j < |entries| && Matches(entries[j], suffixFilter) ==>
            DocumentKey(entries[j].document, keyField).Some?
            && Find(byKey, DocumentKey(entries[j].document, keyField).value).None?
            && Get(m, DocumentKey(entries[j].document, keyField).value) == Some(entries[j].document))
      && (forall a, b :: i <= a < b < |entries| && Matches(entries[a], suffixFilter) && Matches(entries[b], suffixFilter) ==>
            DocumentKey(entries[a].document, keyField) != DocumentKey(entries[b].document, keyField))
    decreases |entries| - i
  {
    var m := LoadFrom(entries, i, byKey, dirPath, keyField, suffixFilter).value;
    if i == |entries| {
      assert entries[i..] == [];
    } else {
      var entry := entries[i];
      assert entries[i..][1..] == entries[i + 1..];
      var next := Admit(byKey, entry, dirPath, keyField, suffixFilter).value;
      if Matches(entry, suffixFilter) {
        var key := DocumentKey(entry.document, keyField).value;
        FiledTruthy(byKey, keyField, key);
        assert next == Put(byKey, key, entry.document);
        FiledPut(byKey, keyField, key, entry.document);
        LoadFromFacts(entries, i + 1, next, dirPath, keyField, suffixFilter);
        assert Matching(entries[i..], suffixFilter) == [entry] + Matching(entries[i + 1..], suffixFilter);
        assert Find(next, key).Some? && Get(m, key) == Some(entry.document);
        forall k | Find(byKey, k).Some? ensures Get(m, k) == Get(byKey, k) {
          assert k != key && Get(next, k) == Get(byKey, k);
        }
        forall j | i < j < |entries| && Matches(entries[j], suffixFilter)
          ensures DocumentKey(entries[j].document, keyField).value != key
          ensures Find(byKey, DocumentKey(entries[j].document, keyField).value).None?
        {
          var other := DocumentKey(entries[j].document, keyField).value;
          assert Find(next, other).None?;
          assert Get(next, other) == Get(byKey, other);
        }
      } else {
        LoadFromFacts(entries, i + 1, next, dirPath, keyField, suffixFilter);
        assert Matching(entries[i..], suffixFilter) == Matching(entries[i + 1..], suffixFilter);
      }
    }
  }

  /** A successful load files every matching document under its key, holds nothing else,
      and never saw one key twice. */
  lemma LoadedByKey(entries: seq<DirEntry>, dirPath: string, keyField: string, suffixFilter: string)
    requires LoadByKey(entries, dirPath, keyField, suffixFilter).Ok?
    ensures var m := LoadByKey(entries, dirPath, keyField, suffixFilter).value;
      Filed(m, keyField) && |m| == |Matching(entries, suffixFilter)|
      && (forall j :: 0 <= j < |entries| && Matches(entries[j], suffixFilter) ==>
            DocumentKey(entries[j].document, keyField).Some?
            && Get(m, DocumentKey(entries[j].document, keyField).value) == Some(entries[j].document))
      && (forall a, b :: 0 <= a < b < |entries| && Matches(entries[a], suffixFilter) && Matches(entries[b], suffixFilter) ==>
            DocumentKey(entries[a].document, keyField) != DocumentKey(entries[b].document, keyField))
  {
    assert entries[0..] == entries;
    LoadFromFacts(entries, 0, [], dirPath, keyField, suffixFilter);
  }

  /** Two matching documents with the same key make the load fail. */
  lemma DuplicateRejected(entries: seq<DirEntry>, dirPath: string, keyField: string, suffixFilter: string, a: nat, b: nat)
    requires a < b < |entries| && Matches(entries[a], suffixFilter) && Matches(entries[b], suffixFilter)
    requires DocumentKey(entries[a].document, keyField) == DocumentKey(entries[b].document, keyField)
    ensures LoadByKey(entries, dirPath, keyField, suffixFilter).Err?
  {
    if LoadByKey(entries, dirPath, keyField, suffixFilter).Ok? {
      LoadedByKey(entries, dirPath, keyField, suffixFilter);
    }
  }

  /** Running the loop from entry `i + d` is running it from entry `d` of the entries from `i` on. */
  lemma {:induction false} LoadShift(entries: seq<DirEntry>, i: nat, d: nat, byKey: seq<Field>, dirPath: string,
                                     keyField: string, suffixFilter: string)
    requires i + d <= |entries|
    ensures LoadFrom(entries, i + d, byKey, dirPath, keyField, suffixFilter)
            == LoadFrom(entries[i..], d, byKey, dirPath, keyField, suffixFilter)
    decreases |entries| - i - d
  {
    if i + d < |entries| {
      var entry, rest := entries[i + d], entries[i..];
      assert rest[d] == entry;
      var step := Admit(byKey, entry, dirPath, keyField, suffixFilter);
      if step.Ok? {
        LoadShift(entries, i, d + 1, step.value, dirPath, keyField, suffixFilter);
        assert LoadFrom(rest, d, byKey, dirPath, keyField, suffixFilter)
            == LoadFrom(rest, d + 1, step.value, dirPath, keyField, suffixFilter);
      } else {
        assert LoadFrom(rest, d, byKey, dirPath, keyField, suffixFilter) == Err(step.error);
      }
    }
  }

  /** Directories and files with another suffix play no part in the result. */
  lemma {:induction false} LoadIgnoresOthers(entries: seq<DirEntry>, byKey: seq<Field>, dirPath: string,
                                             keyField: string, suffixFilter: string)
    ensures LoadFrom(entries, 0, byKey, dirPath, keyField, suffixFilter)
            == LoadFrom(Matching(entries, suffixFilter), 0, byKey, dirPath, keyField, suffixFilter)
    decreases |entries|
  {
    if entries != [] {
      var matching := Matching(entries, suffixFilter);
      var rest := Matching(entries[1..], suffixFilter);
      match Admit(byKey, entries[0], dirPath, keyField, suffixFilter)
      case Err(_) =>
        assert matching[0] == entries[0];
      case Ok(next) =>
        LoadShift(entries, 1, 0, next, dirPath, keyField, suffixFilter);
        LoadIgnoresOthers(entries[1..], next, dirPath, keyField, suffixFilter);
        if Matches(entries[0], suffixFilter) {
          assert matching[0] == entries[0] && matching[1..] == rest;
          LoadShift(matching, 1, 0, next, dirPath, keyField, suffixFilter);
        }
    }
  }

  /** The same for the whole load. */
  lemma LoadByKeyIgnoresOthers(entries: seq<DirEntry>, dirPath: string, keyField: string, suffixFilter: string)
    ensures LoadByKey(entries, dirPath, keyField, suffixFilter)
            == LoadByKey(Matching(entries, suffixFilter), dirPath, keyField, suffixFilter)
  {
    LoadIgnoresOthers(entries, [], dirPath, keyField, suffixFilter);
  }
}
