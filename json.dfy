/** JSON-like documents as the portable compiler sees them after `JSON.parse`,
    the errors it raises, and the JavaScript operations it applies to values:
    truthiness, strict equality, property access, object spread and `String(value)`. */
module Json {
  import opened Text

  datatype Option<+T> = None | Some(value: T)

  datatype Result<+T> = Ok(value: T) | Err(error: Error) {
    predicate IsFailure() { Err? }
    function PropagateFailure<U>(): Result<U>
      requires Err?
    {
      Err(error)
    }
    function Extract(): T
      requires Ok?
    {
      value
    }
  }

  /** The result of a check that either passes or throws. */
  datatype Outcome = Pass | Fail(error: Error) {
    predicate IsFailure() { Fail? }
    function PropagateFailure(): Outcome
      requires Fail?
    {
      this
    }
  }

  /** A JSON value. Objects are kept as their entries in enumeration order. */
  datatype Value =
    | Null
    | Bool(b: bool)
    | Num(n: real)
    | Str(s: string)
    | Arr(items: seq<Value>)
    | Obj(fields: seq<Field>)

  datatype Field = Field(key: string, val: Value)

  /** Every error the modelled code throws, carrying what its message names. */
  datatype Error =
    // conditions.cjs
    | PathNotString
    | ConditionIsArray
    | ConditionNotObject
    | UnsupportedCondition(condition: Value)
    | VersionsIncomparable(left: Option<Value>, right: Option<Value>)
    // compiler.cjs
    | MissingReference(path: string)
    | TargetMismatch(job: Option<Value>, profileTarget: Option<Value>, blueprintTarget: Option<Value>)
    | ProfileNotFound(profileId: string, referencedBy: string)
    | BlueprintNotFound(blueprintId: string, referencedBy: string)
    // contracts.cjs
    | NotAnObject(what: string)
    | NotANonEmptyString(what: string)
    | NotATarget(what: string)
    | NoSteps
    | UnsupportedAction(action: string, forTarget: string, atStep: Option<Value>)
    | NoJobs
    | DuplicateJobId(duplicate: string)
    // runner.cjs
    | JobsRequired
    | CommandFailed(failedJob: Option<Value>, exitCode: int)
    // cli.cjs
    | OptionRequired(name: string)
    | InvalidBoolean(value: string)
    | ScaffoldTarget(got: string)
    | NoJobsMatched(jobFilter: string, profileFilter: string)
    | MissingKeyField(filePath: string, keyField: string)
    | DuplicateKey(keyField: string, key: string, dirPath: string)
    // a JavaScript TypeError: reading a property of `null`
    | PropertyOfNull(key: string)

  /** The position of the first entry with key `k`. */
  function Find(fs: seq<Field>, k: string): (r: Option<nat>)
    ensures r.Some? ==> r.value < |fs| && fs[r.value].key == k
    ensures r.Some? ==> forall j :: 0 <= j < r.value ==> fs[j].key != k
    ensures r.None? <==> forall j :: 0 <= j < |fs| ==> fs[j].key != k
  {
    if fs == [] then None
    else if fs[0].key == k then Some(0)
    else match Find(fs[1..], k)
      case None => None
      case Some(i) => Some(i + 1)
  }

  /** `obj[k]` for an own property `k`, absent when there is none. */
  function Get(fs: seq<Field>, k: string): (r: Option<Value>)
    ensures r.Some? <==> exists j :: 0 <= j < |fs| && fs[j].key == k
  {
    match Find(fs, k)
    case None => None
    case Some(i) => Some(fs[i].val)
  }

  function Keys(fs: seq<Field>): (r: seq<string>)
    ensures |r| == |fs| && forall i :: 0 <= i < |fs| ==> r[i] == fs[i].key
  {
    seq(|fs|, i requires 0 <= i < |fs| => fs[i].key)
  }

  /** Keys are pairwise distinct, as in every object `JSON.parse` builds. */
  predicate Unique(fs: seq<Field>) {
    forall i, j :: 0 <= i < j < |fs| ==> fs[i].key != fs[j].key
  }

  /** `obj[k] = v`: an existing key keeps its position, a new key goes last. This is the
      order JavaScript keeps for keys that are not integer-like; it lists integer-like keys
      such as `"0"` or `"42"` first, in ascending order, which is not modelled. */
  function Put(fs: seq<Field>, k: string, v: Value): (r: seq<Field>)
    ensures Get(r, k) == Some(v)
    ensures forall k' :: k' != k ==> Get(r, k') == Get(fs, k')
    ensures Find(fs, k).Some? ==> Keys(r) == Keys(fs)
    ensures Find(fs, k).None? ==> Keys(r) == Keys(fs) + [k]
    ensures Unique(fs) ==> Unique(r)
  {
    match Find(fs, k)
    case Some(i) =>
      var r := fs[i := Field(k, v)];
      FindFirst(r, k, i);
      assert forall k' :: k' != k ==> Get(r, k') == Get(fs, k') by {
        forall k' | k' != k ensures Get(r, k') == Get(fs, k') {
          assert Find(r, k') == Find(fs, k') by { FindUnaffected(fs, i, Field(k, v), k'); }
        }
      }
      assert Keys(r) == Keys(fs);
      r
    case None =>
      var r := fs + [Field(k, v)];
      assert forall j :: 0 <= j < |fs| ==> r[j] == fs[j];
      FindFirst(r, k, |fs|);
      assert forall k' :: k' != k ==> Get(r, k') == Get(fs, k') by {
        forall k' | k' != k ensures Get(r, k') == Get(fs, k') {
          FindAppend(fs, Field(k, v), k');
        }
      }
      r
  }

  /** The first entry with key `k` is the one `Find` reports. */
  lemma {:induction false} FindFirst(fs: seq<Field>, k: string, i: nat)
    requires i < |fs| && fs[i].key == k
    requires forall j :: 0 <= j < i ==> fs[j].key != k
    ensures Find(fs, k) == Some(i)
  {
    if i > 0 {
      FindFirst(fs[1..], k, i - 1);
    }
  }

  lemma {:induction false} FindUnaffected(fs: seq<Field>, i: nat, f: Field, k': string)
    requires i < |fs| && fs[i].key == f.key && f.key != k'
    ensures Find(fs[i := f], k') == Find(fs, k')
  {
    var r := fs[i := f];
    assert forall j :: 0 <= j < |fs| ==> (r[j].key == k' <==> fs[j].key == k');
    match Find(fs, k')
    case None =>
    case Some(m) =>
      assert r[m].key == k';
  }

  lemma {:induction false} FindAppend(fs: seq<Field>, f: Field, k': string)
    requires f.key != k'
    ensures Find(fs + [f], k') == Find(fs, k')
  {
    var r := fs + [f];
    assert forall j :: 0 <= j < |fs| ==> r[j] == fs[j];
    match Find(fs, k')
    case None =>
    case Some(m) =>
      assert r[m].key == k';
  }

  /** `{...a, ...b}`: the entries of `b` written over those of `a`, in order. */
  function Merge(a: seq<Field>, b: seq<Field>): (r: seq<Field>)
    ensures Unique(a) ==> Unique(r)
    decreases |b|
  {
    if b == [] then a else Merge(Put(a, b[0].key, b[0].val), b[1..])
  }

  /** In a spread, a key of the right-hand object always wins; other keys keep their values. */
  lemma {:induction false} MergeGet(a: seq<Field>, b: seq<Field>, k: string)
    requires Unique(b)
    ensures Get(Merge(a, b), k) == if Get(b, k).Some? then Get(b, k) else Get(a, k)
    decreases |b|
  {
    if b != [] {
      var a' := Put(a, b[0].key, b[0].val);
      assert Unique(b[1..]);
      MergeGet(a', b[1..], k);
      if b[0].key == k {
        assert Find(b, k) == Some(0);
        assert Find(b[1..], k).None? by {
          forall j | 0 <= j < |b[1..]| ensures b[1..][j].key != k {
            assert b[1..][j] == b[j + 1];
          }
        }
      } else {
        assert Find(b, k) == match Find(b[1..], k) case None => None case Some(i) => Some(i + 1);
      }
    }
  }

  /** `array.map(f)` where `f` may throw: every result in order, or the error of the first
      element that throws. */
  function AllOk<T>(rs: seq<Result<T>>): (r: Result<seq<T>>)
    ensures r.Ok? <==> forall i :: 0 <= i < |rs| ==> rs[i].Ok?
    ensures r.Ok? ==> |r.value| == |rs| && forall i :: 0 <= i < |rs| ==> rs[i] == Ok(r.value[i])
    ensures r.Err? ==> exists k :: 0 <= k < |rs| && rs[k] == Err(r.error) && forall j :: 0 <= j < k ==> rs[j].Ok?
    decreases |rs|
  {
    if rs == [] then Ok([])
    else match rs[0]
      case Err(e) => Err(e)
      case Ok(first) =>
        var rest := AllOk(rs[1..]);
        assert forall i :: 1 <= i < |rs| ==> rs[i] == rs[1..][i - 1];
        if rest.Err? then
          var k :| 0 <= k < |rs[1..]| && rs[1..][k] == Err(rest.error) && forall j :: 0 <= j < k ==> rs[1..][j].Ok?;
          assert rs[k + 1] == Err(rest.error);
          Err(rest.error)
        else
          Ok([first] + rest.value)
  }

  /** The first element that throws decides the error. */
  lemma AllOkFirstError<T>(rs: seq<Result<T>>, k: nat)
    requires k < |rs| && rs[k].Err? && forall j :: 0 <= j < k ==> rs[j].Ok?
    ensures AllOk(rs) == Err(rs[k].error)
  {
    var r := AllOk(rs);
    var m :| 0 <= m < |rs| && rs[m] == Err(r.error) && forall j :: 0 <= j < m ==> rs[j].Ok?;
    assert m == k;
  }

  /** JavaScript truthiness; `None` stands for `undefined`. */
  predicate Truthy(v: Option<Value>) {
    match v
    case None => false
    case Some(Null) => false
    case Some(Bool(b)) => b
    case Some(Num(n)) => n != 0.0
    case Some(Str(s)) => s != ""
    case Some(Arr(_)) => true
    case Some(Obj(_)) => true
  }

  /** `a === b` on primitives. Reference identity is not modelled: an array or object
      never equals anything, not even when a path leads back to the very same object. */
  predicate StrictEquals(a: Option<Value>, b: Option<Value>) {
    match (a, b)
    case (None, None) => true
    case (Some(Null), Some(Null)) => true
    case (Some(Bool(x)), Some(Bool(y))) => x == y
    case (Some(Num(x)), Some(Num(y))) => x == y
    case (Some(Str(x)), Some(Str(y))) => x == y
    case _ => false
  }

  /** Strictly equal operands are the same value. */
  lemma StrictEqualsSame(a: Option<Value>, b: Option<Value>)
    requires StrictEquals(a, b)
    ensures a == b
  {
  }

  /** `v.key` on a value that is not `null` or `undefined`: only objects have the
      properties the compiler reads. */
  function Prop(v: Value, key: string): (r: Option<Value>)
    ensures r.Some? ==> v.Obj?
  {
    if v.Obj? then Get(v.fields, key) else None
  }

  /** `Prop` lifted to a possibly absent value, for reads guarded by validation. */
  function PropOf(v: Option<Value>, key: string): Option<Value> {
    if v.Some? then Prop(v.value, key) else None
  }

  /** A non-blank string. */
  predicate IsNonBlankString(v: Option<Value>) {
    v.Some? && v.value.Str? && !IsBlank(v.value.s)
  }

  /** `String(n)` for a number: JavaScript's shortest round-trip formatting, foreign to the model. */
  type NumFormat = real -> string

  /** `String(value)`. */
  function ToStr(v: Value, fmt: NumFormat): string {
    match v
    case Null => "null"
    case Bool(b) => if b then "true" else "false"
    case Num(n) => fmt(n)
    case Str(s) => s
    case Arr(items) => JoinItems(items, fmt)
    case Obj(_) => "[object Object]"
  }

  /** `Array.prototype.join(",")`, which writes `null` elements as empty text. */
  function JoinItems(items: seq<Value>, fmt: NumFormat): string {
    if items == [] then ""
    else
      var head := if items[0].Null? then "" else ToStr(items[0], fmt);
      if |items| == 1 then head else head + "," + JoinItems(items[1..], fmt)
  }

  /** `${value}` in a template literal, where `undefined` is written out. */
  function OptToStr(v: Option<Value>, fmt: NumFormat): string {
    if v.Some? then ToStr(v.value, fmt) else "undefined"
  }

  /** The own enumerable entries that `{...v}` copies: an object's entries, an
      array's or a string's elements under their index keys, nothing otherwise. */
  function SpreadEntries(v: Option<Value>): (r: seq<Field>)
    ensures v.Some? && v.value.Obj? ==> r == v.value.fields
  {
    match v
    case Some(Obj(fs)) => fs
    case Some(Arr(items)) => seq(|items|, i requires 0 <= i < |items| => Field(NatToString(i), items[i]))
    case Some(Str(s)) => seq(|s|, i requires 0 <= i < |s| => Field(NatToString(i), Str([s[i]])))
    case _ => []
  }

  /** `path.join` over plain segments: the non-empty ones, separated by "/". */
  function JoinPath(parts: seq<string>): (r: string)
  {
    if parts == [] then ""
    else
      var rest := JoinPath(parts[1..]);
      if parts[0] == "" then rest
      else if rest == "" then parts[0]
      else parts[0] + "/" + rest
  }
}
