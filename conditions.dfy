/** Dotted-path lookup, version comparison and the boolean condition grammar
    that guards capability rules and blueprint steps. */
module Conditions {
  import opened Text
  import opened Json

  // ---------------------------------------------------------------- path lookup

  /** A segment that names an array element: decimal digits without a leading zero. */
  predicate IsIndex(seg: string) {
    seg != [] && AllDigits(seg) && (seg[0] == '0' ==> |seg| == 1)
  }

  /** One step of `getPathValue`: `cursor[segment]` when the cursor is a non-null
      object that has the segment as a property, absent otherwise. */
  function Child(cursor: Value, seg: string): (r: Option<Value>)
    ensures r.Some? ==> cursor.Obj? || cursor.Arr?
    ensures cursor.Obj? ==> r == Get(cursor.fields, seg)
  {
    match cursor
    case Obj(fs) => Get(fs, seg)
    case Arr(items) =>
      if seg == "length" then Some(Num(|items| as real))
      else if IsIndex(seg) && DecimalValue(seg) < |items| then Some(items[DecimalValue(seg)])
      else None
    case _ => None
  }

  /** Follows the segments one at a time from `cursor`. */
  function Walk(cursor: Value, segs: seq<string>): Option<Value>
    decreases segs
  {
    if segs == [] then Some(cursor)
    else match Child(cursor, segs[0])
      case None => None
      case Some(next) => Walk(next, segs[1..])
  }

  /** `getPathValue(source, path)`: an error for a path that is not a non-blank
      string, otherwise the value at the path, or absent. */
  function GetPath(source: Value, path: Option<Value>): (r: Result<Option<Value>>)
    ensures r.Err? <==> !IsNonBlankString(path)
    ensures r.Err? ==> r.error == PathNotString
  {
    if !IsNonBlankString(path) then Err(PathNotString)
    else Ok(Walk(source, Split(path.value.s, '.')))
  }

  /** `getPathValue` as the source writes it: a cursor advanced one segment at a time. */
  method GetPathValue(source: Value, path: Option<Value>) returns (r: Result<Option<Value>>)
    ensures r == GetPath(source, path)
  {
    if !IsNonBlankString(path) {
      return Err(PathNotString);
    }
    var segments := Split(path.value.s, '.');
    var cursor := source;
    for i := 0 to |segments|
      invariant Walk(source, segments) == Walk(cursor, segments[i..])
    {
      var next := Child(cursor, segments[i]);
      if next.None? {
        return Ok(None);
      }
      assert segments[i..][1..] == segments[i + 1..];
      cursor := next.value;
    }
    return Ok(Some(cursor));
  }

  lemma {:induction false} WalkConcat(cursor: Value, a: seq<string>, b: seq<string>)
    decreases a
    ensures Walk(cursor, a + b) == match Walk(cursor, a) case None => None case Some(v) => Walk(v, b)
  {
    if a != [] {
      assert (a + b)[0] == a[0] && (a + b)[1..] == a[1..] + b;
      match Child(cursor, a[0])
      case None =>
      case Some(next) => WalkConcat(next, a[1..], b);
    } else {
      assert a + b == b;
    }
  }

  /** The value at "a.b" is the value at "b" inside the value at "a"; below an
      absent value everything is absent. */
  lemma {:induction false} GetPathCompose(source: Value, a: string, b: string)
    requires !IsBlank(a) && !IsBlank(b)
    ensures !IsBlank(a + "." + b)
    ensures GetPath(source, Some(Str(a + "." + b))) ==
      match GetPath(source, Some(Str(a)))
      case Ok(Some(v)) => GetPath(v, Some(Str(b)))
      case _ => Ok(None)
  {
    assert (a + "." + b)[..|a|] == a;
    assert a + "." + b == a + ['.'] + b;
    SplitConcat(a, b, '.');
    WalkConcat(source, Split(a, '.'), Split(b, '.'));
  }

  /** A path without dots reads one property. */
  lemma {:induction false} GetPathSingle(source: Value, k: string)
    requires !IsBlank(k) && '.' !in k
    ensures GetPath(source, Some(Str(k))) == Ok(Child(source, k))
  {
    SplitNoSeparator(k, '.');
    var segs := Split(k, '.');
    assert segs[0] == k && segs[1..] == [];
    match Child(source, k)
    case None =>
    case Some(v) =>
      assert Walk(source, segs) == Walk(v, segs[1..]);
  }

  /** An explicit `null` leaf is returned as it is, while anything below it is absent. */
  lemma NullLeafKept(fs: seq<Field>, k: string, rest: string)
    requires !IsBlank(k) && '.' !in k && !IsBlank(rest)
    requires Get(fs, k) == Some(Null)
    ensures GetPath(Obj(fs), Some(Str(k))) == Ok(Some(Null))
    ensures GetPath(Obj(fs), Some(Str(k + "." + rest))) == Ok(None)
  {
    GetPathSingle(Obj(fs), k);
    GetPathCompose(Obj(fs), k, rest);
    SplitConcat(k, rest, '.');
    assert Split(rest, '.') != [];
  }

  // ---------------------------------------------------------------- versions

  /** A coerced version `major.minor.patch`. */
  datatype Version = Version(major: nat, minor: nat, patch: nat)

  /** Reads `.digits` at the start of `t`: the number and the text after it, or
      `0` and `t` itself when `t` does not start that way. */
  function DotPart(t: string): (r: (nat, string))
    ensures |r.1| <= |t|
  {
    if |t| >= 2 && t[0] == '.' && IsDigit(t[1]) then
      var k := DigitSpan(t[1..]);
      (DecimalValue(t[1..][..k]), t[1..][k..])
    else (0, t)
  }

  /** The version spelled from the first digit of `s` on: a digit run, then up to two `.digits` parts. */
  function ReadVersion(s: string): Version
    requires s != [] && IsDigit(s[0])
  {
    var n := DigitSpan(s);
    var (minor, rest) := DotPart(s[n..]);
    var (patch, _) := DotPart(rest);
    Version(DecimalValue(s[..n]), minor, patch)
  }

  /** `semver.coerce`: the first version-like run of digits anywhere in the
      string, missing parts read as zero; absent when the string has no digit. */
  function Coerce(s: string): (r: Option<Version>)
    ensures r.None? <==> forall i :: 0 <= i < |s| ==> !IsDigit(s[i])
  {
    if s == [] then None
    else if IsDigit(s[0]) then Some(ReadVersion(s))
    else Coerce(s[1..])
  }

  /** `normalizeVersion`: absent for a non-string or blank input, or one without digits. */
  function NormalizeVersion(input: Option<Value>): (r: Option<Version>)
    ensures !IsNonBlankString(input) ==> r.None?
    ensures IsNonBlankString(input) ==> r == Coerce(Trim(input.value.s))
  {
    if !IsNonBlankString(input) then None else Coerce(Trim(input.value.s))
  }

  /** Numeric major.minor.patch order. */
  predicate Precedes(a: Version, b: Version) {
    a.major < b.major
    || (a.major == b.major && a.minor < b.minor)
    || (a.major == b.major && a.minor == b.minor && a.patch < b.patch)
  }

  /** `semver.compare` on two coerced versions. */
  function CompareTriples(a: Version, b: Version): (r: int)
    ensures r == -1 || r == 0 || r == 1
    ensures r == -1 <==> Precedes(a, b)
    ensures r == 1 <==> Precedes(b, a)
    ensures r == 0 <==> a == b
  {
    if a.major != b.major then (if a.major < b.major then -1 else 1)
    else if a.minor != b.minor then (if a.minor < b.minor then -1 else 1)
    else if a.patch != b.patch then (if a.patch < b.patch then -1 else 1)
    else 0
  }

  /** `compareVersions`: an error unless both sides normalise. */
  function CompareVersions(left: Option<Value>, right: Option<Value>): (r: Result<int>)
    ensures r.Err? <==> NormalizeVersion(left).None? || NormalizeVersion(right).None?
    ensures r.Err? ==> r.error == VersionsIncomparable(left, right)
    ensures r.Ok? ==> r.value == CompareTriples(NormalizeVersion(left).value, NormalizeVersion(right).value)
  {
    var l := NormalizeVersion(left);
    var rt := NormalizeVersion(right);
    if l.None? || rt.None? then Err(VersionsIncomparable(left, right))
    else Ok(CompareTriples(l.value, rt.value))
  }

  /** Swapping the operands negates the comparison, and a version equals itself. */
  lemma CompareVersionsAntisymmetric(left: Option<Value>, right: Option<Value>)
    ensures CompareVersions(left, right).Ok? <==> CompareVersions(right, left).Ok?
    ensures CompareVersions(left, right).Ok? ==>
      CompareVersions(right, left).value == -CompareVersions(left, right).value
    ensures NormalizeVersion(left).Some? ==> CompareVersions(left, left) == Ok(0)
  {
  }

  /** The text `coerced.version` holds. */
  function Render(v: Version): string {
    NatToString(v.major) + "." + NatToString(v.minor) + "." + NatToString(v.patch)
  }

  /** Coercing the text of a version gives back that version. */
  lemma {:induction false} CoerceRendered(v: Version)
    ensures Coerce(Render(v)) == Some(v)
  {
    var a := NatToString(v.major);
    var b := NatToString(v.minor);
    var c := NatToString(v.patch);
    var tail := "." + c;
    var rest := "." + b + tail;
    var s := Render(v);
    assert s == a + rest;
    DecimalOfNatToString(v.major);
    ReadVersionParts(s, a, rest);
    DotPartRead(b, tail);
    assert tail == "." + c + "";
    DotPartRead(c, "");
    DecimalOfNatToString(v.minor);
    DecimalOfNatToString(v.patch);
    assert ReadVersion(s) == v;
  }

  /** A leading digit run is the major part; the minor and patch parts are read from what follows it. */
  lemma ReadVersionParts(s: string, a: string, rest: string)
    requires s == a + rest && a != [] && AllDigits(a) && (rest != [] ==> !IsDigit(rest[0]))
    ensures s != [] && IsDigit(s[0])
    ensures ReadVersion(s) == Version(DecimalValue(a), DotPart(rest).0, DotPart(DotPart(rest).1).0)
  {
    assert s[0] == a[0];
    DigitSpanPrefix(a, rest);
    assert s[..|a|] == a && s[|a|..] == rest;
  }

  /** A version-shaped string, possibly padded, normalises to the version it spells. */
  lemma {:induction false} NormalizeRendered(v: Version, pad: string)
    requires IsBlank(pad)
    ensures NormalizeVersion(Some(Str(pad + Render(v) + pad))) == Some(v)
  {
    var s := Render(v);
    RenderEnds(v);
    var t := pad + s + pad;
    TrimPadded(pad, s, pad);
    assert t[|pad|] == s[0];
    assert IsNonBlankString(Some(Str(t)));
    CoerceRendered(v);
  }

  lemma RenderEnds(v: Version)
    ensures Render(v) != [] && IsDigit(Render(v)[0]) && IsDigit(Render(v)[|Render(v)| - 1])
  {
    var a := NatToString(v.major);
    var c := NatToString(v.patch);
    var s := Render(v);
    assert s == a + ("." + NatToString(v.minor) + "." + c);
    assert s[0] == a[0];
    assert s[|s| - 1] == c[|c| - 1];
  }

  lemma {:induction false} DigitSpanPrefix(d: string, rest: string)
    requires d != [] && AllDigits(d) && (rest != [] ==> !IsDigit(rest[0]))
    ensures DigitSpan(d + rest) == |d|
  {
    if |d| > 1 {
      assert (d + rest)[1..] == d[1..] + rest;
      DigitSpanPrefix(d[1..], rest);
    } else {
      assert (d + rest)[1..] == rest;
    }
  }

  lemma {:induction false} DotPartRead(d: string, rest: string)
    requires d != [] && AllDigits(d) && (rest != [] ==> !IsDigit(rest[0]))
    ensures DotPart("." + d + rest) == (DecimalValue(d), rest)
  {
    var t := "." + d + rest;
    assert t[1..] == d + rest;
    DigitSpanPrefix(d, rest);
    assert t[1..][..|d|] == d;
    assert t[1..][|d|..] == rest;
  }

  // ---------------------------------------------------------------- conditions

  /** The four version tests and the sign of the comparison each accepts. */
  datatype VersionTest = AtLeast | Above | AtMost | Below

  function Accepts(test: VersionTest, c: int): bool {
    match test
    case AtLeast => c >= 0
    case Above => c > 0
    case AtMost => c <= 0
    case Below => c < 0
  }

  /** `evaluateCondition(condition, context)`. */
  function Eval(condition: Value, context: Value): (r: Result<bool>)
    decreases condition, 1
  {
    if !Truthy(Some(condition)) then Ok(true)
    else match condition
      case Bool(b) => Ok(b)
      case Arr(_) => Err(ConditionIsArray)
      case Obj(fs) =>
        var all := Find(fs, "all");
        var any := Find(fs, "any");
        var neg := Find(fs, "not");
        if all.Some? && fs[all.value].val.Arr? then EvalAll(fs[all.value].val.items, context)
        else if any.Some? && fs[any.value].val.Arr? then EvalAny(fs[any.value].val.items, context)
        else if neg.Some? then
          var inner :- Eval(fs[neg.value].val, context);
          Ok(!inner)
        else EvalLeaf(fs, context)
      case _ => Err(ConditionNotObject)
  }

  /** `items.every(...)`: stops at the first item that is not true. */
  function EvalAll(items: seq<Value>, context: Value): Result<bool>
    decreases items, 0
  {
    if items == [] then Ok(true)
    else
      var first :- Eval(items[0], context);
      if !first then Ok(false) else EvalAll(items[1..], context)
  }

  /** `items.some(...)`: stops at the first item that is true. */
  function EvalAny(items: seq<Value>, context: Value): Result<bool>
    decreases items, 0
  {
    if items == [] then Ok(false)
    else
      var first :- Eval(items[0], context);
      if first then Ok(true) else EvalAny(items[1..], context)
  }

  /** The non-recursive shapes, tried in the source's order. */
  function EvalLeaf(fs: seq<Field>, context: Value): Result<bool> {
    var capability := Get(fs, "capability");
    var equals := Get(fs, "equals");
    var exists_ := Get(fs, "exists");
    if capability.Some? && capability.value.Str? then
      var value :- GetPath(context, Some(Str("capabilities." + capability.value.s)));
      Ok(value == Some(Bool(true)))
    else if Truthy(equals) then
      var left :- GetPath(context, Prop(equals.value, "path"));
      Ok(StrictEquals(left, Prop(equals.value, "value")))
    else if Truthy(exists_) then
      var path := if exists_.value.Str? then exists_ else Prop(exists_.value, "path");
      var value :- GetPath(context, path);
      Ok(value.Some?)
    else if Truthy(Get(fs, "version_gte")) then EvalVersion(Get(fs, "version_gte").value, AtLeast, context)
    else if Truthy(Get(fs, "version_gt")) then EvalVersion(Get(fs, "version_gt").value, Above, context)
    else if Truthy(Get(fs, "version_lte")) then EvalVersion(Get(fs, "version_lte").value, AtMost, context)
    else if Truthy(Get(fs, "version_lt")) then EvalVersion(Get(fs, "version_lt").value, Below, context)
    else Err(UnsupportedCondition(Obj(fs)))
  }

  function EvalVersion(spec: Value, test: VersionTest, context: Value): Result<bool> {
    var left :- GetPath(context, Prop(spec, "path"));
    var c :- CompareVersions(left, Prop(spec, "value"));
    Ok(Accepts(test, c))
  }

  /** A condition that may be absent, as `step.when` and `rule.when` are. */
  function Evaluate(condition: Option<Value>, context: Value): (r: Result<bool>)
    ensures condition.None? ==> r == Ok(true)
  {
    if condition.None? then Ok(true) else Eval(condition.value, context)
  }

  /** Every falsy condition, literal `false` included, holds; only `true` is
      returned as itself; arrays and other non-objects are rejected. */
  lemma EvalScalars(condition: Value, context: Value)
    requires !condition.Obj?
    ensures !Truthy(Some(condition)) ==> Eval(condition, context) == Ok(true)
    ensures condition == Bool(true) ==> Eval(condition, context) == Ok(true)
    ensures condition.Arr? ==> Eval(condition, context) == Err(ConditionIsArray)
    ensures Truthy(Some(condition)) && !condition.Arr? && !condition.Bool? ==>
      Eval(condition, context) == Err(ConditionNotObject)
  {
  }

  /** Item `k` is the first whose result is not `Ok(expected)`. */
  predicate FirstOther(items: seq<Value>, context: Value, k: int, expected: bool) {
    0 <= k < |items| && Eval(items[k], context) != Ok(expected)
    && forall i :: 0 <= i < k ==> Eval(items[i], context) == Ok(expected)
  }

  /** `all` holds iff every item holds; otherwise its result is that of the first
      item that does not hold, and the items after it are never evaluated. */
  lemma {:induction false} EvalAllEvery(items: seq<Value>, context: Value)
    ensures EvalAll(items, context) == Ok(true) <==>
      forall i :: 0 <= i < |items| ==> Eval(items[i], context) == Ok(true)
    ensures forall k :: FirstOther(items, context, k, true) ==> EvalAll(items, context) == Eval(items[k], context)
  {
    if items != [] {
      var tail := items[1..];
      EvalAllEvery(tail, context);
      if EvalAll(items, context) == Ok(true) {
        forall i | 0 <= i < |items| ensures Eval(items[i], context) == Ok(true) {
          if i > 0 { assert items[i] == tail[i - 1]; }
        }
      }
      if forall i :: 0 <= i < |items| ==> Eval(items[i], context) == Ok(true) {
        forall i | 0 <= i < |tail| ensures Eval(tail[i], context) == Ok(true) {
          assert tail[i] == items[i + 1];
        }
      }
      forall k | FirstOther(items, context, k, true)
        ensures EvalAll(items, context) == Eval(items[k], context)
      {
        if k > 0 {
          forall i | 0 <= i < k - 1 ensures Eval(tail[i], context) == Ok(true) {
            assert tail[i] == items[i + 1];
          }
          assert tail[k - 1] == items[k];
          assert FirstOther(tail, context, k - 1, true);
        }
      }
    }
  }

  /** `any` is false iff every item is false; otherwise its result is that of the
      first item that is not false. */
  lemma {:induction false} EvalAnySome(items: seq<Value>, context: Value)
    ensures EvalAny(items, context) == Ok(false) <==>
      forall i :: 0 <= i < |items| ==> Eval(items[i], context) == Ok(false)
    ensures forall k :: FirstOther(items, context, k, false) ==> EvalAny(items, context) == Eval(items[k], context)
  {
    if items != [] {
      var tail := items[1..];
      EvalAnySome(tail, context);
      if EvalAny(items, context) == Ok(false) {
        forall i | 0 <= i < |items| ensures Eval(items[i], context) == Ok(false) {
          if i > 0 { assert items[i] == tail[i - 1]; }
        }
      }
      if forall i :: 0 <= i < |items| ==> Eval(items[i], context) == Ok(false) {
        forall i | 0 <= i < |tail| ensures Eval(tail[i], context) == Ok(false) {
          assert tail[i] == items[i + 1];
        }
      }
      forall k | FirstOther(items, context, k, false)
        ensures EvalAny(items, context) == Eval(items[k], context)
      {
        if k > 0 {
          forall i | 0 <= i < k - 1 ensures Eval(tail[i], context) == Ok(false) {
            assert tail[i] == items[i + 1];
          }
          assert tail[k - 1] == items[k];
          assert FirstOther(tail, context, k - 1, false);
        }
      }
    }
  }

  /** `all: []` holds and `any: []` does not, whatever else the object holds,
      as long as no earlier shape applies. */
  lemma EmptyCombinators(rest: seq<Field>, context: Value)
    ensures Eval(Obj([Field("all", Arr([]))] + rest), context) == Ok(true)
    ensures Find(rest, "all").None? ==> Eval(Obj([Field("any", Arr([]))] + rest), context) == Ok(false)
  {
    var fs := [Field("all", Arr([]))] + rest;
    assert Find(fs, "all") == Some(0);
    if Find(rest, "all").None? {
      var gs := [Field("any", Arr([]))] + rest;
      assert gs[1..] == rest;
      assert Find(gs, "all").None?;
      assert Find(gs, "any") == Some(0);
    }
  }

  /** The shapes after `all`, `any` and `not` are tried whenever neither `all` nor `any` is an
      array and there is no `not`; an `all` or `any` of another type does not stop them. */
  lemma LeafShapes(fs: seq<Field>, context: Value)
    requires !(Get(fs, "all").Some? && Get(fs, "all").value.Arr?)
    requires !(Get(fs, "any").Some? && Get(fs, "any").value.Arr?)
    requires Find(fs, "not").None?
    ensures Eval(Obj(fs), context) == EvalLeaf(fs, context)
  {
  }

  /** `not` negates its operand; `not: null` is false because `null` holds. */
  lemma NotNegates(operand: Value, context: Value)
    ensures Eval(operand, context).Ok? ==>
      Eval(Obj([Field("not", operand)]), context) == Ok(!Eval(operand, context).value)
    ensures Eval(Obj([Field("not", Null)]), context) == Ok(false)
  {
    NotSingle(operand, context);
    NotSingle(Null, context);
  }

  lemma NotSingle(operand: Value, context: Value)
    ensures Eval(operand, context).Ok? ==>
      Eval(Obj([Field("not", operand)]), context) == Ok(!Eval(operand, context).value)
  {
    var fs := [Field("not", operand)];
    FindFirst(fs, "not", 0);
    assert Find(fs, "all").None? && Find(fs, "any").None?;
    NotShape(fs, context);
  }

  /** An object with `not` in which neither `all` nor `any` is an array negates the operand of its first `not`. */
  lemma NotShape(fs: seq<Field>, context: Value)
    requires !(Get(fs, "all").Some? && Get(fs, "all").value.Arr?)
    requires !(Get(fs, "any").Some? && Get(fs, "any").value.Arr?)
    requires Find(fs, "not").Some?
    ensures var inner := Eval(fs[Find(fs, "not").value].val, context);
      Eval(Obj(fs), context) == if inner.Ok? then Ok(!inner.value) else Err(inner.error)
  {
  }

  /** The context objects conditions are evaluated in: a `capabilities` object among other keys. */
  predicate HasCapabilities(context: Value, caps: seq<Field>) {
    context.Obj? && Get(context.fields, "capabilities") == Some(Obj(caps))
  }

  /** `capability: n` holds iff the capability `n` is exactly `true`. */
  lemma {:induction false} CapabilityExactlyTrue(name: string, context: Value, caps: seq<Field>)
    requires HasCapabilities(context, caps)
    requires !IsBlank(name) && '.' !in name
    ensures Eval(Obj([Field("capability", Str(name))]), context) ==
      Ok(Get(caps, name) == Some(Bool(true)))
  {
    CapabilityAtPath(name, context);
    CapabilityPath(context, caps, name);
  }

  /** `capability: n` reads the whole path `capabilities.n` and holds iff the value there is exactly `true`. */
  lemma CapabilityAtPath(name: string, context: Value)
    ensures Eval(Obj([Field("capability", Str(name))]), context) ==
      match GetPath(context, Some(Str("capabilities." + name)))
      case Ok(v) => Ok(v == Some(Bool(true)))
      case Err(e) => Err(e)
  {
    var fs := [Field("capability", Str(name))];
    SingleGet("capability", Str(name), "all");
    SingleGet("capability", Str(name), "any");
    SingleGet("capability", Str(name), "not");
    LeafShapes(fs, context);
  }

  /** The path a `capability` condition reads. */
  lemma {:induction false} CapabilityPath(context: Value, caps: seq<Field>, name: string)
    requires HasCapabilities(context, caps)
    requires !IsBlank(name) && '.' !in name
    ensures GetPath(context, Some(Str("capabilities." + name))) == Ok(Get(caps, name))
  {
    var c := "capabilities";
    assert !IsBlank(c) by { assert !IsWhitespace(c[0]); }
    assert '.' !in c;
    assert "capabilities." + name == c + "." + name;
    GetPathSingle(context, c);
    GetPathCompose(context, c, name);
    GetPathSingle(Obj(caps), name);
  }

  /** `exists` is true for an explicit `null` and false only for an absent property. */
  lemma {:induction false} ExistsTellsNullFromAbsent(key: string, context: Value)
    requires context.Obj? && !IsBlank(key) && '.' !in key
    ensures Eval(Obj([Field("exists", Str(key))]), context) == Ok(Get(context.fields, key).Some?)
    ensures Get(context.fields, key) == Some(Null) ==>
      Eval(Obj([Field("exists", Str(key))]), context) == Ok(true)
  {
    assert key != [];
    ExistsAtPath(key, context);
    GetPathSingle(context, key);
  }

  /** `exists: p` is true iff the value along the whole path `p` is present, `null` included. */
  lemma ExistsAtPath(path: string, context: Value)
    requires path != []
    ensures Eval(Obj([Field("exists", Str(path))]), context) ==
      match GetPath(context, Some(Str(path)))
      case Ok(v) => Ok(v.Some?)
      case Err(e) => Err(e)
  {
    var fs := [Field("exists", Str(path))];
    SingleGet("exists", Str(path), "all");
    SingleGet("exists", Str(path), "any");
    SingleGet("exists", Str(path), "not");
    SingleGet("exists", Str(path), "capability");
    SingleGet("exists", Str(path), "equals");
    LeafShapes(fs, context);
  }

  /** `equals` compares the value at the path with the literal by strict equality:
      a number never equals a string, and an absent value equals no literal. */
  lemma {:induction false} EqualsIsStrict(key: string, literal: Value, context: Value)
    requires context.Obj? && !IsBlank(key) && '.' !in key
    ensures Eval(Obj([Field("equals", Obj([Field("path", Str(key)), Field("value", literal)]))]), context)
      == Ok(StrictEquals(Get(context.fields, key), Some(literal)))
    ensures Get(context.fields, key) == Some(Num(1.0)) ==>
      Eval(Obj([Field("equals", Obj([Field("path", Str(key)), Field("value", Str("1"))]))]), context) == Ok(false)
  {
    EqualsLeaf(key, literal, context);
    EqualsLeaf(key, Str("1"), context);
  }

  lemma EqualsLeaf(key: string, literal: Value, context: Value)
    requires context.Obj? && !IsBlank(key) && '.' !in key
    ensures Eval(Obj([Field("equals", Obj([Field("path", Str(key)), Field("value", literal)]))]), context)
      == Ok(StrictEquals(Get(context.fields, key), Some(literal)))
  {
    EqualsAtPath(Str(key), literal, context);
    GetPathSingle(context, key);
  }

  /** `equals: {path, value}` reads the whole path and compares what it finds with the literal by `===`. */
  lemma EqualsAtPath(path: Value, literal: Value, context: Value)
    ensures Eval(Obj([Field("equals", Obj([Field("path", path), Field("value", literal)]))]), context) ==
      match GetPath(context, Some(path))
      case Ok(v) => Ok(StrictEquals(v, Some(literal)))
      case Err(e) => Err(e)
  {
    var spec := Obj([Field("path", path), Field("value", literal)]);
    var fs := [Field("equals", spec)];
    SingleGet("equals", spec, "all");
    SingleGet("equals", spec, "any");
    SingleGet("equals", spec, "not");
    SingleGet("equals", spec, "capability");
    LeafShapes(fs, context);
    assert Prop(spec, "path") == Some(path);
    assert Prop(spec, "value") == Some(literal) by {
      assert Find(spec.fields, "value") == Some(1);
    }
  }

  /** The keys a condition object is recognised by, in the order they are tried. */
  const ConditionKeys: seq<string> := ["all", "any", "not", "capability", "equals", "exists",
                                       "version_gte", "version_gt", "version_lte", "version_lt"]

  /** An object none of whose keys the grammar knows is an unsupported condition. */
  lemma UnrecognisedIsUnsupported(fs: seq<Field>, context: Value)
    requires forall j :: 0 <= j < |fs| ==> fs[j].key !in ConditionKeys
    ensures Eval(Obj(fs), context) == Err(UnsupportedCondition(Obj(fs)))
  {
    forall k | k in ConditionKeys ensures Find(fs, k).None? {
      assert forall j :: 0 <= j < |fs| ==> fs[j].key != k;
    }
    assert "all" in ConditionKeys && "any" in ConditionKeys && "not" in ConditionKeys;
    assert "capability" in ConditionKeys && "equals" in ConditionKeys && "exists" in ConditionKeys;
    assert "version_gte" in ConditionKeys && "version_gt" in ConditionKeys;
    assert "version_lte" in ConditionKeys && "version_lt" in ConditionKeys;
    LeafShapes(fs, context);
  }

  /** The key of each version test. */
  function VersionKey(test: VersionTest): string {
    match test
    case AtLeast => "version_gte"
    case Above => "version_gt"
    case AtMost => "version_lte"
    case Below => "version_lt"
  }

  /** A version test compares the version at the path with the literal: `version_gte` holds
      iff the comparison is at least 0, `version_gt` iff it is positive, `version_lte` iff it
      is at most 0, `version_lt` iff it is negative; versions that do not normalise throw. */
  lemma VersionCompares(test: VersionTest, key: string, literal: Value, context: Value)
    requires context.Obj? && !IsBlank(key) && '.' !in key
    ensures var c := CompareVersions(Get(context.fields, key), Some(literal));
      Eval(Obj([Field(VersionKey(test), Obj([Field("path", Str(key)), Field("value", literal)]))]), context)
      == if c.Err? then Err(c.error) else Ok(Accepts(test, c.value))
  {
    VersionAtPath(test, Str(key), literal, context);
    GetPathSingle(context, key);
  }

  /** A version test reads the whole path and compares the version found there with the literal. */
  lemma VersionAtPath(test: VersionTest, path: Value, literal: Value, context: Value)
    ensures Eval(Obj([Field(VersionKey(test), Obj([Field("path", path), Field("value", literal)]))]), context) ==
      match GetPath(context, Some(path))
      case Err(e) => Err(e)
      case Ok(left) =>
        var c := CompareVersions(left, Some(literal));
        if c.Err? then Err(c.error) else Ok(Accepts(test, c.value))
  {
    var spec := Obj([Field("path", path), Field("value", literal)]);
    var fs := [Field(VersionKey(test), spec)];
    SingleGet(VersionKey(test), spec, "all");
    SingleGet(VersionKey(test), spec, "any");
    SingleGet(VersionKey(test), spec, "not");
    LeafShapes(fs, context);
    VersionDispatch(test, spec, context);
    VersionSpecReads(test, path, literal, context);
  }

  /** A single version key selects its own test. */
  lemma VersionDispatch(test: VersionTest, spec: Value, context: Value)
    requires spec.Obj?
    ensures EvalLeaf([Field(VersionKey(test), spec)], context) == EvalVersion(spec, test, context)
  {
    var k := VersionKey(test);
    SingleGet(k, spec, "capability");
    SingleGet(k, spec, "equals");
    SingleGet(k, spec, "exists");
    var fs := [Field(k, spec)];
    assert Get(fs, "capability").None? && Get(fs, "equals").None? && Get(fs, "exists").None?;
    match test
    case AtLeast =>
      assert Get(fs, "version_gte") == Some(spec);
    case Above =>
      SingleGet(k, spec, "version_gte");
      assert Get(fs, "version_gt") == Some(spec);
    case AtMost =>
      SingleGet(k, spec, "version_gte");
      SingleGet(k, spec, "version_gt");
      assert Get(fs, "version_lte") == Some(spec);
    case Below =>
      SingleGet(k, spec, "version_gte");
      SingleGet(k, spec, "version_gt");
      SingleGet(k, spec, "version_lte");
      assert Get(fs, "version_lt") == Some(spec);
  }

  /** The lookups in an object of one field. */
  lemma SingleGet(k: string, v: Value, other: string)
    ensures Get([Field(k, v)], k) == Some(v)
    ensures other != k ==> Get([Field(k, v)], other).None?
  {
    assert [Field(k, v)][0].key == k;
  }


  /** A version test reads its path and its literal. */
  lemma VersionSpecReads(test: VersionTest, path: Value, literal: Value, context: Value)
    ensures EvalVersion(Obj([Field("path", path), Field("value", literal)]), test, context) ==
      match GetPath(context, Some(path))
      case Err(e) => Err(e)
      case Ok(left) =>
        var c := CompareVersions(left, Some(literal));
        if c.Err? then Err(c.error) else Ok(Accepts(test, c.value))
  {
    var spec := Obj([Field("path", path), Field("value", literal)]);
    assert Prop(spec, "path") == Some(path);
    assert Prop(spec, "value") == Some(literal) by {
      assert Find(spec.fields, "value") == Some(1);
    }
  }

}
