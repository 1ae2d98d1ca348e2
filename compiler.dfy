/** The compiler: id sanitising, `{{ path }}` interpolation, template
    resolution, capability derivation, per-job compilation and matrix assembly. */
module Compiler {
  import opened Text
  import opened Json
  import opened Conditions
  import opened Contracts

  // ---------------------------------------------------------------- sanitizeId

  /** The characters `[a-z0-9-_]` that survive sanitising. */
  predicate IsIdChar(c: char) {
    'a' <= c <= 'z' || '0' <= c <= '9' || c == '-' || c == '_'
  }

  predicate NoDoubleHyphen(s: string) {
    forall i :: 0 <= i < |s| - 1 ==> !(s[i] == '-' && s[i + 1] == '-')
  }

  /** A sanitised id: only `[a-z0-9-_]`, no run of hyphens, no hyphen at either end. */
  predicate IsCleanId(s: string) {
    (forall i :: 0 <= i < |s| ==> IsIdChar(s[i]))
    && NoDoubleHyphen(s)
    && (s != [] ==> s[0] != '-' && s[|s| - 1] != '-')
  }

  /** `.replace(/\s+/g, "-")`: every run of whitespace becomes one hyphen. */
  function DashWhitespace(s: string): (r: string)
    ensures forall i :: 0 <= i < |r| ==> !IsWhitespace(r[i])
    ensures (forall i :: 0 <= i < |s| ==> !IsWhitespace(s[i])) ==> r == s
    decreases |s|
  {
    if s == [] then []
    else if IsWhitespace(s[0]) then "-" + DashWhitespace(s[WhitespaceSpan(s)..])
    else
      assert forall i :: 0 <= i < |s| - 1 ==> s[1..][i] == s[i + 1];
      [s[0]] + DashWhitespace(s[1..])
  }

  /** `.replace(/[^a-z0-9-_]/g, "-")`. */
  function MaskDisallowed(s: string): (r: string)
    ensures |r| == |s| && forall i :: 0 <= i < |r| ==> IsIdChar(r[i])
    ensures (forall i :: 0 <= i < |s| ==> IsIdChar(s[i])) ==> r == s
  {
    seq(|s|, i requires 0 <= i < |s| => if IsIdChar(s[i]) then s[i] else '-')
  }

  /** `.replace(/-+/g, "-")`. */
  function CollapseHyphens(s: string): (r: string)
    ensures NoDoubleHyphen(r)
    ensures forall c :: c in r ==> c in s
    ensures s != [] ==> r != [] && r[0] == s[0] && r[|r| - 1] == s[|s| - 1]
    ensures NoDoubleHyphen(s) ==> r == s
  {
    if s == [] then []
    else if |s| >= 2 && s[0] == '-' && s[1] == '-' then CollapseHyphens(s[1..])
    else
      var rest := CollapseHyphens(s[1..]);
      NoDoubleHyphenTail(s);
      NoDoubleHyphenCons(s[0], rest);
      [s[0]] + rest
  }

  lemma NoDoubleHyphenTail(s: string)
    requires s != []
    ensures NoDoubleHyphen(s) ==> NoDoubleHyphen(s[1..])
  {
    var t := s[1..];
    if NoDoubleHyphen(s) {
      forall i | 0 <= i < |t| - 1 ensures !(t[i] == '-' && t[i + 1] == '-') {
        assert t[i] == s[i + 1] && t[i + 1] == s[i + 2];
      }
    }
  }

  lemma NoDoubleHyphenCons(c: char, rest: string)
    requires NoDoubleHyphen(rest) && (rest != [] && c == '-' ==> rest[0] != '-')
    ensures NoDoubleHyphen([c] + rest)
  {
    var r := [c] + rest;
    forall i | 0 <= i < |r| - 1 ensures !(r[i] == '-' && r[i + 1] == '-') {
      if i > 0 { assert r[i] == rest[i - 1] && r[i + 1] == rest[i]; }
    }
  }

  /** `.replace(/^-|-$/g, "")`: at most one hyphen off each end. */
  function TrimHyphens(s: string): (r: string)
    ensures forall c :: c in r ==> c in s
    ensures NoDoubleHyphen(s) ==> NoDoubleHyphen(r) && (r != [] ==> r[0] != '-' && r[|r| - 1] != '-')
    ensures s == [] || (s[0] != '-' && s[|s| - 1] != '-') ==> r == s
  {
    var a := if s != [] && s[0] == '-' then 1 else 0;
    var b := if |s| > a && s[|s| - 1] == '-' then |s| - 1 else |s|;
    var r := s[a..b];
    assert forall i :: 0 <= i < |r| ==> r[i] == s[a + i];
    r
  }

  /** `sanitizeId` applied to the text of its argument. */
  function SanitizeId(input: string): (r: string)
    ensures IsCleanId(r)
  {
    var masked := MaskDisallowed(DashWhitespace(Lower(input)));
    var collapsed := CollapseHyphens(masked);
    assert forall c :: c in collapsed ==> IsIdChar(c);
    var r := TrimHyphens(collapsed);
    assert forall i :: 0 <= i < |r| ==> r[i] in r;
    r
  }

  /** A sanitised id is left as it is, so sanitising twice is sanitising once. */
  lemma SanitizeIdFixesCleanIds(s: string)
    ensures IsCleanId(s) ==> SanitizeId(s) == s
    ensures SanitizeId(SanitizeId(s)) == SanitizeId(s)
  {
    forall t | IsCleanId(t) ensures SanitizeId(t) == t {
      CleanIdIsFixed(t);
    }
  }

  lemma CleanIdIsFixed(t: string)
    requires IsCleanId(t)
    ensures SanitizeId(t) == t
  {
    assert Lower(t) == t by {
      forall i | 0 <= i < |t| ensures LowerChar(t[i]) == t[i] {
        assert IsIdChar(t[i]);
      }
    }
    assert forall i :: 0 <= i < |t| ==> !IsWhitespace(t[i]) by {
      forall i | 0 <= i < |t| ensures !IsWhitespace(t[i]) {
        assert IsIdChar(t[i]);
      }
    }
    assert DashWhitespace(t) == t;
    assert MaskDisallowed(t) == t;
    assert CollapseHyphens(t) == t;
  }

  // ---------------------------------------------------------------- interpolateString

  /** The characters of a token path, `[a-zA-Z0-9_.-]`. */
  predicate IsPathChar(c: char) {
    'a' <= c <= 'z' || 'A' <= c <= 'Z' || '0' <= c <= '9' || c == '_' || c == '.' || c == '-'
  }

  /** The end of the run of whitespace in `t` that starts at `i`. */
  function BlankEnd(t: string, i: nat): (j: nat)
    requires i <= |t|
    ensures i <= j <= |t| && (forall k :: i <= k < j ==> IsWhitespace(t[k]))
    ensures j < |t| ==> !IsWhitespace(t[j])
    decreases |t| - i
  {
    if i < |t| && IsWhitespace(t[i]) then BlankEnd(t, i + 1) else i
  }

  /** The end of the run of path characters in `t` that starts at `i`. */
  function PathEnd(t: string, i: nat): (j: nat)
    requires i <= |t|
    ensures i <= j <= |t| && (forall k :: i <= k < j ==> IsPathChar(t[k]))
    ensures j < |t| ==> !IsPathChar(t[j])
    decreases |t| - i
  {
    if i < |t| && IsPathChar(t[i]) then PathEnd(t, i + 1) else i
  }

  /** A `{{ path }}` token: the path it names and the number of characters it spans. */
  datatype Token = Token(path: string, length: nat)

  /** The token `/\{\{\s*([a-zA-Z0-9_.-]+)\s*\}\}/` matches at the start of `t`, if any. */
  function TokenAt(t: string): (r: Option<Token>)
    ensures r.Some? ==> 5 <= r.value.length <= |t| && r.value.path != []
    ensures r.Some? ==> t[0] == '{' && forall i :: 0 <= i < |r.value.path| ==> IsPathChar(r.value.path[i])
  {
    if |t| < 2 || t[0] != '{' || t[1] != '{' then None
    else
      var a := BlankEnd(t, 2);
      var b := PathEnd(t, a);
      var c := BlankEnd(t, b);
      if a < b && c + 2 <= |t| && t[c] == '}' && t[c + 1] == '}' then
        assert forall i :: 0 <= i < b - a ==> t[a..b][i] == t[a + i];
        Some(Token(t[a..b], c + 2))
      else None
  }

  /** `interpolateString` on a string: every token, left to right, replaced by the
      text of the value at its path; the replacement text is not scanned again. */
  function Interpolate(t: string, context: Value, fmt: NumFormat): Result<string>
    decreases |t|
  {
    if t == [] then Ok("")
    else match TokenAt(t)
      case Some(tok) =>
        var value :- GetPath(context, Some(Str(tok.path)));
        if value.None? || value.value.Null? then Err(MissingReference(tok.path))
        else
          var rest :- Interpolate(t[tok.length..], context, fmt);
          Ok(ToStr(value.value, fmt) + rest)
      case None =>
        var rest :- Interpolate(t[1..], context, fmt);
        Ok([t[0]] + rest)
  }

  /** No token starts anywhere in `t`. */
  predicate NoTokens(t: string) {
    forall i :: 0 <= i < |t| ==> TokenAt(t[i..]).None?
  }

  /** A string without tokens comes back unchanged; one without `{` has no tokens. */
  lemma {:induction false} InterpolateNoTokens(t: string, context: Value, fmt: NumFormat)
    requires NoTokens(t) || '{' !in t
    ensures Interpolate(t, context, fmt) == Ok(t)
    decreases |t|
  {
    if t != [] {
      assert t[0..] == t;
      assert TokenAt(t).None?;
      forall i | 0 <= i < |t[1..]| ensures TokenAt(t[1..][i..]).None? {
        assert t[1..][i..] == t[i + 1..];
      }
      assert '{' !in t ==> '{' !in t[1..];
      InterpolateNoTokens(t[1..], context, fmt);
      assert [t[0]] + t[1..] == t;
    }
  }

  /** Where no token starts, the first character is copied through. */
  lemma InterpolateCopies(t: string, context: Value, fmt: NumFormat)
    requires t != [] && TokenAt(t).None?
    ensures Interpolate(t, context, fmt) ==
      if Interpolate(t[1..], context, fmt).Ok? then Ok([t[0]] + Interpolate(t[1..], context, fmt).value)
      else Interpolate(t[1..], context, fmt)
  {
  }

  /** Where a token starts, its value's text is written and interpolation resumes after it. */
  lemma InterpolateReplaces(t: string, tok: Token, context: Value, fmt: NumFormat)
    requires TokenAt(t) == Some(tok)
    ensures var value := GetPath(context, Some(Str(tok.path)));
      value.Ok? &&
      if value.value.None? || value.value.value.Null? then
        Interpolate(t, context, fmt) == Err(MissingReference(tok.path))
      else if Interpolate(t[tok.length..], context, fmt).Ok? then
        Interpolate(t, context, fmt) == Ok(ToStr(value.value.value, fmt) + Interpolate(t[tok.length..], context, fmt).value)
      else
        Interpolate(t, context, fmt) == Interpolate(t[tok.length..], context, fmt)
  {
    assert !IsBlank(tok.path) by { assert IsPathChar(tok.path[0]); }
  }

  /** Text without `{` before the rest is copied through as it is. */
  lemma {:induction false} InterpolateLiteralPrefix(t: string, pre: string, rest: string, context: Value, fmt: NumFormat)
    requires t == pre + rest && '{' !in pre
    ensures Interpolate(t, context, fmt) ==
      if Interpolate(rest, context, fmt).Ok? then Ok(pre + Interpolate(rest, context, fmt).value)
      else Interpolate(rest, context, fmt)
    decreases |pre|
  {
    if pre == [] {
      assert t == rest;
      if Interpolate(rest, context, fmt).Ok? {
        assert pre + Interpolate(rest, context, fmt).value == Interpolate(rest, context, fmt).value;
      }
    } else {
      assert t[0] == pre[0] && t[0] != '{';
      NoTokenWithoutBrace(t);
      InterpolateCopies(t, context, fmt);
      assert t[1..] == pre[1..] + rest;
      InterpolateLiteralPrefix(t[1..], pre[1..], rest, context, fmt);
      var after := Interpolate(rest, context, fmt);
      if after.Ok? {
        assert [pre[0]] + (pre[1..] + after.value) == pre + after.value;
      }
    }
  }

  lemma NoTokenWithoutBrace(t: string)
    requires t != [] && t[0] != '{'
    ensures TokenAt(t).None?
  {
  }

  lemma PathCharIsNotWhitespace(c: char)
    requires IsPathChar(c)
    ensures !IsWhitespace(c)
  {
  }

  /** A maximal run is determined by where it stops. */
  lemma BlankEndAt(t: string, i: nat, j: nat)
    requires i <= j <= |t| && (forall k :: i <= k < j ==> IsWhitespace(t[k]))
    requires j < |t| ==> !IsWhitespace(t[j])
    ensures BlankEnd(t, i) == j
  {
  }

  lemma PathEndAt(t: string, i: nat, j: nat)
    requires i <= j <= |t| && (forall k :: i <= k < j ==> IsPathChar(t[k]))
    requires j < |t| ==> !IsPathChar(t[j])
    ensures PathEnd(t, i) == j
  {
  }

  /** `{{`, optional whitespace, a path, optional whitespace and `}}` form one token. */
  lemma TokenRecognised(t: string, w1: string, path: string, w2: string, post: string)
    requires t == "{{" + w1 + path + w2 + "}}" + post
    requires IsBlank(w1) && IsBlank(w2) && path != []
    requires forall i :: 0 <= i < |path| ==> IsPathChar(path[i])
    ensures TokenAt(t) == Some(Token(path, |w1| + |path| + |w2| + 4))
  {
    var a := 2 + |w1|;
    var b := a + |path|;
    var c := b + |w2|;
    TokenLayout(t, w1, path, w2, post);
    PathCharIsNotWhitespace(path[0]);
    BlankEndAt(t, 2, a);
    if w2 != [] {
      PathCharIsNotWhitespaceContra(w2[0]);
    }
    PathEndAt(t, a, b);
    assert !IsWhitespace('}');
    BlankEndAt(t, b, c);
    TokenAtSpans(t, a, b, c);
  }

  /** Where the pieces of a written-out token sit. */
  lemma TokenLayout(t: string, w1: string, path: string, w2: string, post: string)
    requires t == "{{" + w1 + path + w2 + "}}" + post
    ensures var a := 2 + |w1|; var b := a + |path|; var c := b + |w2|;
      c + 2 <= |t| && t[0] == '{' && t[1] == '{' && t[c] == '}' && t[c + 1] == '}'
      && (forall k :: 2 <= k < a ==> t[k] == w1[k - 2])
      && (forall k :: a <= k < b ==> t[k] == path[k - a])
      && (forall k :: b <= k < c ==> t[k] == w2[k - b])
      && t[a..b] == path
  {
  }

  /** `TokenAt` from the three scan positions. */
  lemma TokenAtSpans(t: string, a: nat, b: nat, c: nat)
    requires |t| >= 2 && t[0] == '{' && t[1] == '{'
    requires BlankEnd(t, 2) == a && PathEnd(t, a) == b && BlankEnd(t, b) == c
    requires a < b && c + 2 <= |t| && t[c] == '}' && t[c + 1] == '}'
    ensures TokenAt(t) == Some(Token(t[a..b], c + 2))
  {
  }

  lemma PathCharIsNotWhitespaceContra(c: char)
    requires IsWhitespace(c)
    ensures !IsPathChar(c)
  {
  }

  /** A token at the start of the text is replaced by the text of its value, and
      interpolation goes on after it. */
  lemma InterpolateLeadingToken(token: string, w1: string, path: string, w2: string, post: string,
                                context: Value, fmt: NumFormat)
    requires token == "{{" + w1 + path + w2 + "}}" + post
    requires IsBlank(w1) && IsBlank(w2) && path != []
    requires forall i :: 0 <= i < |path| ==> IsPathChar(path[i])
    ensures var value := GetPath(context, Some(Str(path)));
      value.Ok? &&
      if value.value.None? || value.value.value.Null? then
        Interpolate(token, context, fmt) == Err(MissingReference(path))
      else if Interpolate(post, context, fmt).Ok? then
        Interpolate(token, context, fmt) == Ok(ToStr(value.value.value, fmt) + Interpolate(post, context, fmt).value)
      else
        Interpolate(token, context, fmt) == Interpolate(post, context, fmt)
  {
    TokenRecognised(token, w1, path, w2, post);
    var tok := Token(path, |w1| + |path| + |w2| + 4);
    InterpolateReplaces(token, tok, context, fmt);
    assert token[tok.length..] == post;
  }

  /** A token is replaced by the text of its value, verbatim, and interpolation
      goes on after it; an absent or `null` value is a missing reference. */
  lemma InterpolateToken(t: string, pre: string, w1: string, path: string, w2: string, post: string,
                         context: Value, fmt: NumFormat)
    requires t == pre + "{{" + w1 + path + w2 + "}}" + post
    requires '{' !in pre && IsBlank(w1) && IsBlank(w2) && path != []
    requires forall i :: 0 <= i < |path| ==> IsPathChar(path[i])
    ensures var value := GetPath(context, Some(Str(path)));
      value.Ok? &&
      if value.value.None? || value.value.value.Null? then
        Interpolate(t, context, fmt) == Err(MissingReference(path))
      else if Interpolate(post, context, fmt).Ok? then
        Interpolate(t, context, fmt) == Ok(pre + ToStr(value.value.value, fmt) + Interpolate(post, context, fmt).value)
      else
        Interpolate(t, context, fmt) == Interpolate(post, context, fmt)
  {
    var token := "{{" + w1 + path + w2 + "}}" + post;
    assert t == pre + token;
    InterpolateLeadingToken(token, w1, path, w2, post, context, fmt);
    PrefixBeforeToken(t, pre, token, path, post, context, fmt);
  }

  /** Literal text before a token is copied in front of whatever the token and the rest give. */
  lemma PrefixBeforeToken(t: string, pre: string, token: string, path: string, post: string,
                          context: Value, fmt: NumFormat)
    requires t == pre + token && '{' !in pre
    requires var value := GetPath(context, Some(Str(path)));
      value.Ok? &&
      if value.value.None? || value.value.value.Null? then
        Interpolate(token, context, fmt) == Err(MissingReference(path))
      else if Interpolate(post, context, fmt).Ok? then
        Interpolate(token, context, fmt) == Ok(ToStr(value.value.value, fmt) + Interpolate(post, context, fmt).value)
      else
        Interpolate(token, context, fmt) == Interpolate(post, context, fmt)
    ensures var value := GetPath(context, Some(Str(path)));
      value.Ok? &&
      if value.value.None? || value.value.value.Null? then
        Interpolate(t, context, fmt) == Err(MissingReference(path))
      else if Interpolate(post, context, fmt).Ok? then
        Interpolate(t, context, fmt) == Ok(pre + ToStr(value.value.value, fmt) + Interpolate(post, context, fmt).value)
      else
        Interpolate(t, context, fmt) == Interpolate(post, context, fmt)
  {
    InterpolateLiteralPrefix(t, pre, token, context, fmt);
    var value := GetPath(context, Some(Str(path))).value;
    if value.Some? && !value.value.Null? && Interpolate(post, context, fmt).Ok? {
      var x, y := ToStr(value.value, fmt), Interpolate(post, context, fmt).value;
      assert pre + (x + y) == pre + x + y;
    }
  }

  /** `interpolateString` on a present value: strings are interpolated, any other
      value is returned as it is. */
  function InterpolateText(template: Value, context: Value, fmt: NumFormat): (r: Result<Value>)
    ensures !template.Str? ==> r == Ok(template)
    ensures template.Str? && r.Ok? ==> r.value.Str?
  {
    match template
    case Str(s) =>
      var t :- Interpolate(s, context, fmt);
      Ok(Str(t))
    case _ => Ok(template)
  }

  /** `interpolateString` on a property that may be absent: `undefined` stays `undefined`. */
  function InterpolateValue(template: Option<Value>, context: Value, fmt: NumFormat): (r: Result<Option<Value>>)
    ensures template.None? ==> r == Ok(None)
    ensures template.Some? && r.Ok? ==> r.value.Some?
  {
    match template
    case None => Ok(None)
    case Some(v) =>
      var w :- InterpolateText(v, context, fmt);
      Ok(Some(w))
  }

  // ---------------------------------------------------------------- resolveTemplateValue

  /** `resolveTemplateValue`. */
  function Resolve(v: Value, context: Value, fmt: NumFormat): (r: Result<Value>)
    ensures v.Null? || v.Bool? || v.Num? ==> r == Ok(v)
    ensures v.Arr? && r.Ok? ==> r.value.Arr? && |r.value.items| == |v.items|
    ensures v.Str? && r.Ok? ==> r.value.Str?
    ensures v.Obj? && !IsMarker(v.fields) && r.Ok? ==> r.value.Obj? && Keys(r.value.fields) == Keys(v.fields)
    decreases v, 1
  {
    match v
    case Arr(items) =>
      var rs :- ResolveItems(items, context, fmt);
      Ok(Arr(rs))
    case Str(s) =>
      var t :- Interpolate(s, context, fmt);
      Ok(Str(t))
    case Obj(fs) =>
      var ref := Get(fs, "$ref");
      var template := Get(fs, "$template");
      if ref.Some? && ref.value.Str? then
        var resolved :- GetPath(context, ref);
        if resolved.None? || resolved.value.Null? then Err(MissingReference(ref.value.s))
        else Ok(resolved.value)
      else if template.Some? && template.value.Str? then
        var t :- Interpolate(template.value.s, context, fmt);
        Ok(Str(t))
      else
        var rs :- ResolveFields(fs, context, fmt);
        Ok(Obj(rs))
    case _ => Ok(v)
  }

  /** An object with a string `$ref` or `$template`. */
  predicate IsMarker(fs: seq<Field>) {
    (Get(fs, "$ref").Some? && Get(fs, "$ref").value.Str?)
    || (Get(fs, "$template").Some? && Get(fs, "$template").value.Str?)
  }

  /** `value.map(...)`: element by element, in order. */
  function ResolveItems(items: seq<Value>, context: Value, fmt: NumFormat): (r: Result<seq<Value>>)
    ensures r.Ok? ==> |r.value| == |items|
    ensures r.Ok? ==> forall i :: 0 <= i < |items| ==> Resolve(items[i], context, fmt) == Ok(r.value[i])
    decreases items, 0
  {
    if items == [] then Ok([])
    else
      var first :- Resolve(items[0], context, fmt);
      var rest :- ResolveItems(items[1..], context, fmt);
      assert forall i :: 1 <= i < |items| ==> items[i] == items[1..][i - 1];
      Ok([first] + rest)
  }

  /** The `Object.entries` loop: every value resolved, every key kept in its place. */
  function ResolveFields(fs: seq<Field>, context: Value, fmt: NumFormat): (r: Result<seq<Field>>)
    ensures r.Ok? ==> Keys(r.value) == Keys(fs)
    ensures r.Ok? ==> forall i :: 0 <= i < |fs| ==> Resolve(fs[i].val, context, fmt) == Ok(r.value[i].val)
    decreases fs, 0
  {
    if fs == [] then Ok([])
    else
      var first :- Resolve(fs[0].val, context, fmt);
      var rest :- ResolveFields(fs[1..], context, fmt);
      assert forall i :: 1 <= i < |fs| ==> fs[i] == fs[1..][i - 1];
      Ok([Field(fs[0].key, first)] + rest)
  }

  /** `resolveTemplateValue(undefined)` is `undefined`. */
  function ResolveOpt(v: Option<Value>, context: Value, fmt: NumFormat): (r: Result<Option<Value>>)
    ensures v.None? ==> r == Ok(None)
    ensures v.Some? ==> r == if Resolve(v.value, context, fmt).Ok? then Ok(Some(Resolve(v.value, context, fmt).value))
                             else Err(Resolve(v.value, context, fmt).error)
  {
    match v
    case None => Ok(None)
    case Some(x) =>
      var y :- Resolve(x, context, fmt);
      Ok(Some(y))
  }

  /** `$ref` splices in the raw value it names, takes precedence over `$template`
      and drops every other key; a reference to an absent or `null` value fails. */
  lemma RefSplicesRawValue(fs: seq<Field>, path: string, context: Value, fmt: NumFormat)
    requires Get(fs, "$ref") == Some(Str(path)) && !IsBlank(path)
    ensures var found := GetPath(context, Some(Str(path))).value;
      Resolve(Obj(fs), context, fmt) ==
        if found.None? || found.value.Null? then Err(MissingReference(path)) else Ok(found.value)
  {
  }

  // ---------------------------------------------------------------- createCapabilities

  /** `capabilityRules.rules` when the document is truthy and that is an array; no rules otherwise. */
  function RulesOf(capabilityRules: Option<Value>): seq<Value> {
    if !Truthy(capabilityRules) then []
    else match PropOf(capabilityRules, "rules")
      case Some(Arr(items)) => items
      case _ => []
  }

  /** The capability a rule sets: the non-blank string `capability` of an object
      rule; every other rule is skipped. */
  function RuleName(rule: Value): (r: Option<string>)
    ensures r.Some? ==> rule.Obj? && !IsBlank(r.value) && Prop(rule, "capability") == Some(Str(r.value))
  {
    match Prop(rule, "capability")
    case Some(Str(s)) => if IsBlank(s) then None else Some(s)
    case _ => None
  }

  /** `{matrix, job, profile, blueprint}`: what templates and conditions can name. */
  function BaseContext(matrix: Value, job: Value, profile: Value, blueprint: Value): (r: seq<Field>)
    ensures Unique(r) && Find(r, "capabilities").None? && Find(r, "scenario").None?
    ensures Get(r, "matrix") == Some(matrix) && Get(r, "job") == Some(job)
    ensures Get(r, "profile") == Some(profile) && Get(r, "blueprint") == Some(blueprint)
  {
    var r := [Field("matrix", matrix), Field("job", job), Field("profile", profile), Field("blueprint", blueprint)];
    FourFields(r, "matrix", "job", "profile", "blueprint", "capabilities");
    FourFields(r, "matrix", "job", "profile", "blueprint", "scenario");
    r
  }

  /** Lookups in an object of four keys of distinct lengths. */
  lemma FourFields(r: seq<Field>, k0: string, k1: string, k2: string, k3: string, other: string)
    requires |r| == 4 && r[0].key == k0 && r[1].key == k1 && r[2].key == k2 && r[3].key == k3
    requires |k0| != |k1| && |k0| != |k2| && |k0| != |k3| && |k1| != |k2| && |k1| != |k3| && |k2| != |k3|
    requires |other| != |k0| && |other| != |k1| && |other| != |k2| && |other| != |k3|
    ensures Unique(r) && Find(r, other).None?
    ensures Get(r, k0) == Some(r[0].val) && Get(r, k1) == Some(r[1].val)
    ensures Get(r, k2) == Some(r[2].val) && Get(r, k3) == Some(r[3].val)
  {
    FourFieldsGet(r, k0, k1, k2, k3);
    FourFieldsAbsent(r, k0, k1, k2, k3, other);
    FourFieldsUnique(r, k0, k1, k2, k3);
  }

  lemma FourFieldsAbsent(r: seq<Field>, k0: string, k1: string, k2: string, k3: string, other: string)
    requires |r| == 4 && r[0].key == k0 && r[1].key == k1 && r[2].key == k2 && r[3].key == k3
    requires |other| != |k0| && |other| != |k1| && |other| != |k2| && |other| != |k3|
    ensures Find(r, other).None?
  {
    assert forall j :: 0 <= j < |r| ==> |r[j].key| != |other|;
  }

  lemma FourFieldsUnique(r: seq<Field>, k0: string, k1: string, k2: string, k3: string)
    requires |r| == 4 && r[0].key == k0 && r[1].key == k1 && r[2].key == k2 && r[3].key == k3
    requires |k0| != |k1| && |k0| != |k2| && |k0| != |k3| && |k1| != |k2| && |k1| != |k3| && |k2| != |k3|
    ensures Unique(r)
  {
    forall a, b | 0 <= a < b < |r| ensures r[a].key != r[b].key {
      assert |r[a].key| != |r[b].key|;
    }
  }

  lemma FourFieldsGet(r: seq<Field>, k0: string, k1: string, k2: string, k3: string)
    requires |r| == 4 && r[0].key == k0 && r[1].key == k1 && r[2].key == k2 && r[3].key == k3
    requires |k0| != |k1| && |k0| != |k2| && |k0| != |k3| && |k1| != |k2| && |k1| != |k3| && |k2| != |k3|
    ensures Get(r, k0) == Some(r[0].val) && Get(r, k1) == Some(r[1].val)
    ensures Get(r, k2) == Some(r[2].val) && Get(r, k3) == Some(r[3].val)
  {
    FindFirst(r, k0, 0);
    FindFirst(r, k1, 1);
    FindFirst(r, k2, 2);
    FindFirst(r, k3, 3);
  }


  /** The base context with a `capabilities` object added. */
  function WithCapabilities(base: seq<Field>, caps: seq<Field>): (r: Value)
    ensures r.Obj? && Get(r.fields, "capabilities") == Some(Obj(caps))
    ensures forall k :: k != "capabilities" ==> Get(r.fields, k) == Get(base, k)
  {
    Obj(Put(base, "capabilities", Obj(caps)))
  }

  /** One turn of the rule loop: a named rule whose `when` holds in the context of the
      capabilities derived so far sets its capability to `true`. */
  function ApplyRule(fromRules: seq<Field>, rule: Value, base: seq<Field>): Result<seq<Field>> {
    match RuleName(rule)
    case None => Ok(fromRules)
    case Some(name) =>
      var matched :- Evaluate(Prop(rule, "when"), WithCapabilities(base, fromRules));
      Ok(if matched then Put(fromRules, name, Bool(true)) else fromRules)
  }

  /** The rule loop over `rules`, first to last: each rule sees only what earlier rules derived. */
  function DeriveRules(rules: seq<Value>, base: seq<Field>): Result<seq<Field>>
    decreases |rules|
  {
    if rules == [] then Ok([])
    else
      var before :- DeriveRules(rules[..|rules| - 1], base);
      ApplyRule(before, rules[|rules| - 1], base)
  }

  /** `{...fromRules, ...(profile.capabilities || {})}`. */
  function Capabilities(profile: Value, capabilityRules: Option<Value>, base: seq<Field>): Result<seq<Field>> {
    var fromRules :- DeriveRules(RulesOf(capabilityRules), base);
    Ok(Merge(fromRules, SpreadEntries(Prop(profile, "capabilities"))))
  }

  /** `createCapabilities` as the source writes it: one pass over the rules, growing `fromRules`. */
  method CreateCapabilities(profile: Value, capabilityRules: Option<Value>, base: seq<Field>)
    returns (r: Result<seq<Field>>)
    ensures r == Capabilities(profile, capabilityRules, base)
  {
    var rules := RulesOf(capabilityRules);
    var fromRules: seq<Field> := [];
    for i := 0 to |rules|
      invariant DeriveRules(rules[..i], base) == Ok(fromRules)
    {
      DeriveRulesStep(rules, i, base, fromRules);
      var name := RuleName(rules[i]);
      if name.Some? {
        var matched := Evaluate(Prop(rules[i], "when"), WithCapabilities(base, fromRules));
        ApplyNamedRule(fromRules, rules[i], base, name.value, matched);
        if matched.Err? {
          DeriveRulesStopsAtError(rules, i + 1, base);
          CapabilitiesOfRules(profile, capabilityRules, base);
          return Err(matched.error);
        }
        if matched.value {
          fromRules := Put(fromRules, name.value, Bool(true));
        }
      }
    }
    assert rules[..|rules|] == rules;
    CapabilitiesOfRules(profile, capabilityRules, base);
    r := Ok(Merge(fromRules, SpreadEntries(Prop(profile, "capabilities"))));
  }

  /** The capabilities are the rule loop's error, or what it derived overlaid with the profile's own. */
  lemma CapabilitiesOfRules(profile: Value, capabilityRules: Option<Value>, base: seq<Field>)
    ensures var d := DeriveRules(RulesOf(capabilityRules), base);
      Capabilities(profile, capabilityRules, base)
      == if d.Err? then Err(d.error) else Ok(Merge(d.value, SpreadEntries(Prop(profile, "capabilities"))))
  {
  }

  /** A named rule: its condition's error, or `name` set to `true` when the condition holds. */
  lemma ApplyNamedRule(fromRules: seq<Field>, rule: Value, base: seq<Field>, name: string, matched: Result<bool>)
    requires RuleName(rule) == Some(name)
    requires matched == Evaluate(Prop(rule, "when"), WithCapabilities(base, fromRules))
    ensures matched.Err? ==> ApplyRule(fromRules, rule, base) == Err(matched.error)
    ensures matched.Ok? && matched.value ==> ApplyRule(fromRules, rule, base) == Ok(Put(fromRules, name, Bool(true)))
    ensures matched.Ok? && !matched.value ==> ApplyRule(fromRules, rule, base) == Ok(fromRules)
  {
  }

  /** One more rule extends the loop by one turn. */
  lemma DeriveRulesStep(rules: seq<Value>, i: nat, base: seq<Field>, fromRules: seq<Field>)
    requires i < |rules| && DeriveRules(rules[..i], base) == Ok(fromRules)
    ensures DeriveRules(rules[..i + 1], base) == ApplyRule(fromRules, rules[i], base)
  {
    assert rules[..i + 1][..i] == rules[..i];
  }

  /** A rule whose condition throws ends the whole loop with that error. */
  lemma {:induction false} DeriveRulesStopsAtError(rules: seq<Value>, k: nat, base: seq<Field>)
    requires k <= |rules| && DeriveRules(rules[..k], base).Err?
    ensures DeriveRules(rules, base) == DeriveRules(rules[..k], base)
    decreases |rules| - k
  {
    if k < |rules| {
      DeriveRulesErrStep(rules, k, base);
      DeriveRulesStopsAtError(rules, k + 1, base);
    } else {
      assert rules[..k] == rules;
    }
  }

  lemma DeriveRulesErrStep(rules: seq<Value>, k: nat, base: seq<Field>)
    requires k < |rules| && DeriveRules(rules[..k], base).Err?
    ensures DeriveRules(rules[..k + 1], base) == DeriveRules(rules[..k], base)
  {
    var longer := rules[..k + 1];
    assert longer[..|longer| - 1] == rules[..k];
  }

  /** Rules only ever derive `true`, once per capability, and only for a capability some rule names. */
  predicate Derived(fs: seq<Field>, rules: seq<Value>) {
    Unique(fs)
    && (forall i :: 0 <= i < |fs| ==> fs[i].val == Bool(true))
    && (forall i :: 0 <= i < |fs| ==> exists j :: 0 <= j < |rules| && RuleName(rules[j]) == Some(fs[i].key))
  }

  lemma {:induction false} DeriveRulesDerived(rules: seq<Value>, base: seq<Field>)
    ensures DeriveRules(rules, base).Ok? ==> Derived(DeriveRules(rules, base).value, rules)
    decreases |rules|
  {
    if rules != [] {
      var init := rules[..|rules| - 1];
      DeriveRulesDerived(init, base);
      if DeriveRules(init, base).Ok? {
        DerivedStep(DeriveRules(init, base).value, rules, base);
      }
    }
  }

  /** One turn of the loop keeps the capabilities derived. */
  lemma DerivedStep(before: seq<Field>, rules: seq<Value>, base: seq<Field>)
    requires rules != [] && Derived(before, rules[..|rules| - 1])
    ensures ApplyRule(before, rules[|rules| - 1], base).Ok? ==> Derived(ApplyRule(before, rules[|rules| - 1], base).value, rules)
  {
    var last := rules[|rules| - 1];
    DerivedMoreRules(before, rules[..|rules| - 1], rules);
    if RuleName(last).Some? {
      var name := RuleName(last).value;
      var matched := Evaluate(Prop(last, "when"), WithCapabilities(base, before));
      ApplyNamedRule(before, last, base, name, matched);
      if matched.Ok? && matched.value {
        DerivedPut(before, rules, name, |rules| - 1);
      }
    }
  }

  /** Adding a rule keeps what earlier rules derived accounted for. */
  lemma DerivedMoreRules(fs: seq<Field>, init: seq<Value>, rules: seq<Value>)
    requires |init| < |rules| && init == rules[..|init|] && Derived(fs, init)
    ensures Derived(fs, rules)
  {
    forall i | 0 <= i < |fs|
      ensures exists j :: 0 <= j < |rules| && RuleName(rules[j]) == Some(fs[i].key)
    {
      var j :| 0 <= j < |init| && RuleName(init[j]) == Some(fs[i].key);
      assert rules[j] == init[j];
    }
    assert Unique(fs) && forall i :: 0 <= i < |fs| ==> fs[i].val == Bool(true);
  }

  /** Setting a capability that rule `j` names to `true` keeps the capabilities derived. */
  lemma DerivedPut(fs: seq<Field>, rules: seq<Value>, name: string, j: nat)
    requires Derived(fs, rules) && j < |rules| && RuleName(rules[j]) == Some(name)
    ensures Derived(Put(fs, name, Bool(true)), rules)
  {
    var after := Put(fs, name, Bool(true));
    forall i | 0 <= i < |after|
      ensures after[i].val == Bool(true)
      ensures exists j :: 0 <= j < |rules| && RuleName(rules[j]) == Some(after[i].key)
    {
      PutEntry(fs, name, Bool(true), i);
      if after[i].key == name {
        assert RuleName(rules[j]) == Some(after[i].key);
      }
    }
  }


  /** An entry of `Put(fs, k, v)` is the new `k` entry or one of `fs`. */
  lemma PutEntry(fs: seq<Field>, k: string, v: Value, i: nat)
    requires i < |Put(fs, k, v)|
    ensures Put(fs, k, v)[i] == Field(k, v) || (i < |fs| && Put(fs, k, v)[i] == fs[i])
  {
  }

  /** A later rule sees the capability an earlier rule derived: the rules run in order. */
  lemma RulesSeeEarlierRules(first: Value, second: Value, base: seq<Field>)
    requires RuleName(first).Some?
    requires Evaluate(Prop(first, "when"), WithCapabilities(base, [])) == Ok(true)
    ensures DeriveRules([first, second], base) == ApplyRule([Field(RuleName(first).value, Bool(true))], second, base)
  {
    assert [first, second][..1] == [first];
    assert [first][..0] == [];
    var name := RuleName(first).value;
    assert DeriveRules([first], base) == ApplyRule([], first, base);
    assert ApplyRule([], first, base) == Ok(Put([], name, Bool(true)));
    assert Put([], name, Bool(true)) == [Field(name, Bool(true))];
  }

  /** The profile's own capabilities override what the rules derived; every other
      derived capability is kept. */
  lemma ProfileCapabilitiesWin(profile: Value, capabilityRules: Option<Value>, base: seq<Field>, k: string)
    requires Capabilities(profile, capabilityRules, base).Ok?
    requires Unique(SpreadEntries(Prop(profile, "capabilities")))
    ensures var own := Get(SpreadEntries(Prop(profile, "capabilities")), k);
      Get(Capabilities(profile, capabilityRules, base).value, k) ==
        if own.Some? then own else Get(DeriveRules(RulesOf(capabilityRules), base).value, k)
  {
    var fromRules := DeriveRules(RulesOf(capabilityRules), base).value;
    MergeGet(fromRules, SpreadEntries(Prop(profile, "capabilities")), k);
  }

  /** Without rules, the capabilities are exactly the profile's own: the default rules document is empty. */
  lemma NoRulesNoDerivedCapabilities(profile: Value, base: seq<Field>)
    ensures Capabilities(profile, Some(DefaultRules), base) == Ok(Merge([], SpreadEntries(Prop(profile, "capabilities"))))
  {
    assert Prop(DefaultRules, "rules") == Some(Arr([]));
  }

  /** The rules document `compileMatrix` uses when it is given none. */
  const DefaultRules: Value := Obj([Field("schema_version", Str("1.0.0")), Field("rules", Arr([]))])

  // ---------------------------------------------------------------- compileJob

  /** A compiled step. `id` and `title` stay absent when the blueprint step has none. */
  datatype CompiledStep = CompiledStep(id: Option<Value>, title: Option<Value>, description: Value,
                                       action: Option<Value>, params: Option<Value>)

  datatype Scenario = Scenario(schemaVersion: string, scenarioId: string, name: Value, target: Option<Value>,
                               metadata: Option<Value>, steps: seq<CompiledStep>)

  /** One entry of the compiled matrix's `jobs`. */
  datatype CompiledJob = CompiledJob(jobId: Option<Value>, profileId: Option<Value>, blueprintId: Option<Value>,
                                     capabilities: seq<Field>, scenarioPath: Value, outputDir: Value,
                                     markdownPath: Value, scenario: Scenario)

  /** `step.description`, interpolated, or the empty string when the step has none. */
  function DescriptionOf(step: Value, context: Value, fmt: NumFormat): (r: Result<Value>)
    ensures Prop(step, "description").None? ==> r == Ok(Str(""))
    ensures Prop(step, "description").Some? && !Prop(step, "description").value.Str? ==> r == Ok(Prop(step, "description").value)
  {
    match Prop(step, "description")
    case None => Ok(Str(""))
    case Some(d) => InterpolateText(d, context, fmt)
  }

  /** One kept step: its parameters resolved first, then its id, title and description
      interpolated; the action is copied as it is. */
  function CompileStep(step: Value, context: Value, fmt: NumFormat): (r: Result<CompiledStep>)
    ensures r.Ok? ==> r.value.action == Prop(step, "action")
    ensures r.Ok? ==> ResolveOpt(Prop(step, "params_template"), context, fmt) == Ok(r.value.params)
    ensures r.Ok? ==> (Prop(step, "id").None? <==> r.value.id.None?)
    ensures ResolveOpt(Prop(step, "params_template"), context, fmt).Err? ==>
      r == Err(ResolveOpt(Prop(step, "params_template"), context, fmt).error)
  {
    var params :- ResolveOpt(Prop(step, "params_template"), context, fmt);
    var id :- InterpolateValue(Prop(step, "id"), context, fmt);
    var title :- InterpolateValue(Prop(step, "title"), context, fmt);
    var description :- DescriptionOf(step, context, fmt);
    Ok(CompiledStep(id, title, description, Prop(step, "action"), params))
  }

  /** The step loop over `steps`, first to last: a step whose `when` does not hold is left out. */
  function CompileSteps(steps: seq<Value>, context: Value, fmt: NumFormat): (r: Result<seq<CompiledStep>>)
    ensures r.Ok? ==> |r.value| <= |steps|
    decreases |steps|
  {
    if steps == [] then Ok([])
    else
      var before :- CompileSteps(steps[..|steps| - 1], context, fmt);
      var last := steps[|steps| - 1];
      var keep :- Evaluate(Prop(last, "when"), context);
      if !keep then Ok(before)
      else
        var compiled :- CompileStep(last, context, fmt);
        Ok(before + [compiled])
  }

  /** The steps whose `when` holds, in their order. */
  function KeptSteps(steps: seq<Value>, context: Value): seq<Value>
    decreases |steps|
  {
    if steps == [] then []
    else
      var before := KeptSteps(steps[..|steps| - 1], context);
      if Evaluate(Prop(steps[|steps| - 1], "when"), context) == Ok(true) then before + [steps[|steps| - 1]]
      else before
  }

  /** The compiled steps are the kept steps, each compiled, in order. */
  lemma {:induction false} CompiledStepsAreKeptSteps(steps: seq<Value>, context: Value, fmt: NumFormat)
    requires CompileSteps(steps, context, fmt).Ok?
    ensures |CompileSteps(steps, context, fmt).value| == |KeptSteps(steps, context)|
    ensures forall j :: 0 <= j < |KeptSteps(steps, context)| ==>
      CompileStep(KeptSteps(steps, context)[j], context, fmt) == Ok(CompileSteps(steps, context, fmt).value[j])
    decreases |steps|
  {
    if steps != [] {
      var init := steps[..|steps| - 1];
      CompiledStepsAreKeptSteps(init, context, fmt);
    }
  }

  /** Steps without a `when` are all kept. */
  lemma {:induction false} UnconditionalStepsKept(steps: seq<Value>, context: Value)
    requires forall i :: 0 <= i < |steps| ==> Prop(steps[i], "when").None?
    ensures KeptSteps(steps, context) == steps
    decreases |steps|
  {
    if steps != [] {
      var init := steps[..|steps| - 1];
      UnconditionalStepsKept(init, context);
      assert init + [steps[|steps| - 1]] == steps;
    }
  }

  /** One more turn of the step loop. */
  lemma CompileStepsSnoc(steps: seq<Value>, i: nat, context: Value, fmt: NumFormat)
    requires i < |steps| && CompileSteps(steps[..i], context, fmt).Ok?
    ensures var before := CompileSteps(steps[..i], context, fmt).value;
      CompileSteps(steps[..i + 1], context, fmt) ==
        match Evaluate(Prop(steps[i], "when"), context)
        case Err(e) => Err(e)
        case Ok(false) => Ok(before)
        case Ok(true) =>
          match CompileStep(steps[i], context, fmt)
          case Err(e) => Err(e)
          case Ok(compiled) => Ok(before + [compiled])
  {
    assert steps[..i + 1][..i] == steps[..i];
  }

  /** A step whose condition or compilation throws ends the whole loop with that error. */
  lemma {:induction false} CompileStepsStopsAtError(steps: seq<Value>, k: nat, context: Value, fmt: NumFormat)
    requires k <= |steps| && CompileSteps(steps[..k], context, fmt).Err?
    ensures CompileSteps(steps, context, fmt) == CompileSteps(steps[..k], context, fmt)
    decreases |steps| - k
  {
    if k < |steps| {
      assert steps[..k + 1][..k] == steps[..k];
      CompileStepsStopsAtError(steps, k + 1, context, fmt);
    } else {
      assert steps[..k] == steps;
    }
  }

  /** `scenarioId`: the interpolated template when it is truthy, `<blueprint_id>-<profile_id>`
      otherwise, sanitised either way. */
  function ScenarioId(job: Value, profile: Value, blueprint: Value, context: Value, fmt: NumFormat): (r: Result<string>)
    ensures r.Ok? ==> IsCleanId(r.value)
    ensures !Truthy(Prop(job, "scenario_id_template")) ==>
      r == Ok(SanitizeId(OptToStr(Prop(blueprint, "blueprint_id"), fmt) + "-" + OptToStr(Prop(profile, "profile_id"), fmt)))
    ensures Truthy(Prop(job, "scenario_id_template")) && Prop(job, "scenario_id_template").value.Str? ==>
      r == match Interpolate(Prop(job, "scenario_id_template").value.s, context, fmt)
           case Ok(t) => Ok(SanitizeId(t))
           case Err(e) => Err(e)
    ensures Truthy(Prop(job, "scenario_id_template")) && !Prop(job, "scenario_id_template").value.Str? ==>
      r == Ok(SanitizeId(ToStr(Prop(job, "scenario_id_template").value, fmt)))
  {
    var template := Prop(job, "scenario_id_template");
    if Truthy(template) then
      var v :- InterpolateText(template.value, context, fmt);
      Ok(SanitizeId(ToStr(v, fmt)))
    else
      Ok(SanitizeId(OptToStr(Prop(blueprint, "blueprint_id"), fmt) + "-" + OptToStr(Prop(profile, "profile_id"), fmt)))
  }

  /** `scenarioName`: the interpolated template when it is truthy, `<blueprint name> - <profile name>` otherwise. */
  function ScenarioName(job: Value, profile: Value, blueprint: Value, context: Value, fmt: NumFormat): Result<Value> {
    var template := Prop(job, "scenario_name_template");
    if Truthy(template) then InterpolateText(template.value, context, fmt)
    else Ok(Str(OptToStr(Prop(blueprint, "name"), fmt) + " - " + OptToStr(Prop(profile, "name"), fmt)))
  }

  function DefaultScenarioPath(id: string): string {
    JoinPath(["automation", "scenarios", "generated", id + ".scenario.json"])
  }

  /** The context of the scenario path: the job context with `scenario: {id, name}` added. */
  function PathContext(context: seq<Field>, id: string, name: Value): Value {
    Obj(Put(context, "scenario", Obj([Field("id", Str(id)), Field("name", name)])))
  }

  /** `scenarioPath`: the template, or the default path, interpolated in the path context. */
  function ScenarioPath(job: Value, id: string, name: Value, context: seq<Field>, fmt: NumFormat): Result<Value> {
    var template := Prop(job, "scenario_path_template");
    InterpolateText(if Truthy(template) then template.value else Str(DefaultScenarioPath(id)),
                    PathContext(context, id, name), fmt)
  }

  /** `outputDir`: the interpolated template when it is truthy, `artifacts/<id>` otherwise. */
  function OutputDir(job: Value, id: string, context: Value, fmt: NumFormat): Result<Value> {
    var template := Prop(job, "output_dir_template");
    if Truthy(template) then InterpolateText(template.value, context, fmt)
    else Ok(Str(JoinPath(["artifacts", id])))
  }

  /** `markdownPath`: the interpolated template when it is truthy, `docs/controls/auto-<id>.md` otherwise. */
  function MarkdownPath(job: Value, id: string, context: Value, fmt: NumFormat): Result<Value> {
    var template := Prop(job, "markdown_path_template");
    if Truthy(template) then InterpolateText(template.value, context, fmt)
    else Ok(Str(JoinPath(["docs", "controls", "auto-" + id + ".md"])))
  }

  /** Everything after the step loop, in the order the source evaluates it. */
  function AssembleJob(job: Value, profile: Value, blueprint: Value, capabilities: seq<Field>,
                       context: seq<Field>, steps: seq<CompiledStep>, fmt: NumFormat): (r: Result<CompiledJob>)
    ensures r.Ok? ==> IsCleanId(r.value.scenario.scenarioId) && r.value.scenario.schemaVersion == "1.0.0"
    ensures r.Ok? ==> r.value.scenario.steps == steps && r.value.capabilities == capabilities
    ensures r.Ok? ==> r.value.jobId == Prop(job, "job_id") && r.value.profileId == Prop(profile, "profile_id")
    ensures r.Ok? ==> r.value.blueprintId == Prop(blueprint, "blueprint_id") && r.value.scenario.target == Prop(blueprint, "target")
    ensures r.Ok? ==> ScenarioId(job, profile, blueprint, Obj(context), fmt) == Ok(r.value.scenario.scenarioId)
    ensures r.Ok? ==> ScenarioName(job, profile, blueprint, Obj(context), fmt) == Ok(r.value.scenario.name)
    ensures r.Ok? ==> ScenarioPath(job, r.value.scenario.scenarioId, r.value.scenario.name, context, fmt) == Ok(r.value.scenarioPath)
    ensures r.Ok? ==> OutputDir(job, r.value.scenario.scenarioId, Obj(context), fmt) == Ok(r.value.outputDir)
    ensures r.Ok? ==> MarkdownPath(job, r.value.scenario.scenarioId, Obj(context), fmt) == Ok(r.value.markdownPath)
    ensures r.Ok? ==> ResolveOpt(Prop(blueprint, "metadata_template"), Obj(context), fmt) == Ok(r.value.scenario.metadata)
  {
    var id :- ScenarioId(job, profile, blueprint, Obj(context), fmt);
    var name :- ScenarioName(job, profile, blueprint, Obj(context), fmt);
    var scenarioPath :- ScenarioPath(job, id, name, context, fmt);
    var outputDir :- OutputDir(job, id, Obj(context), fmt);
    var markdownPath :- MarkdownPath(job, id, Obj(context), fmt);
    var metadata :- ResolveOpt(Prop(blueprint, "metadata_template"), Obj(context), fmt);
    Ok(CompiledJob(Prop(job, "job_id"), Prop(profile, "profile_id"), Prop(blueprint, "blueprint_id"),
                   capabilities, scenarioPath, outputDir, markdownPath,
                   Scenario("1.0.0", id, name, Prop(blueprint, "target"), metadata, steps)))
  }

  /** The job context: the base context with the job's capabilities. */
  function JobContext(job: Value, profile: Value, blueprint: Value, matrix: Value, capabilities: seq<Field>): (r: seq<Field>)
    ensures Get(r, "capabilities") == Some(Obj(capabilities)) && Get(r, "scenario").None?
    ensures Get(r, "job") == Some(job) && Get(r, "profile") == Some(profile) && Get(r, "blueprint") == Some(blueprint)
  {
    var base := BaseContext(matrix, job, profile, blueprint);
    var r := WithCapabilities(base, capabilities);
    assert Get(r.fields, "scenario") == Get(base, "scenario");
    assert Get(r.fields, "job") == Get(base, "job");
    assert Get(r.fields, "profile") == Get(base, "profile");
    assert Get(r.fields, "blueprint") == Get(base, "blueprint");
    r.fields
  }

  /** `compileJob`: target check, capabilities, the kept steps, then the scenario record. */
  function CompileJobSpec(job: Value, profile: Value, blueprint: Value, matrix: Value,
                          capabilityRules: Option<Value>, fmt: NumFormat): (r: Result<CompiledJob>)
    requires ItemsOf(blueprint, "steps").Some?
    ensures !StrictEquals(Prop(profile, "target"), Prop(blueprint, "target")) ==>
      r == Err(TargetMismatch(Prop(job, "job_id"), Prop(profile, "target"), Prop(blueprint, "target")))
    ensures r.Ok? ==> IsCleanId(r.value.scenario.scenarioId) && r.value.jobId == Prop(job, "job_id")
    ensures r.Ok? ==> r.value.scenario.target == Prop(profile, "target") == Prop(blueprint, "target")
    ensures r.Ok? ==> Capabilities(profile, capabilityRules, BaseContext(matrix, job, profile, blueprint))
                        == Ok(r.value.capabilities)
    ensures r.Ok? ==> |r.value.scenario.steps| <= |ItemsOf(blueprint, "steps").value|
  {
    if !StrictEquals(Prop(profile, "target"), Prop(blueprint, "target")) then
      Err(TargetMismatch(Prop(job, "job_id"), Prop(profile, "target"), Prop(blueprint, "target")))
    else
      StrictEqualsSame(Prop(profile, "target"), Prop(blueprint, "target"));
      var capabilities :- Capabilities(profile, capabilityRules, BaseContext(matrix, job, profile, blueprint));
      var context := JobContext(job, profile, blueprint, matrix, capabilities);
      var steps :- CompileSteps(ItemsOf(blueprint, "steps").value, Obj(context), fmt);
      AssembleJob(job, profile, blueprint, capabilities, context, steps, fmt)
  }

  /** `compileJob` as the source writes it: a loop pushing each kept step. */
  method CompileJob(job: Value, profile: Value, blueprint: Value, matrix: Value,
                    capabilityRules: Option<Value>, fmt: NumFormat) returns (r: Result<CompiledJob>)
    requires ItemsOf(blueprint, "steps").Some?
    ensures r == CompileJobSpec(job, profile, blueprint, matrix, capabilityRules, fmt)
  {
    if !StrictEquals(Prop(profile, "target"), Prop(blueprint, "target")) {
      return Err(TargetMismatch(Prop(job, "job_id"), Prop(profile, "target"), Prop(blueprint, "target")));
    }
    StrictEqualsSame(Prop(profile, "target"), Prop(blueprint, "target"));
    var capabilities := CreateCapabilities(profile, capabilityRules, BaseContext(matrix, job, profile, blueprint));
    if capabilities.Err? {
      return Err(capabilities.error);
    }
    var context := JobContext(job, profile, blueprint, matrix, capabilities.value);
    var source := ItemsOf(blueprint, "steps").value;
    CompileJobAfterCapabilities(job, profile, blueprint, matrix, capabilityRules, fmt, capabilities.value);
    var steps: seq<CompiledStep> := [];
    for i := 0 to |source|
      invariant CompileSteps(source[..i], Obj(context), fmt) == Ok(steps)
    {
      CompileStepsSnoc(source, i, Obj(context), fmt);
      var keep := Evaluate(Prop(source[i], "when"), Obj(context));
      if keep.Err? {
        CompileStepsStopsAtError(source, i + 1, Obj(context), fmt);
        return Err(keep.error);
      }
      if keep.value {
        var compiled := CompileStep(source[i], Obj(context), fmt);
        if compiled.Err? {
          CompileStepsStopsAtError(source, i + 1, Obj(context), fmt);
          return Err(compiled.error);
        }
        steps := steps + [compiled.value];
      }
    }
    assert source[..|source|] == source;
    r := AssembleJob(job, profile, blueprint, capabilities.value, context, steps, fmt);
  }

  /** Once the targets agree and the capabilities are derived, `compileJob` is the step
      loop followed by the scenario record. */
  lemma CompileJobAfterCapabilities(job: Value, profile: Value, blueprint: Value, matrix: Value,
                                    capabilityRules: Option<Value>, fmt: NumFormat, capabilities: seq<Field>)
    requires ItemsOf(blueprint, "steps").Some? && StrictEquals(Prop(profile, "target"), Prop(blueprint, "target"))
    requires Capabilities(profile, capabilityRules, BaseContext(matrix, job, profile, blueprint)) == Ok(capabilities)
    ensures var context := JobContext(job, profile, blueprint, matrix, capabilities);
      CompileJobSpec(job, profile, blueprint, matrix, capabilityRules, fmt) ==
        match CompileSteps(ItemsOf(blueprint, "steps").value, Obj(context), fmt)
        case Err(e) => Err(e)
        case Ok(steps) => AssembleJob(job, profile, blueprint, capabilities, context, steps, fmt)
  {
  }

  /** A compiled job's scenario id, paths and name are those of the job context its capabilities give. */
  lemma CompiledJobFields(job: Value, profile: Value, blueprint: Value, matrix: Value,
                          capabilityRules: Option<Value>, fmt: NumFormat)
    requires ItemsOf(blueprint, "steps").Some? && CompileJobSpec(job, profile, blueprint, matrix, capabilityRules, fmt).Ok?
    ensures var j := CompileJobSpec(job, profile, blueprint, matrix, capabilityRules, fmt).value;
      var context := JobContext(job, profile, blueprint, matrix, j.capabilities);
      var id := j.scenario.scenarioId;
      ScenarioId(job, profile, blueprint, Obj(context), fmt) == Ok(id)
      && ScenarioName(job, profile, blueprint, Obj(context), fmt) == Ok(j.scenario.name)
      && ScenarioPath(job, id, j.scenario.name, context, fmt) == Ok(j.scenarioPath)
      && OutputDir(job, id, Obj(context), fmt) == Ok(j.outputDir)
      && MarkdownPath(job, id, Obj(context), fmt) == Ok(j.markdownPath)
  {
    var j := CompileJobSpec(job, profile, blueprint, matrix, capabilityRules, fmt).value;
    CompileJobAfterCapabilities(job, profile, blueprint, matrix, capabilityRules, fmt, j.capabilities);
  }

  /** A job without templates gets the id `<blueprint_id>-<profile_id>`, sanitised, and the default
      scenario path, output directory and markdown path built from it. */
  lemma CompiledJobDefaults(job: Value, profile: Value, blueprint: Value, matrix: Value,
                            capabilityRules: Option<Value>, fmt: NumFormat)
    requires ItemsOf(blueprint, "steps").Some? && CompileJobSpec(job, profile, blueprint, matrix, capabilityRules, fmt).Ok?
    requires !Truthy(Prop(job, "scenario_id_template")) && !Truthy(Prop(job, "scenario_path_template"))
    requires !Truthy(Prop(job, "output_dir_template")) && !Truthy(Prop(job, "markdown_path_template"))
    ensures var j := CompileJobSpec(job, profile, blueprint, matrix, capabilityRules, fmt).value;
      var id := j.scenario.scenarioId;
      id == SanitizeId(OptToStr(Prop(blueprint, "blueprint_id"), fmt) + "-" + OptToStr(Prop(profile, "profile_id"), fmt))
      && j.scenarioPath == Str("automation/scenarios/generated/" + id + ".scenario.json")
      && j.outputDir == Str(if id == "" then "artifacts" else "artifacts/" + id)
      && j.markdownPath == Str("docs/controls/auto-" + id + ".md")
  {
    var j := CompileJobSpec(job, profile, blueprint, matrix, capabilityRules, fmt).value;
    var context := JobContext(job, profile, blueprint, matrix, j.capabilities);
    var id := j.scenario.scenarioId;
    CompiledJobFields(job, profile, blueprint, matrix, capabilityRules, fmt);
    DefaultScenarioPathUntouched(job, id, j.scenario.name, context, fmt);
    DefaultOutputDir(job, id, Obj(context), fmt);
    DefaultMarkdownPath(job, id, Obj(context), fmt);
  }

  /** The default markdown path is `docs/controls/auto-<id>.md`. */
  lemma DefaultMarkdownPath(job: Value, id: string, context: Value, fmt: NumFormat)
    requires !Truthy(Prop(job, "markdown_path_template"))
    ensures MarkdownPath(job, id, context, fmt) == Ok(Str("docs/controls/auto-" + id + ".md"))
  {
    var file := "auto-" + id + ".md";
    JoinPathPair("controls", file);
    assert ["docs", "controls", file][1..] == ["controls", file];
    assert "docs" + "/" + ("controls" + "/" + file) == "docs/controls/auto-" + id + ".md";
  }

  /** `"unity-{{profile.profile_id}}"` gives the id `unity-alice-pc` for the profile `alice-pc`. */
  lemma ScenarioIdFromTemplate(job: Value, profile: Value, blueprint: Value, context: seq<Field>,
                               inner: seq<Field>, fmt: NumFormat)
    requires Prop(job, "scenario_id_template") == Some(Str("unity-{{profile.profile_id}}"))
    requires Get(context, "profile") == Some(Obj(inner)) && Get(inner, "profile_id") == Some(Str("alice-pc"))
    ensures ScenarioId(job, profile, blueprint, Obj(context), fmt) == Ok("unity-alice-pc")
  {
    var path, t := "profile.profile_id", Prop(job, "scenario_id_template").value.s;
    assert GetPath(Obj(context), Some(Str(path))) == Ok(Some(Str("alice-pc"))) by {
      ProfileIdSegments();
      TwoSegmentPath(Obj(context), "profile", "profile_id", inner, Str("alice-pc"));
    }
    assert Interpolate(t, Obj(context), fmt) == Ok("unity-alice-pc") by {
      AliceLiterals();
      TextThenToken(t, "unity-", path, Str("alice-pc"), Obj(context), fmt);
    }
    assert SanitizeId("unity-alice-pc") == "unity-alice-pc" by {
      AliceIdIsClean();
    }
    ScenarioIdOfTemplate(job, profile, blueprint, Obj(context), fmt, "unity-alice-pc");
  }

  /** A string template that interpolates to `x` gives the id `SanitizeId(x)`. */
  lemma ScenarioIdOfTemplate(job: Value, profile: Value, blueprint: Value, context: Value, fmt: NumFormat, x: string)
    requires Truthy(Prop(job, "scenario_id_template")) && Prop(job, "scenario_id_template").value.Str?
    requires Interpolate(Prop(job, "scenario_id_template").value.s, context, fmt) == Ok(x)
    ensures ScenarioId(job, profile, blueprint, context, fmt) == Ok(SanitizeId(x))
  {
  }

  lemma ProfileIdSegments()
    ensures !IsBlank("profile") && !IsBlank("profile_id") && '.' !in "profile" && '.' !in "profile_id"
    ensures "profile" + "." + "profile_id" == "profile.profile_id"
  {
    assert !IsWhitespace("profile"[0]);
    assert !IsWhitespace("profile_id"[0]);
  }

  /** Literal text followed by one token interpolates to the text and the token's value. */
  lemma TextThenToken(t: string, pre: string, path: string, v: Value, c: Value, fmt: NumFormat)
    requires t == pre + "{{" + path + "}}" && '{' !in pre && path != []
    requires forall i :: 0 <= i < |path| ==> IsPathChar(path[i])
    requires GetPath(c, Some(Str(path))) == Ok(Some(v)) && !v.Null?
    ensures Interpolate(t, c, fmt) == Ok(pre + ToStr(v, fmt))
  {
    assert t == pre + "{{" + "" + path + "" + "}}" + "";
    InterpolateToken(t, pre, "", path, "", "", c, fmt);
    assert Interpolate("", c, fmt) == Ok("");
    assert pre + ToStr(v, fmt) + "" == pre + ToStr(v, fmt);
  }

  lemma AliceLiterals()
    ensures "unity-{{profile.profile_id}}" == "unity-" + "{{" + "profile.profile_id" + "}}"
    ensures '{' !in "unity-" && "unity-" + "alice-pc" == "unity-alice-pc"
    ensures forall i :: 0 <= i < |"profile.profile_id"| ==> IsPathChar("profile.profile_id"[i])
  {
  }

  lemma AliceIdIsClean()
    ensures SanitizeId("unity-alice-pc") == "unity-alice-pc"
  {
    var id := "unity-alice-pc";
    assert forall i :: 0 <= i < |id| ==> IsIdChar(id[i]);
    assert NoDoubleHyphen(id);
    CleanIdIsFixed(id);
  }

  /** A clean id holds no `{`, so no text built from it and plain literals has a token. */
  lemma CleanIdHasNoBrace(id: string)
    requires IsCleanId(id)
    ensures '{' !in id
  {
    assert forall i :: 0 <= i < |id| ==> IsIdChar(id[i]) && id[i] != '{';
  }

  /** `path.join(a, b)` with a non-empty first segment. */
  lemma JoinPathPair(a: string, b: string)
    requires a != ""
    ensures JoinPath([a, b]) == if b == "" then a else a + "/" + b
  {
    assert [a, b][1..] == [b];
    assert JoinPath([b]) == b by { assert [b][1..] == []; }
  }

  /** `path.join(a, b, c, d)` with non-empty segments. */
  lemma JoinPathFour(a: string, b: string, c: string, d: string)
    requires a != "" && b != "" && c != "" && d != ""
    ensures JoinPath([a, b, c, d]) == a + "/" + b + "/" + c + "/" + d
  {
    JoinPathPair(c, d);
    assert [b, c, d][1..] == [c, d];
    assert [a, b, c, d][1..] == [b, c, d];
    assert JoinPath([b, c, d]) == b + "/" + (c + "/" + d);
    assert b + "/" + (c + "/" + d) == b + "/" + c + "/" + d;
    assert a + "/" + (b + "/" + c + "/" + d) == a + "/" + b + "/" + c + "/" + d;
  }

  /** The default scenario path is `automation/scenarios/generated/<id>.scenario.json`. */
  lemma DefaultScenarioPathText(id: string)
    ensures DefaultScenarioPath(id) == "automation/scenarios/generated/" + id + ".scenario.json"
  {
    var file := id + ".scenario.json";
    JoinPathFour("automation", "scenarios", "generated", file);
    assert "automation" + "/" + "scenarios" + "/" + "generated" + "/" + file
        == "automation/scenarios/generated/" + id + ".scenario.json";
  }

  lemma DefaultScenarioPathNoBrace(id: string)
    requires IsCleanId(id)
    ensures '{' !in DefaultScenarioPath(id)
  {
    DefaultScenarioPathText(id);
    CleanIdHasNoBrace(id);
    assert '{' !in "automation/scenarios/generated/" && '{' !in ".scenario.json";
  }

  /** Without a template the scenario path is the default one: interpolating it changes nothing. */
  lemma DefaultScenarioPathUntouched(job: Value, id: string, name: Value, context: seq<Field>, fmt: NumFormat)
    requires IsCleanId(id) && !Truthy(Prop(job, "scenario_path_template"))
    ensures ScenarioPath(job, id, name, context, fmt) == Ok(Str("automation/scenarios/generated/" + id + ".scenario.json"))
  {
    DefaultScenarioPathNoBrace(id);
    InterpolateNoTokens(DefaultScenarioPath(id), PathContext(context, id, name), fmt);
    DefaultScenarioPathText(id);
  }

  /** The default output directory is `artifacts/<id>`, or `artifacts` for an empty id. */
  lemma DefaultOutputDir(job: Value, id: string, context: Value, fmt: NumFormat)
    requires !Truthy(Prop(job, "output_dir_template"))
    ensures OutputDir(job, id, context, fmt) == Ok(Str(if id == "" then "artifacts" else "artifacts/" + id))
  {
    JoinPathPair("artifacts", id);
    assert "artifacts" + "/" + id == "artifacts/" + id;
  }

  /** A template that is a single token interpolates to the text of the value it names. */
  lemma InterpolateWholeToken(t: string, path: string, context: Value, fmt: NumFormat)
    requires t == "{{" + path + "}}" && path != []
    requires forall i :: 0 <= i < |path| ==> IsPathChar(path[i])
    ensures GetPath(context, Some(Str(path))).Ok?
    ensures var value := GetPath(context, Some(Str(path))).value;
      Interpolate(t, context, fmt) ==
        if value.None? || value.value.Null? then Err(MissingReference(path)) else Ok(ToStr(value.value, fmt))
  {
    assert t == "" + "{{" + "" + path + "" + "}}" + "";
    InterpolateToken(t, "", "", path, "", "", context, fmt);
    assert Interpolate("", context, fmt) == Ok("");
    var value := GetPath(context, Some(Str(path))).value;
    if value.Some? {
      assert "" + ToStr(value.value, fmt) + "" == ToStr(value.value, fmt);
    }
  }

  /** A two-segment path `a.b` reads `b` inside the object under `a`. */
  lemma TwoSegmentPath(c: Value, a: string, b: string, inner: seq<Field>, v: Value)
    requires c.Obj? && Get(c.fields, a) == Some(Obj(inner)) && Get(inner, b) == Some(v)
    requires !IsBlank(a) && !IsBlank(b) && '.' !in a && '.' !in b
    ensures GetPath(c, Some(Str(a + "." + b))) == Ok(Some(v))
  {
    GetPathCompose(c, a, b);
    GetPathSingle(c, a);
    GetPathSingle(Obj(inner), b);
  }

  /** A two-segment path whose first segment is absent reads nothing. */
  lemma TwoSegmentPathAbsent(c: Value, a: string, b: string)
    requires c.Obj? && Get(c.fields, a).None?
    requires !IsBlank(a) && !IsBlank(b) && '.' !in a && '.' !in b
    ensures GetPath(c, Some(Str(a + "." + b))) == Ok(None)
  {
    GetPathCompose(c, a, b);
    GetPathSingle(c, a);
  }

  /** A segment of a reference path: non-blank, without a dot, of path characters only. */
  predicate IsSegment(a: string) {
    !IsBlank(a) && '.' !in a && forall i :: 0 <= i < |a| ==> IsPathChar(a[i])
  }

  lemma SegmentsJoin(a: string, b: string)
    requires IsSegment(a) && IsSegment(b)
    ensures a + "." + b != [] && forall i :: 0 <= i < |a + "." + b| ==> IsPathChar((a + "." + b)[i])
  {
    var p := a + "." + b;
    forall i | 0 <= i < |p| ensures IsPathChar(p[i]) {
      if i < |a| { assert p[i] == a[i]; } else if i > |a| { assert p[i] == b[i - |a| - 1]; }
    }
  }

  /** `{{a.b}}` is replaced by the text of `b` inside the object under `a` ... */
  lemma TwoSegmentTokenFound(t: string, a: string, b: string, c: Value, inner: seq<Field>, v: Value, fmt: NumFormat)
    requires t == "{{" + a + "." + b + "}}" && IsSegment(a) && IsSegment(b) && c.Obj?
    requires Get(c.fields, a) == Some(Obj(inner)) && Get(inner, b) == Some(v) && !v.Null?
    ensures Interpolate(t, c, fmt) == Ok(ToStr(v, fmt))
  {
    SegmentsJoin(a, b);
    InterpolateWholeToken(t, a + "." + b, c, fmt);
    TwoSegmentPath(c, a, b, inner, v);
  }

  /** ... and is a missing reference when there is nothing under `a`. */
  lemma TwoSegmentTokenAbsent(t: string, a: string, b: string, c: Value, fmt: NumFormat)
    requires t == "{{" + a + "." + b + "}}" && IsSegment(a) && IsSegment(b) && c.Obj?
    requires Get(c.fields, a).None?
    ensures Interpolate(t, c, fmt) == Err(MissingReference(a + "." + b))
  {
    SegmentsJoin(a, b);
    InterpolateWholeToken(t, a + "." + b, c, fmt);
    TwoSegmentPathAbsent(c, a, b);
  }

  lemma ScenarioIdSegments()
    ensures IsSegment("scenario") && IsSegment("id")
    ensures "{{scenario.id}}" == "{{" + "scenario" + "." + "id" + "}}" && "scenario.id" == "scenario" + "." + "id"
  {
    assert !IsWhitespace("scenario"[0]);
    assert !IsWhitespace("id"[0]);
  }

  /** `{{scenario.id}}` in the path context reads the scenario id. */
  lemma ScenarioIdInPathContext(context: seq<Field>, id: string, name: Value, fmt: NumFormat)
    ensures Interpolate("{{scenario.id}}", PathContext(context, id, name), fmt) == Ok(id)
  {
    var pc := PathContext(context, id, name);
    var inner := [Field("id", Str(id)), Field("name", name)];
    assert Get(pc.fields, "scenario") == Some(Obj(inner));
    FindFirst(inner, "id", 0);
    ScenarioIdSegments();
    TwoSegmentTokenFound("{{scenario.id}}", "scenario", "id", pc, inner, Str(id), fmt);
  }

  /** `{{scenario.id}}` names the scenario id in the scenario path ... */
  lemma ScenarioPathSeesScenario(job: Value, id: string, name: Value, context: seq<Field>, fmt: NumFormat)
    requires Prop(job, "scenario_path_template") == Some(Str("{{scenario.id}}"))
    ensures ScenarioPath(job, id, name, context, fmt) == Ok(Str(id))
  {
    ScenarioIdInPathContext(context, id, name, fmt);
    assert ScenarioPath(job, id, name, context, fmt)
        == InterpolateText(Str("{{scenario.id}}"), PathContext(context, id, name), fmt);
  }

  /** ... but not in the output directory, whose context has no `scenario` ... */
  lemma OutputDirCannotSeeScenario(job: Value, profile: Value, blueprint: Value, matrix: Value,
                                   capabilities: seq<Field>, id: string, fmt: NumFormat)
    requires Prop(job, "output_dir_template") == Some(Str("{{scenario.id}}"))
    ensures OutputDir(job, id, Obj(JobContext(job, profile, blueprint, matrix, capabilities)), fmt)
            == Err(MissingReference("scenario.id"))
  {
    var c := Obj(JobContext(job, profile, blueprint, matrix, capabilities));
    ScenarioIdAbsent(c, fmt);
    OutputDirFails(job, id, c, "{{scenario.id}}", "scenario.id", fmt);
  }

  /** ... nor in the markdown path. */
  lemma MarkdownPathCannotSeeScenario(job: Value, profile: Value, blueprint: Value, matrix: Value,
                                      capabilities: seq<Field>, id: string, fmt: NumFormat)
    requires Prop(job, "markdown_path_template") == Some(Str("{{scenario.id}}"))
    ensures MarkdownPath(job, id, Obj(JobContext(job, profile, blueprint, matrix, capabilities)), fmt)
            == Err(MissingReference("scenario.id"))
  {
    var c := Obj(JobContext(job, profile, blueprint, matrix, capabilities));
    ScenarioIdAbsent(c, fmt);
    assert MarkdownPath(job, id, c, fmt) == InterpolateText(Str("{{scenario.id}}"), c, fmt);
  }

  lemma ScenarioIdAbsent(c: Value, fmt: NumFormat)
    requires c.Obj? && Get(c.fields, "scenario").None?
    ensures Interpolate("{{scenario.id}}", c, fmt) == Err(MissingReference("scenario.id"))
  {
    ScenarioIdSegments();
    TwoSegmentTokenAbsent("{{scenario.id}}", "scenario", "id", c, fmt);
  }

  /** An output directory template that fails to interpolate fails the job. */
  lemma OutputDirFails(job: Value, id: string, c: Value, t: string, path: string, fmt: NumFormat)
    requires Prop(job, "output_dir_template") == Some(Str(t)) && t != []
    requires Interpolate(t, c, fmt) == Err(MissingReference(path))
    ensures OutputDir(job, id, c, fmt) == Err(MissingReference(path))
  {
  }

  // ------------------------------------------------------------- compileMatrix

  /** The compiled matrix. The clock reading `generated_at` is a parameter of the model. */
  datatype CompiledMatrix = CompiledMatrix(matrixId: Option<Value>, generatedAt: string, jobs: seq<CompiledJob>)

  /** `job.profile_id`, a string once the matrix is validated. */
  function ProfileIdOf(job: Value): string {
    match Prop(job, "profile_id")
    case Some(Str(s)) => s
    case _ => ""
  }

  /** `job.blueprint_id`, a string once the matrix is validated. */
  function BlueprintIdOf(job: Value): string {
    match Prop(job, "blueprint_id")
    case Some(Str(s)) => s
    case _ => ""
  }

  /** One job of the matrix: look up its profile and blueprint, validate both, then compile. */
  function CompileMatrixJob(job: Value, matrix: Value, profilesById: seq<Field>, blueprintsById: seq<Field>,
                            capabilityRules: Option<Value>, fmt: NumFormat): (r: Result<CompiledJob>)
    ensures !Truthy(Get(profilesById, ProfileIdOf(job))) ==> r == Err(ProfileNotFound(ProfileIdOf(job), JobId(job)))
    ensures Truthy(Get(profilesById, ProfileIdOf(job))) && !Truthy(Get(blueprintsById, BlueprintIdOf(job))) ==>
      r == Err(BlueprintNotFound(BlueprintIdOf(job), JobId(job)))
    ensures r.Ok? ==> Get(profilesById, ProfileIdOf(job)).Some? && ProfileShape(Get(profilesById, ProfileIdOf(job)).value)
    ensures r.Ok? ==> Get(blueprintsById, BlueprintIdOf(job)).Some? && BlueprintShape(Get(blueprintsById, BlueprintIdOf(job)).value)
    ensures r.Ok? ==> r.value.jobId == Prop(job, "job_id") && IsCleanId(r.value.scenario.scenarioId)
  {
    var profile := Get(profilesById, ProfileIdOf(job));
    var blueprint := Get(blueprintsById, BlueprintIdOf(job));
    if !Truthy(profile) then Err(ProfileNotFound(ProfileIdOf(job), JobId(job)))
    else if !Truthy(blueprint) then Err(BlueprintNotFound(BlueprintIdOf(job), JobId(job)))
    else match ValidateProfile(profile.value)
      case Fail(e) => Err(e)
      case Pass =>
        match ValidateBlueprint(blueprint.value)
        case Fail(e) => Err(e)
        case Pass => CompileJobSpec(job, profile.value, blueprint.value, matrix, capabilityRules, fmt)
  }

  /** `matrix.jobs.map(...)`: every job compiled in order; the first error is the one thrown. */
  function CompileJobs(jobs: seq<Value>, matrix: Value, profilesById: seq<Field>, blueprintsById: seq<Field>,
                       capabilityRules: Option<Value>, fmt: NumFormat): (r: Result<seq<CompiledJob>>)
    ensures r.Ok? ==> |r.value| == |jobs|
    ensures r.Ok? ==> forall i :: 0 <= i < |jobs| ==>
      CompileMatrixJob(jobs[i], matrix, profilesById, blueprintsById, capabilityRules, fmt) == Ok(r.value[i])
  {
    AllOk(JobResults(jobs, matrix, profilesById, blueprintsById, capabilityRules, fmt))
  }

  /** Each matrix job's compilation result, in order. */
  function JobResults(jobs: seq<Value>, matrix: Value, profilesById: seq<Field>, blueprintsById: seq<Field>,
                      capabilityRules: Option<Value>, fmt: NumFormat): (r: seq<Result<CompiledJob>>)
    ensures |r| == |jobs|
    ensures forall i :: 0 <= i < |jobs| ==>
      r[i] == CompileMatrixJob(jobs[i], matrix, profilesById, blueprintsById, capabilityRules, fmt)
  {
    seq(|jobs|, i requires 0 <= i < |jobs| =>
      CompileMatrixJob(jobs[i], matrix, profilesById, blueprintsById, capabilityRules, fmt))
  }

  /** `compileMatrix`: validate the matrix, then compile every job. */
  function CompileMatrix(matrix: Value, profilesById: seq<Field>, blueprintsById: seq<Field>,
                         capabilityRules: Option<Value>, generatedAt: string, fmt: NumFormat): (r: Result<CompiledMatrix>)
    ensures MatrixVerdict(matrix).Fail? ==> r == Err(MatrixVerdict(matrix).error)
    ensures r.Ok? ==> MatrixVerdict(matrix) == Pass && ItemsOf(matrix, "jobs").Some?
    ensures r.Ok? ==> r.value.matrixId == Prop(matrix, "matrix_id") && r.value.generatedAt == generatedAt
    ensures r.Ok? ==> |r.value.jobs| == |ItemsOf(matrix, "jobs").value|
    ensures r.Ok? ==> forall i :: 0 <= i < |r.value.jobs| ==>
      CompileMatrixJob(ItemsOf(matrix, "jobs").value[i], matrix, profilesById, blueprintsById,
                       Some(if capabilityRules.None? then DefaultRules else capabilityRules.value), fmt)
      == Ok(r.value.jobs[i])
    ensures MatrixVerdict(matrix) == Pass ==> ItemsOf(matrix, "jobs").Some?
    ensures MatrixVerdict(matrix) == Pass ==>
      var compiled := CompileJobs(ItemsOf(matrix, "jobs").value, matrix, profilesById, blueprintsById,
                                  Some(if capabilityRules.None? then DefaultRules else capabilityRules.value), fmt);
      (r.Err? <==> compiled.Err?) && (r.Err? ==> r.error == compiled.error)
  {
    match MatrixVerdict(matrix)
    case Fail(e) => Err(e)
    case Pass =>
      AcceptedMatrixHasDistinctIds(matrix);
      var rules := if capabilityRules.None? then DefaultRules else capabilityRules.value;
      var jobs :- CompileJobs(ItemsOf(matrix, "jobs").value, matrix, profilesById, blueprintsById, Some(rules), fmt);
      Ok(CompiledMatrix(Prop(matrix, "matrix_id"), generatedAt, jobs))
  }

  /** When the jobs before `k` compile and job `k` does not, its error is the one thrown. */
  lemma CompileJobsFirstError(jobs: seq<Value>, k: nat, matrix: Value, profilesById: seq<Field>,
                              blueprintsById: seq<Field>, capabilityRules: Option<Value>, fmt: NumFormat)
    requires k < |jobs|
    requires forall j :: 0 <= j < k ==> CompileMatrixJob(jobs[j], matrix, profilesById, blueprintsById, capabilityRules, fmt).Ok?
    requires CompileMatrixJob(jobs[k], matrix, profilesById, blueprintsById, capabilityRules, fmt).Err?
    ensures CompileJobs(jobs, matrix, profilesById, blueprintsById, capabilityRules, fmt)
            == Err(CompileMatrixJob(jobs[k], matrix, profilesById, blueprintsById, capabilityRules, fmt).error)
  {
    AllOkFirstError(JobResults(jobs, matrix, profilesById, blueprintsById, capabilityRules, fmt), k);
  }

  /** Compiled jobs carry their matrix job's id. */
  lemma CompileJobsKeepIds(jobs: seq<Value>, matrix: Value, profilesById: seq<Field>, blueprintsById: seq<Field>,
                           capabilityRules: Option<Value>, fmt: NumFormat)
    requires CompileJobs(jobs, matrix, profilesById, blueprintsById, capabilityRules, fmt).Ok?
    ensures var compiled := CompileJobs(jobs, matrix, profilesById, blueprintsById, capabilityRules, fmt).value;
      forall i :: 0 <= i < |jobs| ==> compiled[i].jobId == Prop(jobs[i], "job_id")
  {
    var compiled := CompileJobs(jobs, matrix, profilesById, blueprintsById, capabilityRules, fmt).value;
    forall i | 0 <= i < |jobs| ensures compiled[i].jobId == Prop(jobs[i], "job_id") {
      assert CompileMatrixJob(jobs[i], matrix, profilesById, blueprintsById, capabilityRules, fmt) == Ok(compiled[i]);
    }
  }

  /** Jobs of an accepted matrix have pairwise different `job_id` values. */
  lemma AcceptedJobIdsDiffer(matrix: Value, i: nat, j: nat)
    requires MatrixVerdict(matrix) == Pass && ItemsOf(matrix, "jobs").Some? && i < j < |ItemsOf(matrix, "jobs").value|
    ensures Prop(ItemsOf(matrix, "jobs").value[i], "job_id") != Prop(ItemsOf(matrix, "jobs").value[j], "job_id")
  {
    AcceptedMatrixHasDistinctIds(matrix);
    var jobs := ItemsOf(matrix, "jobs").value;
    assert JobShape(jobs[i]) && JobShape(jobs[j]);
    assert JobId(jobs[i]) != JobId(jobs[j]);
  }

  /** The compiled jobs keep the matrix's job ids, in order, and so are pairwise distinct. */
  lemma CompiledJobIds(matrix: Value, profilesById: seq<Field>, blueprintsById: seq<Field>,
                       capabilityRules: Option<Value>, generatedAt: string, fmt: NumFormat)
    requires CompileMatrix(matrix, profilesById, blueprintsById, capabilityRules, generatedAt, fmt).Ok?
    ensures var compiled := CompileMatrix(matrix, profilesById, blueprintsById, capabilityRules, generatedAt, fmt).value;
      forall i :: 0 <= i < |compiled.jobs| ==> compiled.jobs[i].jobId == Prop(ItemsOf(matrix, "jobs").value[i], "job_id")
    ensures var compiled := CompileMatrix(matrix, profilesById, blueprintsById, capabilityRules, generatedAt, fmt).value;
      forall i, j :: 0 <= i < j < |compiled.jobs| ==> compiled.jobs[i].jobId != compiled.jobs[j].jobId
  {
    var jobs := ItemsOf(matrix, "jobs").value;
    var rules := Some(if capabilityRules.None? then DefaultRules else capabilityRules.value);
    var compiled := CompileMatrix(matrix, profilesById, blueprintsById, capabilityRules, generatedAt, fmt).value;
    assert compiled.jobs == CompileJobs(jobs, matrix, profilesById, blueprintsById, rules, fmt).value;
    CompileJobsKeepIds(jobs, matrix, profilesById, blueprintsById, rules, fmt);
    forall i, j | 0 <= i < j < |compiled.jobs|
      ensures compiled.jobs[i].jobId != compiled.jobs[j].jobId
    {
      AcceptedJobIdsDiffer(matrix, i, j);
    }
  }

  /** A job naming a profile that was not loaded stops compilation with that profile named,
      once every job before it compiled. */
  lemma MissingProfileReported(matrix: Value, k: nat, profilesById: seq<Field>, blueprintsById: seq<Field>,
                               capabilityRules: Option<Value>, generatedAt: string, fmt: NumFormat)
    requires MatrixVerdict(matrix) == Pass
    requires ItemsOf(matrix, "jobs").Some? && k < |ItemsOf(matrix, "jobs").value|
    requires Get(profilesById, ProfileIdOf(ItemsOf(matrix, "jobs").value[k])).None?
    requires forall j :: 0 <= j < k ==>
      CompileMatrixJob(ItemsOf(matrix, "jobs").value[j], matrix, profilesById, blueprintsById, Some(if capabilityRules.None? then DefaultRules else capabilityRules.value), fmt).Ok?
    ensures CompileMatrix(matrix, profilesById, blueprintsById, capabilityRules, generatedAt, fmt)
            == Err(ProfileNotFound(ProfileIdOf(ItemsOf(matrix, "jobs").value[k]), JobId(ItemsOf(matrix, "jobs").value[k])))
  {
    var rules := if capabilityRules.None? then DefaultRules else capabilityRules.value;
    CompileJobsFirstError(ItemsOf(matrix, "jobs").value, k, matrix, profilesById, blueprintsById, Some(rules), fmt);
  }
}
