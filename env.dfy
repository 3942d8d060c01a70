/**
 * Loading environment variables: the keys of an example file must all be
 * declared, `${NAME}` placeholders are substituted (recursively), and the
 * variables are copied into the process environment, never over a variable
 * that is already defined. Reading the files and parsing them are outside the
 * model: the parsed file comes in as its keys in file order and its values.
 */
module Env {

  import opened Wrappers
  import opened Text

  // ----- the placeholder pattern /\${\s*(\w+)\s*}/g -----

  function SkipSpaces(s: string, j: nat): (k: nat)
    requires j <= |s|
    ensures j <= k <= |s|
    ensures k < |s| ==> !IsSpace(s[k])
    decreases |s| - j
  {
    if j < |s| && IsSpace(s[j]) then SkipSpaces(s, j + 1) else j
  }

  /** Everything `SkipSpaces` passes over is whitespace. */
  lemma {:induction false} SkipSpacesRun(s: string, j: nat)
    requires j <= |s|
    ensures forall p :: j <= p < SkipSpaces(s, j) ==> IsSpace(s[p])
    decreases |s| - j
  {
    if j < |s| && IsSpace(s[j]) {
      SkipSpacesRun(s, j + 1);
    }
  }

  function SkipWord(s: string, j: nat): (k: nat)
    requires j <= |s|
    ensures j <= k <= |s|
    ensures k < |s| ==> !IsWordChar(s[k])
    decreases |s| - j
  {
    if j < |s| && IsWordChar(s[j]) then SkipWord(s, j + 1) else j
  }

  /** Everything `SkipWord` passes over is a word character. */
  lemma {:induction false} SkipWordChars(s: string, j: nat)
    requires j <= |s|
    ensures forall p :: j <= p < SkipWord(s, j) ==> IsWordChar(s[p])
    decreases |s| - j
  {
    if j < |s| && IsWordChar(s[j]) {
      SkipWordChars(s, j + 1);
    }
  }

  /** A placeholder match starting at `i`: the name it captures and where the match ends. */
  datatype Match = Match(name: string, end: nat)

  function PlaceholderAt(s: string, i: nat): (m: Option<Match>)
    ensures m.Some? ==> i + 3 < m.value.end <= |s| && m.value.name != []
  {
    if i + 1 < |s| && s[i] == '$' && s[i + 1] == '{' then
      var a := SkipSpaces(s, i + 2);
      var b := SkipWord(s, a);
      var c := SkipSpaces(s, b);
      if a < b && c < |s| && s[c] == '}' then Some(Match(s[a..b], c + 1)) else None
    else None
  }

  /** A match starts with `$`, holds no other `$`, and captures a word. */
  lemma PlaceholderShape(s: string, i: nat)
    requires PlaceholderAt(s, i).Some?
    ensures var m := PlaceholderAt(s, i).value;
            && s[i] == '$'
            && (forall p :: i < p < m.end ==> s[p] != '$')
            && (forall p :: 0 <= p < |m.name| ==> IsWordChar(m.name[p]))
  {
    var a := SkipSpaces(s, i + 2);
    var b := SkipWord(s, a);
    SkipSpacesRun(s, i + 2);
    SkipWordChars(s, a);
    SkipSpacesRun(s, b);
    assert forall p :: 0 <= p < b - a ==> s[a..b][p] == s[a + p];
  }

  // ----- interpolate -----

  /** `process.env[key] || parsed[key] || ''`. */
  function Lookup(key: string, parsed: map<string, string>, env: map<string, string>): (v: string)
    ensures key in env && env[key] != "" ==> v == env[key]
    ensures (key !in env || env[key] == "") && key in parsed ==> v == parsed[key]
    ensures (key !in env || env[key] == "") && (key !in parsed || parsed[key] == "") ==> v == ""
  {
    if key in env && env[key] != "" then env[key]
    else if key in parsed && parsed[key] != "" then parsed[key]
    else ""
  }

  /** `missing.add(key)` on an insertion-ordered set. */
  function AddOnce(missing: seq<string>, key: string): (r: seq<string>)
    ensures key in r && forall x :: x in r <==> x in missing || x == key
  {
    if key in missing then missing else missing + [key]
  }

  datatype Interpolated = Interpolated(text: string, missing: seq<string>)

  /**
   * `interpolate` applied to `s[i..]`, with `missing` the names found missing
   * so far. The recursion into a substituted value uses one unit of `fuel`; a
   * chain of references deeper than `fuel` (in JavaScript: a cycle that
   * overflows the stack) gives None.
   */
  function Scan(s: string, i: nat, parsed: map<string, string>, env: map<string, string>,
                missing: seq<string>, fuel: nat): Option<Interpolated>
    requires i <= |s|
    decreases fuel, |s| - i
  {
    if i == |s| then Some(Interpolated("", missing))
    else match PlaceholderAt(s, i)
      case None => Prepend([s[i]], Scan(s, i + 1, parsed, env, missing, fuel))
      case Some(m) =>
        var missing' := Noted(missing, m.name, parsed, env);
        if fuel == 0 then None
        else match Scan(Lookup(m.name, parsed, env), 0, parsed, env, missing', fuel - 1)
          case None => None
          case Some(inner) => Prepend(inner.text, Scan(s, m.end, parsed, env, inner.missing, fuel))
  }

  /** The missing set once a placeholder for `name` is met: `name` is added if it is declared nowhere. */
  function Noted(missing: seq<string>, name: string, parsed: map<string, string>, env: map<string, string>): (r: seq<string>)
    ensures name !in parsed && name !in env ==> name in r
    ensures forall x :: x in r <==> x in missing || (x == name && name !in parsed && name !in env)
  {
    if name !in parsed && name !in env then AddOnce(missing, name) else missing
  }

  /** The step of `Scan` at a placeholder that resolves: the value is interpolated first, then the rest. */
  lemma ScanAtPlaceholder(s: string, i: nat, parsed: map<string, string>, env: map<string, string>,
                          missing: seq<string>, fuel: nat)
    requires i < |s| && PlaceholderAt(s, i).Some?
    requires Scan(s, i, parsed, env, missing, fuel).Some?
    ensures var m := PlaceholderAt(s, i).value;
            var inner := Scan(Lookup(m.name, parsed, env), 0, parsed, env, Noted(missing, m.name, parsed, env), fuel - 1);
            && fuel > 0
            && inner.Some?
            && Scan(s, m.end, parsed, env, inner.value.missing, fuel).Some?
            && Scan(s, i, parsed, env, missing, fuel).value.missing
               == Scan(s, m.end, parsed, env, inner.value.missing, fuel).value.missing
  {
  }

  /** Text placed in front of an interpolation's output. */
  function Prepend(t: string, r: Option<Interpolated>): Option<Interpolated> {
    match r
    case None => None
    case Some(x) => Some(Interpolated(t + x.text, x.missing))
  }

  function Interpolate(s: string, parsed: map<string, string>, env: map<string, string>,
                       missing: seq<string>, fuel: nat): Option<Interpolated>
  {
    Scan(s, 0, parsed, env, missing, fuel)
  }

  /** `after` keeps every name of `before` and adds only names outside `declared`. */
  ghost predicate OnlyUndeclaredAdded(before: seq<string>, after: seq<string>, declared: set<string>) {
    && (forall x :: x in before ==> x in after)
    && (forall x :: x in after && x !in before ==> x !in declared)
  }

  lemma OnlyUndeclaredAddedTrans(a: seq<string>, b: seq<string>, c: seq<string>, declared: set<string>)
    requires OnlyUndeclaredAdded(a, b, declared) && OnlyUndeclaredAdded(b, c, declared)
    ensures OnlyUndeclaredAdded(a, c, declared)
  {
  }

  /**
   * Interpolation only ever adds names to the missing set, and each name it
   * adds is declared neither in the parsed file nor in the environment.
   */
  lemma {:induction false} ScanMissingSound(s: string, i: nat, parsed: map<string, string>,
                                            env: map<string, string>, missing: seq<string>, fuel: nat)
    requires i <= |s|
    requires Scan(s, i, parsed, env, missing, fuel).Some?
    ensures OnlyUndeclaredAdded(missing, Scan(s, i, parsed, env, missing, fuel).value.missing, parsed.Keys + env.Keys)
    decreases fuel, |s| - i, 1
  {
    if i < |s| {
      if PlaceholderAt(s, i).None? {
        ScanMissingSound(s, i + 1, parsed, env, missing, fuel);
      } else {
        ScanMissingSoundAt(s, i, parsed, env, missing, fuel);
      }
    }
  }

  /** The step of `ScanMissingSound` at a placeholder. */
  lemma {:induction false} ScanMissingSoundAt(s: string, i: nat, parsed: map<string, string>,
                                              env: map<string, string>, missing: seq<string>, fuel: nat)
    requires i < |s| && PlaceholderAt(s, i).Some?
    requires Scan(s, i, parsed, env, missing, fuel).Some?
    ensures OnlyUndeclaredAdded(missing, Scan(s, i, parsed, env, missing, fuel).value.missing, parsed.Keys + env.Keys)
    decreases fuel, |s| - i, 0
  {
    var declared := parsed.Keys + env.Keys;
    var m := PlaceholderAt(s, i).value;
    var missing' := Noted(missing, m.name, parsed, env);
    var v := Lookup(m.name, parsed, env);
    ScanAtPlaceholder(s, i, parsed, env, missing, fuel);
    ScanMissingSound(v, 0, parsed, env, missing', fuel - 1);
    var inner := Scan(v, 0, parsed, env, missing', fuel - 1).value;
    PlaceholderShape(s, i);
    ScanMissingSound(s, m.end, parsed, env, inner.missing, fuel);
    OnlyUndeclaredAddedTrans(missing, missing', inner.missing, declared);
  }

  /**
   * Every placeholder in `s[i..]` whose name is declared nowhere ends up in
   * the missing set.
   */
  lemma {:induction false} ScanMissingComplete(s: string, i: nat, parsed: map<string, string>,
                                               env: map<string, string>, missing: seq<string>, fuel: nat,
                                               p: nat)
    requires i <= p < |s|
    requires PlaceholderAt(s, p).Some?
    requires PlaceholderAt(s, p).value.name !in parsed && PlaceholderAt(s, p).value.name !in env
    requires Scan(s, i, parsed, env, missing, fuel).Some?
    ensures PlaceholderAt(s, p).value.name in Scan(s, i, parsed, env, missing, fuel).value.missing
    decreases |s| - i, 1
  {
    if PlaceholderAt(s, i).None? {
      ScanMissingComplete(s, i + 1, parsed, env, missing, fuel, p);
    } else {
      ScanMissingCompleteAt(s, i, parsed, env, missing, fuel, p);
    }
  }

  /** The step of `ScanMissingComplete` at a placeholder. */
  lemma {:induction false} ScanMissingCompleteAt(s: string, i: nat, parsed: map<string, string>,
                                                 env: map<string, string>, missing: seq<string>, fuel: nat,
                                                 p: nat)
    requires i <= p < |s|
    requires PlaceholderAt(s, i).Some? && PlaceholderAt(s, p).Some?
    requires PlaceholderAt(s, p).value.name !in parsed && PlaceholderAt(s, p).value.name !in env
    requires Scan(s, i, parsed, env, missing, fuel).Some?
    ensures PlaceholderAt(s, p).value.name in Scan(s, i, parsed, env, missing, fuel).value.missing
    decreases |s| - i, 0
  {
    var m := PlaceholderAt(s, i).value;
    var missing' := Noted(missing, m.name, parsed, env);
    ScanAtPlaceholder(s, i, parsed, env, missing, fuel);
    var inner := Scan(Lookup(m.name, parsed, env), 0, parsed, env, missing', fuel - 1).value;
    if p == i {
      ScanMissingSound(Lookup(m.name, parsed, env), 0, parsed, env, missing', fuel - 1);
      ScanMissingSound(s, m.end, parsed, env, inner.missing, fuel);
    } else {
      PlaceholderShape(s, i);
      assert s[p] == '$';
      ScanMissingComplete(s, m.end, parsed, env, inner.missing, fuel, p);
    }
  }

  /** Text in which no placeholder starts is copied verbatim. */
  lemma {:induction false} ScanVerbatim(s: string, i: nat, j: nat, parsed: map<string, string>,
                                        env: map<string, string>, missing: seq<string>, fuel: nat)
    requires i <= j <= |s|
    requires forall p :: i <= p < j ==> PlaceholderAt(s, p).None?
    ensures Scan(s, i, parsed, env, missing, fuel) == Prepend(s[i..j], Scan(s, j, parsed, env, missing, fuel))
    decreases j - i
  {
    var r := Scan(s, j, parsed, env, missing, fuel);
    if i < j {
      calc {
        Scan(s, i, parsed, env, missing, fuel);
        { assert PlaceholderAt(s, i).None?; }
        Prepend([s[i]], Scan(s, i + 1, parsed, env, missing, fuel));
        { ScanVerbatim(s, i + 1, j, parsed, env, missing, fuel); }
        Prepend([s[i]], Prepend(s[i + 1..j], r));
        { PrependTwice([s[i]], s[i + 1..j], r); }
        Prepend([s[i]] + s[i + 1..j], r);
        { assert [s[i]] + s[i + 1..j] == s[i..j]; }
        Prepend(s[i..j], r);
      }
    } else if r.Some? {
      assert s[i..j] + r.value.text == r.value.text;
    }
  }

  lemma PrependTwice(a: string, b: string, r: Option<Interpolated>)
    ensures Prepend(a, Prepend(b, r)) == Prepend(a + b, r)
  {
    if r.Some? {
      assert a + (b + r.value.text) == (a + b) + r.value.text;
    }
  }

  /** A value without placeholders is left as it is and reports nothing missing. */
  lemma NoPlaceholderUnchanged(s: string, parsed: map<string, string>, env: map<string, string>,
                               missing: seq<string>, fuel: nat)
    requires forall p :: 0 <= p < |s| ==> PlaceholderAt(s, p).None?
    ensures Interpolate(s, parsed, env, missing, fuel) == Some(Interpolated(s, missing))
  {
    ScanVerbatim(s, 0, |s|, parsed, env, missing, fuel);
    assert Scan(s, |s|, parsed, env, missing, fuel) == Some(Interpolated("", missing));
    assert s[0..|s|] + "" == s;
  }

  /**
   * `${NAME}` alone becomes the environment's value if it is non-empty, else
   * the parsed value if non-empty, else the empty string (for a value that
   * holds no placeholder itself).
   */
  lemma SinglePlaceholder(name: string, parsed: map<string, string>, env: map<string, string>, fuel: nat)
    requires name != [] && forall p :: 0 <= p < |name| ==> IsWordChar(name[p])
    requires var v := Lookup(name, parsed, env); forall p :: 0 <= p < |v| ==> PlaceholderAt(v, p).None?
    requires fuel > 0
    ensures var r := Interpolate("${" + name + "}", parsed, env, [], fuel);
            && r.Some?
            && r.value.text == Lookup(name, parsed, env)
            && (r.value.missing == [] <==> name in parsed || name in env)
  {
    var s := "${" + name + "}";
    PlaceholderOfName(name);
    var v := Lookup(name, parsed, env);
    var missing' := Noted([], name, parsed, env);
    NoPlaceholderUnchanged(v, parsed, env, missing', fuel - 1);
    calc {
      Scan(s, 0, parsed, env, [], fuel);
      Prepend(v, Scan(s, |s|, parsed, env, missing', fuel));
      Prepend(v, Some(Interpolated("", missing')));
      { assert v + "" == v; }
      Some(Interpolated(v, missing'));
    }
    if missing' != [] {
      assert missing'[0] in missing';
    }
  }

  /** `${NAME}` is one placeholder spanning the whole string. */
  lemma PlaceholderOfName(name: string)
    requires name != [] && forall p :: 0 <= p < |name| ==> IsWordChar(name[p])
    ensures PlaceholderAt("${" + name + "}", 0) == Some(Match(name, |name| + 3))
  {
    var s := "${" + name + "}";
    assert SkipSpaces(s, 2) == 2;
    assert SkipWord(s, 2) == 2 + |name| by {
      assert forall p :: 2 <= p < 2 + |name| ==> s[p] == name[p - 2];
      SkipWordRun(s, 2, 2 + |name|);
    }
    assert s[2..2 + |name|] == name;
  }

  lemma {:induction false} SkipWordRun(s: string, j: nat, k: nat)
    requires j <= k <= |s|
    requires forall p :: j <= p < k ==> IsWordChar(s[p])
    requires k < |s| ==> !IsWordChar(s[k])
    ensures SkipWord(s, j) == k
    decreases k - j
  {
    if j < k {
      SkipWordRun(s, j + 1, k);
    }
  }

  // ----- env -----

  /** The parsed file as a JavaScript object: its keys in order, each once, and their values. */
  ghost predicate ParsedObject(order: seq<string>, parsed: map<string, string>) {
    && (forall i, j :: 0 <= i < j < |order| ==> order[i] != order[j])
    && (forall k :: k in parsed <==> k in order)
  }

  /**
   * `pull(keys(example), ...keys(parsed), ...keys(process.env))`: the
   * example's keys that neither the file nor the environment declares. A key
   * declared with an empty value counts as declared.
   */
  function InitialMissing(example: seq<string>, parsed: map<string, string>, env: map<string, string>): (r: seq<string>)
    requires forall i, j :: 0 <= i < j < |example| ==> example[i] != example[j]
    ensures forall x :: x in r <==> x in example && x !in parsed && x !in env
    ensures forall i, j :: 0 <= i < j < |r| ==> r[i] != r[j]
    ensures |r| <= |example|
  {
    if example == [] then []
    else
      (if example[0] !in parsed && example[0] !in env then [example[0]] else [])
      + InitialMissing(example[1..], parsed, env)
  }

  datatype Resolved = Resolved(values: map<string, string>, missing: seq<string>)

  /**
   * The first `forOwn` loop: each key's value, in file order, replaced by its
   * interpolation against the values as rewritten so far.
   */
  function ResolveKeys(order: seq<string>, values: map<string, string>, env: map<string, string>,
                       missing: seq<string>, fuel: nat): (r: Option<Resolved>)
    requires forall k :: k in order ==> k in values
    ensures r.Some? ==> r.value.values.Keys == values.Keys
    ensures r.Some? ==> forall k :: k in values && k !in order ==> r.value.values[k] == values[k]
  {
    if order == [] then Some(Resolved(values, missing))
    else
      var k := order[0];
      match Interpolate(values[k], values, env, missing, fuel)
      case None => None
      case Some(r) => ResolveKeys(order[1..], values[k := r.text], env, r.missing, fuel)
  }

  /** The resolution keeps every name already missing and adds only names declared nowhere. */
  lemma {:induction false} ResolveKeysMissingSound(order: seq<string>, values: map<string, string>,
                                                   env: map<string, string>, missing: seq<string>, fuel: nat)
    requires forall k :: k in order ==> k in values
    requires ResolveKeys(order, values, env, missing, fuel).Some?
    ensures OnlyUndeclaredAdded(missing, ResolveKeys(order, values, env, missing, fuel).value.missing,
                                values.Keys + env.Keys)
  {
    if order != [] {
      var k := order[0];
      var r := Interpolate(values[k], values, env, missing, fuel).value;
      ScanMissingSound(values[k], 0, values, env, missing, fuel);
      var values' := values[k := r.text];
      assert values'.Keys == values.Keys;
      ResolveKeysMissingSound(order[1..], values', env, r.missing, fuel);
      OnlyUndeclaredAddedTrans(missing, r.missing, ResolveKeys(order, values, env, missing, fuel).value.missing,
                               values.Keys + env.Keys);
    }
  }

  /**
   * Every placeholder of a value in the file naming a key declared nowhere is
   * reported: the value is still the file's own when its turn comes, and the
   * missing set only grows afterwards.
   */
  lemma {:induction false} ResolveKeysMissingComplete(order: seq<string>, values: map<string, string>,
                                                      env: map<string, string>, missing: seq<string>, fuel: nat,
                                                      k: string, p: nat)
    requires forall x :: x in order ==> x in values
    requires k in order && p < |values[k]| && PlaceholderAt(values[k], p).Some?
    requires PlaceholderAt(values[k], p).value.name !in values && PlaceholderAt(values[k], p).value.name !in env
    requires ResolveKeys(order, values, env, missing, fuel).Some?
    ensures PlaceholderAt(values[k], p).value.name in ResolveKeys(order, values, env, missing, fuel).value.missing
  {
    var k0 := order[0];
    var r := Interpolate(values[k0], values, env, missing, fuel).value;
    var values' := values[k0 := r.text];
    assert values'.Keys == values.Keys;
    if k == k0 {
      ScanMissingComplete(values[k], 0, values, env, missing, fuel, p);
      ResolveKeysMissingSound(order[1..], values', env, r.missing, fuel);
    } else {
      assert k in order[1..];
      ResolveKeysMissingComplete(order[1..], values', env, r.missing, fuel, k, p);
    }
  }

  /**
   * When the resolution reports nothing missing, nothing was missing before
   * it and every placeholder in the file names a declared key.
   */
  lemma ResolvedNothingMissing(order: seq<string>, values: map<string, string>, env: map<string, string>,
                               missing: seq<string>, fuel: nat)
    requires forall x :: x in order ==> x in values
    requires ResolveKeys(order, values, env, missing, fuel).Some?
    requires ResolveKeys(order, values, env, missing, fuel).value.missing == []
    ensures forall x :: x !in missing
    ensures forall k, p :: k in order && 0 <= p < |values[k]| && PlaceholderAt(values[k], p).Some? ==>
              PlaceholderAt(values[k], p).value.name in values || PlaceholderAt(values[k], p).value.name in env
  {
    ResolveKeysMissingSound(order, values, env, missing, fuel);
    forall k, p | k in order && 0 <= p < |values[k]| && PlaceholderAt(values[k], p).Some?
      ensures PlaceholderAt(values[k], p).value.name in values || PlaceholderAt(values[k], p).value.name in env
    {
      if PlaceholderAt(values[k], p).value.name !in values && PlaceholderAt(values[k], p).value.name !in env {
        ResolveKeysMissingComplete(order, values, env, missing, fuel, k, p);
      }
    }
  }

  /** The first `forOwn` loop, rewriting the parsed values in place. */
  method ResolveParsed(order: seq<string>, parsed: map<string, string>, env: map<string, string>,
                       missing: seq<string>, fuel: nat) returns (r: Option<Resolved>)
    requires forall k :: k in order ==> k in parsed
    ensures r == ResolveKeys(order, parsed, env, missing, fuel)
  {
    var values := parsed;
    var found := missing;
    var i := 0;
    while i < |order|
      invariant 0 <= i <= |order|
      invariant values.Keys == parsed.Keys
      invariant ResolveKeys(order[i..], values, env, found, fuel) == ResolveKeys(order, parsed, env, missing, fuel)
    {
      var k := order[i];
      assert order[i..][1..] == order[i + 1..];
      var one := Interpolate(values[k], values, env, found, fuel);
      if one.None? {
        return None;
      }
      values := values[k := one.value.text];
      found := one.value.missing;
      i := i + 1;
    }
    assert order[i..] == [];
    r := Some(Resolved(values, found));
  }

  /** The error `env` throws, listing the missing names in the order they were found. */
  datatype EnvError = EnvError(missing: seq<string>) {
    function Name(): string { "EnvError" }
    function Message(): string { "missing environment variables: " + Join(missing, ", ") }
  }

  datatype Failure =
    | Missing(error: EnvError)
    /** A reference chain deeper than the fuel: JavaScript's stack overflow on a cyclic reference. */
    | TooDeep

  /** The line logged in debug mode for a key the environment already defines. */
  function AlreadyDefined(key: string): string {
    "\"" + key + "\" is already defined in process.env"
  }

  lemma AlreadyDefinedInjective(a: string, b: string)
    requires AlreadyDefined(a) == AlreadyDefined(b)
    ensures a == b
  {
    assert |a| == |b|;
    assert a == AlreadyDefined(a)[1..1 + |a|];
  }

  /** The second `forOwn` loop's effect on the environment: only keys not yet defined are set. */
  function AssignAbsent(env: map<string, string>, order: seq<string>, values: map<string, string>): (r: map<string, string>)
    requires forall k :: k in order ==> k in values
    decreases |order|
  {
    if order == [] then env
    else
      var k := order[0];
      AssignAbsent(if k in env then env else env[k := values[k]], order[1..], values)
  }

  /** Copying one more key: it is set only if the environment built so far lacks it. */
  lemma {:induction false} AssignAbsentSnoc(env: map<string, string>, order: seq<string>, k: string,
                                            values: map<string, string>)
    requires forall x :: x in order ==> x in values
    requires k in values
    ensures var e := AssignAbsent(env, order, values);
            AssignAbsent(env, order + [k], values) == if k in e then e else e[k := values[k]]
    decreases |order|
  {
    if order == [] {
      assert ([] + [k])[1..] == [];
    } else {
      var h := order[0];
      assert (order + [k])[1..] == order[1..] + [k];
      AssignAbsentSnoc(if h in env then env else env[h := values[h]], order[1..], k, values);
    }
  }

  /**
   * Copying never overwrites: the environment gains exactly the file's keys
   * it lacked, with their resolved values, and keeps its own.
   */
  lemma {:induction false} AssignAbsentSpec(env: map<string, string>, order: seq<string>, values: map<string, string>)
    requires forall k :: k in order ==> k in values
    ensures var r := AssignAbsent(env, order, values);
            && r.Keys == env.Keys + (set k | k in order)
            && (forall k :: k in env ==> r[k] == env[k])
            && (forall k :: k in order && k !in env ==> r[k] == values[k])
    decreases |order|
  {
    if order != [] {
      var k := order[0];
      var env' := if k in env then env else env[k := values[k]];
      AssignAbsentSpec(env', order[1..], values);
      assert forall x :: x in order <==> x == k || x in order[1..];
    }
  }

  /** The second `forOwn` loop's log: one line per key the environment already defines, in debug mode only. */
  function DebugLines(env: map<string, string>, order: seq<string>, debug: bool): (r: seq<string>)
    ensures !debug ==> r == []
    ensures |r| <= |order|
  {
    if order == [] || !debug then []
    else
      (if order[0] in env then [AlreadyDefined(order[0])] else []) + DebugLines(env, order[1..], debug)
  }

  /** The debug log mentions exactly the keys the environment already defines. */
  lemma {:induction false} DebugLinesMembers(env: map<string, string>, order: seq<string>, debug: bool)
    ensures forall line :: line in DebugLines(env, order, debug) <==>
              debug && exists k :: k in order && k in env && line == AlreadyDefined(k)
  {
    if order != [] && debug {
      DebugLinesMembers(env, order[1..], debug);
      assert forall k :: k in order <==> k == order[0] || k in order[1..];
    }
  }

  /** With distinct keys, each pre-defined key is logged exactly once. */
  lemma {:induction false} DebugLinesOnce(env: map<string, string>, order: seq<string>, key: string)
    requires forall i, j :: 0 <= i < j < |order| ==> order[i] != order[j]
    requires key in order && key in env
    ensures multiset(DebugLines(env, order, true))[AlreadyDefined(key)] == 1
  {
    var rest := DebugLines(env, order[1..], true);
    DebugLinesMembers(env, order[1..], true);
    if order[0] == key {
      assert key !in order[1..];
      if AlreadyDefined(key) in rest {
        var k :| k in order[1..] && k in env && AlreadyDefined(key) == AlreadyDefined(k);
        AlreadyDefinedInjective(key, k);
      }
      assert multiset(rest)[AlreadyDefined(key)] == 0;
    } else {
      assert key in order[1..];
      assert forall i, j :: 0 <= i < j < |order[1..]| ==> order[1..][i] != order[1..][j];
      DebugLinesOnce(env, order[1..], key);
      if order[0] in env {
        if AlreadyDefined(order[0]) == AlreadyDefined(key) {
          AlreadyDefinedInjective(order[0], key);
        }
      }
    }
    assert DebugLines(env, order, true) == (if order[0] in env then [AlreadyDefined(order[0])] else []) + rest;
  }

  /** `process.env` and the console, the state `env` changes. */
  class Process {
    var env: map<string, string>
    var log: seq<string>

    constructor (env: map<string, string>)
      ensures this.env == env && log == []
    {
      this.env := env;
      log := [];
    }

    /**
     * `env({ debug })` once the example file's keys and the parsed file are
     * known: fail with the missing names, changing nothing, or copy every
     * resolved value whose key is not yet defined.
     */
    method Load(example: seq<string>, order: seq<string>, parsed: map<string, string>, debug: bool, fuel: nat)
      returns (outcome: Outcome<Failure>)
      requires ParsedObject(order, parsed)
      requires forall i, j :: 0 <= i < j < |example| ==> example[i] != example[j]
      modifies this
      ensures var r := ResolveKeys(order, parsed, old(env), InitialMissing(example, parsed, old(env)), fuel);
              && (r.None? ==> outcome == Fail(TooDeep))
              && (r.Some? && r.value.missing != [] ==> outcome == Fail(Missing(EnvError(r.value.missing))))
              && (outcome.Fail? ==> env == old(env) && log == old(log))
              && (outcome.Pass? ==>
                    && r.Some? && r.value.missing == []
                    && env == AssignAbsent(old(env), order, r.value.values)
                    && log == old(log) + DebugLines(old(env), order, debug))
      ensures outcome.Pass? ==> forall x :: x in example ==> x in parsed || x in old(env)
      ensures outcome.Pass? ==>
                forall k, p :: k in order && 0 <= p < |parsed[k]| && PlaceholderAt(parsed[k], p).Some? ==>
                  PlaceholderAt(parsed[k], p).value.name in parsed || PlaceholderAt(parsed[k], p).value.name in old(env)
    {
      var missing := InitialMissing(example, parsed, env);
      var resolved := ResolveParsed(order, parsed, env, missing, fuel);
      if resolved.None? {
        return Fail(TooDeep);
      }
      var values := resolved.value.values;
      if resolved.value.missing != [] {
        return Fail(Missing(EnvError(resolved.value.missing)));
      }
      ResolvedNothingMissing(order, parsed, env, missing, fuel);
      AssignAll(order, values, debug);
      return Pass;
    }

    /** The second `forOwn` loop: set each key not yet defined, log the others in debug mode. */
    method AssignAll(order: seq<string>, values: map<string, string>, debug: bool)
      requires forall k :: k in order ==> k in values
      requires forall i, j :: 0 <= i < j < |order| ==> order[i] != order[j]
      modifies this
      ensures env == AssignAbsent(old(env), order, values)
      ensures log == old(log) + DebugLines(old(env), order, debug)
    {
      ghost var env0 := env;
      ghost var log0 := log;
      var i := 0;
      while i < |order|
        invariant 0 <= i <= |order|
        invariant env == AssignAbsent(env0, order[..i], values)
        invariant log == log0 + DebugLines(env0, order[..i], debug)
      {
        var k := order[i];
        assert order[..i + 1] == order[..i] + [k];
        AssignAbsentSnoc(env0, order[..i], k, values);
        DebugLinesSnoc(env0, order[..i], k, debug);
        assert k in env <==> k in env0 by {
          AssignAbsentSpec(env0, order[..i], values);
          assert k !in order[..i];
        }
        if k !in env {
          env := env[k := values[k]];
        } else if debug {
          log := log + [AlreadyDefined(k)];
        }
        i := i + 1;
      }
      assert order[..i] == order;
    }
  }

  datatype Outcome<+E> = Pass | Fail(error: E)

  lemma {:induction false} DebugLinesSnoc(env: map<string, string>, order: seq<string>, k: string, debug: bool)
    ensures DebugLines(env, order + [k], debug)
            == DebugLines(env, order, debug) + (if debug && k in env then [AlreadyDefined(k)] else [])
  {
    if order != [] && debug {
      assert (order + [k])[1..] == order[1..] + [k];
      DebugLinesSnoc(env, order[1..], k, debug);
    } else if debug {
      assert order + [k] == [k];
    }
  }
}
