/**
 * Cookies on both sides: in the browser `document.cookie` is assigned and
 * read as a plain string; on the server the request's parsed cookies are read
 * and the response's `cookie` and `clearCookie` are called. The browser's
 * `window.location` is a parameter.
 */
module Cookie {

  import opened Wrappers
  import opened Text
  import opened Casing
  import opened Uri

  /** An option value: `${value}` writes it as text. */
  datatype Value = VStr(s: string) | VNum(n: int) | VBool(b: bool)

  function ValueText(v: Value): string {
    match v
    case VStr(s) => s
    case VNum(n) => IntToDecimal(n)
    case VBool(b) => if b then "true" else "false"
  }

  /** An object's own properties in insertion order. */
  type Fields = seq<(string, Value)>

  function KeysOf(f: Fields): (ks: seq<string>)
    ensures |ks| == |f| && forall i :: 0 <= i < |f| ==> ks[i] == f[i].0
  {
    if f == [] then [] else [f[0].0] + KeysOf(f[1..])
  }

  /** The keys of an object are distinct. */
  predicate DistinctKeys(f: Fields) {
    forall i, j :: 0 <= i < j < |f| ==> f[i].0 != f[j].0
  }

  /** `obj[k]`, None for a missing key. */
  function Get(f: Fields, k: string): (r: Option<Value>)
    ensures r.Some? <==> k in KeysOf(f)
  {
    if f == [] then None else if f[0].0 == k then Some(f[0].1) else Get(f[1..], k)
  }

  /** `obj[k] = v`: an existing key keeps its place, a new one goes last. */
  function Put(f: Fields, k: string, v: Value): Fields {
    if f == [] then [(k, v)]
    else if f[0].0 == k then [(k, v)] + f[1..]
    else [f[0]] + Put(f[1..], k, v)
  }

  lemma {:induction false} PutGet(f: Fields, k: string, v: Value, k': string)
    ensures Get(Put(f, k, v), k') == if k' == k then Some(v) else Get(f, k')
  {
    if f != [] && f[0].0 != k {
      PutGet(f[1..], k, v, k');
      assert Put(f, k, v)[1..] == Put(f[1..], k, v);
    }
  }

  lemma {:induction false} PutKeys(f: Fields, k: string, v: Value)
    requires DistinctKeys(f)
    ensures KeysOf(Put(f, k, v)) == if k in KeysOf(f) then KeysOf(f) else KeysOf(f) + [k]
  {
    if f != [] {
      var r := Put(f, k, v);
      if f[0].0 == k {
        assert r[1..] == f[1..];
      } else {
        assert DistinctKeys(f[1..]);
        PutKeys(f[1..], k, v);
        assert r[1..] == Put(f[1..], k, v);
      }
    }
  }

  lemma PutDistinct(f: Fields, k: string, v: Value)
    requires DistinctKeys(f)
    ensures DistinctKeys(Put(f, k, v))
  {
    PutKeys(f, k, v);
    var r := Put(f, k, v);
    assert forall i :: 0 <= i < |r| ==> r[i].0 == KeysOf(r)[i];
  }

  /** `{ ...base, ...over }`. */
  function Spread(base: Fields, over: Fields): Fields
    decreases |over|
  {
    if over == [] then base else Spread(Put(base, over[0].0, over[0].1), over[1..])
  }

  /** The keys of `over` outside `seen`, in `over`'s order. */
  function NewKeys(over: Fields, seen: seq<string>): seq<string> {
    if over == [] then [] else (if over[0].0 in seen then [] else [over[0].0]) + NewKeys(over[1..], seen)
  }

  lemma {:induction false} NewKeysUnseen(over: Fields, seen: seq<string>, k: string)
    requires k !in KeysOf(over)
    ensures NewKeys(over, seen + [k]) == NewKeys(over, seen)
  {
    if over != [] {
      NewKeysUnseen(over[1..], seen, k);
    }
  }

  /**
   * A spread takes each key's value from `over` if it has the key and from
   * `base` otherwise, and keeps `base`'s keys first, in their order.
   */
  lemma {:induction false} SpreadSpec(base: Fields, over: Fields)
    requires DistinctKeys(base) && DistinctKeys(over)
    ensures var r := Spread(base, over);
            && DistinctKeys(r)
            && (forall k :: Get(r, k) == if Get(over, k).Some? then Get(over, k) else Get(base, k))
            && |r| >= |base| && KeysOf(r)[..|base|] == KeysOf(base)
    decreases |over|
  {
    if over != [] {
      var k0 := over[0].0;
      var b' := Put(base, k0, over[0].1);
      PutKeys(base, k0, over[0].1);
      PutDistinct(base, k0, over[0].1);
      forall k ensures Get(b', k) == if k == k0 then Some(over[0].1) else Get(base, k) {
        PutGet(base, k0, over[0].1, k);
      }
      assert DistinctKeys(over[1..]);
      SpreadSpec(b', over[1..]);
      assert k0 !in KeysOf(over[1..]);
      assert KeysOf(b')[..|base|] == KeysOf(base);
    }
  }

  /** The keys of a spread: `base`'s, then `over`'s new ones, each in its own order. */
  lemma {:induction false} SpreadKeys(base: Fields, over: Fields)
    requires DistinctKeys(base) && DistinctKeys(over)
    ensures KeysOf(Spread(base, over)) == KeysOf(base) + NewKeys(over, KeysOf(base))
    decreases |over|
  {
    if over != [] {
      var k0 := over[0].0;
      var b' := Put(base, k0, over[0].1);
      PutKeys(base, k0, over[0].1);
      PutDistinct(base, k0, over[0].1);
      assert DistinctKeys(over[1..]);
      SpreadKeys(b', over[1..]);
      forall i | 0 <= i < |over[1..]| ensures KeysOf(over[1..])[i] != k0 {
        assert over[1..][i] == over[i + 1];
      }
      if k0 in KeysOf(base) {
        SpreadKeysKnown(base, over);
      } else {
        SpreadKeysNew(base, over);
      }
    }
  }

  lemma AppendAssoc<T>(a: seq<T>, b: seq<T>, c: seq<T>)
    ensures a + b + c == a + (b + c)
  {
  }

  /** One `Put` of a spread whose key `base` already has, given the keys of the rest of it. */
  lemma SpreadKeysKnown(base: Fields, over: Fields)
    requires over != [] && over[0].0 in KeysOf(base)
    requires KeysOf(Put(base, over[0].0, over[0].1)) == KeysOf(base)
    requires KeysOf(Spread(Put(base, over[0].0, over[0].1), over[1..])) == KeysOf(base) + NewKeys(over[1..], KeysOf(base))
    ensures KeysOf(Spread(base, over)) == KeysOf(base) + NewKeys(over, KeysOf(base))
  {
    assert NewKeys(over, KeysOf(base)) == [] + NewKeys(over[1..], KeysOf(base));
    assert [] + NewKeys(over[1..], KeysOf(base)) == NewKeys(over[1..], KeysOf(base));
  }

  /** One `Put` of a spread with a new key, given the keys of the rest of it. */
  lemma SpreadKeysNew(base: Fields, over: Fields)
    requires over != [] && over[0].0 !in KeysOf(base) && over[0].0 !in KeysOf(over[1..])
    requires KeysOf(Put(base, over[0].0, over[0].1)) == KeysOf(base) + [over[0].0]
    requires var b' := Put(base, over[0].0, over[0].1);
             KeysOf(Spread(b', over[1..])) == KeysOf(b') + NewKeys(over[1..], KeysOf(b'))
    ensures KeysOf(Spread(base, over)) == KeysOf(base) + NewKeys(over, KeysOf(base))
  {
    var k0 := over[0].0;
    var kb := KeysOf(base);
    var b' := Put(base, k0, over[0].1);
    var rest := NewKeys(over[1..], kb);
    calc {
      KeysOf(Spread(base, over));
      KeysOf(Spread(b', over[1..]));
      KeysOf(b') + NewKeys(over[1..], KeysOf(b'));
      kb + [k0] + NewKeys(over[1..], kb + [k0]);
      { NewKeysUnseen(over[1..], kb, k0); }
      kb + [k0] + rest;
      { AppendAssoc(kb, [k0], rest); }
      kb + ([k0] + rest);
      { assert NewKeys(over, kb) == [k0] + rest; }
      kb + NewKeys(over, kb);
    }
  }

  // ----- configuration -----

  /** The fields of Express's request that the helpers read; a missing string is "". */
  datatype Request = Request(hostname: string, originalUrl: string,
                             cookies: map<string, string>, signedCookies: map<string, string>)

  /** `window.location`. */
  datatype Location = Location(host: string, href: string)

  /** The options object: `req` and `res` apart, the other properties in order. */
  datatype Options = Options(req: Option<Request>, res: Option<Response>, fields: Fields)

  /** `options || {}` for a missing options argument. */
  const NoOptions := Options(None, None, [])

  /** `getConfig`: `path` and `domain` first, then the caller's properties, which win. */
  function Config(options: Options, location: Location): Fields {
    var hostname := if options.req.Some? then options.req.value.hostname else "";
    Spread([("path", VStr("/")), ("domain", VStr("." + (if hostname != "" then hostname else location.host)))],
           options.fields)
  }

  /**
   * The configuration lists `path` and `domain` first; `path` is `/` and
   * `domain` the request's host name (or the page's host) with a leading dot,
   * unless the caller gives them; every other property is the caller's.
   */
  lemma ConfigSpec(options: Options, location: Location)
    requires DistinctKeys(options.fields)
    ensures var r := Config(options, location);
            var hostname := if options.req.Some? then options.req.value.hostname else "";
            && DistinctKeys(r)
            && |r| >= 2 && KeysOf(r)[..2] == ["path", "domain"]
            && Get(r, "path") == (if Get(options.fields, "path").Some? then Get(options.fields, "path") else Some(VStr("/")))
            && Get(r, "domain") == (if Get(options.fields, "domain").Some? then Get(options.fields, "domain")
                                    else Some(VStr("." + (if hostname != "" then hostname else location.host))))
            && (forall k :: k != "path" && k != "domain" ==> Get(r, k) == Get(options.fields, k))
  {
    var hostname := if options.req.Some? then options.req.value.hostname else "";
    var base := [("path", VStr("/")), ("domain", VStr("." + (if hostname != "" then hostname else location.host)))];
    assert KeysOf(base) == ["path", "domain"];
    assert Get(base, "path") == Some(VStr("/"));
    assert Get(base, "domain") == Some(base[1].1);
    SpreadSpec(base, options.fields);
  }

  /** `serialize`: `kebab-key=value;` for each property in order. */
  function Serialize(f: Fields): string {
    if f == [] then "" else KebabCase(f[0].0) + "=" + ValueText(f[0].1) + ";" + Serialize(f[1..])
  }

  /** The string `set` assigns to `document.cookie`. */
  function Header(name: string, value: string, config: Fields): string {
    name + "=" + value + ";" + Serialize(config)
  }

  /** `10 ** 10`, the `maxAge` of a persistent cookie. */
  const MaxAge: int := 10000000000

  /** The `expires` date that removes a cookie. */
  const Epoch := "Thu, 01 Jan 1970 00:00:00 UTC"

  /** `{ maxAge: 10 ** 10, ...options }`. */
  function PersistentOptions(options: Options): Options {
    options.(fields := Spread([("maxAge", VNum(MaxAge))], options.fields))
  }

  /** `{ expires: 'Thu, 01 Jan 1970 00:00:00 UTC', ...options }`. */
  function ExpiredOptions(options: Options): Options {
    options.(fields := Spread([("expires", VStr(Epoch))], options.fields))
  }

  /** A single lower-case word is its own kebab case. */
  lemma KebabOfWord(w: string)
    requires LowerWord(w)
    ensures KebabCase(w) == w
  {
    assert Join([w], "-") == w;
    assert [w][1..] == [];
    CamelCaseOfKebab([w]);
    assert CamelCase(w) == w + "";
    assert w + "" == w;
    KebabOfCamel([w]);
  }

  lemma KebabExpires()
    ensures KebabCase("expires") == "expires"
  {
    KebabOfWord("expires");
  }

  lemma KebabMaxAge()
    ensures KebabCase("maxAge") == "max-age"
  {
    var ws := ["max", "age"];
    assert LowerWord(ws[0]) && LowerWord(ws[1]);
    assert Join(ws, "-") == "max-age" by {
      assert ws[1..] == ["age"];
    }
    assert CapitalizeAll(ws[1..]) == "Age" by {
      assert ws[1..] == ["age"];
      ToLowerOfLowerWord("age");
      assert CapitalizeAll(["age"][1..]) == "";
    }
    CamelCaseOfKebab(ws);
    assert CamelCase(Join(ws, "-")) == "maxAge" by {
      assert ws[0] + CapitalizeAll(ws[1..]) == "max" + "Age" == "maxAge";
    }
    KebabOfCamel(ws);
  }

  lemma SerializeOne(k: string, v: Value)
    ensures Serialize([(k, v)]) == KebabCase(k) + "=" + ValueText(v) + ";"
  {
    var s := KebabCase(k) + "=" + ValueText(v) + ";";
    assert s + "" == s;
  }

  lemma SerializeCons(k: string, v: Value, rest: Fields)
    ensures Serialize([(k, v)] + rest) == KebabCase(k) + "=" + ValueText(v) + ";" + Serialize(rest)
  {
    assert ([(k, v)] + rest)[1..] == rest;
  }

  /** The configuration of a browser call without options. */
  lemma ClientConfig(host: string, href: string)
    ensures Config(NoOptions, Location(host, href)) == [("path", VStr("/")), ("domain", VStr("." + host))]
  {
  }

  lemma ClientPersistentConfig(host: string, href: string)
    ensures Config(PersistentOptions(NoOptions), Location(host, href))
            == [("path", VStr("/")), ("domain", VStr("." + host)), ("maxAge", VNum(MaxAge))]
  {
    var base := [("path", VStr("/")), ("domain", VStr("." + host))];
    assert PersistentOptions(NoOptions).fields == [("maxAge", VNum(MaxAge))];
    assert "maxAge" !in KeysOf(base) by {
      assert KeysOf(base) == ["path", "domain"];
      assert "maxAge"[0] != "path"[0] && "maxAge"[0] != "domain"[0];
    }
    calc {
      Config(PersistentOptions(NoOptions), Location(host, href));
      Spread(base, [("maxAge", VNum(MaxAge))]);
      { assert [("maxAge", VNum(MaxAge))][1..] == []; }
      Put(base, "maxAge", VNum(MaxAge));
      { PutNew(base, "maxAge", VNum(MaxAge)); }
      base + [("maxAge", VNum(MaxAge))];
    }
  }

  lemma ClientExpiredConfig(host: string, href: string)
    ensures Config(ExpiredOptions(NoOptions), Location(host, href))
            == [("path", VStr("/")), ("domain", VStr("." + host)), ("expires", VStr(Epoch))]
  {
    var base := [("path", VStr("/")), ("domain", VStr("." + host))];
    assert ExpiredOptions(NoOptions).fields == [("expires", VStr(Epoch))];
    assert "expires" !in KeysOf(base) by {
      assert KeysOf(base) == ["path", "domain"];
      assert "expires"[0] != "path"[0] && "expires"[0] != "domain"[0];
    }
    calc {
      Config(ExpiredOptions(NoOptions), Location(host, href));
      Spread(base, [("expires", VStr(Epoch))]);
      { assert [("expires", VStr(Epoch))][1..] == []; }
      Put(base, "expires", VStr(Epoch));
      { PutNew(base, "expires", VStr(Epoch)); }
      base + [("expires", VStr(Epoch))];
    }
  }

  /** Writing a key an object lacks appends it. */
  lemma {:induction false} PutNew(f: Fields, k: string, v: Value)
    requires k !in KeysOf(f)
    ensures Put(f, k, v) == f + [(k, v)]
  {
    if f != [] {
      assert f[0].0 == KeysOf(f)[0];
      assert k !in KeysOf(f[1..]) by {
        forall i | 0 <= i < |f[1..]| ensures KeysOf(f[1..])[i] != k {
          assert KeysOf(f[1..])[i] == KeysOf(f)[i + 1];
        }
      }
      PutNew(f[1..], k, v);
      assert [f[0]] + (f[1..] + [(k, v)]) == f + [(k, v)];
    }
  }

  /** The serialized `path` and `domain` of a browser call without options. */
  lemma ClientBase(host: string)
    ensures Serialize([("path", VStr("/")), ("domain", VStr("." + host))]) == "path=/;domain=." + host + ";"
  {
    var f := [("path", VStr("/")), ("domain", VStr("." + host))];
    calc {
      Serialize(f);
      KebabCase("path") + "=" + "/" + ";" + Serialize(f[1..]);
      { assert f[1..] == [("domain", VStr("." + host))]; SerializeOne("domain", VStr("." + host)); }
      KebabCase("path") + "=" + "/" + ";" + (KebabCase("domain") + "=" + ("." + host) + ";");
      { KebabOfWord("path"); KebabOfWord("domain"); }
      "path" + "=" + "/" + ";" + ("domain" + "=" + ("." + host) + ";");
      { HeadText("path=/;", "domain=.", host); }
      "path=/;domain=." + host + ";";
    }
  }

  lemma HeadText(a: string, b: string, host: string)
    requires a == "path=/;" && b == "domain=."
    ensures "path" + "=" + "/" + ";" + ("domain" + "=" + ("." + host) + ";") == a + b + host + ";"
  {
  }

  /** The serialized configuration of a browser call: `path` and `domain`, then one more property. */
  lemma ClientWith(host: string, k: string, v: Value)
    ensures Serialize([("path", VStr("/")), ("domain", VStr("." + host)), (k, v)])
            == "path=/;domain=." + host + ";" + KebabCase(k) + "=" + ValueText(v) + ";"
  {
    var base := [("path", VStr("/")), ("domain", VStr("." + host))];
    calc {
      Serialize([("path", VStr("/")), ("domain", VStr("." + host)), (k, v)]);
      { assert base + [(k, v)] == [("path", VStr("/")), ("domain", VStr("." + host)), (k, v)]; }
      Serialize(base + [(k, v)]);
      { SerializeAppend(base, [(k, v)]); }
      Serialize(base) + Serialize([(k, v)]);
      { ClientBase(host); SerializeOne(k, v); }
      "path=/;domain=." + host + ";" + (KebabCase(k) + "=" + ValueText(v) + ";");
      { FieldAfter("path=/;domain=." + host + ";", KebabCase(k), ValueText(v)); }
      "path=/;domain=." + host + ";" + KebabCase(k) + "=" + ValueText(v) + ";";
    }
  }

  lemma FieldAfter(a: string, k: string, v: string)
    ensures a + (k + "=" + v + ";") == a + k + "=" + v + ";"
  {
  }

  /** Serializing two property lists one after the other. */
  lemma {:induction false} SerializeAppend(f: Fields, g: Fields)
    ensures Serialize(f + g) == Serialize(f) + Serialize(g)
  {
    if f != [] {
      var head := KebabCase(f[0].0) + "=" + ValueText(f[0].1) + ";";
      calc {
        Serialize(f + g);
        { assert (f + g)[0] == f[0]; assert (f + g)[1..] == f[1..] + g; }
        head + Serialize(f[1..] + g);
        { SerializeAppend(f[1..], g); }
        head + (Serialize(f[1..]) + Serialize(g));
        { AppendAssoc(head, Serialize(f[1..]), Serialize(g)); }
        head + Serialize(f[1..]) + Serialize(g);
      }
    } else {
      assert f + g == g;
      assert "" + Serialize(g) == Serialize(g);
    }
  }

  /** In the browser without options, `setCookie` writes path, domain and the ten-billion-second `max-age`. */
  lemma ClientSetCookieHeader(name: string, value: string, host: string, href: string)
    ensures Header(name, value, Config(PersistentOptions(NoOptions), Location(host, href)))
            == name + "=" + value + ";path=/;domain=." + host + ";max-age=10000000000;"
  {
    var f := [("path", VStr("/")), ("domain", VStr("." + host)), ("maxAge", VNum(MaxAge))];
    calc {
      Header(name, value, Config(PersistentOptions(NoOptions), Location(host, href)));
      { ClientPersistentConfig(host, href); }
      name + "=" + value + ";" + Serialize(f);
      { ClientWith(host, "maxAge", VNum(MaxAge)); KebabMaxAge(); MaxAgeText(); }
      name + "=" + value + ";" + ("path=/;domain=." + host + ";" + "max-age" + "=" + "10000000000" + ";");
      { SetCookieText(name, value, host); }
      name + "=" + value + ";path=/;domain=." + host + ";max-age=10000000000;";
    }
  }

  lemma MaxAgeText()
    ensures ValueText(VNum(MaxAge)) == "10000000000"
  {
    assert Pow10(10) == MaxAge;
    Pow10Numeral(10);
  }

  lemma SetCookieText(name: string, value: string, host: string)
    ensures name + "=" + value + ";" + ("path=/;domain=." + host + ";" + "max-age" + "=" + "10000000000" + ";")
            == name + "=" + value + ";path=/;domain=." + host + ";max-age=10000000000;"
  {
  }

  /** In the browser without options, `setSessionCookie` writes only path and domain. */
  lemma ClientSessionCookieHeader(name: string, value: string, host: string, href: string)
    ensures Header(name, value, Config(NoOptions, Location(host, href)))
            == name + "=" + value + ";path=/;domain=." + host + ";"
  {
    calc {
      Header(name, value, Config(NoOptions, Location(host, href)));
      { ClientConfig(host, href); }
      name + "=" + value + ";" + Serialize([("path", VStr("/")), ("domain", VStr("." + host))]);
      { ClientBase(host); }
      name + "=" + value + ";" + ("path=/;domain=." + host + ";");
      { SessionCookieText(name, value, host); }
      name + "=" + value + ";path=/;domain=." + host + ";";
    }
  }

  lemma SessionCookieText(name: string, value: string, host: string)
    ensures name + "=" + value + ";" + ("path=/;domain=." + host + ";") == name + "=" + value + ";path=/;domain=." + host + ";"
  {
  }

  /** In the browser without options, `removeCookie` writes an empty value that expired in 1970. */
  lemma ClientRemoveCookieHeader(name: string, host: string, href: string)
    ensures Header(name, "", Config(ExpiredOptions(NoOptions), Location(host, href)))
            == name + "=;path=/;domain=." + host + ";expires=" + Epoch + ";"
  {
    var f := [("path", VStr("/")), ("domain", VStr("." + host)), ("expires", VStr(Epoch))];
    calc {
      Header(name, "", Config(ExpiredOptions(NoOptions), Location(host, href)));
      { ClientExpiredConfig(host, href); }
      name + "=" + "" + ";" + Serialize(f);
      { ClientWith(host, "expires", VStr(Epoch)); KebabExpires(); }
      name + "=" + "" + ";" + ("path=/;domain=." + host + ";" + "expires" + "=" + Epoch + ";");
      { RemoveCookieText(name, host); }
      name + "=;path=/;domain=." + host + ";expires=" + Epoch + ";";
    }
  }

  lemma RemoveCookieText(name: string, host: string)
    ensures name + "=" + "" + ";" + ("path=/;domain=." + host + ";" + "expires" + "=" + Epoch + ";")
            == name + "=;path=/;domain=." + host + ";expires=" + Epoch + ";"
  {
  }

  // ----- reading -----

  predicate StartsWith(t: string, p: string) {
    |p| <= |t| && t[..|p|] == p
  }

  /** `([^;]*)` from position `k`. */
  function UpToSemicolon(t: string, k: nat): (r: string)
    requires k <= |t|
    ensures ';' !in r
  {
    var i := IndexOf(t[k..], ';');
    if i < 0 then t[k..] else t[k..][..i]
  }

  /** ` ?NAME=([^;]*)` at the start of `t`, the optional space tried first. */
  function PairAt(t: string, name: string): Option<string> {
    if StartsWith(t, " " + name + "=") then Some(UpToSemicolon(t, |name| + 2))
    else if StartsWith(t, name + "=") then Some(UpToSemicolon(t, |name| + 1))
    else None
  }

  /** The alternative `;` of `(?:^|;)`, tried at every position from `i` on. */
  function MatchAfterSemicolon(s: string, name: string, i: nat): Option<string>
    decreases |s| - i
  {
    if i >= |s| then None
    else if s[i] == ';' && PairAt(s[i + 1..], name).Some? then PairAt(s[i + 1..], name)
    else MatchAfterSemicolon(s, name, i + 1)
  }

  /**
   * `document.cookie.match('(?:^|;) ?' + name + '=([^;]*)(?:;|$)')`: the
   * leftmost match's group, the name taken literally.
   */
  function CookieMatch(s: string, name: string): Option<string> {
    if PairAt(s, name).Some? then PairAt(s, name) else MatchAfterSemicolon(s, name, 0)
  }

  /** Reference reading: the first `;`-separated piece of the form `NAME=value`, after one optional space. */
  function FirstPair(pieces: seq<string>, name: string): Option<string> {
    if pieces == [] then None
    else if PairAt(pieces[0], name).Some? then PairAt(pieces[0], name)
    else FirstPair(pieces[1..], name)
  }

  /** A prefix without `;` ends before the first `;`. */
  lemma PrefixBeforeSemicolon(t: string, p: string, j: nat)
    requires ';' !in p && j < |t| && t[j] == ';'
    ensures StartsWith(t, p) <==> |p| <= j && StartsWith(t[..j], p)
  {
    if StartsWith(t, p) {
      assert forall q :: 0 <= q < |p| ==> t[q] == p[q];
    }
  }

  /** What follows the first `;` does not change a match that starts before it. */
  lemma PairAtCut(t: string, name: string)
    requires ';' !in name
    ensures PairAt(t, name) == PairAt(if IndexOf(t, ';') < 0 then t else t[..IndexOf(t, ';')], name)
  {
    var j := IndexOf(t, ';');
    if j >= 0 {
      assert ';' !in " " + name + "=" && ';' !in name + "=";
      PrefixBeforeSemicolon(t, " " + name + "=", j);
      PrefixBeforeSemicolon(t, name + "=", j);
      if StartsWith(t, " " + name + "=") {
        UpToCut(t, |name| + 2, j);
      } else if StartsWith(t, name + "=") {
        UpToCut(t, |name| + 1, j);
      }
    }
  }

  lemma UpToCut(t: string, k: nat, j: nat)
    requires k <= j < |t| && j == IndexOf(t, ';')
    ensures UpToSemicolon(t, k) == UpToSemicolon(t[..j], k)
  {
    var u := t[k..];
    var piece := t[k..j];
    assert ';' !in piece by {
      assert forall p :: 0 <= p < |piece| ==> piece[p] == t[..j][k + p];
    }
    assert UpToSemicolon(t, k) == piece by {
      assert u[..j - k] == piece && u[j - k] == ';';
      IndexOfUnique(u, ';', j - k);
    }
    assert UpToSemicolon(t[..j], k) == piece by {
      assert t[..j][k..] == piece;
    }
  }

  lemma {:induction false} MatchAfterSemicolonSkip(s: string, name: string, i: nat, k: nat)
    requires i <= k <= |s| && forall p :: i <= p < k ==> s[p] != ';'
    ensures MatchAfterSemicolon(s, name, i) == MatchAfterSemicolon(s, name, k)
    decreases k - i
  {
    if i < k {
      MatchAfterSemicolonSkip(s, name, i + 1, k);
    }
  }

  lemma {:induction false} MatchAfterSemicolonShift(s: string, name: string, k: nat, j: nat)
    requires k <= |s|
    ensures MatchAfterSemicolon(s, name, k + j) == MatchAfterSemicolon(s[k..], name, j)
    decreases |s| - k - j
  {
    if k + j < |s| {
      assert s[k..][j] == s[k + j];
      assert s[k..][j + 1..] == s[k + j + 1..];
      MatchAfterSemicolonShift(s, name, k, j + 1);
    }
  }

  /**
   * For a name without `;`, the regular expression finds exactly the first
   * `;`-separated piece that holds `name=`.
   */
  lemma {:induction false} CookieMatchBySplit(s: string, name: string)
    requires ';' !in name
    ensures CookieMatch(s, name) == FirstPair(Split(s, ';'), name)
    decreases |s|
  {
    var k := IndexOf(s, ';');
    PairAtCut(s, name);
    if k < 0 {
      MatchAfterSemicolonSkip(s, name, 0, |s|);
    } else {
      var head := s[..k];
      var rest := s[k + 1..];
      assert (forall p :: 0 <= p < k ==> s[p] != ';') by {
        forall p | 0 <= p < k ensures s[p] != ';' { assert head[p] == s[p]; }
      }
      MatchAfterSemicolonSkip(s, name, 0, k);
      MatchAfterSemicolonShift(s, name, k + 1, 0);
      calc {
        CookieMatch(s, name);
        if PairAt(head, name).Some? then PairAt(head, name) else MatchAfterSemicolon(s, name, k);
        if PairAt(head, name).Some? then PairAt(head, name) else CookieMatch(rest, name);
        { CookieMatchBySplit(rest, name); }
        if PairAt(head, name).Some? then PairAt(head, name) else FirstPair(Split(rest, ';'), name);
        { FirstPairCons(head, Split(rest, ';'), name); }
        FirstPair([head] + Split(rest, ';'), name);
        FirstPair(Split(s, ';'), name);
      }
    }
  }

  lemma FirstPairCons(head: string, pieces: seq<string>, name: string)
    ensures FirstPair([head] + pieces, name)
            == if PairAt(head, name).Some? then PairAt(head, name) else FirstPair(pieces, name)
  {
    assert ([head] + pieces)[1..] == pieces;
  }

  /**
   * `req.cookies[name] || req.signedCookies[name]`: the plain cookie unless it
   * is missing or empty, then the signed one; None (`undefined`) when neither
   * is there.
   */
  function ServerCookie(req: Request, name: string): (r: Option<string>)
    ensures name in req.cookies && req.cookies[name] != "" ==> r == Some(req.cookies[name])
    ensures (name !in req.cookies || req.cookies[name] == "") && name in req.signedCookies ==>
              r == Some(req.signedCookies[name])
    ensures r.None? <==> (name !in req.cookies || req.cookies[name] == "") && name !in req.signedCookies
  {
    if name in req.cookies && req.cookies[name] != "" then Some(req.cookies[name])
    else if name in req.signedCookies then Some(req.signedCookies[name])
    else None
  }

  /** `getCookie`: the request's cookies on the server, `document.cookie` in the browser (`''` if absent). */
  function GetCookie(name: string, options: Options, documentCookie: string): Option<string> {
    if options.req.Some? then ServerCookie(options.req.value, name)
    else Some(CookieMatch(documentCookie, name).GetOr(""))
  }

  /** The value after `name=` runs to the `;` that ends it. */
  lemma MatchOfHeader(name: string, value: string, rest: string)
    requires ';' !in name && ';' !in value && (name == [] || name[0] != ' ')
    ensures CookieMatch(name + "=" + value + ";" + rest, name) == Some(value)
  {
    var s := name + "=" + value + ";" + rest;
    assert s[..|name| + 1] == name + "=";
    assert !StartsWith(s, " " + name + "=") by {
      if name == [] { assert s[0] == '='; } else { assert s[0] == name[0]; }
    }
    var t := s[|name| + 1..];
    assert t == value + ";" + rest;
    assert t[|value|] == ';';
    assert forall q :: 0 <= q < |value| ==> t[q] == value[q];
    var i := IndexOf(t, ';');
    assert i == |value|;
    assert t[..i] == value;
  }

  /**
   * In the browser, reading a cookie right after setting it gives the value
   * set, whatever configuration was serialized after it.
   */
  lemma SetThenGet(name: string, value: string, config: Fields, options: Options)
    requires options.req.None?
    requires ';' !in name && ';' !in value && (name == [] || name[0] != ' ')
    ensures GetCookie(name, options, Header(name, value, config)) == Some(value)
  {
    MatchOfHeader(name, value, Serialize(config));
  }

  /** In the browser, a removed cookie reads as the empty string. */
  lemma RemoveThenGet(name: string, config: Fields, options: Options)
    requires options.req.None?
    requires ';' !in name && (name == [] || name[0] != ' ')
    ensures GetCookie(name, options, Header(name, "", config)) == Some("")
  {
    SetThenGet(name, "", config, options);
  }

  /** `value && decodeURIComponent(value)`: a missing or empty value is returned as it is. */
  function ReturnToValue(value: Option<string>): (r: Result<Option<string>, UriError>)
    ensures value.None? ==> r == Ok(None)
    ensures value == Some("") ==> r == Ok(Some(""))
    ensures value.Some? && value.value != "" ==>
              && (r.Err? <==> Decode(value.value).Err?)
              && (Decode(value.value).Ok? ==> r == Ok(Some(Decode(value.value).value)))
  {
    match value
    case None => Ok(None)
    case Some(v) =>
      if v == "" then Ok(Some(""))
      else match Decode(v)
        case Ok(d) => Ok(Some(d))
        case Err(e) => Err(e)
  }

  // ----- the browser and the response -----

  /** What the server helpers ask of the response. */
  datatype ResponseCall =
    | CookieCall(name: string, value: string, config: Fields)
    | ClearCookieCall(name: string, config: Fields)

  /** Express's response, seen through the calls made on it. */
  class Response {
    var calls: seq<ResponseCall>

    constructor ()
      ensures calls == []
    {
      calls := [];
    }

    method Cookie(name: string, value: string, config: Fields)
      modifies this
      ensures calls == old(calls) + [CookieCall(name, value, config)]
    {
      calls := calls + [CookieCall(name, value, config)];
    }

    method ClearCookie(name: string, config: Fields)
      modifies this
      ensures calls == old(calls) + [ClearCookieCall(name, config)]
    {
      calls := calls + [ClearCookieCall(name, config)];
    }
  }

  /** `document`, whose `cookie` the browser helpers assign and read. */
  class Document {
    var cookie: string

    constructor (cookie: string)
      ensures this.cookie == cookie
    {
      this.cookie := cookie;
    }
  }

  function ResponseOf(options: Options): set<Response> {
    if options.res.Some? then {options.res.value} else {}
  }

  /** `set`: hand the cookie to the response if there is one, else assign `document.cookie`. */
  method Set(name: string, value: string, options: Options, doc: Document, location: Location)
    modifies doc, ResponseOf(options)
    ensures options.res.Some? ==>
              && options.res.value.calls == old(options.res.value.calls) + [CookieCall(name, value, Config(options, location))]
              && doc.cookie == old(doc.cookie)
    ensures options.res.None? ==> doc.cookie == Header(name, value, Config(options, location))
  {
    var config := Config(options, location);
    if options.res.Some? {
      options.res.value.Cookie(name, value, config);
    } else {
      doc.cookie := Header(name, value, config);
    }
  }

  /** `setCookie`: a cookie that lasts, `maxAge` 10^10 unless the caller sets one. */
  method SetCookie(name: string, value: string, options: Options, doc: Document, location: Location)
    modifies doc, ResponseOf(options)
    ensures var config := Config(PersistentOptions(options), location);
            && (options.res.Some? ==>
                  && options.res.value.calls == old(options.res.value.calls) + [CookieCall(name, value, config)]
                  && doc.cookie == old(doc.cookie))
            && (options.res.None? ==> doc.cookie == Header(name, value, config))
  {
    Set(name, value, PersistentOptions(options), doc, location);
  }

  /** `setSessionCookie`: the options as given, so no `maxAge`. */
  method SetSessionCookie(name: string, value: string, options: Options, doc: Document, location: Location)
    modifies doc, ResponseOf(options)
    ensures options.res.Some? ==>
              && options.res.value.calls == old(options.res.value.calls) + [CookieCall(name, value, Config(options, location))]
              && doc.cookie == old(doc.cookie)
    ensures options.res.None? ==> doc.cookie == Header(name, value, Config(options, location))
  {
    Set(name, value, options, doc, location);
  }

  /** `removeCookie`: clear through the response, or assign an empty value that expired in 1970. */
  method RemoveCookie(name: string, options: Options, doc: Document, location: Location)
    modifies doc, ResponseOf(options)
    ensures var config := Config(ExpiredOptions(options), location);
            && (options.res.Some? ==>
                  && options.res.value.calls == old(options.res.value.calls) + [ClearCookieCall(name, config)]
                  && doc.cookie == old(doc.cookie))
            && (options.res.None? ==> doc.cookie == Header(name, "", config))
  {
    var config := Config(ExpiredOptions(options), location);
    if options.res.Some? {
      options.res.value.ClearCookie(name, config);
    } else {
      doc.cookie := Header(name, "", config);
    }
  }

  /** The URL `setReturnTo` stores: the request's original URL, or the page's address. */
  function ReturnToUrl(options: Options, location: Location): string {
    if options.req.Some? && options.req.value.originalUrl != "" then options.req.value.originalUrl else location.href
  }

  /** `setReturnTo`: the current URL in the session cookie `return-to`, stored as it is. */
  method SetReturnTo(options: Options, doc: Document, location: Location)
    modifies doc, ResponseOf(options)
    ensures var url := ReturnToUrl(options, location);
            && (options.res.Some? ==>
                  && options.res.value.calls == old(options.res.value.calls) + [CookieCall("return-to", url, Config(options, location))]
                  && doc.cookie == old(doc.cookie))
            && (options.res.None? ==> doc.cookie == Header("return-to", url, Config(options, location)))
  {
    SetSessionCookie("return-to", ReturnToUrl(options, location), options, doc, location);
  }

  /** `getReturnTo`: read `return-to`, remove it, and return it decoded (an error for a malformed escape). */
  method GetReturnTo(options: Options, doc: Document, location: Location) returns (r: Result<Option<string>, UriError>)
    modifies doc, ResponseOf(options)
    ensures r == ReturnToValue(GetCookie("return-to", options, old(doc.cookie)))
    ensures var config := Config(ExpiredOptions(options), location);
            && (options.res.Some? ==>
                  && options.res.value.calls == old(options.res.value.calls) + [ClearCookieCall("return-to", config)]
                  && doc.cookie == old(doc.cookie))
            && (options.res.None? ==> doc.cookie == Header("return-to", "", config))
  {
    var value := GetCookie("return-to", options, doc.cookie);
    RemoveCookie("return-to", options, doc, location);
    r := ReturnToValue(value);
  }

  // ----- the return-to round trip -----

  /**
   * As written, the browser stores the address unencoded and decodes it on
   * the way back, so an address holding an escape does not come back: `/%25`
   * returns as `/%`.
   */
  lemma ReturnToAsWrittenLosesEscape(url: string, config: Fields)
    requires url == "/%25"
    ensures ReturnToValue(GetCookie("return-to", NoOptions, Header("return-to", url, config))) == Ok(Some("/%"))
    ensures ReturnToValue(GetCookie("return-to", NoOptions, Header("return-to", url, config))) != Ok(Some(url))
  {
    SetThenGet("return-to", url, config, NoOptions);
    DecodeSlashPercent(url);
  }

  lemma DecodeSlashPercent(url: string)
    requires url == "/%25"
    ensures ReturnToValue(Some(url)) == Ok(Some("/%"))
  {
    var t := url[1..];
    assert t == "%25" && t[3..] == "";
    assert t[0] == '%' && IsHex(t[1]) && IsHex(t[2]);
    assert HexValue(t[1]) == 2 && HexValue(t[2]) == 5;
    assert Decode(t[3..]) == Ok("");
    assert [(16 * HexValue(t[1]) + HexValue(t[2])) as char] + "" == "%";
    assert Decode(t) == Ok("%");
    assert url[0] == '/' && url[0] != '%' && [url[0]] + "%" == "/%";
    assert Decode(url) == Ok("/%");
  }

  /** The value the browser should store: the address encoded, as `decodeURIComponent` expects. */
  function StoredReturnTo(url: string): (r: string)
    requires forall i :: 0 <= i < |url| ==> IsAscii(url[i])
    ensures ';' !in r && (r == [] || r[0] != ' ')
    ensures r == [] <==> url == []
  {
    assert forall i :: 0 <= i < |Encode(url)| ==> Encode(url)[i] != ';' && Encode(url)[i] != ' ';
    Encode(url)
  }

  /** With the address encoded on the way in, the browser gets back exactly the address stored. */
  lemma ReturnToRoundTrip(url: string, config: Fields)
    requires forall i :: 0 <= i < |url| ==> IsAscii(url[i])
    ensures ReturnToValue(GetCookie("return-to", NoOptions, Header("return-to", StoredReturnTo(url), config))) == Ok(Some(url))
  {
    SetThenGet("return-to", StoredReturnTo(url), config, NoOptions);
    DecodeEncode(url);
  }
}
