/**
 * lodash `words`, `camelCase` and `kebabCase` on ASCII text. A word is a
 * maximal run of letters and digits, split where digits meet letters, where a
 * lower-case letter is followed by a capital, and before the last capital of a
 * run of capitals that is followed by a lower-case letter ("XMLHttp" is
 * "XML", "Http").
 */
module Casing {

  import opened Text

  predicate IsAlnum(c: char) { IsLower(c) || IsUpper(c) || IsDigit(c) }

  /** A word ends between `s[j - 1]` and `s[j]` (both letters or digits). */
  predicate Boundary(s: string, j: nat)
    requires 0 < j < |s|
  {
    || IsDigit(s[j - 1]) != IsDigit(s[j])
    || (IsLower(s[j - 1]) && IsUpper(s[j]))
    || (IsUpper(s[j - 1]) && IsUpper(s[j]) && j + 1 < |s| && IsLower(s[j + 1]))
  }

  /** End of the word that runs through `s[..j]`. */
  function RunEnd(s: string, j: nat): (n: nat)
    requires 0 < j <= |s|
    ensures j <= n <= |s|
    decreases |s| - j
  {
    if j == |s| || !IsAlnum(s[j]) || Boundary(s, j) then j else RunEnd(s, j + 1)
  }

  /** lodash `words`, for ASCII text. */
  function Words(s: string): (ws: seq<string>)
    decreases |s|
  {
    if s == [] then []
    else if !IsAlnum(s[0]) then Words(s[1..])
    else
      var n := RunEnd(s, 1);
      [s[..n]] + Words(s[n..])
  }

  /** lodash `upperFirst(toLower(w))`. */
  function Capitalize(w: string): string {
    var l := ToLower(w);
    if l == [] then [] else [UpperChar(l[0])] + l[1..]
  }

  function CapitalizeAll(ws: seq<string>): string {
    if ws == [] then "" else Capitalize(ws[0]) + CapitalizeAll(ws[1..])
  }

  function LowerAll(ws: seq<string>): (r: seq<string>)
    ensures |r| == |ws|
  {
    if ws == [] then [] else [ToLower(ws[0])] + LowerAll(ws[1..])
  }

  /** lodash `camelCase`: the first word lower-cased, every later one capitalized. */
  function CamelCase(s: string): string {
    var ws := Words(s);
    if ws == [] then "" else ToLower(ws[0]) + CapitalizeAll(ws[1..])
  }

  /** lodash `kebabCase`: the words lower-cased and joined by hyphens. */
  function KebabCase(s: string): string {
    Join(LowerAll(Words(s)), "-")
  }

  /** A non-empty word of lower-case letters. */
  predicate LowerWord(w: string) {
    w != [] && forall i :: 0 <= i < |w| ==> IsLower(w[i])
  }

  /**
   * The words of an identifier as it is written in camel case: lower-case
   * letters, and every word after the first at least two letters long (a
   * one-letter word would run into the next capital as an acronym).
   */
  predicate CamelWords(ws: seq<string>) {
    && (forall i :: 0 <= i < |ws| ==> LowerWord(ws[i]))
    && (forall i :: 1 <= i < |ws| ==> |ws[i]| >= 2)
  }

  lemma {:induction false} RunEndOverWord(s: string, j: nat, n: nat)
    requires 0 < j <= n <= |s|
    requires IsLower(s[0]) || IsUpper(s[0])
    requires forall i :: 1 <= i < n ==> IsLower(s[i])
    requires n == |s| || !IsAlnum(s[n]) || (IsUpper(s[n]) && IsLower(s[n - 1]))
    ensures RunEnd(s, j) == n
    decreases n - j
  {
    if j < n {
      assert IsAlnum(s[j]) && !Boundary(s, j);
      RunEndOverWord(s, j + 1, n);
    }
  }

  lemma ToLowerOfLowerWord(w: string)
    requires LowerWord(w)
    ensures ToLower(w) == w
  {
  }

  lemma {:induction false} WordsOfKebab(ws: seq<string>)
    requires forall i :: 0 <= i < |ws| ==> LowerWord(ws[i])
    ensures Words(Join(ws, "-")) == ws
  {
    if ws != [] {
      var s := Join(ws, "-");
      var w := ws[0];
      if |ws| == 1 {
        assert s == w;
        RunEndOverWord(s, 1, |w|);
        assert s[..|w|] == w && s[|w|..] == [];
      } else {
        var rest := Join(ws[1..], "-");
        assert s == w + "-" + rest;
        RunEndOverWord(s, 1, |w|);
        assert s[..|w|] == w;
        assert s[|w|..] == "-" + rest;
        assert s[|w|..][1..] == rest;
        WordsOfKebab(ws[1..]);
      }
    }
  }

  function Caps(ws: seq<string>): (r: seq<string>)
    ensures |r| == |ws|
  {
    if ws == [] then [] else [Capitalize(ws[0])] + Caps(ws[1..])
  }

  lemma CapitalizeLowerWord(w: string)
    requires LowerWord(w)
    ensures |Capitalize(w)| == |w| && IsUpper(Capitalize(w)[0])
    ensures forall i :: 1 <= i < |w| ==> Capitalize(w)[i] == w[i]
    ensures ToLower(Capitalize(w)) == w
  {
    ToLowerOfLowerWord(w);
    var c := Capitalize(w);
    assert ToLower(c) == [LowerChar(c[0])] + ToLower(c[1..]);
  }

  lemma {:induction false} WordsOfCapitalized(ws: seq<string>)
    requires forall i :: 0 <= i < |ws| ==> LowerWord(ws[i]) && |ws[i]| >= 2
    ensures Words(CapitalizeAll(ws)) == Caps(ws)
  {
    if ws != [] {
      var w := ws[0];
      var c := Capitalize(w);
      var rest := CapitalizeAll(ws[1..]);
      var s := c + rest;
      CapitalizeLowerWord(w);
      if ws[1..] != [] {
        CapitalizeLowerWord(ws[1]);
        assert rest == Capitalize(ws[1]) + CapitalizeAll(ws[2..]);
        assert s[|w|] == rest[0];
      }
      RunEndOverWord(s, 1, |w|);
      assert s[..|w|] == c;
      assert s[|w|..] == rest;
      WordsOfCapitalized(ws[1..]);
    }
  }

  lemma {:induction false} LowerAllCaps(ws: seq<string>)
    requires forall i :: 0 <= i < |ws| ==> LowerWord(ws[i])
    ensures LowerAll(Caps(ws)) == ws
  {
    if ws != [] {
      CapitalizeLowerWord(ws[0]);
      LowerAllCaps(ws[1..]);
    }
  }

  lemma {:induction false} LowerAllLowerWords(ws: seq<string>)
    requires forall i :: 0 <= i < |ws| ==> LowerWord(ws[i])
    ensures LowerAll(ws) == ws
  {
    if ws != [] {
      ToLowerOfLowerWord(ws[0]);
      LowerAllLowerWords(ws[1..]);
    }
  }

  /** camelCase of hyphenated lower-case words joins them in camel case. */
  lemma CamelCaseOfKebab(ws: seq<string>)
    requires ws != [] && forall i :: 0 <= i < |ws| ==> LowerWord(ws[i])
    ensures CamelCase(Join(ws, "-")) == ws[0] + CapitalizeAll(ws[1..])
  {
    WordsOfKebab(ws);
    ToLowerOfLowerWord(ws[0]);
  }

  /** The words of a camel-case identifier are its capitalized parts. */
  lemma WordsOfCamel(ws: seq<string>)
    requires ws != [] && CamelWords(ws)
    ensures Words(ws[0] + CapitalizeAll(ws[1..])) == [ws[0]] + Caps(ws[1..])
  {
    var w := ws[0];
    var rest := CapitalizeAll(ws[1..]);
    var s := w + rest;
    WordsOfCapitalized(ws[1..]);
    if ws[1..] != [] {
      CapitalizeLowerWord(ws[1]);
      assert rest == Capitalize(ws[1]) + CapitalizeAll(ws[2..]);
      assert s[|w|] == rest[0];
    }
    RunEndOverWord(s, 1, |w|);
    assert s[..|w|] == w;
    assert s[|w|..] == rest;
  }

  /** kebabCase undoes camelCase on hyphenated lower-case words ("max-age"). */
  lemma KebabOfCamel(ws: seq<string>)
    requires ws != [] && CamelWords(ws)
    ensures KebabCase(CamelCase(Join(ws, "-"))) == Join(ws, "-")
  {
    CamelCaseOfKebab(ws);
    WordsOfCamel(ws);
    ToLowerOfLowerWord(ws[0]);
    LowerAllCaps(ws[1..]);
  }

  /** camelCase undoes kebabCase on camel-case identifiers ("maxAge"). */
  lemma CamelOfKebab(ws: seq<string>)
    requires ws != [] && CamelWords(ws)
    ensures CamelCase(KebabCase(ws[0] + CapitalizeAll(ws[1..]))) == ws[0] + CapitalizeAll(ws[1..])
  {
    WordsOfCamel(ws);
    ToLowerOfLowerWord(ws[0]);
    LowerAllCaps(ws[1..]);
    assert LowerAll([ws[0]] + Caps(ws[1..])) == ws;
    CamelCaseOfKebab(ws);
  }
}
