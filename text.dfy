/**
 * String helpers shared by the model: the whitespace class used by JavaScript's
 * `\s` and by lodash `trim`, ASCII lower-casing, joining, and decimal numerals
 * (JavaScript's `String(n)` for integers and `Number(s)` for integral strings).
 */
module Text {

  import opened Wrappers

  /** Whitespace as `\s` and lodash `trim` see it, restricted to the ASCII and Latin-1 range. */
  predicate IsSpace(c: char) {
    c == ' ' || c == '\t' || c == '\n' || c == '\r' || c == '\U{000B}' || c == '\U{000C}'
    || c == '\U{00A0}' || c == '\U{FEFF}'
  }

  predicate IsDigit(c: char) { '0' <= c <= '9' }
  predicate IsLower(c: char) { 'a' <= c <= 'z' }
  predicate IsUpper(c: char) { 'A' <= c <= 'Z' }
  /** JavaScript's `\w`: letters, digits and underscore. */
  predicate IsWordChar(c: char) { IsLower(c) || IsUpper(c) || IsDigit(c) || c == '_' }

  function LowerChar(c: char): (r: char)
    ensures !IsUpper(r)
    ensures IsUpper(c) ==> IsLower(r)
    ensures !IsUpper(c) ==> r == c
  {
    if IsUpper(c) then (c as int - 'A' as int + 'a' as int) as char else c
  }

  function UpperChar(c: char): (r: char)
    ensures IsLower(c) ==> IsUpper(r) && LowerChar(r) == c
    ensures !IsLower(c) ==> r == c
  {
    if IsLower(c) then (c as int - 'a' as int + 'A' as int) as char else c
  }

  /** lodash `toLower`, for ASCII letters. */
  function ToLower(s: string): (r: string)
    ensures |r| == |s|
    ensures forall i :: 0 <= i < |s| ==> r[i] == LowerChar(s[i])
  {
    if s == [] then [] else [LowerChar(s[0])] + ToLower(s[1..])
  }

  /** Number of whitespace characters at the start of `s`. */
  function LeadingSpaces(s: string): (n: nat)
    ensures n <= |s|
    ensures forall i :: 0 <= i < n ==> IsSpace(s[i])
    ensures n < |s| ==> !IsSpace(s[n])
  {
    if s == [] || !IsSpace(s[0]) then 0 else 1 + LeadingSpaces(s[1..])
  }

  /** Length of `s` once its trailing whitespace is dropped. */
  function TrailingStart(s: string): (n: nat)
    ensures n <= |s|
    ensures forall i :: n <= i < |s| ==> IsSpace(s[i])
    ensures n > 0 ==> !IsSpace(s[n - 1])
  {
    if s == [] || !IsSpace(s[|s| - 1]) then |s| else TrailingStart(s[..|s| - 1])
  }

  /**
   * lodash `trim`: the longest infix of `s` that neither starts nor ends with
   * whitespace, everything cut away being whitespace.
   */
  function Trim(s: string): (r: string)
    ensures exists i, j ::
              && 0 <= i <= j <= |s| && r == s[i..j]
              && (forall k :: 0 <= k < i ==> IsSpace(s[k]))
              && (forall k :: j <= k < |s| ==> IsSpace(s[k]))
    ensures r != [] ==> !IsSpace(r[0]) && !IsSpace(r[|r| - 1])
    ensures (forall k :: 0 <= k < |s| ==> IsSpace(s[k])) <==> r == []
  {
    var t := s[..TrailingStart(s)];
    var i := LeadingSpaces(t);
    assert forall k :: 0 <= k < i ==> IsSpace(s[k]) by {
      forall k | 0 <= k < i ensures IsSpace(s[k]) { assert s[k] == t[k]; }
    }
    assert |t[i..]| > 0 ==> t[i..][|t[i..]| - 1] == s[TrailingStart(s) - 1];
    t[i..]
  }

  /** `ss` joined with `sep` between neighbours, as `Array.prototype.join`. */
  function Join(ss: seq<string>, sep: string): string {
    if ss == [] then "" else if |ss| == 1 then ss[0] else ss[0] + sep + Join(ss[1..], sep)
  }

  function DigitChar(d: nat): (c: char)
    requires d < 10
    ensures IsDigit(c)
  {
    ('0' as int + d) as char
  }

  function DigitValue(c: char): (d: nat)
    requires IsDigit(c)
    ensures d < 10 && DigitChar(d) == c
  {
    c as int - '0' as int
  }

  /** The decimal numeral of `n`, without leading zeros. */
  function NatToDecimal(n: nat): (r: string)
    ensures |r| > 0
    ensures forall i :: 0 <= i < |r| ==> IsDigit(r[i])
    ensures |r| > 1 ==> r[0] != '0'
  {
    if n < 10 then [DigitChar(n)] else NatToDecimal(n / 10) + [DigitChar(n % 10)]
  }

  function Pow10(k: nat): (r: nat)
    ensures r >= 1
  {
    if k == 0 then 1 else 10 * Pow10(k - 1)
  }

  /** The numeral of `10^k` is a one followed by `k` zeros. */
  lemma {:induction false} Pow10Numeral(k: nat)
    ensures NatToDecimal(Pow10(k)) == ['1'] + seq(k, i => '0')
  {
    if k > 0 {
      var n := Pow10(k - 1);
      Pow10Numeral(k - 1);
      assert (10 * n) / 10 == n && (10 * n) % 10 == 0;
      assert ['1'] + seq(k, i => '0') == ['1'] + seq(k - 1, i => '0') + ['0'];
    }
  }

  /** JavaScript's `String(n)` for an integer `n`. */
  function IntToDecimal(n: int): (r: string)
    ensures |r| > 0
  {
    if n < 0 then "-" + NatToDecimal(-n) else NatToDecimal(n)
  }

  /** The value of a non-empty string of decimal digits (leading zeros allowed). */
  function DecimalValue(s: string): (n: nat)
    requires forall i :: 0 <= i < |s| ==> IsDigit(s[i])
  {
    if s == [] then 0 else 10 * DecimalValue(s[..|s| - 1]) + DigitValue(s[|s| - 1])
  }

  predicate AllDigits(s: string) {
    forall i :: 0 <= i < |s| ==> IsDigit(s[i])
  }

  /**
   * JavaScript's `Number(s)` restricted to integral numerals: surrounding
   * whitespace is ignored, the empty string is 0, an optional sign may lead a
   * run of digits. None stands for NaN and for every other numeric syntax.
   */
  function StringToInt(s: string): (r: Option<int>)
  {
    var t := Trim(s);
    if t == [] then Some(0)
    else if (t[0] == '-' || t[0] == '+') && |t| > 1 && AllDigits(t[1..]) then
      Some(if t[0] == '-' then -(DecimalValue(t[1..]) as int) else DecimalValue(t[1..]))
    else if AllDigits(t) then Some(DecimalValue(t))
    else None
  }

  lemma {:induction false} DecimalRoundTrip(n: nat)
    ensures AllDigits(NatToDecimal(n)) && DecimalValue(NatToDecimal(n)) == n
  {
    if n >= 10 {
      DecimalRoundTrip(n / 10);
      var s := NatToDecimal(n);
      assert s[..|s| - 1] == NatToDecimal(n / 10);
    }
  }

  /** Printing an integer and reading it back as a number gives the integer. */
  lemma IntDecimalRoundTrip(n: int)
    ensures StringToInt(IntToDecimal(n)) == Some(n)
  {
    var m := if n < 0 then -n else n;
    DecimalRoundTrip(m);
    if n < 0 {
      NegativeNumeral(NatToDecimal(m));
    } else {
      DigitsNumeral(NatToDecimal(m));
    }
  }

  /** A run of digits reads as its value. */
  lemma DigitsNumeral(d: string)
    requires d != [] && AllDigits(d)
    ensures StringToInt(d) == Some(DecimalValue(d) as int)
  {
    TrimNoSpace(d);
  }

  /** A minus sign and a run of digits read as the negated value. */
  lemma NegativeNumeral(d: string)
    requires d != [] && AllDigits(d)
    ensures StringToInt("-" + d) == Some(-(DecimalValue(d) as int))
  {
    var s := "-" + d;
    assert Trim(s) == s by {
      assert s[|s| - 1] == d[|d| - 1];
      TrimNoSpace(s);
    }
    assert s[0] == '-' && |s| > 1 && s[1..] == d;
  }

  lemma TrimNoSpace(s: string)
    requires s != [] && !IsSpace(s[0]) && !IsSpace(s[|s| - 1])
    ensures Trim(s) == s
  {
  }

  /** `String.prototype.indexOf` for one character: the first position of `c`, or -1. */
  function IndexOf(s: string, c: char): (r: int)
    ensures -1 <= r < |s|
    ensures r == -1 <==> c !in s
    ensures r >= 0 ==> s[r] == c && c !in s[..r]
  {
    if s == [] then -1
    else if s[0] == c then 0
    else
      var r := IndexOf(s[1..], c);
      assert s[1..] == s[1..];
      if r == -1 then -1 else
        assert s[..r + 1] == [s[0]] + s[1..][..r];
        r + 1
  }

  /** The first occurrence is the only position holding `c` with no `c` before it. */
  lemma IndexOfUnique(s: string, c: char, r: nat)
    requires r < |s| && s[r] == c && c !in s[..r]
    ensures IndexOf(s, c) == r
  {
    var i := IndexOf(s, c);
    assert s[r] in s;
    assert forall q :: 0 <= q < r ==> s[q] != c by {
      forall q | 0 <= q < r ensures s[q] != c { assert s[..r][q] == s[q]; }
    }
    assert forall q :: 0 <= q < i ==> s[q] != c by {
      forall q | 0 <= q < i ensures s[q] != c { assert s[..i][q] == s[q]; }
    }
  }

  /** `String.prototype.split` on one character: the pieces between the separators. */
  function Split(s: string, c: char): (r: seq<string>)
    ensures r != []
    ensures forall i :: 0 <= i < |r| ==> c !in r[i]
    decreases |s|
  {
    var i := IndexOf(s, c);
    if i < 0 then [s] else [s[..i]] + Split(s[i + 1..], c)
  }

  /** Splitting on a character and joining with it gives the string back. */
  lemma {:induction false} SplitJoin(s: string, c: char)
    ensures Join(Split(s, c), [c]) == s
    decreases |s|
  {
    var i := IndexOf(s, c);
    if i >= 0 {
      var rest := Split(s[i + 1..], c);
      calc {
        Join(Split(s, c), [c]);
        Join([s[..i]] + rest, [c]);
        { JoinCons(s[..i], rest, [c]); }
        s[..i] + [c] + Join(rest, [c]);
        { SplitJoin(s[i + 1..], c); }
        s[..i] + [c] + s[i + 1..];
        { CutAround(s, i); }
        s;
      }
    }
  }

  lemma CutAround(s: string, i: int)
    requires 0 <= i < |s|
    ensures s[..i] + [s[i]] + s[i + 1..] == s
  {
  }

  lemma JoinCons(x: string, rest: seq<string>, sep: string)
    requires rest != []
    ensures Join([x] + rest, sep) == x + sep + Join(rest, sep)
  {
    assert ([x] + rest)[1..] == rest;
  }
}
