/**
 * `decodeURIComponent` (section 19.2.6.2 of ECMA-262) for escapes of ASCII
 * bytes, with an `encodeURIComponent` for ASCII text as its inverse.
 */
module Uri {

  import opened Wrappers

  /** The `URIError` thrown for a malformed escape. */
  datatype UriError = MalformedUri

  predicate IsHex(c: char) {
    ('0' <= c <= '9') || ('a' <= c <= 'f') || ('A' <= c <= 'F')
  }

  function HexValue(c: char): (v: nat)
    requires IsHex(c)
    ensures v < 16
  {
    if '0' <= c <= '9' then c as nat - '0' as nat
    else if 'a' <= c <= 'f' then c as nat - 'a' as nat + 10
    else c as nat - 'A' as nat + 10
  }

  /** The upper-case hex digit `encodeURIComponent` writes. */
  function HexDigit(d: nat): (c: char)
    requires d < 16
    ensures IsHex(c) && HexValue(c) == d
  {
    if d < 10 then ('0' as nat + d) as char else ('A' as nat + d - 10) as char
  }

  predicate IsAscii(c: char) { c as nat < 0x80 }

  /**
   * `decodeURIComponent`: every `%XX` becomes the character with that code,
   * everything else is copied; a `%` without two hex digits after it is an
   * error. Escapes of bytes from 0x80 up (UTF-8 sequences) are reported as
   * errors here.
   */
  function Decode(s: string): Result<string, UriError>
    decreases |s|
  {
    if s == [] then Ok("")
    else if s[0] != '%' then
      match Decode(s[1..])
      case Ok(rest) => Ok([s[0]] + rest)
      case Err(e) => Err(e)
    else if |s| < 3 || !IsHex(s[1]) || !IsHex(s[2]) then Err(MalformedUri)
    else
      var b := 16 * HexValue(s[1]) + HexValue(s[2]);
      if b >= 0x80 then Err(MalformedUri)
      else
        match Decode(s[3..])
        case Ok(rest) => Ok([b as char] + rest)
        case Err(e) => Err(e)
  }

  /** The characters `encodeURIComponent` leaves as they are. */
  predicate Unreserved(c: char) {
    || ('a' <= c <= 'z') || ('A' <= c <= 'Z') || ('0' <= c <= '9')
    || c in "-_.!~*'()"
  }

  /** `encodeURIComponent` on ASCII text: unreserved characters kept, every other one as `%XX`. */
  function Encode(s: string): (r: string)
    requires forall i :: 0 <= i < |s| ==> IsAscii(s[i])
    ensures forall i :: 0 <= i < |r| ==> r[i] == '%' || Unreserved(r[i]) || IsHex(r[i])
  {
    if s == [] then ""
    else
      var c := s[0];
      assert IsAscii(c);
      (if Unreserved(c) then [c] else ['%', HexDigit(c as nat / 16), HexDigit(c as nat % 16)]) + Encode(s[1..])
  }

  /** Decoding undoes encoding. */
  lemma {:induction false} DecodeEncode(s: string)
    requires forall i :: 0 <= i < |s| ==> IsAscii(s[i])
    ensures Decode(Encode(s)) == Ok(s)
  {
    if s != [] {
      var c := s[0];
      var rest := Encode(s[1..]);
      DecodeEncode(s[1..]);
      if Unreserved(c) {
        assert Encode(s) == [c] + rest;
        DecodePlainStep(c, rest, s[1..]);
      } else {
        assert IsAscii(c);
        assert Encode(s) == ['%', HexDigit(c as nat / 16), HexDigit(c as nat % 16)] + rest;
        DecodeEscapeStep(c, rest, s[1..]);
      }
      assert [c] + s[1..] == s;
    }
  }

  /** A character other than `%` is copied. */
  lemma DecodePlainStep(c: char, rest: string, t: string)
    requires c != '%' && Decode(rest) == Ok(t)
    ensures Decode([c] + rest) == Ok([c] + t)
  {
    assert ([c] + rest)[1..] == rest;
  }

  /** The escape `encodeURIComponent` writes for an ASCII character decodes to it. */
  lemma DecodeEscapeStep(c: char, rest: string, t: string)
    requires IsAscii(c) && Decode(rest) == Ok(t)
    ensures Decode(['%', HexDigit(c as nat / 16), HexDigit(c as nat % 16)] + rest) == Ok([c] + t)
  {
    var e := ['%', HexDigit(c as nat / 16), HexDigit(c as nat % 16)] + rest;
    assert e[3..] == rest;
    assert (16 * (c as nat / 16) + c as nat % 16) as char == c;
  }

  /** Text without `%` decodes to itself. */
  lemma {:induction false} DecodeWithoutEscapes(s: string)
    requires '%' !in s
    ensures Decode(s) == Ok(s)
  {
    if s != [] {
      assert s[0] in s;
      assert '%' !in s[1..] by { assert forall c :: c in s[1..] ==> c in s; }
      DecodeWithoutEscapes(s[1..]);
      assert [s[0]] + s[1..] == s;
    }
  }

  /** A `%` that does not start two hex digits makes the whole string undecodable. */
  lemma {:induction false} DecodeMalformed(s: string, i: nat)
    requires i < |s| && s[i] == '%'
    requires i + 2 >= |s| || !IsHex(s[i + 1]) || !IsHex(s[i + 2])
    requires '%' !in s[..i]
    ensures Decode(s) == Err(MalformedUri)
  {
    if i > 0 {
      assert s[1..][..i - 1] == s[1..i];
      assert forall c :: c in s[1..i] ==> c in s[..i];
      DecodeMalformed(s[1..], i - 1);
    }
  }
}
