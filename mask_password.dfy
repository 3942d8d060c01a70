/** `maskPassword`: a password shown as one `*` per character. */
module MaskPassword {

  import opened Wrappers

  /** lodash `repeat('*', n)`. */
  function Stars(n: nat): (r: string)
    ensures |r| == n
    ensures forall i :: 0 <= i < n ==> r[i] == '*'
  {
    if n == 0 then "" else Stars(n - 1) + "*"
  }

  /** `maskPassword(value = '')`: an absent password masks to `''`. */
  function Mask(value: Option<string>): (r: string)
    ensures |r| == |value.GetOr("")|
    ensures forall i :: 0 <= i < |r| ==> r[i] == '*'
    ensures value.None? ==> r == ""
  {
    Stars(|value.GetOr("")|)
  }

  /** The mask is the only string of the password's length made of `*` alone. */
  lemma MaskUnique(value: Option<string>, r: string)
    ensures r == Mask(value) <==> |r| == |value.GetOr("")| && forall i :: 0 <= i < |r| ==> r[i] == '*'
  {
    if |r| == |value.GetOr("")| && forall i :: 0 <= i < |r| ==> r[i] == '*' {
      assert forall i :: 0 <= i < |r| ==> r[i] == Mask(value)[i];
    }
  }

  /** The content is never looked at: passwords of equal length mask alike. */
  lemma MaskIgnoresContent(a: string, b: string)
    requires |a| == |b|
    ensures Mask(Some(a)) == Mask(Some(b))
  {
  }
}
