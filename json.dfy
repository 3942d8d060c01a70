/**
 * JSON-like values as the subscription helpers see them, with the parts of
 * JavaScript and lodash those helpers rely on: truthiness, loose equality
 * (`==`) and lodash `merge`.
 */
module Json {

  import opened Wrappers
  import opened Text

  /** Numbers are integers; object keys are unordered. */
  datatype Json =
    | JNull
    | JBool(b: bool)
    | JNum(n: int)
    | JStr(s: string)
    | JArr(items: seq<Json>)
    | JObj(fields: map<string, Json>)
  {
    predicate IsPrimitive() { !JArr? && !JObj? }
  }

  /** JavaScript truthiness: null, false, 0 and "" are falsy. */
  predicate Truthy(j: Json) {
    match j
    case JNull => false
    case JBool(b) => b
    case JNum(n) => n != 0
    case JStr(s) => s != ""
    case _ => true
  }

  /** The value of property `key`, if `j` is an object that owns it (lodash `has`). */
  function Prop(j: Json, key: string): (r: Option<Json>)
    ensures r.Some? <==> j.JObj? && key in j.fields
  {
    if j.JObj? && key in j.fields then Some(j.fields[key]) else None
  }

  function BoolRank(a: Json): nat { if a.JBool? then 1 else 0 }

  /**
   * JavaScript's `==` on two values of this model. A boolean compares as the
   * number 0 or 1; a number and a string compare after the string is read as
   * a number; null equals only null; two distinct arrays or objects are never
   * equal (they are separate references).
   */
  predicate LooseEquals(a: Json, b: Json)
    decreases BoolRank(a) + BoolRank(b)
  {
    match (a, b)
    case (JNull, JNull) => true
    case (JNull, _) => false
    case (_, JNull) => false
    case (JBool(x), _) => LooseEquals(JNum(if x then 1 else 0), b)
    case (_, JBool(y)) => LooseEquals(a, JNum(if y then 1 else 0))
    case (JNum(x), JNum(y)) => x == y
    case (JStr(x), JStr(y)) => x == y
    case (JNum(x), JStr(y)) => StringToInt(y) == Some(x)
    case (JStr(x), JNum(y)) => StringToInt(x) == Some(y)
    case _ => false
  }

  lemma LooseEqualsSymmetric(a: Json, b: Json)
    ensures LooseEquals(a, b) == LooseEquals(b, a)
    decreases BoolRank(a) + BoolRank(b)
  {
    if a.JBool? {
      LooseEqualsSymmetric(JNum(if a.b then 1 else 0), b);
    } else if b.JBool? {
      LooseEqualsSymmetric(a, JNum(if b.b then 1 else 0));
    }
  }

  lemma LooseEqualsReflexive(a: Json)
    requires a.IsPrimitive()
    ensures LooseEquals(a, a)
  {
    if a.JBool? {
      assert LooseEquals(JNum(if a.b then 1 else 0), JNum(if a.b then 1 else 0));
      assert LooseEquals(JNum(if a.b then 1 else 0), a);
    }
  }

  /** A numeric id equals its own decimal string: `5 == "5"`. */
  lemma NumberEqualsItsNumeral(n: int)
    ensures LooseEquals(JNum(n), JStr(IntToDecimal(n)))
  {
    IntDecimalRoundTrip(n);
  }

  /**
   * lodash `merge(dst, src)`: objects merge key by key, arrays index by index
   * (the longer one decides the length), an object merged into an array keeps
   * the array, and any other source value replaces the destination.
   */
  function Merge(dst: Json, src: Json): Json
    decreases src
  {
    match (dst, src)
    case (JObj(a), JObj(b)) =>
      JObj(map k | k in a.Keys + b.Keys ::
             if k in b then (if k in a then Merge(a[k], b[k]) else b[k]) else a[k])
    case (JArr(x), JArr(y)) => JArr(MergeItems(x, y))
    case (JArr(_), JObj(_)) => dst
    case _ => src
  }

  function MergeItems(x: seq<Json>, y: seq<Json>): (r: seq<Json>)
    decreases y
  {
    if y == [] then x
    else if x == [] then y
    else [Merge(x[0], y[0])] + MergeItems(x[1..], y[1..])
  }

  /** What merging two objects does to each key. */
  lemma MergeObjects(a: map<string, Json>, b: map<string, Json>)
    ensures Merge(JObj(a), JObj(b)).JObj?
    ensures Merge(JObj(a), JObj(b)).fields.Keys == a.Keys + b.Keys
    ensures forall k :: k in a && k !in b ==> Merge(JObj(a), JObj(b)).fields[k] == a[k]
    ensures forall k :: k in b && b[k].IsPrimitive() ==> Merge(JObj(a), JObj(b)).fields[k] == b[k]
  {
    var m := Merge(JObj(a), JObj(b)).fields;
    forall k | k in b && b[k].IsPrimitive() ensures m[k] == b[k] {
      if k in a {
        assert m[k] == Merge(a[k], b[k]);
      }
    }
  }

  lemma {:induction false} MergeItemsLength(x: seq<Json>, y: seq<Json>)
    ensures |MergeItems(x, y)| == if |x| > |y| then |x| else |y|
  {
    if y != [] && x != [] {
      MergeItemsLength(x[1..], y[1..]);
    }
  }

  /** Merging a value into itself changes nothing. */
  lemma {:induction false} MergeSelf(s: Json)
    ensures Merge(s, s) == s
    decreases s
  {
    match s
    case JObj(b) =>
      var m := Merge(s, s).fields;
      forall k | k in b ensures m[k] == b[k] {
        MergeSelf(b[k]);
      }
      assert m == b;
    case JArr(y) =>
      MergeItemsSelf(y);
    case _ =>
  }

  lemma {:induction false} MergeItemsSelf(y: seq<Json>)
    ensures MergeItems(y, y) == y
    decreases y
  {
    if y != [] {
      MergeSelf(y[0]);
      MergeItemsSelf(y[1..]);
    }
  }

  /** Merging the same source twice is the same as merging it once. */
  lemma {:induction false} MergeIdempotent(d: Json, s: Json)
    ensures Merge(Merge(d, s), s) == Merge(d, s)
    decreases s
  {
    match (d, s)
    case (JObj(a), JObj(b)) =>
      var m := Merge(d, s).fields;
      var m2 := Merge(Merge(d, s), s).fields;
      forall k | k in m ensures k in m2 && m2[k] == m[k] {
        if k in b {
          if k in a {
            MergeIdempotent(a[k], b[k]);
          } else {
            MergeSelf(b[k]);
          }
        }
      }
      assert m2 == m;
    case (JArr(x), JArr(y)) =>
      MergeItemsIdempotent(x, y);
    case _ =>
      MergeSelf(s);
  }

  lemma {:induction false} MergeItemsIdempotent(x: seq<Json>, y: seq<Json>)
    ensures MergeItems(MergeItems(x, y), y) == MergeItems(x, y)
    decreases y
  {
    if y != [] {
      if x == [] {
        MergeItemsSelf(y);
      } else {
        MergeIdempotent(x[0], y[0]);
        MergeItemsIdempotent(x[1..], y[1..]);
      }
    }
  }
}
