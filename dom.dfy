/**
 * Turning a parsed HTML tree into plain `{ type, props, children }` objects
 * and strings: the part shared by `jsx.js` and `htmlToArray.js`. Parsing the
 * HTML (and the template step before it) is outside the model: the tree comes
 * in as a value.
 */
module Dom {

  import opened Wrappers
  import opened Text
  import opened Casing

  /** A node of the parsed tree: comments, text, and tags with string attributes. */
  datatype Node =
    | Comment(data: string)
    | TextNode(data: string)
    | Tag(name: string, attribs: map<string, string>, children: seq<Node>)

  /** An entry of the converted array: a string, or an element object. */
  datatype Item =
    | Str(text: string)
    | Element(elementType: string, props: map<string, Prop>, children: seq<Item>)

  /**
   * A property value: an attribute's string, the object a `style` string is
   * parsed into, or the element object a `textarea` takes as `defaultValue`.
   */
  datatype Prop =
    | Attr(value: string)
    | Style(rules: map<string, string>)
    | Child(item: Item)

  /** The value `props.defaultValue = children[0]` stores. */
  function AsProp(item: Item): (p: Prop)
    ensures item.Str? ==> p == Attr(item.text)
    ensures item.Element? ==> p == Child(item)
  {
    if item.Str? then Attr(item.text) else Child(item)
  }

  /** The attributes as they come from the parser: every value a string. */
  function Lift(attribs: map<string, string>): (props: map<string, Prop>)
    ensures props.Keys == attribs.Keys
    ensures forall k :: k in attribs ==> props[k] == Attr(attribs[k])
  {
    map k | k in attribs :: Attr(attribs[k])
  }

  // ----- style keys -----

  /** `toJSXKey`: lower-case, drop the `-` of a leading `-ms-`, camel-case. */
  function ToJSXKey(key: string): string {
    var lower := ToLower(key);
    CamelCase(if |lower| >= 4 && lower[..4] == "-ms-" then lower[1..] else lower)
  }

  lemma {:induction false} ToLowerIdempotent(s: string)
    ensures ToLower(ToLower(s)) == ToLower(s)
  {
    var l := ToLower(s);
    assert forall i :: 0 <= i < |l| ==> ToLower(l)[i] == l[i];
  }

  /** Keys differing only in letter case give the same JSX key. */
  lemma ToJSXKeyIgnoresCase(key: string)
    ensures ToJSXKey(ToLower(key)) == ToJSXKey(key)
  {
    ToLowerIdempotent(key);
  }

  /** Lower-case words joined by hyphens contain no capital. */
  lemma {:induction false} KebabHasNoCapital(ws: seq<string>)
    requires forall i :: 0 <= i < |ws| ==> LowerWord(ws[i])
    ensures forall i :: 0 <= i < |Join(ws, "-")| ==> !IsUpper(Join(ws, "-")[i])
  {
    if |ws| > 1 {
      KebabHasNoCapital(ws[1..]);
      var rest := Join(ws[1..], "-");
      assert Join(ws, "-") == ws[0] + "-" + rest;
      forall i | 0 <= i < |Join(ws, "-")| ensures !IsUpper(Join(ws, "-")[i]) {
        if i < |ws[0]| {
          assert Join(ws, "-")[i] == ws[0][i];
        } else if i > |ws[0]| {
          assert Join(ws, "-")[i] == rest[i - |ws[0]| - 1];
        }
      }
    }
  }

  lemma LowerWithoutCapital(s: string)
    requires forall i :: 0 <= i < |s| ==> !IsUpper(s[i])
    ensures ToLower(s) == s
  {
  }

  /** A key already in lower case and not starting with `-` is just camel-cased. */
  lemma ToJSXKeyPlain(s: string)
    requires forall i :: 0 <= i < |s| ==> !IsUpper(s[i])
    requires s != [] && s[0] != '-'
    ensures ToJSXKey(s) == CamelCase(s)
  {
    LowerWithoutCapital(s);
    assert !(|s| >= 4 && s[..4] == "-ms-") by {
      if |s| >= 4 { assert s[..4][0] == s[0]; }
    }
  }

  /** A CSS property written in kebab case becomes its camel-case JSX name. */
  lemma ToJSXKeyOfKebab(ws: seq<string>)
    requires ws != [] && forall i :: 0 <= i < |ws| ==> LowerWord(ws[i])
    ensures ToJSXKey(Join(ws, "-")) == ws[0] + CapitalizeAll(ws[1..])
  {
    var s := Join(ws, "-");
    KebabHasNoCapital(ws);
    if |ws| > 1 {
      assert s == ws[0] + "-" + Join(ws[1..], "-");
    }
    assert s[0] == ws[0][0];
    ToJSXKeyPlain(s);
    CamelCaseOfKebab(ws);
  }

  /** A key with a leading `-ms-` is camel-cased without its first hyphen. */
  lemma ToJSXKeyMs(t: string)
    requires forall i :: 0 <= i < |t| ==> !IsUpper(t[i])
    requires |t| >= 3 && t[..3] == "ms-"
    ensures ToJSXKey("-" + t) == CamelCase(t)
  {
    var s := "-" + t;
    assert forall i :: 0 <= i < |s| ==> !IsUpper(s[i]) by {
      forall i | 0 <= i < |s| ensures !IsUpper(s[i]) {
        if i > 0 { assert s[i] == t[i - 1]; }
      }
    }
    LowerWithoutCapital(s);
    assert s[..4] == "-" + t[..3];
    assert s[1..] == t;
  }

  lemma MsKebab(ws: seq<string>)
    requires ws != [] && forall i :: 0 <= i < |ws| ==> LowerWord(ws[i])
    ensures var vs := ["ms"] + ws;
            && (forall i :: 0 <= i < |vs| ==> LowerWord(vs[i]))
            && vs[1..] == ws
            && "-ms-" + Join(ws, "-") == "-" + Join(vs, "-")
            && |Join(vs, "-")| >= 3 && Join(vs, "-")[..3] == "ms-"
  {
    var vs := ["ms"] + ws;
    var t := Join(vs, "-");
    assert vs[1..] == ws;
    assert t == "ms" + "-" + Join(ws, "-");
    forall i | 0 <= i < |vs| ensures LowerWord(vs[i]) {
      if i == 0 { assert vs[0] == "ms"; } else { assert vs[i] == ws[i - 1]; }
    }
  }

  /** A `-ms-` vendor property loses its leading hyphen: `-ms-a-b` becomes `msAB`. */
  lemma ToJSXKeyOfMsPrefixed(ws: seq<string>)
    requires ws != [] && forall i :: 0 <= i < |ws| ==> LowerWord(ws[i])
    ensures ToJSXKey("-ms-" + Join(ws, "-")) == "ms" + CapitalizeAll(ws)
  {
    var vs := ["ms"] + ws;
    MsKebab(ws);
    KebabHasNoCapital(vs);
    ToJSXKeyMs(Join(vs, "-"));
    CamelCaseOfKebab(vs);
  }

  // ----- style strings -----

  /**
   * One `;`-separated piece of a style string: the trimmed text before the
   * first `:` as a JSX key, and the trimmed text after it. A piece without a
   * colon has the empty key (`substr(0, -1)`), and a piece with an empty key
   * is skipped.
   */
  function StyleRule(piece: string): Option<(string, string)> {
    var colon := IndexOf(piece, ':');
    if colon < 0 then None
    else
      var key := Trim(piece[..colon]);
      if key == "" then None else Some((ToJSXKey(key), Trim(piece[colon + 1..])))
  }

  /** The `transform` over the pieces: each rule in order, a later key overwriting an earlier one. */
  function AddRules(pieces: seq<string>, acc: map<string, string>): map<string, string> {
    if pieces == [] then acc
    else
      var acc' := match StyleRule(pieces[0]) case None => acc case Some(r) => acc[r.0 := r.1];
      AddRules(pieces[1..], acc')
  }

  function StyleObject(style: string): map<string, string> {
    AddRules(Split(style, ';'), map[])
  }

  /** Reference reading of a style list: the value of the last piece that sets `key`. */
  function LastRule(pieces: seq<string>, key: string): Option<string> {
    if pieces == [] then None
    else
      var r := StyleRule(pieces[|pieces| - 1]);
      if r.Some? && r.value.0 == key then Some(r.value.1)
      else LastRule(pieces[..|pieces| - 1], key)
  }

  lemma {:induction false} AddRulesSnoc(pieces: seq<string>, piece: string, acc: map<string, string>)
    ensures AddRules(pieces + [piece], acc)
            == (match StyleRule(piece) case None => AddRules(pieces, acc)
                                       case Some(r) => AddRules(pieces, acc)[r.0 := r.1])
  {
    if pieces != [] {
      var acc' := match StyleRule(pieces[0]) case None => acc case Some(r) => acc[r.0 := r.1];
      assert (pieces + [piece])[1..] == pieces[1..] + [piece];
      AddRulesSnoc(pieces[1..], piece, acc');
    } else {
      assert ([] + [piece])[1..] == [];
    }
  }

  /**
   * The parsed style holds exactly the keys some piece sets, each with the
   * value of the last piece that sets it.
   */
  lemma {:induction false} StyleLastWins(pieces: seq<string>)
    ensures var r := AddRules(pieces, map[]);
            forall key :: (key in r <==> LastRule(pieces, key).Some?)
                          && (key in r ==> r[key] == LastRule(pieces, key).value)
  {
    if pieces != [] {
      var init := pieces[..|pieces| - 1];
      var last := pieces[|pieces| - 1];
      StyleLastWins(init);
      assert init + [last] == pieces;
      AddRulesSnoc(init, last, map[]);
    }
  }

  // ----- props -----

  /** `rename`: move the value under `from` to `to` and delete `from`, if `from` is present. */
  function Renamed(props: map<string, Prop>, from: string, to: string): (r: map<string, Prop>)
    ensures from !in props ==> r == props
    ensures from in props ==> from !in r
    ensures from in props && from != to ==> to in r && r[to] == props[from]
    ensures forall k :: k != from && k != to ==> (k in r <==> k in props) && (k in r ==> r[k] == props[k])
  {
    if from in props then props[to := props[from]] - {from} else props
  }

  /** `transformStyle`: a string `style` is replaced by its parsed object; anything else is left alone. */
  function WithStyleParsed(props: map<string, Prop>): (r: map<string, Prop>)
    ensures r.Keys == props.Keys
    ensures forall k :: k in props && k != "style" ==> r[k] == props[k]
  {
    if "style" in props && props["style"].Attr? then props["style" := Style(StyleObject(props["style"].value))]
    else props
  }

  /** The in-place part of `transformElement`: style, `for`, `class`, and on `input` `checked` and `value`. */
  function TransformProps(elementType: string, props: map<string, Prop>): map<string, Prop> {
    var p := CommonRenames(props);
    if elementType == "input" then Renamed(Renamed(p, "checked", "defaultChecked"), "value", "defaultValue") else p
  }

  /** `for` and `class` move to `htmlFor` and `className` on every element. */
  lemma TransformPropsRenames(elementType: string, props: map<string, Prop>)
    ensures var r := TransformProps(elementType, props);
            && "for" !in r && "class" !in r
            && ("for" in props ==> r["htmlFor"] == props["for"])
            && ("class" in props ==> r["className"] == props["class"])
  {
    var p2 := CommonRenames(props);
    if elementType == "input" {
      var p3 := Renamed(p2, "checked", "defaultChecked");
      var p4 := Renamed(p3, "value", "defaultValue");
      assert TransformProps(elementType, props) == p4;
    } else {
      assert TransformProps(elementType, props) == p2;
    }
  }

  /**
   * On `input`, `checked` and `value` move to `defaultChecked` and
   * `defaultValue`; on other elements they stay.
   */
  lemma TransformPropsInput(elementType: string, props: map<string, Prop>)
    ensures var r := TransformProps(elementType, props);
            && (elementType == "input" ==> "checked" !in r && "value" !in r)
            && (elementType == "input" && "checked" in props ==> r["defaultChecked"] == props["checked"])
            && (elementType == "input" && "value" in props ==> r["defaultValue"] == props["value"])
            && (elementType != "input" ==> ("checked" in r <==> "checked" in props) && ("value" in r <==> "value" in props))
  {
    var p2 := CommonRenames(props);
    if elementType == "input" {
      var p3 := Renamed(p2, "checked", "defaultChecked");
      var p4 := Renamed(p3, "value", "defaultValue");
      assert "checked" in props ==> p3["defaultChecked"] == props["checked"];
      assert TransformProps(elementType, props) == p4;
    } else {
      assert TransformProps(elementType, props) == p2;
    }
  }

  /** The renames every element gets; `checked` and `value` pass through them. */
  function CommonRenames(props: map<string, Prop>): (r: map<string, Prop>)
    ensures "for" !in r && "class" !in r
    ensures "for" in props ==> "htmlFor" in r && r["htmlFor"] == props["for"]
    ensures "class" in props ==> "className" in r && r["className"] == props["class"]
    ensures ("checked" in r <==> "checked" in props) && ("checked" in r ==> r["checked"] == props["checked"])
    ensures ("value" in r <==> "value" in props) && ("value" in r ==> r["value"] == props["value"])
  {
    var p0 := WithStyleParsed(props);
    var p1 := Renamed(p0, "for", "htmlFor");
    assert "for" in props ==> "htmlFor" in p1 && p1["htmlFor"] == props["for"];
    Renamed(p1, "class", "className")
  }

  /** A string `style` is replaced by the object it parses into; any other `style` stays. */
  lemma TransformPropsStyle(elementType: string, props: map<string, Prop>)
    requires "style" in props
    ensures var r := TransformProps(elementType, props);
            && "style" in r
            && (props["style"].Attr? ==> r["style"] == Style(StyleObject(props["style"].value)))
            && (!props["style"].Attr? ==> r["style"] == props["style"])
  {
  }

  /** The keys `TransformProps` may touch. */
  predicate Touched(k: string) {
    k in {"style", "for", "htmlFor", "class", "className", "checked", "defaultChecked", "value", "defaultValue"}
  }

  /** Every other attribute keeps its value. */
  lemma TransformPropsKeepsOthers(elementType: string, props: map<string, Prop>, k: string)
    requires !Touched(k)
    ensures var r := TransformProps(elementType, props);
            && (k in r <==> k in props) && (k in r ==> r[k] == props[k])
  {
  }

  /**
   * Running the transformation again changes nothing: the parsed tree is
   * memoized and its attribute objects are rewritten in place, so a second
   * conversion of the same HTML sees the already-transformed props.
   */
  lemma TransformPropsIdempotent(elementType: string, props: map<string, Prop>)
    ensures TransformProps(elementType, TransformProps(elementType, props)) == TransformProps(elementType, props)
  {
    var r := TransformProps(elementType, props);
    TransformPropsRenames(elementType, props);
    TransformPropsInput(elementType, props);
    if "style" in props {
      TransformPropsStyle(elementType, props);
    }
    assert WithStyleParsed(r) == r;
    assert CommonRenames(r) == r;
  }

  // ----- elements -----

  /** How `transformElements` treats text: kept as it is (`htmlToArray.js`), or trimmed with empty strings dropped (`jsx.js`). */
  datatype TextMode = Verbatim | Trimmed

  /** `transformElements`: comments dropped, text per the mode, tags converted, order kept. */
  function ConvertAll(nodes: seq<Node>, mode: TextMode): seq<Item>
    decreases nodes, 0
  {
    if nodes == [] then [] else ConvertNode(nodes[0], mode) + ConvertAll(nodes[1..], mode)
  }

  /** One node's contribution: nothing, or one entry. */
  function ConvertNode(node: Node, mode: TextMode): (r: seq<Item>)
    ensures |r| <= 1
    decreases node, 0
  {
    match node
    case Comment(_) => []
    case TextNode(data) =>
      if mode == Verbatim then [Str(data)]
      else (var t := Trim(data); if t == "" then [] else [Str(t)])
    case Tag(name, attribs, children) => [TransformElement(name, attribs, children, mode)]
  }

  /** `transformElement`: a `textarea` with children takes the first as `defaultValue` and keeps none. */
  function TransformElement(name: string, attribs: map<string, string>, children: seq<Node>, mode: TextMode): Item
    decreases children, 1
  {
    var props := TransformProps(name, Lift(attribs));
    var kids := ConvertAll(children, mode);
    if name == "textarea" && |kids| > 0 then Element(name, props["defaultValue" := AsProp(kids[0])], [])
    else Element(name, props, kids)
  }

  /** Converting a list is converting its parts: order is kept. */
  lemma {:induction false} ConvertAllAppend(xs: seq<Node>, ys: seq<Node>, mode: TextMode)
    ensures ConvertAll(xs + ys, mode) == ConvertAll(xs, mode) + ConvertAll(ys, mode)
  {
    if xs != [] {
      assert (xs + ys)[1..] == xs[1..] + ys;
      ConvertAllAppend(xs[1..], ys, mode);
    } else {
      assert xs + ys == ys;
    }
  }

  /** `reject(elements, ['type', 'comment'])`. */
  function WithoutComments(nodes: seq<Node>): (r: seq<Node>)
    ensures forall i :: 0 <= i < |r| ==> !r[i].Comment?
    ensures |r| <= |nodes|
  {
    if nodes == [] then []
    else (if nodes[0].Comment? then [] else [nodes[0]]) + WithoutComments(nodes[1..])
  }

  /** Comments never reach the output. */
  lemma {:induction false} CommentsIgnored(nodes: seq<Node>, mode: TextMode)
    ensures ConvertAll(WithoutComments(nodes), mode) == ConvertAll(nodes, mode)
  {
    if nodes != [] {
      var head := if nodes[0].Comment? then [] else [nodes[0]];
      CommentsIgnored(nodes[1..], mode);
      ConvertAllAppend(head, WithoutComments(nodes[1..]), mode);
      if head != [] {
        assert head[1..] == [];
      }
    }
  }

  /** In verbatim mode every non-comment node gives exactly one entry, and text is kept whitespace and all. */
  lemma {:induction false} VerbatimOnePerNode(nodes: seq<Node>)
    ensures |ConvertAll(nodes, Verbatim)| == |WithoutComments(nodes)|
    ensures forall i :: 0 <= i < |nodes| && nodes[i].TextNode? ==>
              Str(nodes[i].data) in ConvertAll(nodes, Verbatim)
  {
    if nodes != [] {
      VerbatimOnePerNode(nodes[1..]);
      forall i | 0 <= i < |nodes| && nodes[i].TextNode?
        ensures Str(nodes[i].data) in ConvertAll(nodes, Verbatim)
      {
        if i > 0 {
          assert nodes[i] == nodes[1..][i - 1];
        }
      }
    }
  }

  /** A string with no whitespace at either end and not empty: what `jsx.js` keeps of a text. */
  predicate TrimmedText(s: string) {
    s != [] && !IsSpace(s[0]) && !IsSpace(s[|s| - 1])
  }

  /** Every string entry, at every depth, is trimmed and non-empty. */
  predicate AllTrimmed(items: seq<Item>)
    decreases items
  {
    forall i :: 0 <= i < |items| ==>
      match items[i]
      case Str(t) => TrimmedText(t)
      case Element(_, _, children) => AllTrimmed(children)
  }

  lemma AllTrimmedAppend(xs: seq<Item>, ys: seq<Item>)
    requires AllTrimmed(xs) && AllTrimmed(ys)
    ensures AllTrimmed(xs + ys)
  {
    forall i | 0 <= i < |xs + ys|
      ensures match (xs + ys)[i]
              case Str(t) => TrimmedText(t)
              case Element(_, _, children) => AllTrimmed(children)
    {
      if i < |xs| { assert (xs + ys)[i] == xs[i]; } else { assert (xs + ys)[i] == ys[i - |xs|]; }
    }
  }

  /** In trimmed mode no entry at any depth is empty or has whitespace at its ends. */
  lemma {:induction false} TrimmedOutput(nodes: seq<Node>)
    ensures AllTrimmed(ConvertAll(nodes, Trimmed))
    decreases nodes, 0
  {
    if nodes != [] {
      TrimmedNode(nodes[0]);
      TrimmedOutput(nodes[1..]);
      AllTrimmedAppend(ConvertNode(nodes[0], Trimmed), ConvertAll(nodes[1..], Trimmed));
    }
  }

  lemma {:induction false} TrimmedNode(node: Node)
    ensures AllTrimmed(ConvertNode(node, Trimmed))
    decreases node, 1
  {
    match node
    case Comment(_) =>
    case TextNode(data) =>
    case Tag(name, attribs, children) =>
      TrimmedOutput(children);
  }

  /**
   * What an element becomes: its tag name as `type`, its transformed props,
   * and its converted children, except that a `textarea` with children takes
   * the first as `defaultValue` and is left with none.
   */
  lemma ElementShape(node: Node, mode: TextMode)
    requires node.Tag?
    ensures var r := ConvertNode(node, mode);
            var kids := ConvertAll(node.children, mode);
            var props := TransformProps(node.name, Lift(node.attribs));
            && |r| == 1 && r[0].Element? && r[0].elementType == node.name
            && (node.name == "textarea" && kids != [] ==>
                  r[0].children == [] && r[0].props == props["defaultValue" := AsProp(kids[0])])
            && (node.name != "textarea" || kids == [] ==> r[0].children == kids && r[0].props == props)
  {
  }

  /** The props object of one element, rewritten in place as `transformElement` does. */
  class Attribs {
    var props: map<string, Prop>

    constructor (attribs: map<string, string>)
      ensures props == Lift(attribs)
    {
      props := Lift(attribs);
    }

    method TransformStyle()
      modifies this
      ensures props == WithStyleParsed(old(props))
    {
      if "style" in props && props["style"].Attr? {
        props := props["style" := Style(StyleObject(props["style"].value))];
      }
    }

    method Rename(from: string, to: string)
      modifies this
      ensures props == Renamed(old(props), from, to)
    {
      if from in props {
        props := props[to := props[from]];
        props := props - {from};
      }
    }

    /** The statements of `transformElement` before the children are converted. */
    method Transform(elementType: string)
      modifies this
      ensures props == TransformProps(elementType, old(props))
    {
      TransformStyle();
      Rename("for", "htmlFor");
      Rename("class", "className");
      if elementType == "input" {
        Rename("checked", "defaultChecked");
        Rename("value", "defaultValue");
      }
    }
  }

  /** `transformElement` as written: rewrite the props in place, then convert the children. */
  method TransformElementInPlace(name: string, attribs: map<string, string>, children: seq<Node>, mode: TextMode)
    returns (r: Item)
    ensures r == TransformElement(name, attribs, children, mode)
  {
    var props := new Attribs(attribs);
    props.Transform(name);
    var kids := ConvertAll(children, mode);
    if name == "textarea" && |kids| > 0 {
      props.props := props.props["defaultValue" := AsProp(kids[0])];
      kids := [];
    }
    r := Element(name, props.props, kids);
  }
}
