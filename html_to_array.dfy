/** `htmlToArray.js`: the converter that keeps text nodes exactly as parsed. */
module HtmlToArray {

  import opened Dom

  /** `htmlToArray` on the parsed template. */
  function HtmlToArray(nodes: seq<Node>): (r: seq<Item>)
    ensures |r| == |WithoutComments(nodes)|
    ensures forall i :: 0 <= i < |nodes| && nodes[i].TextNode? ==> Str(nodes[i].data) in r
  {
    VerbatimOnePerNode(nodes);
    ConvertAll(nodes, Verbatim)
  }

  /**
   * An `input` with `checked` and `value` and a `textarea` with one text
   * child: the attributes move to `defaultChecked` and `defaultValue`, and the
   * text becomes the textarea's `defaultValue`.
   */
  lemma InputAndTextarea()
    ensures HtmlToArray([Tag("input", map["checked" := "", "value" := "a"], []),
                         Tag("textarea", map[], [TextNode("b")])])
            == [Element("input", map["defaultChecked" := Attr(""), "defaultValue" := Attr("a")], []),
                Element("textarea", map["defaultValue" := Attr("b")], [])]
  {
    var input := Tag("input", map["checked" := "", "value" := "a"], []);
    var textarea := Tag("textarea", map[], [TextNode("b")]);
    InputPropsRenamed();
    TextareaTakesText();
    ConvertPair(input, textarea, Verbatim);
    var inputItem := Element("input", map["defaultChecked" := Attr(""), "defaultValue" := Attr("a")], []);
    var textareaItem := Element("textarea", map["defaultValue" := Attr("b")], []);
    calc {
      HtmlToArray([input, textarea]);
      ConvertAll([input, textarea], Verbatim);
      ConvertNode(input, Verbatim) + ConvertNode(textarea, Verbatim);
      [inputItem] + [textareaItem];
      [inputItem, textareaItem];
    }
  }

  lemma ConvertPair(a: Node, b: Node, mode: TextMode)
    ensures ConvertAll([a, b], mode) == ConvertNode(a, mode) + ConvertNode(b, mode)
  {
    calc {
      ConvertAll([a, b], mode);
      { assert [a, b][1..] == [b]; }
      ConvertNode(a, mode) + ConvertAll([b], mode);
      { assert [b][1..] == []; }
      ConvertNode(a, mode) + (ConvertNode(b, mode) + ConvertAll([], mode));
      { assert ConvertNode(b, mode) + [] == ConvertNode(b, mode); }
      ConvertNode(a, mode) + ConvertNode(b, mode);
    }
  }

  /** The `input` attributes of the example move to their React names. */
  lemma InputPropsRenamed()
    ensures TransformProps("input", Lift(map["checked" := "", "value" := "a"]))
            == map["defaultChecked" := Attr(""), "defaultValue" := Attr("a")]
  {
    var lifted := Lift(map["checked" := "", "value" := "a"]);
    assert lifted == map["checked" := Attr(""), "value" := Attr("a")];
    assert CommonRenames(lifted) == lifted;
    var checked := Renamed(lifted, "checked", "defaultChecked");
    assert checked == map["value" := Attr("a"), "defaultChecked" := Attr("")];
    assert Renamed(checked, "value", "defaultValue") == map["defaultChecked" := Attr(""), "defaultValue" := Attr("a")];
  }

  /** The example `textarea` takes its text as `defaultValue` and keeps no children. */
  lemma TextareaTakesText()
    ensures TransformElement("textarea", map[], [TextNode("b")], Verbatim)
            == Element("textarea", map["defaultValue" := Attr("b")], [])
  {
    assert Lift(map[]) == map[];
    assert CommonRenames(map[]) == map[];
    assert [TextNode("b")][1..] == [];
    assert ConvertAll([TextNode("b")], Verbatim) == [Str("b")];
  }
}
