/** `jsx.js`: the converter that trims text and drops what trims to nothing, and its HyperScript composition. */
module Jsx {

  import opened Text
  import opened Dom
  import opened ArrayToJsx

  /** `htmlToArray` from `jsx.js` on the parsed template. */
  function HtmlToArray(nodes: seq<Node>): (r: seq<Item>)
    ensures AllTrimmed(r)
  {
    TrimmedOutput(nodes);
    ConvertAll(nodes, Trimmed)
  }

  /** `htmlToJSX(h, tpl, data)`: `arrayToJSX` of `htmlToArray`. */
  function HtmlToJSX<T>(h: H<T>, nodes: seq<Node>): seq<Rendered<T>> {
    ArrayToJSX(h, HtmlToArray(nodes))
  }

  /**
   * The composition keeps one entry per converted entry, and every string
   * it passes through is non-empty with no whitespace at either end.
   */
  lemma HtmlToJSXStrings<T>(h: H<T>, nodes: seq<Node>)
    ensures var r := HtmlToJSX(h, nodes);
            && |r| == |HtmlToArray(nodes)|
            && forall i :: 0 <= i < |r| && r[i].Text? ==> TrimmedText(r[i].text)
  {
    var items := HtmlToArray(nodes);
    ArrayToJSXSpec(h, items);
    var r := HtmlToJSX(h, nodes);
    forall i | 0 <= i < |r| && r[i].Text? ensures TrimmedText(r[i].text) {
      assert items[i].Str?;
    }
  }

  /** Whitespace-only text between tags disappears, and other text loses its surrounding whitespace. */
  lemma TextTrimmed(data: string)
    ensures HtmlToArray([TextNode(data)]) == (if Trim(data) == "" then [] else [Str(Trim(data))])
  {
    assert ConvertAll([TextNode(data)], Trimmed) == ConvertNode(TextNode(data), Trimmed) + ConvertAll([], Trimmed);
  }
}
