/**
 * `markdownToArray`: compiled Markdown converted like HTML, with the final
 * newline of the compiler's output removed and a lone paragraph unwrapped.
 * The Markdown compiler and the HTML parser are not modelled: the compiled
 * HTML comes in as a string and the parser as a function.
 */
module MarkdownToArray {

  import opened Dom
  import HtmlToArray

  /** `replace(html, /\n$/, '')`: one newline at the very end is removed. */
  function StripFinalNewline(html: string): string {
    if |html| > 0 && html[|html| - 1] == '\n' then html[..|html| - 1] else html
  }

  /** Removing the final newline undoes appending one, whatever the string. */
  lemma StripUndoesNewline(html: string)
    ensures StripFinalNewline(html + "\n") == html
  {
  }

  /** Only one newline goes: text ending in two keeps the first. */
  lemma StripOnlyOne(html: string)
    ensures StripFinalNewline(html + "\n\n") == html + "\n"
  {
    assert (html + "\n\n")[..|html| + 1] == html + "\n";
  }

  /** A string not ending in a newline is left alone. */
  lemma StripKeepsOthers(html: string)
    requires html == [] || html[|html| - 1] != '\n'
    ensures StripFinalNewline(html) == html
  {
  }

  /** A single `p` element stands for its children; any other array stands for itself. */
  function Unwrap(items: seq<Item>): seq<Item> {
    if |items| == 1 && items[0].Element? && items[0].elementType == "p" then items[0].children else items
  }

  function MarkdownToArray(compiled: string, parse: string -> seq<Node>): seq<Item> {
    Unwrap(HtmlToArray.HtmlToArray(parse(StripFinalNewline(compiled))))
  }

  /** A paragraph alone, as for `hello <%= name %>`: its text alone is returned. */
  lemma UnwrappedParagraph(compiled: string, parse: string -> seq<Node>, text: string)
    requires parse(StripFinalNewline(compiled)) == [Tag("p", map[], [TextNode(text)])]
    ensures MarkdownToArray(compiled, parse) == [Str(text)]
  {
    var p := Tag("p", map[], [TextNode(text)]);
    assert ConvertAll([TextNode(text)], Verbatim) == [Str(text)];
    assert Lift(map[]) == map[];
    assert TransformProps("p", map[]) == map[];
    assert TransformElement("p", map[], [TextNode(text)], Verbatim) == Element("p", map[], [Str(text)]);
    assert ConvertAll([p], Verbatim) == ConvertNode(p, Verbatim) + ConvertAll([], Verbatim);
    assert HtmlToArray.HtmlToArray([p]) == [Element("p", map[], [Str(text)])];
  }

  /** Two paragraphs with the newline between them: all three entries are returned, the newline kept. */
  lemma TwoParagraphs(compiled: string, parse: string -> seq<Node>, a: string, b: string)
    requires parse(StripFinalNewline(compiled))
             == [Tag("p", map[], [TextNode(a)]), TextNode("\n"), Tag("p", map[], [TextNode(b)])]
    ensures MarkdownToArray(compiled, parse)
            == [Element("p", map[], [Str(a)]), Str("\n"), Element("p", map[], [Str(b)])]
  {
    var pa := Tag("p", map[], [TextNode(a)]);
    var pb := Tag("p", map[], [TextNode(b)]);
    var nodes := [pa, TextNode("\n"), pb];
    assert ConvertAll([TextNode(a)], Verbatim) == [Str(a)];
    assert ConvertAll([TextNode(b)], Verbatim) == [Str(b)];
    assert Lift(map[]) == map[];
    assert TransformProps("p", map[]) == map[];
    assert TransformElement("p", map[], [TextNode(a)], Verbatim) == Element("p", map[], [Str(a)]);
    assert TransformElement("p", map[], [TextNode(b)], Verbatim) == Element("p", map[], [Str(b)]);
    assert nodes[1..] == [TextNode("\n"), pb] && nodes[1..][1..] == [pb];
    assert ConvertAll([pb], Verbatim) == ConvertNode(pb, Verbatim) + ConvertAll([], Verbatim);
    assert ConvertAll([pb], Verbatim) == [Element("p", map[], [Str(b)])];
    assert ConvertAll(nodes[1..], Verbatim) == [Str("\n"), Element("p", map[], [Str(b)])];
    assert ConvertNode(pa, Verbatim) == [Element("p", map[], [Str(a)])];
    assert HtmlToArray.HtmlToArray(nodes)
           == [Element("p", map[], [Str(a)]), Str("\n"), Element("p", map[], [Str(b)])];
  }

  /** No output from the parser, as for empty Markdown, gives an empty array. */
  lemma EmptyMarkdown(compiled: string, parse: string -> seq<Node>)
    requires parse(StripFinalNewline(compiled)) == []
    ensures MarkdownToArray(compiled, parse) == []
  {
  }
}
