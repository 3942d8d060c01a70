/**
 * `arrayToJSX`: the converted array handed to a HyperScript-style `h`,
 * elements keyed by their index. `h` is the caller's and stays abstract: the
 * model only says what it is called with.
 */
module ArrayToJsx {

  import opened Dom

  /** A property passed to `h`: one of the element's own, or the index `key`. */
  datatype JsxProp = Given(prop: Prop) | Key(index: nat)

  /** An entry of the result: a string passed through, or what `h` returned. */
  datatype Rendered<T> = Text(text: string) | Node(node: T)

  /** `h(type, props, ...children)`. */
  type H<!T> = (string, map<string, JsxProp>, seq<Rendered<T>>) -> T

  /** `{ ...el.props, key }`: the index key is written last, so it wins over a `key` prop. */
  function ElementProps(props: map<string, Prop>, key: nat): (r: map<string, JsxProp>)
    ensures r.Keys == props.Keys + {"key"}
    ensures r["key"] == Key(key)
    ensures forall k :: k in props && k != "key" ==> r[k] == Given(props[k])
  {
    (map k | k in props :: Given(props[k]))["key" := Key(key)]
  }

  function ArrayToJSX<T>(h: H<T>, items: seq<Item>): seq<Rendered<T>> {
    RenderFrom(h, items, 0)
  }

  /** The `map` over `items[i..]`, each entry knowing its index. */
  function RenderFrom<T>(h: H<T>, items: seq<Item>, i: nat): seq<Rendered<T>>
    requires i <= |items|
    decreases items, |items| - i
  {
    if i == |items| then [] else [Render(h, items[i], i)] + RenderFrom(h, items, i + 1)
  }

  function Render<T>(h: H<T>, item: Item, key: nat): Rendered<T>
    decreases item, 0
  {
    match item
    case Str(t) => Text(t)
    case Element(elementType, props, children) =>
      Node(h(elementType, ElementProps(props, key), RenderFrom(h, children, 0)))
  }

  lemma {:induction false} RenderFromPointwise<T>(h: H<T>, items: seq<Item>, i: nat)
    requires i <= |items|
    ensures |RenderFrom(h, items, i)| == |items| - i
    ensures forall j :: i <= j < |items| ==> RenderFrom(h, items, i)[j - i] == Render(h, items[j], j)
    decreases |items| - i
  {
    if i < |items| {
      var rest := RenderFrom(h, items, i + 1);
      RenderFromPointwise(h, items, i + 1);
      var r := [Render(h, items[i], i)] + rest;
      assert RenderFrom(h, items, i) == r;
      forall j | i < j < |items| ensures r[j - i] == Render(h, items[j], j) {
        assert r[j - i] == rest[j - (i + 1)];
      }
    }
  }

  /**
   * Same length and order as the input; strings pass through; the element at
   * index `i` becomes `h(type, { ...props, key: i }, ...children)`, the
   * children keyed by their own indices.
   */
  lemma ArrayToJSXSpec<T>(h: H<T>, items: seq<Item>)
    ensures var r := ArrayToJSX(h, items);
            && |r| == |items|
            && (forall i :: 0 <= i < |items| && items[i].Str? ==> r[i] == Text(items[i].text))
            && (forall i :: 0 <= i < |items| && items[i].Element? ==>
                  r[i] == Node(h(items[i].elementType, ElementProps(items[i].props, i),
                                 ArrayToJSX(h, items[i].children))))
  {
    RenderFromPointwise(h, items, 0);
  }

  /** A missing or empty array gives an empty result. */
  lemma ArrayToJSXEmpty<T>(h: H<T>)
    ensures ArrayToJSX(h, []) == []
  {
  }

  /** `[{ type: 'div', props: {}, children: ['test'] }]` becomes `[h('div', { key: 0 }, 'test')]`. */
  lemma DivExample<T>(h: H<T>)
    ensures ArrayToJSX(h, [Element("div", map[], [Str("test")])])
            == [Node(h("div", map["key" := Key(0)], [Text("test")]))]
  {
    assert ElementProps(map[], 0) == map["key" := Key(0)];
    assert RenderFrom(h, [Str("test")], 0) == [Text("test")];
  }
}
