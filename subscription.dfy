/**
 * Reconciling a query result with subscription events: `created` appends the
 * event's nodes to the list at a path, `updated` merges them into the items
 * with the same id, `deleted` removes the items with their ids. Each works on a
 * deep copy, which in this model is simply the value itself: the caller's tree
 * is a value and can never be changed by the call.
 */
module Subscription {

  import opened Wrappers
  import opened Json

  /** A dotted path already split into its keys ('path.to.list' is ["path", "to", "list"]). */
  type Path = seq<string>

  datatype Payload = Payload(mutation: string, node: Json)

  /**
   * The errors JavaScript throws: `({ id })` destructuring a null list item,
   * and `result[path[0]]` reading a property of null.
   */
  datatype TypeError = CannotDestructureNull | CannotReadPropertyOfNull

  /** The payload's nodes: an array as it is, any other node as a list of one. */
  function Nodes(node: Json): (ns: seq<Json>)
    ensures !node.JArr? ==> ns == [node]
  {
    if node.JArr? then node.items else [node]
  }

  /** The value reached by following `path` through objects, if every key is there. */
  function Walk(v: Json, path: Path): Option<Json>
    decreases |path|
  {
    if path == [] then Some(v)
    else if v.JObj? && path[0] in v.fields then Walk(v.fields[path[0]], path[1..])
    else None
  }

  /** lodash `get(v, path)`; None is `undefined`. An empty path reads nothing. */
  function GetPath(v: Json, path: Path): Option<Json> {
    if path == [] then None else Walk(v, path)
  }

  /**
   * lodash `set(v, path, x)`: a non-object root and an empty path leave `v` as
   * it is; along the path, a missing or non-object value is replaced by `{}`.
   */
  function SetPath(v: Json, path: Path, x: Json): (r: Json)
    ensures !v.JObj? || path == [] ==> r == v
    ensures v.JObj? ==> r.JObj?
  {
    if path == [] || !v.JObj? then v else Put(v.fields, path, x)
  }

  function Put(fields: map<string, Json>, path: Path, x: Json): (r: Json)
    requires path != []
    ensures r.JObj? && r.fields.Keys == fields.Keys + {path[0]}
    ensures forall k :: k in fields && k != path[0] ==> r.fields[k] == fields[k]
    decreases |path|
  {
    var k := path[0];
    if |path| == 1 then JObj(fields[k := x])
    else
      var child := if k in fields && fields[k].JObj? then fields[k].fields else map[];
      JObj(fields[k := Put(child, path[1..], x)])
  }

  /** `path` and `q` part ways: they differ at some key after a common prefix. */
  predicate Diverge(path: Path, q: Path) {
    path != [] && q != [] && (path[0] != q[0] || Diverge(path[1..], q[1..]))
  }

  lemma {:induction false} WalkPut(fields: map<string, Json>, path: Path, x: Json)
    requires path != []
    ensures Walk(Put(fields, path, x), path) == Some(x)
    decreases |path|
  {
    if |path| > 1 {
      var child := if path[0] in fields && fields[path[0]].JObj? then fields[path[0]].fields else map[];
      WalkPut(child, path[1..], x);
    }
  }

  /** Reading back the path just written gives the value written. */
  lemma GetSetPath(v: Json, path: Path, x: Json)
    requires v.JObj? && path != []
    ensures GetPath(SetPath(v, path, x), path) == Some(x)
  {
    WalkPut(v.fields, path, x);
  }

  lemma {:induction false} WalkPutElsewhere(fields: map<string, Json>, path: Path, x: Json, q: Path)
    requires path != [] && Diverge(path, q)
    ensures Walk(Put(fields, path, x), q) == Walk(JObj(fields), q)
    decreases |path|
  {
    if path[0] == q[0] {
      var child := if path[0] in fields && fields[path[0]].JObj? then fields[path[0]].fields else map[];
      assert |path| > 1 && |q| > 1;
      WalkPutElsewhere(child, path[1..], x, q[1..]);
      if path[0] in fields && fields[path[0]].JObj? {
        assert JObj(child) == fields[path[0]];
      } else {
        assert Walk(JObj(child), q[1..]) == None;
      }
    }
  }

  /** Writing at `path` leaves every path that parts ways with it as it was. */
  lemma SetPathElsewhere(v: Json, path: Path, x: Json, q: Path)
    requires Diverge(path, q)
    ensures GetPath(SetPath(v, path, x), q) == GetPath(v, q)
  {
    if v.JObj? {
      WalkPutElsewhere(v.fields, path, x, q);
    }
  }

  // ----- created -----

  /** lodash `concat(list, node)`: a non-array list counts as a list of one. */
  function Concat(list: Json, node: Json): seq<Json> {
    (if list.JArr? then list.items else [list]) + Nodes(node)
  }

  /** `created`: the event's nodes appended to the list at `path` (missing: `[]`). */
  function Created(result: Json, path: Path, payload: Payload): (r: Json)
    ensures payload.mutation != "CREATED" ==> r == result
  {
    if payload.mutation == "CREATED" then
      SetPath(result, path, JArr(Concat(GetPath(result, path).GetOr(JArr([])), payload.node)))
    else result
  }

  /** After `created`, the list at the path is the old list followed by the new nodes, in order. */
  lemma CreatedAppends(result: Json, path: Path, node: Json)
    requires result.JObj? && path != []
    ensures var old_list := GetPath(result, path).GetOr(JArr([]));
            var new_list := GetPath(Created(result, path, Payload("CREATED", node)), path);
            && new_list.Some? && new_list.value.JArr?
            && new_list.value.items == (if old_list.JArr? then old_list.items else [old_list]) + Nodes(node)
  {
    GetSetPath(result, path, JArr(Concat(GetPath(result, path).GetOr(JArr([])), node)));
  }

  /** `created` changes nothing off its path. */
  lemma CreatedElsewhere(result: Json, path: Path, payload: Payload, q: Path)
    requires Diverge(path, q)
    ensures GetPath(Created(result, path, payload), q) == GetPath(result, q)
  {
    if payload.mutation == "CREATED" {
      SetPathElsewhere(result, path, JArr(Concat(GetPath(result, path).GetOr(JArr([])), payload.node)), q);
    }
  }

  // ----- deleted -----

  /** `lodash.map(nodes, 'id')`: a node's id, undefined when it has none. */
  function NodeId(n: Json): Option<Json> { Prop(n, "id") }

  function NodeIds(ns: seq<Json>): (ids: seq<Option<Json>>)
    ensures |ids| == |ns| && forall i :: 0 <= i < |ns| ==> ids[i] == NodeId(ns[i])
  {
    if ns == [] then [] else [NodeId(ns[0])] + NodeIds(ns[1..])
  }

  /**
   * SameValueZero as lodash `includes` applies it: undefined matches
   * undefined, primitives match by value, and two objects are never the same
   * reference (the list is a deep copy of the caller's tree).
   */
  predicate SameId(a: Option<Json>, b: Option<Json>) {
    a == b && (a.Some? ==> a.value.IsPrimitive())
  }

  predicate Includes(ids: seq<Option<Json>>, id: Option<Json>) {
    exists i :: 0 <= i < |ids| && SameId(ids[i], id)
  }

  /**
   * What lodash `reject` walks over: an array's items, a string's characters,
   * and nothing for null, booleans and numbers.
   */
  function ListItems(v: Json): seq<Json> {
    match v
    case JArr(items) => items
    case JStr(s) => seq(|s|, i requires 0 <= i < |s| => JStr([s[i]]))
    case _ => []
  }

  /** The items whose id is not among `ids`, in their original order. */
  function Kept(items: seq<Json>, ids: seq<Option<Json>>): seq<Json> {
    if items == [] then []
    else (if Includes(ids, NodeId(items[0])) then [] else [items[0]]) + Kept(items[1..], ids)
  }

  /** `deleted`: the list at `path` without the items whose id is one of the nodes' ids. */
  function Deleted(result: Json, path: Path, payload: Payload): (r: Result<Json, TypeError>)
    ensures payload.mutation != "DELETED" ==> r == Ok(result)
  {
    if payload.mutation != "DELETED" then Ok(result)
    else
      var ids := NodeIds(Nodes(payload.node));
      var items := ListItems(GetPath(result, path).GetOr(JArr([])));
      if JNull in items then Err(CannotDestructureNull)
      else Ok(SetPath(result, path, JArr(Kept(items, ids))))
  }

  /** An item survives exactly when its id is not among the deleted ids. */
  lemma {:induction false} KeptMembers(items: seq<Json>, ids: seq<Option<Json>>, x: Json)
    ensures x in Kept(items, ids) <==> x in items && !Includes(ids, NodeId(x))
  {
    if items != [] {
      KeptMembers(items[1..], ids, x);
      assert items == [items[0]] + items[1..];
    }
  }

  /** Filtering a list piecewise gives the same as filtering it whole: the order is kept. */
  lemma {:induction false} KeptConcat(a: seq<Json>, b: seq<Json>, ids: seq<Option<Json>>)
    ensures Kept(a + b, ids) == Kept(a, ids) + Kept(b, ids)
  {
    if a != [] {
      assert (a + b)[0] == a[0] && (a + b)[1..] == a[1..] + b;
      KeptConcat(a[1..], b, ids);
      var head := if Includes(ids, NodeId(a[0])) then [] else [a[0]];
      calc {
        Kept(a + b, ids);
        head + Kept(a[1..] + b, ids);
        head + (Kept(a[1..], ids) + Kept(b, ids));
        (head + Kept(a[1..], ids)) + Kept(b, ids);
      }
    } else {
      assert a + b == b;
    }
  }

  /** `deleted` fails only on a null item; otherwise the list at the path is the kept items. */
  lemma DeletedList(result: Json, path: Path, node: Json)
    requires result.JObj? && path != []
    ensures var items := ListItems(GetPath(result, path).GetOr(JArr([])));
            var r := Deleted(result, path, Payload("DELETED", node));
            && (r.Err? <==> JNull in items)
            && (r.Ok? ==> GetPath(r.value, path) == Some(JArr(Kept(items, NodeIds(Nodes(node))))))
  {
    var items := ListItems(GetPath(result, path).GetOr(JArr([])));
    GetSetPath(result, path, JArr(Kept(items, NodeIds(Nodes(node)))));
  }

  /** `deleted` changes nothing off its path. */
  lemma DeletedElsewhere(result: Json, path: Path, payload: Payload, q: Path)
    requires Diverge(path, q)
    ensures Deleted(result, path, payload).Ok? ==> GetPath(Deleted(result, path, payload).value, q) == GetPath(result, q)
  {
    if payload.mutation == "DELETED" {
      var items := ListItems(GetPath(result, path).GetOr(JArr([])));
      SetPathElsewhere(result, path, JArr(Kept(items, NodeIds(Nodes(payload.node)))), q);
    }
  }

  // ----- updated -----

  /** `has(item, 'id') && has(value, 'id') && item.id == value.id`. */
  predicate Matches(item: Json, value: Json) {
    && Prop(item, "id").Some?
    && Prop(value, "id").Some?
    && LooseEquals(item.fields["id"], value.fields["id"])
  }

  /** Each value merged, in turn, into `item` when the ids match at that moment. */
  function MergeMatching(item: Json, values: seq<Json>): (r: Json)
    ensures !item.JObj? ==> r == item
    ensures item.JObj? ==> r.JObj?
    decreases |values|
  {
    if values == [] then item
    else MergeMatching(if Matches(item, values[0]) then Merge(item, values[0]) else item, values[1..])
  }

  /**
   * The walk of `updateItem` meets a null while keys remain: `result` itself,
   * or, through truthy children, a non-array child or any element of an array
   * child.
   */
  predicate NullOnPath(result: Json, path: Path)
    decreases |path|
  {
    && path != []
    && (|| result.JNull?
        || (&& result.JObj? && path[0] in result.fields && Truthy(result.fields[path[0]])
            && var child := result.fields[path[0]];
               if child.JArr? then exists i :: 0 <= i < |child.items| && NullOnPath(child.items[i], path[1..])
               else NullOnPath(child, path[1..])))
  }

  /**
   * What `updateItem(result, path, values)` leaves in `result`: descend along
   * `path` through truthy children, through every element of an array, and
   * merge the matching values at the end of the path. Reading a key of null
   * is the TypeError.
   */
  function MergedAt(result: Json, path: Path, values: seq<Json>): (r: Result<Json, TypeError>)
    ensures r.Err? ==> r.error == CannotReadPropertyOfNull
    ensures result.JNull? && path != [] ==> r == Err(CannotReadPropertyOfNull)
    ensures !result.JObj? && !(result.JNull? && path != []) ==> r == Ok(result)
    ensures result.JObj? && r.Ok? ==> r.value.JObj?
    ensures path != [] && result.JObj? && r.Ok? ==>
              && r.value.fields.Keys == result.fields.Keys
              && forall k :: k in result.fields && k != path[0] ==> r.value.fields[k] == result.fields[k]
    ensures path != [] && result.JObj? && (path[0] !in result.fields || !Truthy(result.fields[path[0]])) ==> r == Ok(result)
    decreases |path|, 0
  {
    if path == [] then Ok(MergeMatching(result, values))
    else if result.JNull? then Err(CannotReadPropertyOfNull)
    else if result.JObj? && path[0] in result.fields && Truthy(result.fields[path[0]]) then
      var child := result.fields[path[0]];
      var child' := if child.JArr? then
                      (match MergedAll(child.items, path[1..], values)
                       case Ok(items) => Ok(JArr(items))
                       case Err(e) => Err(e))
                    else MergedAt(child, path[1..], values);
      match child'
      case Ok(c) => Ok(JObj(result.fields[path[0] := c]))
      case Err(e) => Err(e)
    else Ok(result)
  }

  /** The `forEach` over an array child: every element updated, the first TypeError ending it. */
  function MergedAll(items: seq<Json>, path: Path, values: seq<Json>): (r: Result<seq<Json>, TypeError>)
    ensures r.Err? ==> r.error == CannotReadPropertyOfNull
    decreases |path|, |items|
  {
    if items == [] then Ok([])
    else
      match MergedAt(items[0], path, values)
      case Err(e) => Err(e)
      case Ok(x) =>
        match MergedAll(items[1..], path, values)
        case Err(e) => Err(e)
        case Ok(xs) => Ok([x] + xs)
  }

  /** The loop over an array fails exactly when some element fails, and otherwise updates each element. */
  lemma {:induction false} MergedAllSpec(items: seq<Json>, path: Path, values: seq<Json>)
    ensures var r := MergedAll(items, path, values);
            && (r.Ok? <==> forall i :: 0 <= i < |items| ==> MergedAt(items[i], path, values).Ok?)
            && (r.Ok? ==> |r.value| == |items|
                          && forall i :: 0 <= i < |items| ==> r.value[i] == MergedAt(items[i], path, values).value)
    decreases |items|
  {
    if items != [] {
      MergedAllSpec(items[1..], path, values);
      assert forall i :: 1 <= i < |items| ==> items[i] == items[1..][i - 1];
    }
  }

  /** Updating every element into `outs` is updating the array into `outs`. */
  lemma {:induction false} MergedAllOk(items: seq<Json>, path: Path, values: seq<Json>, outs: seq<Json>)
    requires |outs| == |items|
    requires forall i :: 0 <= i < |items| ==> MergedAt(items[i], path, values) == Ok(outs[i])
    ensures MergedAll(items, path, values) == Ok(outs)
    decreases |items|
  {
    if items != [] {
      assert forall i :: 0 <= i < |items| - 1 ==> items[1..][i] == items[i + 1] && outs[1..][i] == outs[i + 1];
      MergedAllOk(items[1..], path, values, outs[1..]);
      assert outs == [outs[0]] + outs[1..];
    }
  }

  /** `updated` throws exactly when its walk meets a null with keys left, whatever the values. */
  lemma {:induction false} MergedAtFailsOnNull(result: Json, path: Path, values: seq<Json>)
    ensures MergedAt(result, path, values).Err? <==> NullOnPath(result, path)
    decreases |path|
  {
    if path != [] && result.JObj? && path[0] in result.fields && Truthy(result.fields[path[0]]) {
      var child := result.fields[path[0]];
      if child.JArr? {
        MergedAllSpec(child.items, path[1..], values);
        forall i | 0 <= i < |child.items|
          ensures MergedAt(child.items[i], path[1..], values).Err? <==> NullOnPath(child.items[i], path[1..])
        {
          MergedAtFailsOnNull(child.items[i], path[1..], values);
        }
      } else {
        MergedAtFailsOnNull(child, path[1..], values);
      }
    }
  }

  /** `updateItem`, the in-place walk, with its `forEach` loops; a TypeError ends it. */
  method UpdateItem(result: Json, path: Path, values: seq<Json>) returns (r: Result<Json, TypeError>)
    ensures r == MergedAt(result, path, values)
    decreases |path|
  {
    if path == [] {
      var item := result;
      var i := 0;
      while i < |values|
        invariant 0 <= i <= |values|
        invariant MergeMatching(item, values[i..]) == MergeMatching(result, values)
      {
        assert values[i..][1..] == values[i + 1..];
        if Matches(item, values[i]) {
          item := Merge(item, values[i]);
        }
        i := i + 1;
      }
      assert values[i..] == [];
      return Ok(item);
    }
    if result.JNull? {
      return Err(CannotReadPropertyOfNull);
    }
    if !result.JObj? || path[0] !in result.fields || !Truthy(result.fields[path[0]]) {
      return Ok(result);
    }
    var child := result.fields[path[0]];
    if child.JArr? {
      var items := child.items;
      MergedAllSpec(items, path[1..], values);
      var out: seq<Json> := [];
      var i := 0;
      while i < |items|
        invariant 0 <= i <= |items| && |out| == i
        invariant forall j :: 0 <= j < i ==> MergedAt(items[j], path[1..], values) == Ok(out[j])
      {
        var item := UpdateItem(items[i], path[1..], values);
        if item.Err? {
          return Err(CannotReadPropertyOfNull);
        }
        out := out + [item.value];
        i := i + 1;
      }
      MergedAllOk(items, path[1..], values, out);
      r := Ok(JObj(result.fields[path[0] := JArr(out)]));
    } else {
      var updated := UpdateItem(child, path[1..], values);
      if updated.Err? {
        return Err(CannotReadPropertyOfNull);
      }
      r := Ok(JObj(result.fields[path[0] := updated.value]));
    }
  }

  /** `updated`: the tree with the event's nodes merged into the matching items at `path`. */
  function UpdatedTree(result: Json, path: Path, payload: Payload): (r: Result<Json, TypeError>)
    ensures payload.mutation != "UPDATED" ==> r == Ok(result)
    ensures payload.mutation == "UPDATED" ==> (r.Err? <==> NullOnPath(result, path))
  {
    if payload.mutation != "UPDATED" then Ok(result)
    else
      MergedAtFailsOnNull(result, path, Nodes(payload.node));
      MergedAt(result, path, Nodes(payload.node))
  }

  method Updated(result: Json, path: Path, payload: Payload) returns (r: Result<Json, TypeError>)
    ensures r == UpdatedTree(result, path, payload)
  {
    if payload.mutation != "UPDATED" {
      r := Ok(result);
    } else {
      r := UpdateItem(result, path, Nodes(payload.node));
    }
  }

  /** An item that matches none of the values is left as it was. */
  lemma {:induction false} NoMatchUnchanged(item: Json, values: seq<Json>)
    requires forall i :: 0 <= i < |values| ==> !Matches(item, values[i])
    ensures MergeMatching(item, values) == item
  {
    if values != [] {
      NoMatchUnchanged(item, values[1..]);
    }
  }

  /** A matching value's fields win: its id and every primitive field end up in the item. */
  lemma MatchMerges(item: Json, value: Json)
    requires Matches(item, value)
    ensures var r := MergeMatching(item, [value]);
            && r.JObj? && r.fields.Keys == item.fields.Keys + value.fields.Keys
            && forall k :: k in value.fields && value.fields[k].IsPrimitive() ==> r.fields[k] == value.fields[k]
  {
    MergeObjects(item.fields, value.fields);
  }

  lemma LooseEqualsPrimitive(a: Json, b: Json)
    requires LooseEquals(a, b)
    ensures a.IsPrimitive() && b.IsPrimitive()
    decreases BoolRank(a) + BoolRank(b)
  {
  }

  lemma MergeOneTwice(item: Json, v: Json)
    ensures MergeMatching(MergeMatching(item, [v]), [v]) == MergeMatching(item, [v])
  {
    if Matches(item, v) {
      LooseEqualsPrimitive(item.fields["id"], v.fields["id"]);
      MergeObjects(item.fields, v.fields);
      var m := Merge(item, v);
      assert m.fields["id"] == v.fields["id"];
      LooseEqualsReflexive(v.fields["id"]);
      assert Matches(m, v);
      MergeIdempotent(item, v);
    }
  }

  /** Receiving the same single-node UPDATED event twice is the same as receiving it once. */
  lemma {:induction false} MergedAtTwice(result: Json, path: Path, v: Json, once: Json)
    requires MergedAt(result, path, [v]) == Ok(once)
    ensures MergedAt(once, path, [v]) == Ok(once)
    decreases |path|
  {
    if path == [] {
      MergeOneTwice(result, v);
    } else if result.JObj? && path[0] in result.fields && Truthy(result.fields[path[0]]) {
      var child := result.fields[path[0]];
      var child' := once.fields[path[0]];
      if child.JArr? {
        var items := child.items;
        MergedAllSpec(items, path[1..], [v]);
        var outs := MergedAll(items, path[1..], [v]).value;
        assert child' == JArr(outs);
        forall i | 0 <= i < |outs|
          ensures MergedAt(outs[i], path[1..], [v]) == Ok(outs[i])
        {
          MergedAtTwice(items[i], path[1..], v, outs[i]);
        }
        MergedAllOk(outs, path[1..], [v], outs);
      } else {
        MergedAtTwice(child, path[1..], v, child');
        assert Truthy(child');
      }
      assert once.fields[path[0] := child'] == once.fields;
    }
  }

  lemma UpdatedRedelivered(result: Json, path: Path, node: Json, once: Json)
    requires !node.JArr?
    requires UpdatedTree(result, path, Payload("UPDATED", node)) == Ok(once)
    ensures UpdatedTree(once, path, Payload("UPDATED", node)) == Ok(once)
  {
    MergedAtTwice(result, path, node, once);
  }

  /** A single node and a one-element array holding it are the same event. */
  lemma SingleNodeAsArray(result: Json, path: Path, mutation: string, node: Json)
    requires !node.JArr?
    ensures UpdatedTree(result, path, Payload(mutation, node)) == UpdatedTree(result, path, Payload(mutation, JArr([node])))
    ensures Deleted(result, path, Payload(mutation, node)) == Deleted(result, path, Payload(mutation, JArr([node])))
  {
  }
}
