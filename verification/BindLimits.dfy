/** How the binder's limits compare with ValidateValue's (internal/binding/bind.go:32-35). A
    struct's entries are charged before its explicit None members are dropped, so a map within
    the limits can be refused; this module says exactly when. */
module BindLimits {
  import opened Text
  import opened Values
  import opened Starlark
  import opened Schema
  import opened Converter
  import opened Binder

  // ----- the condition, counted over the call's arguments -----

  /** Walking the value in order after `placed` nodes, every struct met finds its own node and
      all its entries, dropped ones included, within `total`. */
  ghost predicate Roomy(ops: FloatOps, nodes: seq<InputNode>, store: Store, index: nat, value: Star,
                        placed: nat, total: nat)
    decreases index, 1, 0
  {
    if index >= |nodes| || !PointsBack(nodes[index], index) then true
    else
      var node := nodes[index];
      match node.kind
      case InputOptional => value.NoneStar? || Roomy(ops, nodes, store, node.elem, value, placed, total)
      case InputList =>
        var items := SequenceOf(store, value);
        items.None? || RoomyItems(ops, nodes, store, node.elem, items.value, |items.value|, placed + 1, total)
      case InputMap =>
        var entries := DictOf(store, value);
        entries.None? || RoomyMap(ops, nodes, store, node.elem, entries.value, |entries.value|, placed + 1, total)
      case InputStruct =>
        var entries := DictOf(store, value);
        entries.None? || RoomyStruct(ops, nodes, store, index, entries.value, placed + 1, total)
      case _ => true
  }

  ghost predicate RoomyItems(ops: FloatOps, nodes: seq<InputNode>, store: Store, elem: nat, items: seq<Star>, n: nat,
                             placed: nat, total: nat)
    requires n <= |items|
    decreases elem, 2, n
  {
    if n == 0 then true
    else
      var before := ConvertItems(ops, nodes, store, elem, items, n - 1);
      RoomyItems(ops, nodes, store, elem, items, n - 1, placed, total)
      && before.Some?
      && Roomy(ops, nodes, store, elem, items[n - 1], placed + NodesOf(before.value.value), total)
  }

  ghost predicate RoomyMap(ops: FloatOps, nodes: seq<InputNode>, store: Store, elem: nat, entries: seq<Entry>, n: nat,
                           placed: nat, total: nat)
    requires n <= |entries|
    decreases elem, 2, n
  {
    if n == 0 then true
    else
      var before := ConvertMap(ops, nodes, store, elem, entries, n - 1);
      RoomyMap(ops, nodes, store, elem, entries, n - 1, placed, total)
      && before.Some?
      && Roomy(ops, nodes, store, elem, entries[n - 1].value, placed + NodesIn(before.value.value), total)
  }

  ghost predicate RoomyFields(ops: FloatOps, nodes: seq<InputNode>, store: Store, index: nat, entries: seq<Entry>,
                              n: nat, placed: nat, total: nat)
    requires index < |nodes| && nodes[index].kind == InputStruct && PointsBack(nodes[index], index) && n <= |entries|
    requires ConvertFields(ops, nodes, store, index, entries, n).Some?
    decreases index, 0, n
  {
    if n == 0 then true
    else
      var e, before := entries[n - 1], ConvertFields(ops, nodes, store, index, entries, n - 1).value;
      var node := FieldsOf(nodes[index])[FieldPosition(FieldsOf(nodes[index]), e.key.s).value].node;
      RoomyFields(ops, nodes, store, index, entries, n - 1, placed, total)
      && ((IsOptional(nodes, node) && e.value.NoneStar?)
          || Roomy(ops, nodes, store, node, e.value, placed + NodesIn(before.value), total))
  }

  /** The struct's own charge: the nodes placed before its entries, and one for each entry. */
  ghost predicate RoomyStruct(ops: FloatOps, nodes: seq<InputNode>, store: Store, index: nat, entries: seq<Entry>,
                              placed: nat, total: nat)
    requires index < |nodes| && nodes[index].kind == InputStruct && PointsBack(nodes[index], index)
    decreases index, 0, |entries| + 1
  {
    placed + |entries| <= total
    && (ConvertFields(ops, nodes, store, index, entries, |entries|).Some? ==>
          RoomyFields(ops, nodes, store, index, entries, |entries|, placed, total))
  }

  // ----- the budget suffices exactly when the nodes fit and every struct finds room -----

  lemma {:induction false} NeedIff(ops: FloatOps, nodes: seq<InputNode>, store: Store, index: nat, value: Star,
                                   placed: nat, total: nat)
    requires Convert(ops, nodes, store, index, value).Some?
    ensures var b := Convert(ops, nodes, store, index, value).value;
            placed + b.need <= total
            <==> placed + Nodes(b.value) <= total && Roomy(ops, nodes, store, index, value, placed, total)
    decreases index, 1, 1
  {
    match nodes[index].kind
    case InputOptional => if !value.NoneStar? { NeedIff(ops, nodes, store, nodes[index].elem, value, placed, total); }
    case InputList => ListNeedIff(ops, nodes, store, index, value, placed, total);
    case InputMap => DictNeedIff(ops, nodes, store, index, value, placed, total);
    case InputStruct => StructNeedIff(ops, nodes, store, index, value, placed, total);
    case _ => ScalarNodes(ops, nodes[index], value);
  }

  lemma {:induction false} ListNeedIff(ops: FloatOps, nodes: seq<InputNode>, store: Store, index: nat, value: Star,
                                       placed: nat, total: nat)
    requires Convert(ops, nodes, store, index, value).Some? && nodes[index].kind == InputList
    ensures var b := Convert(ops, nodes, store, index, value).value;
            placed + b.need <= total
            <==> placed + Nodes(b.value) <= total && Roomy(ops, nodes, store, index, value, placed, total)
    decreases index, 1, 0
  {
    var items := SequenceOf(store, value).value;
    ItemsNeedIff(ops, nodes, store, nodes[index].elem, items, |items|, placed + 1, total);
  }

  lemma {:induction false} DictNeedIff(ops: FloatOps, nodes: seq<InputNode>, store: Store, index: nat, value: Star,
                                       placed: nat, total: nat)
    requires Convert(ops, nodes, store, index, value).Some? && nodes[index].kind == InputMap
    ensures var b := Convert(ops, nodes, store, index, value).value;
            placed + b.need <= total
            <==> placed + Nodes(b.value) <= total && Roomy(ops, nodes, store, index, value, placed, total)
    decreases index, 1, 0
  {
    var entries := DictOf(store, value).value;
    MapNeedIff(ops, nodes, store, nodes[index].elem, entries, |entries|, placed + 1, total);
  }

  lemma {:induction false} StructNeedIff(ops: FloatOps, nodes: seq<InputNode>, store: Store, index: nat, value: Star,
                                         placed: nat, total: nat)
    requires Convert(ops, nodes, store, index, value).Some? && nodes[index].kind == InputStruct
    ensures var b := Convert(ops, nodes, store, index, value).value;
            placed + b.need <= total
            <==> placed + Nodes(b.value) <= total && Roomy(ops, nodes, store, index, value, placed, total)
    decreases index, 1, 0
  {
    var entries := DictOf(store, value).value;
    FieldsNeedIff(ops, nodes, store, index, entries, |entries|, placed + 1, total);
  }

  lemma {:induction false} ItemsNeedIff(ops: FloatOps, nodes: seq<InputNode>, store: Store, elem: nat,
                                        items: seq<Star>, n: nat, placed: nat, total: nat)
    requires n <= |items| && ConvertItems(ops, nodes, store, elem, items, n).Some?
    ensures var b := ConvertItems(ops, nodes, store, elem, items, n).value;
            placed + b.need <= total
            <==> placed + NodesOf(b.value) <= total && RoomyItems(ops, nodes, store, elem, items, n, placed, total)
    decreases elem, 2, n
  {
    if n > 0 {
      var before := ConvertItems(ops, nodes, store, elem, items, n - 1).value.value;
      ItemsNeedIff(ops, nodes, store, elem, items, n - 1, placed, total);
      NeedIff(ops, nodes, store, elem, items[n - 1], placed + NodesOf(before), total);
      NodesAppend(before, Convert(ops, nodes, store, elem, items[n - 1]).value.value);
    }
  }

  lemma {:induction false} MapNeedIff(ops: FloatOps, nodes: seq<InputNode>, store: Store, elem: nat,
                                      entries: seq<Entry>, n: nat, placed: nat, total: nat)
    requires n <= |entries| && DistinctKeys(entries) && ConvertMap(ops, nodes, store, elem, entries, n).Some?
    ensures var b := ConvertMap(ops, nodes, store, elem, entries, n).value;
            placed + b.need <= total
            <==> placed + NodesIn(b.value) <= total && RoomyMap(ops, nodes, store, elem, entries, n, placed, total)
    decreases elem, 2, n
  {
    if n > 0 {
      var before := ConvertMap(ops, nodes, store, elem, entries, n - 1).value.value;
      MapNeedIff(ops, nodes, store, elem, entries, n - 1, placed, total);
      MapNames(ops, nodes, store, elem, entries, n - 1);
      NeedIff(ops, nodes, store, elem, entries[n - 1].value, placed + NodesIn(before), total);
      NodesInsert(before, entries[n - 1].key.s, Convert(ops, nodes, store, elem, entries[n - 1].value).value.value);
    }
  }

  lemma {:induction false} FieldsNeedIff(ops: FloatOps, nodes: seq<InputNode>, store: Store, index: nat,
                                         entries: seq<Entry>, n: nat, placed: nat, total: nat)
    requires index < |nodes| && nodes[index].kind == InputStruct && PointsBack(nodes[index], index)
    requires n <= |entries| && ConvertFields(ops, nodes, store, index, entries, n).Some?
    ensures var b := ConvertFields(ops, nodes, store, index, entries, n).value;
            placed + b.need <= total
            <==> placed + NodesIn(b.value) <= total && RoomyFields(ops, nodes, store, index, entries, n, placed, total)
    decreases index, 0, n
  {
    if n > 0 {
      var e := entries[n - 1];
      var before := ConvertFields(ops, nodes, store, index, entries, n - 1).value.value;
      FieldsNeedIff(ops, nodes, store, index, entries, n - 1, placed, total);
      FieldNames(ops, nodes, store, index, entries, n - 1);
      var node := FieldsOf(nodes[index])[FieldPosition(FieldsOf(nodes[index]), e.key.s).value].node;
      if !(IsOptional(nodes, node) && e.value.NoneStar?) {
        NeedIff(ops, nodes, store, node, e.value, placed + NodesIn(before), total);
        NodesInsert(before, e.key.s, Convert(ops, nodes, store, node, e.value).value.value);
      }
    }
  }

  // ----- a whole call -----

  /** Every struct of the call, the keyword arguments first, finds room within `total`. */
  ghost predicate CallRoomy(ops: FloatOps, schema: InputSchema, store: Store, kwargs: seq<Entry>, total: nat) {
    ConvertCall(ops, schema, store, kwargs).Some? ==>
      RoomyStruct(ops, schema.nodes, store, schema.root, kwargs, 1, total)
  }

  /** A call binds exactly when its map passes ValidateValue under the same limits and every
      struct finds room for all its entries; so an accepted map is refused exactly when the
      node limit lies between the map's nodes and the budget that binding takes. */
  lemma BindAgainstValidate(ops: FloatOps, schema: InputSchema, store: Store, kwargs: seq<Entry>, maxDepth: int,
                            maxNodes: nat)
    requires ConvertCall(ops, schema, store, kwargs).Some? && maxDepth > 0 && maxNodes > 0
    ensures var b := ConvertCall(ops, schema, store, kwargs).value;
            && (Fits(Some(b), maxDepth, maxNodes)
                <==> Accepted(b.value, maxDepth, maxNodes) && CallRoomy(ops, schema, store, kwargs, maxNodes))
            && (Accepted(b.value, maxDepth, maxNodes) && !Fits(Some(b), maxDepth, maxNodes)
                <==> WithinDepth(b.value, maxDepth) && Nodes(b.value) <= maxNodes < b.need)
            && b.need <= Nodes(b.value) + b.dropped
  {
    FieldsNeedIff(ops, schema.nodes, store, schema.root, kwargs, |kwargs|, 1, maxNodes);
    FieldsNeedCovers(ops, schema.nodes, store, schema.root, kwargs, |kwargs|);
    FieldsSupported(ops, schema.nodes, store, schema.root, kwargs, |kwargs|);
  }

  lemma {:induction false} NodesBoundDepth(v: Value)
    ensures WithinDepth(v, Nodes(v))
  {
    match v
    case List(items) =>
      forall i | 0 <= i < |items| ensures WithinDepth(items[i], Nodes(v) - 1) {
        NodesBoundDepth(items[i]);
        NodesSplit(items, i);
        DeeperIsWithin(items[i], Nodes(items[i]), Nodes(v) - 1);
      }
    case Obj(fields) =>
      forall k | k in fields ensures WithinDepth(fields[k], Nodes(v) - 1) {
        NodesBoundDepth(fields[k]);
        NodesAtRemove(v, fields.Keys, k);
        DeeperIsWithin(fields[k], Nodes(fields[k]), Nodes(v) - 1);
      }
    case _ =>
  }

  lemma {:induction false} DeeperIsWithin(v: Value, d: int, e: int)
    requires WithinDepth(v, d) && d <= e
    ensures WithinDepth(v, e)
  {
    match v
    case List(items) =>
      forall i | 0 <= i < |items| ensures WithinDepth(items[i], e - 1) { DeeperIsWithin(items[i], d - 1, e - 1); }
    case Obj(fields) =>
      forall k | k in fields ensures WithinDepth(fields[k], e - 1) { DeeperIsWithin(fields[k], d - 1, e - 1); }
    case _ =>
  }

  /** No limit at all refuses the call's map and accepts it in ValidateValue. */
  ghost predicate NeverRefused(b: Bound<Value>) {
    forall d: int, n: int {:trigger Accepted(b.value, d, n)} :: Accepted(b.value, d, n) ==> Fits(Some(b), d, n)
  }

  /** The comment on Bind holds of a call, under all limits, exactly when every struct of the
      call finds room for its entries within the finished map's own node count; a call without
      explicit None members always does. */
  lemma CommentHoldsIff(ops: FloatOps, schema: InputSchema, store: Store, kwargs: seq<Entry>)
    requires ConvertCall(ops, schema, store, kwargs).Some?
    ensures var b := ConvertCall(ops, schema, store, kwargs).value;
            && (NeverRefused(b) <==> CallRoomy(ops, schema, store, kwargs, Nodes(b.value)))
            && (b.dropped == 0 ==> NeverRefused(b))
  {
    var b := ConvertCall(ops, schema, store, kwargs).value;
    var k := Nodes(b.value);
    NodesBoundDepth(b.value);
    BindAgainstValidate(ops, schema, store, kwargs, k, k);
    FieldsNeedCovers(ops, schema.nodes, store, schema.root, kwargs, |kwargs|);
    FieldsSupported(ops, schema.nodes, store, schema.root, kwargs, |kwargs|);
    assert Accepted(b.value, k, k);
  }

  /** The converse fails in general: one explicit None for an optional member asks for a node
      that the resulting empty map does not have. */
  lemma ExplicitNoneCosts(ops: FloatOps)
    ensures var name: Bytes := [0x61];
            var schema := InputSchema(2, [
              InputNode(InputString, 0, None, 0, 0, false),
              InputNode(InputOptional, 0, None, 0, 0, false),
              InputNode(InputStruct, 0, Some([InputField(name, 1)]), 0, 0, false)]);
            var b := ConvertCall(ops, schema, [], [Entry(StrStar(name), NoneStar)]);
            b.Some? && b.value.value == Obj(map[]) && Accepted(b.value.value, 1, 1) && !Fits(b, 1, 1) && Fits(b, 1, 2)
  {
    var name: Bytes := [0x61];
    var fields := [InputField(name, 1)];
    var nodes := [InputNode(InputString, 0, None, 0, 0, false), InputNode(InputOptional, 0, None, 0, 0, false),
                  InputNode(InputStruct, 0, Some(fields), 0, 0, false)];
    var kwargs := [Entry(StrStar(name), NoneStar)];
    assert FieldPosition(fields, name) == Some(0) by { assert fields[..0] == []; }
    assert ConvertFields(ops, nodes, [], 2, kwargs, 0) == Some(Bound(map[], 0, 0));
    assert ConvertFields(ops, nodes, [], 2, kwargs, 1) == Some(Bound(map[], 0, 1));
    assert Nodes(Obj(map[])) == 1;
  }
}
