/** internal/binding/bind.go: the worker binds Starlark arguments against the schema. The
    conversion itself is a function of the schema and the heap that terminates on cyclic
    containers because the node index falls; the binder adds depth, node budget and path. */
module Binder {
  import opened Text
  import opened Values
  import opened Starlark
  import opened Schema
  import opened Converter

  /** float32 narrowing and integer conversion, on float64 bit patterns. */
  datatype FloatOps = FloatOps(narrow: nat -> nat, overflows: nat -> bool, ofInt: int -> Float64)

  /** Rounding to float32 is idempotent and stays in range. */
  ghost predicate Rounds(ops: FloatOps) {
    forall b: nat :: !ops.overflows(b) ==> !ops.overflows(ops.narrow(b)) && ops.narrow(ops.narrow(b)) == ops.narrow(b)
  }

  /** checkFloat. */
  function CheckFloat(ops: FloatOps, node: InputNode, x: Float64): Option<Value> {
    if !x.Finite? then None
    else if !node.float32 then Some(Real(x))
    else if ops.overflows(x.bits) then None
    else Some(Real(Finite(ops.narrow(x.bits))))
  }

  /** checkInteger after Int64(). */
  function CheckInteger(node: InputNode, i: int): Option<Value> {
    if -0x8000_0000_0000_0000 <= i < 0x8000_0000_0000_0000 && node.intMin <= i <= node.intMax then Some(Int(i))
    else None
  }

  /** bindScalar. */
  function BindScalar(ops: FloatOps, node: InputNode, value: Star): Option<Value> {
    match node.kind
    case InputString => if value.StrStar? then Some(Str(value.s)) else None
    case InputInt => if value.IntStar? then CheckInteger(node, value.i) else None
    case InputBool => if value.BoolStar? then Some(Bool(value.b)) else None
    case InputFloat =>
      (match value
       case FloatStar(x) => CheckFloat(ops, node, x)
       case IntStar(i) => CheckFloat(ops, node, ops.ofInt(i))
       case _ => None)
    case _ => None
  }

  function SequenceOf(store: Store, value: Star): Option<seq<Star>> {
    match value
    case ListRef(r) => if IsList(store, r) then Some(store[r].items) else None
    case Tuple(items) => Some(items)
    case _ => None
  }

  function DictOf(store: Store, value: Star): Option<seq<Entry>> {
    match value
    case DictRef(r) => if IsDict(store, r) then Some(store[r].entries) else None
    case _ => None
  }

  /** fieldPosition. */
  function FieldPosition(fields: seq<InputField>, name: Bytes): (r: Option<nat>)
    ensures r.Some? ==> r.value < |fields| && fields[r.value].name == name
    ensures r.None? ==> forall i :: 0 <= i < |fields| ==> fields[i].name != name
  {
    if fields == [] then None
    else
      var before := FieldPosition(fields[..|fields| - 1], name);
      if before.Some? then before
      else if fields[|fields| - 1].name == name then Some(|fields| - 1)
      else None
  }

  predicate IsOptional(nodes: seq<InputNode>, index: int) { 0 <= index < |nodes| && nodes[index].kind == InputOptional }

  /** Every member that is not optional is named. */
  ghost predicate Complete(nodes: seq<InputNode>, fields: seq<InputField>, names: set<Bytes>) {
    forall i :: 0 <= i < |fields| && !IsOptional(nodes, fields[i].node) ==> fields[i].name in names
  }

  // ----- what a Starlark value means for a node -----

  /** A converted value, the node budget that binding it takes, and how many struct entries
      were an explicit None: those are charged with their siblings but not kept. */
  datatype Bound<+T> = Bound(value: T, need: nat, dropped: nat)

  function Larger(a: nat, b: nat): nat { if a >= b then a else b }

  ghost function Convert(ops: FloatOps, nodes: seq<InputNode>, store: Store, index: nat,
                         value: Star): Option<Bound<Value>>
    decreases index, 1, 0
  {
    if index >= |nodes| || !PointsBack(nodes[index], index) then None
    else
      var node := nodes[index];
      match node.kind
      case InputOptional =>
        if value.NoneStar? then Some(Bound(Null, 1, 0)) else Convert(ops, nodes, store, node.elem, value)
      case InputList =>
        var items := SequenceOf(store, value);
        if items.None? then None else AsList(ConvertItems(ops, nodes, store, node.elem, items.value, |items.value|))
      case InputMap =>
        var entries := DictOf(store, value);
        if entries.None? then None else AsObj(ConvertMap(ops, nodes, store, node.elem, entries.value, |entries.value|))
      case InputStruct =>
        var entries := DictOf(store, value);
        if entries.None? then None else AsObj(ConvertStruct(ops, nodes, store, index, entries.value))
      case _ => AsScalar(BindScalar(ops, node, value))
  }

  function AsScalar(v: Option<Value>): Option<Bound<Value>> { if v.Some? then Some(Bound(v.value, 1, 0)) else None }

  function AsList(b: Option<Bound<seq<Value>>>): Option<Bound<Value>> {
    if b.Some? then Some(Bound(List(b.value.value), 1 + b.value.need, b.value.dropped)) else None
  }

  function AsObj(b: Option<Bound<map<Bytes, Value>>>): Option<Bound<Value>> {
    if b.Some? then Some(Bound(Obj(b.value.value), 1 + b.value.need, b.value.dropped)) else None
  }

  ghost function AddItem(before: Bound<seq<Value>>, last: Bound<Value>): Bound<seq<Value>> {
    Bound(before.value + [last.value], Larger(before.need, NodesOf(before.value) + last.need),
          before.dropped + last.dropped)
  }

  ghost function AddEntry(before: Bound<map<Bytes, Value>>, key: Bytes, last: Bound<Value>): Bound<map<Bytes, Value>> {
    Bound(before.value[key := last.value], Larger(before.need, NodesIn(before.value) + last.need),
          before.dropped + last.dropped)
  }

  ghost function ConvertItems(ops: FloatOps, nodes: seq<InputNode>, store: Store, elem: nat, items: seq<Star>,
                              n: nat): Option<Bound<seq<Value>>>
    requires n <= |items|
    decreases elem, 2, n
  {
    if n == 0 then Some(Bound([], 0, 0))
    else
      var before, last := ConvertItems(ops, nodes, store, elem, items, n - 1),
        Convert(ops, nodes, store, elem, items[n - 1]);
      if before.None? || last.None? then None else Some(AddItem(before.value, last.value))
  }

  ghost function ConvertMap(ops: FloatOps, nodes: seq<InputNode>, store: Store, elem: nat, entries: seq<Entry>,
                            n: nat): Option<Bound<map<Bytes, Value>>>
    requires n <= |entries|
    decreases elem, 2, n
  {
    if n == 0 then Some(Bound(map[], 0, 0))
    else
      var before, e := ConvertMap(ops, nodes, store, elem, entries, n - 1), entries[n - 1];
      if before.None? || !e.key.StrStar? then None
      else
        var last := Convert(ops, nodes, store, elem, e.value);
        if last.None? then None else Some(AddEntry(before.value, e.key.s, last.value))
  }

  /** One entry of a struct: unknown and repeated names fail, an optional None is dropped. */
  ghost function ConvertFields(ops: FloatOps, nodes: seq<InputNode>, store: Store, index: nat, entries: seq<Entry>,
                               n: nat): Option<Bound<map<Bytes, Value>>>
    requires index < |nodes| && nodes[index].kind == InputStruct && PointsBack(nodes[index], index) && n <= |entries|
    decreases index, 0, n
  {
    if n == 0 then Some(Bound(map[], 0, 0))
    else
      var before, e := ConvertFields(ops, nodes, store, index, entries, n - 1), entries[n - 1];
      if before.None? || !e.key.StrStar? then None
      else
        var at := FieldPosition(FieldsOf(nodes[index]), e.key.s);
        if at.None? || e.key.s in NamesOf(entries, n - 1) then None
        else
          var node := FieldsOf(nodes[index])[at.value].node;
          if IsOptional(nodes, node) && e.value.NoneStar? then Some(before.value.(dropped := before.value.dropped + 1))
          else
            var last := Convert(ops, nodes, store, node, e.value);
            if last.None? then None else Some(AddEntry(before.value, e.key.s, last.value))
  }

  ghost function ConvertStruct(ops: FloatOps, nodes: seq<InputNode>, store: Store, index: nat,
                               entries: seq<Entry>): Option<Bound<map<Bytes, Value>>>
    requires index < |nodes| && nodes[index].kind == InputStruct && PointsBack(nodes[index], index)
    decreases index, 0, |entries| + 1
  {
    var b := ConvertFields(ops, nodes, store, index, entries, |entries|);
    if b.Some? && Complete(nodes, FieldsOf(nodes[index]), NamesOf(entries, |entries|))
    then Some(Bound(b.value.value, Larger(b.value.need, |entries|), b.value.dropped))
    else None
  }

  // A failed prefix fails the whole; a longer prefix needs no less.

  lemma {:induction false} ItemsPrefix(ops: FloatOps, nodes: seq<InputNode>, store: Store, elem: nat,
                                       items: seq<Star>, n: nat, m: nat)
    requires n <= m <= |items| && ConvertItems(ops, nodes, store, elem, items, m).Some?
    ensures var small := ConvertItems(ops, nodes, store, elem, items, n);
            var big := ConvertItems(ops, nodes, store, elem, items, m).value;
            small.Some? && small.value.need <= big.need && small.value.value <= big.value
  {
    if n < m { ItemsPrefix(ops, nodes, store, elem, items, n, m - 1); }
  }

  ghost predicate SubMap(small: map<Bytes, Value>, big: map<Bytes, Value>) {
    forall k :: k in small ==> k in big && big[k] == small[k]
  }

  lemma {:induction false} MapPrefix(ops: FloatOps, nodes: seq<InputNode>, store: Store, elem: nat,
                                     entries: seq<Entry>, n: nat, m: nat)
    requires n <= m <= |entries| && DistinctKeys(entries) && ConvertMap(ops, nodes, store, elem, entries, m).Some?
    ensures var small := ConvertMap(ops, nodes, store, elem, entries, n);
            var big := ConvertMap(ops, nodes, store, elem, entries, m).value;
            small.Some? && small.value.need <= big.need && SubMap(small.value.value, big.value)
  {
    if n < m {
      MapPrefix(ops, nodes, store, elem, entries, n, m - 1);
      MapNames(ops, nodes, store, elem, entries, m - 1);
    }
  }

  lemma {:induction false} MapNames(ops: FloatOps, nodes: seq<InputNode>, store: Store, elem: nat,
                                    entries: seq<Entry>, n: nat)
    requires n <= |entries| && ConvertMap(ops, nodes, store, elem, entries, n).Some?
    ensures ConvertMap(ops, nodes, store, elem, entries, n).value.value.Keys == NamesOf(entries, n)
    ensures StringKeysTo(entries, n)
  {
    if n > 0 { MapNames(ops, nodes, store, elem, entries, n - 1); }
  }

  lemma {:induction false} FieldsPrefix(ops: FloatOps, nodes: seq<InputNode>, store: Store, index: nat,
                                        entries: seq<Entry>, n: nat, m: nat)
    requires index < |nodes| && nodes[index].kind == InputStruct && PointsBack(nodes[index], index)
    requires n <= m <= |entries| && ConvertFields(ops, nodes, store, index, entries, m).Some?
    ensures var small := ConvertFields(ops, nodes, store, index, entries, n);
            var big := ConvertFields(ops, nodes, store, index, entries, m).value;
            small.Some? && small.value.need <= big.need && SubMap(small.value.value, big.value)
  {
    if n < m {
      FieldsPrefix(ops, nodes, store, index, entries, n, m - 1);
      FieldNames(ops, nodes, store, index, entries, m - 1);
    }
  }

  lemma {:induction false} FieldNames(ops: FloatOps, nodes: seq<InputNode>, store: Store, index: nat,
                                      entries: seq<Entry>, n: nat)
    requires index < |nodes| && nodes[index].kind == InputStruct && PointsBack(nodes[index], index)
    requires n <= |entries| && ConvertFields(ops, nodes, store, index, entries, n).Some?
    ensures ConvertFields(ops, nodes, store, index, entries, n).value.value.Keys <= NamesOf(entries, n)
  {
    if n > 0 { FieldNames(ops, nodes, store, index, entries, n - 1); }
  }

  // ----- the budget never undercounts -----

  lemma {:induction false} NeedCovers(ops: FloatOps, nodes: seq<InputNode>, store: Store, index: nat, value: Star)
    requires Convert(ops, nodes, store, index, value).Some?
    ensures var b := Convert(ops, nodes, store, index, value).value;
            Nodes(b.value) <= b.need <= Nodes(b.value) + b.dropped
    decreases index, 1, 0
  {
    var node := nodes[index];
    match node.kind
    case InputOptional => if !value.NoneStar? { NeedCovers(ops, nodes, store, node.elem, value); }
    case InputList =>
      var items := SequenceOf(store, value).value;
      ItemsNeedCovers(ops, nodes, store, node.elem, items, |items|);
    case InputMap =>
      var entries := DictOf(store, value).value;
      MapNeedCovers(ops, nodes, store, node.elem, entries, |entries|);
    case InputStruct =>
      var entries := DictOf(store, value).value;
      FieldsNeedCovers(ops, nodes, store, index, entries, |entries|);
    case _ => ScalarNodes(ops, node, value);
  }

  lemma ScalarNodes(ops: FloatOps, node: InputNode, value: Star)
    requires BindScalar(ops, node, value).Some?
    ensures var v := BindScalar(ops, node, value).value;
            Nodes(v) == 1 && Supported(v) && !v.List? && !v.Obj? && !v.Null?
              && forall d: int :: d >= 1 ==> WithinDepth(v, d)
  {}

  lemma {:induction false} ItemsNeedCovers(ops: FloatOps, nodes: seq<InputNode>, store: Store, elem: nat,
                                           items: seq<Star>, n: nat)
    requires n <= |items| && ConvertItems(ops, nodes, store, elem, items, n).Some?
    ensures var b := ConvertItems(ops, nodes, store, elem, items, n).value;
            n <= NodesOf(b.value) <= b.need <= NodesOf(b.value) + b.dropped && |b.value| == n
    decreases elem, 2, n
  {
    if n > 0 {
      ItemsNeedCovers(ops, nodes, store, elem, items, n - 1);
      NeedCovers(ops, nodes, store, elem, items[n - 1]);
      NodesAppend(ConvertItems(ops, nodes, store, elem, items, n - 1).value.value,
                  Convert(ops, nodes, store, elem, items[n - 1]).value.value);
    }
  }

  lemma {:induction false} MapNeedCovers(ops: FloatOps, nodes: seq<InputNode>, store: Store, elem: nat,
                                         entries: seq<Entry>, n: nat)
    requires n <= |entries| && DistinctKeys(entries) && ConvertMap(ops, nodes, store, elem, entries, n).Some?
    ensures var b := ConvertMap(ops, nodes, store, elem, entries, n).value;
            n <= NodesIn(b.value) <= b.need <= NodesIn(b.value) + b.dropped
    decreases elem, 2, n
  {
    if n > 0 {
      MapNeedCovers(ops, nodes, store, elem, entries, n - 1);
      MapNames(ops, nodes, store, elem, entries, n - 1);
      NeedCovers(ops, nodes, store, elem, entries[n - 1].value);
      NodesInsert(ConvertMap(ops, nodes, store, elem, entries, n - 1).value.value, entries[n - 1].key.s,
                  Convert(ops, nodes, store, elem, entries[n - 1].value).value.value);
    }
  }

  lemma {:induction false} FieldsNeedCovers(ops: FloatOps, nodes: seq<InputNode>, store: Store, index: nat,
                                            entries: seq<Entry>, n: nat)
    requires index < |nodes| && nodes[index].kind == InputStruct && PointsBack(nodes[index], index)
    requires n <= |entries| && ConvertFields(ops, nodes, store, index, entries, n).Some?
    ensures var b := ConvertFields(ops, nodes, store, index, entries, n).value;
            NodesIn(b.value) <= b.need <= NodesIn(b.value) + b.dropped && n <= NodesIn(b.value) + b.dropped
    decreases index, 0, n
  {
    if n > 0 {
      var e := entries[n - 1];
      FieldsNeedCovers(ops, nodes, store, index, entries, n - 1);
      FieldNames(ops, nodes, store, index, entries, n - 1);
      var node := FieldsOf(nodes[index])[FieldPosition(FieldsOf(nodes[index]), e.key.s).value].node;
      if !(IsOptional(nodes, node) && e.value.NoneStar?) {
        NeedCovers(ops, nodes, store, node, e.value);
        NodesInsert(ConvertFields(ops, nodes, store, index, entries, n - 1).value.value, e.key.s,
                    Convert(ops, nodes, store, node, e.value).value.value);
      }
    }
  }

  // ----- the binder -----

  datatype BindError = InvalidArguments | LimitExceeded

  datatype BindResult<+T> = Fine(value: T) | Refused(error: BindError)

  datatype Segment = Member(name: Bytes) | Index(index: nat) | DictKey(name: Bytes)

  /** A conversion that stays within a depth and a node budget. */
  ghost predicate Fits(b: Option<Bound<Value>>, depth: int, budget: nat) {
    b.Some? && WithinDepth(b.value.value, depth) && b.value.need <= budget
  }

  ghost predicate ItemsFit(b: Option<Bound<seq<Value>>>, depth: int, budget: nat) {
    b.Some? && b.value.need <= budget && forall i :: 0 <= i < |b.value.value| ==> WithinDepth(b.value.value[i], depth)
  }

  ghost predicate FieldsFit(b: Option<Bound<map<Bytes, Value>>>, depth: int, budget: nat) {
    b.Some? && b.value.need <= budget && forall k :: k in b.value.value ==> WithinDepth(b.value.value[k], depth)
  }

  ghost predicate Ordered(nodes: seq<InputNode>) {
    forall i :: 0 <= i < |nodes| ==> PointsBack(nodes[i], i)
  }

  // An element that does not fit keeps the whole container from fitting.

  lemma ItemRefused(ops: FloatOps, nodes: seq<InputNode>, store: Store, elem: nat, items: seq<Star>, n: nat,
                    depth: int, budget: nat, done: seq<Value>)
    requires n < |items| && ConvertItems(ops, nodes, store, elem, items, n).Some?
    requires done == ConvertItems(ops, nodes, store, elem, items, n).value.value && NodesOf(done) <= budget
    requires !Fits(Convert(ops, nodes, store, elem, items[n]), depth, budget - NodesOf(done))
    ensures !ItemsFit(ConvertItems(ops, nodes, store, elem, items, n + 1), depth, budget)
  {
    var all := ConvertItems(ops, nodes, store, elem, items, n + 1);
    if all.Some? {
      assert all.value.value[|done|] == Convert(ops, nodes, store, elem, items[n]).value.value;
    }
  }

  lemma EntryRefused(ops: FloatOps, nodes: seq<InputNode>, store: Store, elem: nat, entries: seq<Entry>, n: nat,
                     depth: int, budget: nat,
                     done: map<Bytes, Value>)
    requires n < |entries| && DistinctKeys(entries) && ConvertMap(ops, nodes, store, elem, entries, n).Some?
    requires done == ConvertMap(ops, nodes, store, elem, entries, n).value.value && NodesIn(done) <= budget
    requires entries[n].key.StrStar?
             && !Fits(Convert(ops, nodes, store, elem, entries[n].value), depth, budget - NodesIn(done))
    ensures !FieldsFit(ConvertMap(ops, nodes, store, elem, entries, n + 1), depth, budget)
  {
    var all := ConvertMap(ops, nodes, store, elem, entries, n + 1);
    if all.Some? {
      assert all.value.value[entries[n].key.s] == Convert(ops, nodes, store, elem, entries[n].value).value.value;
    }
  }

  /** If all members fit, so do the first n. */
  lemma FieldsFitPrefix(ops: FloatOps, nodes: seq<InputNode>, store: Store, index: nat, entries: seq<Entry>, n: nat,
                        depth: int, budget: nat)
    requires index < |nodes| && nodes[index].kind == InputStruct && PointsBack(nodes[index], index) && n <= |entries|
    ensures ConvertFields(ops, nodes, store, index, entries, |entries|).Some?
            ==> ConvertFields(ops, nodes, store, index, entries, n).Some?
    ensures FieldsFit(ConvertFields(ops, nodes, store, index, entries, |entries|), depth, budget) ==>
            FieldsFit(ConvertFields(ops, nodes, store, index, entries, n), depth, budget)
  {
    if ConvertFields(ops, nodes, store, index, entries, |entries|).Some? {
      FieldsPrefix(ops, nodes, store, index, entries, n, |entries|);
    }
  }

  lemma MemberRefused(ops: FloatOps, nodes: seq<InputNode>, store: Store, index: nat, entries: seq<Entry>, n: nat,
                      depth: int, budget: nat,
                      done: map<Bytes, Value>)
    requires index < |nodes| && nodes[index].kind == InputStruct && PointsBack(nodes[index], index)
    requires n < |entries| && entries[n].key.StrStar? && FieldPosition(FieldsOf(nodes[index]), entries[n].key.s).Some?
    requires ConvertFields(ops, nodes, store, index, entries, n).Some?
    requires done == ConvertFields(ops, nodes, store, index, entries, n).value.value && NodesIn(done) <= budget
    requires var node := FieldsOf(nodes[index])[FieldPosition(FieldsOf(nodes[index]), entries[n].key.s).value].node;
             && !(IsOptional(nodes, node) && entries[n].value.NoneStar?)
             && !Fits(Convert(ops, nodes, store, node, entries[n].value), depth, budget - NodesIn(done))
    ensures !FieldsFit(ConvertFields(ops, nodes, store, index, entries, n + 1), depth, budget)
  {
    var node := FieldsOf(nodes[index])[FieldPosition(FieldsOf(nodes[index]), entries[n].key.s).value].node;
    var all := ConvertFields(ops, nodes, store, index, entries, n + 1);
    if all.Some? {
      assert all.value.value[entries[n].key.s] == Convert(ops, nodes, store, node, entries[n].value).value.value;
    }
  }

  class ArgumentBinder {
    const nodes: seq<InputNode>
    const converter: ValueConverter
    var path: seq<Segment>

    constructor (nodes: seq<InputNode>, converter: ValueConverter)
      ensures this.nodes == nodes && this.converter == converter && path == []
    {
      this.nodes, this.converter, path := nodes, converter, [];
    }

    /** The budget left. */
    function Left(): nat
      reads converter
    {
      converter.remainingNodes
    }

    /** The depth a value bound at this depth may use. */
    function Room(depth: int): int { converter.maxDepth - depth + 1 }

    method BindScalarAt(ops: FloatOps, index: nat, value: Star) returns (r: BindResult<Value>)
      requires index < |nodes|
      ensures r == if BindScalar(ops, nodes[index], value).Some? then Fine(BindScalar(ops, nodes[index], value).value)
                   else Refused(InvalidArguments)
    {
      var bound := BindScalar(ops, nodes[index], value);
      return if bound.Some? then Fine(bound.value) else Refused(InvalidArguments);
    }

    /** bindValue: binds exactly the values that convert and fit, charges exactly the nodes
        of the result, and leaves the path as it was. */
    method BindValue(ops: FloatOps, store: Store, index: nat, value: Star, depth: nat) returns (r: BindResult<Value>)
      requires index < |nodes| && Ordered(nodes) && depth >= 1
      modifies this, converter
      ensures r.Fine? <==> Fits(Convert(ops, nodes, store, index, value), Room(depth), old(Left()))
      ensures r.Fine? ==> r.value == Convert(ops, nodes, store, index, value).value.value
                          && Left() == old(Left()) - Nodes(r.value)
      ensures r.Fine? ==> path == old(path)
      ensures r == Refused(InvalidArguments) ==> Convert(ops, nodes, store, index, value).None?
      decreases index, 1, 0
    {
      assert PointsBack(nodes[index], index);
      ghost var meaning := Convert(ops, nodes, store, index, value);
      if meaning.Some? { NeedCovers(ops, nodes, store, index, value); }
      if nodes[index].kind == InputOptional {
        if value.NoneStar? {
          var err := converter.ConsumeNode(depth);
          return if err.Some? then Refused(LimitExceeded) else Fine(Null);
        }
        r := BindValue(ops, store, nodes[index].elem, value, depth);
        return;
      }
      var err := converter.ConsumeNode(depth);
      if err.Some? {
        if meaning.Some? && depth > converter.maxDepth { TooDeep(meaning.value.value, Room(depth)); }
        return Refused(LimitExceeded);
      }
      var node := nodes[index];
      if node.kind == InputList {
        r := BindList(ops, store, index, value, depth);
      } else if node.kind == InputMap {
        r := BindMap(ops, store, index, value, depth);
      } else if node.kind == InputStruct {
        r := BindDict(ops, store, index, value, depth);
      } else {
        r := BindScalarAt(ops, index, value);
        if r.Fine? { ScalarNodes(ops, node, value); }
      }
    }

    lemma TooDeep(v: Value, room: int)
      requires room < 1
      ensures !WithinDepth(v, room)
    {}

    method BindList(ops: FloatOps, store: Store, index: nat, value: Star, depth: nat) returns (r: BindResult<Value>)
      requires index < |nodes| && Ordered(nodes) && nodes[index].kind == InputList && 1 <= depth <= converter.maxDepth
      modifies this, converter
      ensures r.Fine? <==> Fits(Convert(ops, nodes, store, index, value), Room(depth), old(Left()) + 1)
      ensures r.Fine? ==> r.value == Convert(ops, nodes, store, index, value).value.value
                          && Left() == old(Left()) + 1 - Nodes(r.value)
      ensures r.Fine? ==> path == old(path)
      ensures r == Refused(InvalidArguments) ==> Convert(ops, nodes, store, index, value).None?
      decreases index, 0, 3
    {
      assert PointsBack(nodes[index], index);
      var items := SequenceOf(store, value);
      if items.None? { return Refused(InvalidArguments); }
      var bound := BindItems(ops, store, nodes[index].elem, items.value, depth);
      if bound.Refused? { return Refused(bound.error); }
      return Fine(List(bound.value));
    }

    method BindItems(ops: FloatOps, store: Store, elem: nat, items: seq<Star>,
                     depth: nat) returns (r: BindResult<seq<Value>>)
      requires elem < |nodes| && Ordered(nodes) && 1 <= depth <= converter.maxDepth
      modifies this, converter
      ensures r.Fine? <==> ItemsFit(ConvertItems(ops, nodes, store, elem, items, |items|), Room(depth + 1), old(Left()))
      ensures r.Fine? ==> r.value == ConvertItems(ops, nodes, store, elem, items, |items|).value.value
                          && Left() == old(Left()) - NodesOf(r.value)
      ensures r.Fine? ==> path == old(path)
      ensures r == Refused(InvalidArguments) ==> ConvertItems(ops, nodes, store, elem, items, |items|).None?
      decreases elem, 2, 0
    {
      ghost var budget, all := Left(), ConvertItems(ops, nodes, store, elem, items, |items|);
      if all.Some? { ItemsNeedCovers(ops, nodes, store, elem, items, |items|); }
      if !converter.ContainerFits(|items|) { return Refused(LimitExceeded); }
      var converted: seq<Value> := [];
      for n := 0 to |items|
        invariant path == old(path)
        invariant ItemsFit(ConvertItems(ops, nodes, store, elem, items, n), Room(depth + 1), budget)
        invariant converted == ConvertItems(ops, nodes, store, elem, items, n).value.value
                  && Left() == budget - NodesOf(converted)
      {
        if all.Some? { ItemsPrefix(ops, nodes, store, elem, items, n + 1, |items|); }
        var item := BindItem(ops, store, elem, items, n, depth, budget, converted);
        if item.Refused? { return Refused(item.error); }
        converted := item.value;
      }
      return Fine(converted);
    }

    method BindItem(ops: FloatOps, store: Store, elem: nat, items: seq<Star>, n: nat, depth: nat, ghost budget: nat,
                    converted: seq<Value>)
      returns (r: BindResult<seq<Value>>)
      requires elem < |nodes| && Ordered(nodes) && 1 <= depth <= converter.maxDepth && n < |items|
      requires ItemsFit(ConvertItems(ops, nodes, store, elem, items, n), Room(depth + 1), budget)
      requires converted == ConvertItems(ops, nodes, store, elem, items, n).value.value
               && Left() == budget - NodesOf(converted)
      modifies this, converter
      ensures r.Fine? <==> ItemsFit(ConvertItems(ops, nodes, store, elem, items, n + 1), Room(depth + 1), budget)
      ensures r.Fine? ==> r.value == ConvertItems(ops, nodes, store, elem, items, n + 1).value.value
                          && Left() == budget - NodesOf(r.value)
      ensures r.Fine? ==> path == old(path)
      ensures r == Refused(InvalidArguments) ==> ConvertItems(ops, nodes, store, elem, items, n + 1).None?
      decreases elem, 1, 1
    {
      path := path + [Index(n)];
      var item := BindValue(ops, store, elem, items[n], depth + 1);
      if item.Refused? {
        ItemRefused(ops, nodes, store, elem, items, n, Room(depth + 1), budget, converted);
        return Refused(item.error);
      }
      path := path[..|path| - 1];
      NodesAppend(converted, item.value);
      return Fine(converted + [item.value]);
    }

    method BindMap(ops: FloatOps, store: Store, index: nat, value: Star, depth: nat) returns (r: BindResult<Value>)
      requires index < |nodes| && Ordered(nodes) && nodes[index].kind == InputMap && 1 <= depth <= converter.maxDepth
      modifies this, converter
      ensures r.Fine? <==> Fits(Convert(ops, nodes, store, index, value), Room(depth), old(Left()) + 1)
      ensures r.Fine? ==> r.value == Convert(ops, nodes, store, index, value).value.value
                          && Left() == old(Left()) + 1 - Nodes(r.value)
      ensures r.Fine? ==> path == old(path)
      ensures r == Refused(InvalidArguments) ==> Convert(ops, nodes, store, index, value).None?
      decreases index, 0, 3
    {
      assert PointsBack(nodes[index], index);
      var entries := DictOf(store, value);
      if entries.None? { return Refused(InvalidArguments); }
      assert DistinctKeys(entries.value) by { assert value.DictRef?; }
      var bound := BindEntries(ops, store, nodes[index].elem, entries.value, depth);
      if bound.Refused? { return Refused(bound.error); }
      return Fine(Obj(bound.value));
    }

    method BindEntries(ops: FloatOps, store: Store, elem: nat, entries: seq<Entry>,
                       depth: nat) returns (r: BindResult<map<Bytes, Value>>)
      requires elem < |nodes| && Ordered(nodes) && DistinctKeys(entries) && 1 <= depth <= converter.maxDepth
      modifies this, converter
      ensures r.Fine? <==> FieldsFit(ConvertMap(ops, nodes, store, elem, entries, |entries|), Room(depth + 1),
                                     old(Left()))
      ensures r.Fine? ==> r.value == ConvertMap(ops, nodes, store, elem, entries, |entries|).value.value
                          && Left() == old(Left()) - NodesIn(r.value)
      ensures r.Fine? ==> path == old(path)
      ensures r == Refused(InvalidArguments) ==> ConvertMap(ops, nodes, store, elem, entries, |entries|).None?
      decreases elem, 2, 0
    {
      ghost var budget, all := Left(), ConvertMap(ops, nodes, store, elem, entries, |entries|);
      if all.Some? { MapNeedCovers(ops, nodes, store, elem, entries, |entries|); }
      if !converter.ContainerFits(|entries|) { return Refused(LimitExceeded); }
      var converted: map<Bytes, Value> := map[];
      for n := 0 to |entries|
        invariant path == old(path)
        invariant FieldsFit(ConvertMap(ops, nodes, store, elem, entries, n), Room(depth + 1), budget)
        invariant converted == ConvertMap(ops, nodes, store, elem, entries, n).value.value
                  && Left() == budget - NodesIn(converted)
      {
        if all.Some? { MapPrefix(ops, nodes, store, elem, entries, n + 1, |entries|); }
        if !entries[n].key.StrStar? { return Refused(InvalidArguments); }
        var item := BindEntry(ops, store, elem, entries, n, depth, budget, converted);
        if item.Refused? { return Refused(item.error); }
        converted := item.value;
      }
      return Fine(converted);
    }

    method BindEntry(ops: FloatOps, store: Store, elem: nat, entries: seq<Entry>, n: nat, depth: nat,
                     ghost budget: nat, converted: map<Bytes, Value>)
      returns (r: BindResult<map<Bytes, Value>>)
      requires elem < |nodes| && Ordered(nodes) && DistinctKeys(entries) && 1 <= depth <= converter.maxDepth
      requires n < |entries| && entries[n].key.StrStar?
      requires FieldsFit(ConvertMap(ops, nodes, store, elem, entries, n), Room(depth + 1), budget)
      requires converted == ConvertMap(ops, nodes, store, elem, entries, n).value.value
               && Left() == budget - NodesIn(converted)
      modifies this, converter
      ensures r.Fine? <==> FieldsFit(ConvertMap(ops, nodes, store, elem, entries, n + 1), Room(depth + 1), budget)
      ensures r.Fine? ==> r.value == ConvertMap(ops, nodes, store, elem, entries, n + 1).value.value
                          && Left() == budget - NodesIn(r.value)
      ensures r.Fine? ==> path == old(path)
      ensures r == Refused(InvalidArguments) ==> ConvertMap(ops, nodes, store, elem, entries, n + 1).None?
      decreases elem, 1, 1
    {
      var key := entries[n].key.s;
      path := path + [DictKey(key)];
      var item := BindValue(ops, store, elem, entries[n].value, depth + 1);
      if item.Refused? {
        EntryRefused(ops, nodes, store, elem, entries, n, Room(depth + 1), budget, converted);
        return Refused(item.error);
      }
      path := path[..|path| - 1];
      MapNames(ops, nodes, store, elem, entries, n);
      NodesInsert(converted, key, item.value);
      return Fine(converted[key := item.value]);
    }

    /** bindValue's struct case: the dict's length is charged before its entries are read. */
    method BindDict(ops: FloatOps, store: Store, index: nat, value: Star, depth: nat) returns (r: BindResult<Value>)
      requires index < |nodes| && Ordered(nodes) && nodes[index].kind == InputStruct && 1 <= depth <= converter.maxDepth
      modifies this, converter
      ensures r.Fine? <==> Fits(Convert(ops, nodes, store, index, value), Room(depth), old(Left()) + 1)
      ensures r.Fine? ==> r.value == Convert(ops, nodes, store, index, value).value.value
                          && Left() == old(Left()) + 1 - Nodes(r.value)
      ensures r.Fine? ==> path == old(path)
      ensures r == Refused(InvalidArguments) ==> Convert(ops, nodes, store, index, value).None?
      decreases index, 0, 3
    {
      assert PointsBack(nodes[index], index);
      var entries := DictOf(store, value);
      if entries.None? { return Refused(InvalidArguments); }
      if !converter.ContainerFits(|entries.value|) { return Refused(LimitExceeded); }
      var bound := BindStruct(ops, store, index, entries.value, depth);
      if bound.Refused? { return Refused(bound.error); }
      return Fine(Obj(bound.value));
    }

    method BindStruct(ops: FloatOps, store: Store, index: nat, entries: seq<Entry>,
                      depth: nat) returns (r: BindResult<map<Bytes, Value>>)
      requires index < |nodes| && Ordered(nodes) && nodes[index].kind == InputStruct && 1 <= depth <= converter.maxDepth
      requires PointsBack(nodes[index], index) && |entries| <= Left()
      modifies this, converter
      ensures r.Fine? <==> FieldsFit(ConvertStruct(ops, nodes, store, index, entries), Room(depth + 1), old(Left()))
      ensures r.Fine? ==> r.value == ConvertStruct(ops, nodes, store, index, entries).value.value
                          && Left() == old(Left()) - NodesIn(r.value)
      ensures r.Fine? ==> path == old(path)
      ensures r == Refused(InvalidArguments) ==> ConvertStruct(ops, nodes, store, index, entries).None?
      decreases index, 0, 2
    {
      var converted := BindMembers(ops, store, index, entries, depth);
      if converted.Refused? { return Refused(converted.error); }
      var missing := MissingMember(index, entries);
      if missing.Some? {
        path := path + [Member(missing.value)];
        return Refused(InvalidArguments);
      }
      return converted;
    }

    method BindMembers(ops: FloatOps, store: Store, index: nat, entries: seq<Entry>,
                       depth: nat) returns (r: BindResult<map<Bytes, Value>>)
      requires index < |nodes| && Ordered(nodes) && nodes[index].kind == InputStruct && 1 <= depth <= converter.maxDepth
      requires PointsBack(nodes[index], index)
      modifies this, converter
      ensures r.Fine? <==> FieldsFit(ConvertFields(ops, nodes, store, index, entries, |entries|), Room(depth + 1),
                                     old(Left()))
      ensures r.Fine? ==> r.value == ConvertFields(ops, nodes, store, index, entries, |entries|).value.value
                          && Left() == old(Left()) - NodesIn(r.value)
      ensures r.Fine? ==> path == old(path)
      ensures r == Refused(InvalidArguments) ==> ConvertFields(ops, nodes, store, index, entries, |entries|).None?
      decreases index, 0, 1
    {
      ghost var budget := Left();
      var converted: map<Bytes, Value> := map[];
      var seen: set<Bytes> := {};
      for n := 0 to |entries|
        invariant path == old(path) && seen == NamesOf(entries, n)
        invariant FieldsFit(ConvertFields(ops, nodes, store, index, entries, n), Room(depth + 1), budget)
        invariant converted == ConvertFields(ops, nodes, store, index, entries, n).value.value
                  && Left() == budget - NodesIn(converted)
      {
        FieldsFitPrefix(ops, nodes, store, index, entries, n + 1, Room(depth + 1), budget);
        var item := BindMember(ops, store, index, entries, n, seen, depth, budget, converted);
        if item.Refused? { return item; }
        seen, converted := seen + {entries[n].key.s}, item.value;
      }
      return Fine(converted);
    }

    /** One entry of a struct. */
    method BindMember(ops: FloatOps, store: Store, index: nat, entries: seq<Entry>, n: nat, seen: set<Bytes>,
                      depth: nat,
                      ghost budget: nat, converted: map<Bytes, Value>)
      returns (r: BindResult<map<Bytes, Value>>)
      requires index < |nodes| && Ordered(nodes) && nodes[index].kind == InputStruct && PointsBack(nodes[index], index)
      requires 1 <= depth <= converter.maxDepth && n < |entries| && seen == NamesOf(entries, n)
      requires FieldsFit(ConvertFields(ops, nodes, store, index, entries, n), Room(depth + 1), budget)
      requires converted == ConvertFields(ops, nodes, store, index, entries, n).value.value
               && Left() == budget - NodesIn(converted)
      modifies this, converter
      ensures r.Fine? <==> FieldsFit(ConvertFields(ops, nodes, store, index, entries, n + 1), Room(depth + 1), budget)
      ensures r.Fine? ==> entries[n].key.StrStar?
      ensures r.Fine? ==> r.value == ConvertFields(ops, nodes, store, index, entries, n + 1).value.value
                          && Left() == budget - NodesIn(r.value)
      ensures r.Fine? ==> path == old(path)
      ensures r == Refused(InvalidArguments) ==> ConvertFields(ops, nodes, store, index, entries, n + 1).None?
      decreases index, 0, 0
    {
      var fields, e := FieldsOf(nodes[index]), entries[n];
      if !e.key.StrStar? { return Refused(InvalidArguments); }
      path := path + [Member(e.key.s)];
      var at := FieldPosition(fields, e.key.s);
      if at.None? { return Refused(InvalidArguments); }
      if e.key.s in seen { return Refused(InvalidArguments); }
      var node := fields[at.value].node;
      assert 0 <= node < index;
      r := Fine(converted);
      if !IsOptional(nodes, node) || !e.value.NoneStar? {
        var item := BindValue(ops, store, node, e.value, depth + 1);
        if item.Refused? {
          MemberRefused(ops, nodes, store, index, entries, n, Room(depth + 1), budget, converted);
          return Refused(item.error);
        }
        FieldNames(ops, nodes, store, index, entries, n);
        NodesInsert(converted, e.key.s, item.value);
        r := Fine(converted[e.key.s := item.value]);
      }
      path := path[..|path| - 1];
    }

    /** The first required member that no entry names. */
    method MissingMember(index: nat, entries: seq<Entry>) returns (missing: Option<Bytes>)
      requires index < |nodes|
      ensures missing.None? <==> Complete(nodes, FieldsOf(nodes[index]), NamesOf(entries, |entries|))
    {
      var fields, seen := FieldsOf(nodes[index]), {};
      for n := 0 to |entries|
        invariant seen == NamesOf(entries, n)
      {
        if entries[n].key.StrStar? { seen := seen + {entries[n].key.s}; }
      }
      for n := 0 to |fields|
        invariant Complete(nodes, fields[..n], seen)
      {
        if !IsOptional(nodes, fields[n].node) && fields[n].name !in seen {
          assert !Complete(nodes, fields, seen);
          return Some(fields[n].name);
        }
        assert fields[..n + 1] == fields[..n] + [fields[n]];
      }
      assert fields[..|fields|] == fields;
      return None;
    }
  }

  // ----- the whole call -----

  /** The canonical argument map of a call, and the node budget that binding it takes. */
  ghost function ConvertCall(ops: FloatOps, schema: InputSchema, store: Store,
                             kwargs: seq<Entry>): Option<Bound<Value>> {
    if 0 <= schema.root < |schema.nodes| && schema.nodes[schema.root].kind == InputStruct
      && PointsBack(schema.nodes[schema.root], schema.root)
    then AsObj(ConvertStruct(ops, schema.nodes, store, schema.root, kwargs))
    else None
  }

  /** InputSchema.Bind. It succeeds exactly when there are no positional arguments, the
      keyword arguments convert, and the result fits the depth limit and the converted
      budget the node limit; it charges exactly the nodes of the map it returns. */
  method Bind(lib: NameLib, ops: FloatOps, schema: InputSchema, store: Store, args: seq<Star>, kwargs: seq<Entry>,
              maxDepth: int, maxNodes: int)
    returns (r: BindResult<Value>, left: nat)
    requires SchemaOk(lib, schema)
    ensures r.Fine? <==> args == [] && maxDepth > 0 && maxNodes > 0
                         && Fits(ConvertCall(ops, schema, store, kwargs), maxDepth, maxNodes)
    ensures r.Fine? ==> r.value == ConvertCall(ops, schema, store, kwargs).value.value && r.value.Obj?
    ensures r.Fine? ==> left == maxNodes - Nodes(r.value)
    ensures r == Refused(InvalidArguments) ==> args != [] || ConvertCall(ops, schema, store, kwargs).None?
  {
    left := 0;
    if args != [] { return Refused(InvalidArguments), left; }
    if maxDepth <= 0 || maxNodes <= 0 { return Refused(LimitExceeded), left; }
    assert NodeOk(lib, schema.nodes, schema.root);
    var converter := new ValueConverter(maxDepth, maxNodes);
    var binder := new ArgumentBinder(schema.nodes, converter);
    var err := converter.ConsumeNode(1);
    if err.Some? { return Refused(LimitExceeded), left; }
    if !converter.ContainerFits(|kwargs|) { return Refused(LimitExceeded), left; }
    forall i | 0 <= i < |schema.nodes| ensures PointsBack(schema.nodes[i], i) { assert NodeOk(lib, schema.nodes, i); }
    var bound := binder.BindStruct(ops, store, schema.root, kwargs, 1);
    if bound.Refused? { return Refused(bound.error), left; }
    return Fine(Obj(bound.value)), converter.remainingNodes;
  }

  // ----- what binding guarantees -----

  lemma {:induction false} ConvertedSupported(ops: FloatOps, nodes: seq<InputNode>, store: Store, index: nat,
                                              value: Star)
    requires Convert(ops, nodes, store, index, value).Some?
    ensures Supported(Convert(ops, nodes, store, index, value).value.value)
    decreases index, 1, 0
  {
    var node := nodes[index];
    match node.kind
    case InputOptional => if !value.NoneStar? { ConvertedSupported(ops, nodes, store, node.elem, value); }
    case InputList =>
      var items := SequenceOf(store, value).value;
      ItemsSupported(ops, nodes, store, node.elem, items, |items|);
    case InputMap =>
      var entries := DictOf(store, value).value;
      MapSupported(ops, nodes, store, node.elem, entries, |entries|);
    case InputStruct =>
      var entries := DictOf(store, value).value;
      FieldsSupported(ops, nodes, store, index, entries, |entries|);
    case _ => ScalarNodes(ops, node, value);
  }

  lemma {:induction false} ItemsSupported(ops: FloatOps, nodes: seq<InputNode>, store: Store, elem: nat,
                                          items: seq<Star>, n: nat)
    requires n <= |items| && ConvertItems(ops, nodes, store, elem, items, n).Some?
    ensures var b := ConvertItems(ops, nodes, store, elem, items, n).value.value;
            forall i :: 0 <= i < |b| ==> Supported(b[i])
    decreases elem, 2, n
  {
    if n > 0 {
      ItemsSupported(ops, nodes, store, elem, items, n - 1);
      ConvertedSupported(ops, nodes, store, elem, items[n - 1]);
    }
  }

  lemma {:induction false} MapSupported(ops: FloatOps, nodes: seq<InputNode>, store: Store, elem: nat,
                                        entries: seq<Entry>, n: nat)
    requires n <= |entries| && ConvertMap(ops, nodes, store, elem, entries, n).Some?
    ensures var b := ConvertMap(ops, nodes, store, elem, entries, n).value.value; forall k :: k in b ==> Supported(b[k])
    decreases elem, 2, n
  {
    if n > 0 {
      MapSupported(ops, nodes, store, elem, entries, n - 1);
      ConvertedSupported(ops, nodes, store, elem, entries[n - 1].value);
    }
  }

  lemma {:induction false} FieldsSupported(ops: FloatOps, nodes: seq<InputNode>, store: Store, index: nat,
                                           entries: seq<Entry>, n: nat)
    requires index < |nodes| && nodes[index].kind == InputStruct && PointsBack(nodes[index], index)
    requires n <= |entries| && ConvertFields(ops, nodes, store, index, entries, n).Some?
    ensures var b := ConvertFields(ops, nodes, store, index, entries, n).value.value;
            forall k :: k in b ==> Supported(b[k])
    decreases index, 0, n
  {
    if n > 0 {
      var e := entries[n - 1];
      FieldsSupported(ops, nodes, store, index, entries, n - 1);
      var node := FieldsOf(nodes[index])[FieldPosition(FieldsOf(nodes[index]), e.key.s).value].node;
      if !(IsOptional(nodes, node) && e.value.NoneStar?) { ConvertedSupported(ops, nodes, store, node, e.value); }
    }
  }
}
