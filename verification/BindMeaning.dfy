/** What a call's arguments mean, said on trees alone: which value of the schema a finite Starlark
    tree is taken as, without the binder, the store and the order of dict entries. */
module BindMeaning {
  import opened Text
  import opened Values
  import opened Unfolding
  import opened Starlark
  import opened Schema
  import opened Binder
  import opened CallAgreement

  /** A finite Starlark value, written out. Integers are unbounded. */
  datatype Arg =
    | ArgNone
    | ArgBool(b: bool)
    | ArgStr(s: Bytes)
    | ArgInt(i: int)
    | ArgFloat(x: Float64)
    | ArgList(items: seq<Arg>)
    | ArgDict(fields: map<Bytes, Arg>)

  /** The value s, read through the store, is the tree a. */
  ghost predicate Denotes(store: Store, s: Star, a: Arg)
    decreases a, 1
  {
    match s
    case NoneStar => a == ArgNone
    case BoolStar(b) => a == ArgBool(b)
    case StrStar(t) => a == ArgStr(t)
    case IntStar(i) => a == ArgInt(i)
    case FloatStar(x) => a == ArgFloat(x)
    case Tuple(items) => DenotesItems(store, items, a)
    case ListRef(r) => IsList(store, r) && DenotesItems(store, store[r].items, a)
    case DictRef(r) => IsDict(store, r) && DenotesEntries(store, store[r].entries, a)
    case _ => false
  }

  ghost predicate DenotesItems(store: Store, items: seq<Star>, a: Arg)
    decreases a, 0
  {
    a.ArgList? && |a.items| == |items| && forall n :: 0 <= n < |items| ==> Denotes(store, items[n], a.items[n])
  }

  /** Entry n has a string key of its own. */
  predicate OwnKey(entries: seq<Entry>, n: nat)
    requires n < |entries|
  {
    entries[n].key.StrStar? && forall m :: 0 <= m < n ==> entries[m].key != entries[n].key
  }

  predicate HasKey(entries: seq<Entry>, k: Bytes) { exists n :: 0 <= n < |entries| && entries[n].key == StrStar(k) }

  /** The entries, each under its own name, are the tree a. */
  ghost predicate DenotesEntries(store: Store, entries: seq<Entry>, a: Arg)
    decreases a, 0
  {
    && a.ArgDict?
    && (forall n :: 0 <= n < |entries| ==>
          && OwnKey(entries, n) && entries[n].key.s in a.fields
          && Denotes(store, entries[n].value, a.fields[entries[n].key.s]))
    && forall k :: k in a.fields ==> HasKey(entries, k)
  }

  // ----- what the schema takes a tree as -----

  /** The float a node keeps for the given one. */
  predicate Keeps(ops: FloatOps, narrow: bool, given: Float64, kept: Float64) {
    && given.Finite?
    && if narrow then !ops.overflows(given.bits) && kept == Finite(ops.narrow(given.bits)) else kept == given
  }

  /** The members of a struct: every name is declared, every member that is not optional is named,
      an optional None is left out, and nothing else is. */
  predicate SameMembers(nodes: seq<InputNode>, fields: seq<InputField>, given: map<Bytes, Arg>,
                        kept: map<Bytes, Value>) {
    && (forall k :: k in given ==> Declared(fields, k))
    && (forall k :: k in kept ==> k in given)
    && forall n :: 0 <= n < |fields| ==>
         && (fields[n].name in given || IsOptional(nodes, fields[n].node))
         && (fields[n].name in given ==>
               (fields[n].name !in kept <==> IsOptional(nodes, fields[n].node) && given[fields[n].name] == ArgNone))
  }

  predicate Declared(fields: seq<InputField>, k: Bytes) { exists n :: 0 <= n < |fields| && fields[n].name == k }

  /** Node i takes the tree a as the value v. */
  ghost predicate Takes(ops: FloatOps, nodes: seq<InputNode>, i: int, a: Arg, v: Value)
    decreases i
  {
    0 <= i < |nodes| && PointsBack(nodes[i], i) &&
    var node := nodes[i];
    match node.kind
    case InputString => a.ArgStr? && v == Str(a.s)
    case InputBool => a.ArgBool? && v == Bool(a.b)
    case InputInt => a.ArgInt? && v.Int? && v.i == a.i && node.intMin <= a.i <= node.intMax
    case InputFloat =>
      v.Real? && ((a.ArgFloat? && Keeps(ops, node.float32, a.x, v.x))
                  || (a.ArgInt? && Keeps(ops, node.float32, ops.ofInt(a.i), v.x)))
    case InputOptional => if a == ArgNone then v == Null else Takes(ops, nodes, node.elem, a, v)
    case InputList =>
      && a.ArgList? && v.List? && |v.items| == |a.items|
      && forall n :: 0 <= n < |a.items| ==> Takes(ops, nodes, node.elem, a.items[n], v.items[n])
    case InputMap =>
      && a.ArgDict? && v.Obj? && v.fields.Keys == a.fields.Keys
      && forall k :: k in a.fields ==> Takes(ops, nodes, node.elem, a.fields[k], v.fields[k])
    case InputStruct =>
      && a.ArgDict? && v.Obj? && SameMembers(nodes, FieldsOf(node), a.fields, v.fields)
      && forall n :: 0 <= n < |FieldsOf(node)| ==>
           FieldsOf(node)[n].name in a.fields && FieldsOf(node)[n].name in v.fields ==>
           Takes(ops, nodes, FieldsOf(node)[n].node, a.fields[FieldsOf(node)[n].name], v.fields[FieldsOf(node)[n].name])
    case UnknownKind => false
  }

  /** The value converts, to v. */
  ghost predicate ConvertsTo(c: Option<Bound<Value>>, v: Value) { c.Some? && c.value.value == v }

  // ----- an element converts alone -----

  lemma {:induction false} ItemsSome(ops: FloatOps, nodes: seq<InputNode>, store: Store, elem: nat, items: seq<Star>,
                                     n: nat)
    requires n <= |items|
    ensures var all := ConvertItems(ops, nodes, store, elem, items, n);
            && (all.Some? <==> forall j :: 0 <= j < n ==> Convert(ops, nodes, store, elem, items[j]).Some?)
            && (all.Some? ==> |all.value.value| == n
                              && forall j :: 0 <= j < n ==>
                                   ConvertsTo(Convert(ops, nodes, store, elem, items[j]), all.value.value[j]))
  {
    if n > 0 { ItemsSome(ops, nodes, store, elem, items, n - 1); }
  }

  /** Entry j of a map converts. */
  ghost predicate EntryConverts(ops: FloatOps, nodes: seq<InputNode>, store: Store, elem: nat,
                                entries: seq<Entry>, j: nat)
    requires j < |entries|
  {
    entries[j].key.StrStar? && Convert(ops, nodes, store, elem, entries[j].value).Some?
  }

  lemma {:induction false} MapSome(ops: FloatOps, nodes: seq<InputNode>, store: Store, elem: nat, entries: seq<Entry>,
                                   n: nat)
    requires n <= |entries|
    ensures ConvertMap(ops, nodes, store, elem, entries, n).Some?
            <==> forall j :: 0 <= j < n ==> EntryConverts(ops, nodes, store, elem, entries, j)
  {
    if n > 0 {
      MapSome(ops, nodes, store, elem, entries, n - 1);
      assert ConvertMap(ops, nodes, store, elem, entries, n).Some?
        <==> ConvertMap(ops, nodes, store, elem, entries, n - 1).Some?
             && EntryConverts(ops, nodes, store, elem, entries, n - 1);
    }
  }

  lemma {:induction false} MapAre(ops: FloatOps, nodes: seq<InputNode>, store: Store, elem: nat, entries: seq<Entry>,
                                  n: nat, j: nat)
    requires j < n <= |entries| && DistinctKeys(entries) && ConvertMap(ops, nodes, store, elem, entries, n).Some?
    ensures entries[j].key.StrStar?
    ensures var kept := ConvertMap(ops, nodes, store, elem, entries, n).value.value;
            && entries[j].key.s in kept
            && ConvertsTo(Convert(ops, nodes, store, elem, entries[j].value), kept[entries[j].key.s])
  {
    MapSome(ops, nodes, store, elem, entries, n);
    assert EntryConverts(ops, nodes, store, elem, entries, n - 1);
    if j < n - 1 {
      MapAre(ops, nodes, store, elem, entries, n - 1, j);
      NamesHave(entries, n - 1, j);
    }
  }

  lemma {:induction false} NamesHave(entries: seq<Entry>, n: nat, j: nat)
    requires j < n <= |entries| && entries[j].key.StrStar?
    ensures entries[j].key.s in NamesOf(entries, n)
  {
    if j < n - 1 { NamesHave(entries, n - 1, j); }
  }

  lemma {:induction false} NameFrom(entries: seq<Entry>, n: nat, k: Bytes)
    requires n <= |entries| && k in NamesOf(entries, n)
    ensures exists j :: 0 <= j < n && entries[j].key == StrStar(k)
  {
    if entries[n - 1].key != StrStar(k) { NameFrom(entries, n - 1, k); }
  }

  /** The member that entry j names. */
  function MemberAt(nodes: seq<InputNode>, index: nat, entries: seq<Entry>, j: nat): Option<int>
    requires index < |nodes| && j < |entries|
  {
    if !entries[j].key.StrStar? then None
    else
      var at := FieldPosition(FieldsOf(nodes[index]), entries[j].key.s);
      if at.None? then None else Some(FieldsOf(nodes[index])[at.value].node)
  }

  predicate Dropped(nodes: seq<InputNode>, node: int, value: Star) { IsOptional(nodes, node) && value.NoneStar? }

  /** Entry j of a struct converts. */
  ghost predicate MemberConverts(ops: FloatOps, nodes: seq<InputNode>, store: Store, index: nat, entries: seq<Entry>,
                                 j: nat)
    requires index < |nodes| && j < |entries| && PointsBack(nodes[index], index) && nodes[index].kind == InputStruct
  {
    && entries[j].key.StrStar? && MemberAt(nodes, index, entries, j).Some? && entries[j].key.s !in NamesOf(entries, j)
    && var node := MemberAt(nodes, index, entries, j).value;
    Dropped(nodes, node, entries[j].value) || Convert(ops, nodes, store, node, entries[j].value).Some?
  }

  lemma {:induction false} FieldsSome(ops: FloatOps, nodes: seq<InputNode>, store: Store, index: nat,
                                      entries: seq<Entry>, n: nat)
    requires index < |nodes| && nodes[index].kind == InputStruct && PointsBack(nodes[index], index) && n <= |entries|
    ensures var all := ConvertFields(ops, nodes, store, index, entries, n);
            && (all.Some? <==> forall j :: 0 <= j < n ==> MemberConverts(ops, nodes, store, index, entries, j))
  {
    if n > 0 {
      FieldsSome(ops, nodes, store, index, entries, n - 1);
      assert ConvertFields(ops, nodes, store, index, entries, n).Some?
        <==> ConvertFields(ops, nodes, store, index, entries, n - 1).Some?
             && MemberConverts(ops, nodes, store, index, entries, n - 1);
    }
  }

  /** What entry j becomes: nothing if it is dropped, its conversion under its name otherwise. */
  ghost predicate MemberIs(ops: FloatOps, nodes: seq<InputNode>, store: Store, index: nat, entries: seq<Entry>, j: nat,
                           kept: map<Bytes, Value>)
    requires index < |nodes| && j < |entries| && PointsBack(nodes[index], index) && nodes[index].kind == InputStruct
    requires MemberConverts(ops, nodes, store, index, entries, j)
  {
    var node, k := MemberAt(nodes, index, entries, j).value, entries[j].key.s;
    if Dropped(nodes, node, entries[j].value) then k !in kept
    else k in kept && ConvertsTo(Convert(ops, nodes, store, node, entries[j].value), kept[k])
  }

  lemma {:induction false} FieldsAre(ops: FloatOps, nodes: seq<InputNode>, store: Store, index: nat,
                                     entries: seq<Entry>, n: nat, j: nat)
    requires index < |nodes| && nodes[index].kind == InputStruct && PointsBack(nodes[index], index)
    requires j < n <= |entries| && ConvertFields(ops, nodes, store, index, entries, n).Some?
    ensures MemberConverts(ops, nodes, store, index, entries, j)
    ensures MemberIs(ops, nodes, store, index, entries, j,
                     ConvertFields(ops, nodes, store, index, entries, n).value.value)
  {
    FieldsSome(ops, nodes, store, index, entries, n);
    assert MemberConverts(ops, nodes, store, index, entries, n - 1);
    if j < n - 1 {
      FieldsAre(ops, nodes, store, index, entries, n - 1, j);
      NamesHave(entries, n - 1, j);
    } else {
      FieldNames(ops, nodes, store, index, entries, n - 1);
    }
  }

  // ----- the binder takes exactly what the schema takes -----

  ghost predicate Sound(nodes: seq<InputNode>) {
    forall i {:trigger nodes[i]} :: 0 <= i < |nodes| ==>
      PointsBack(nodes[i], i) && (nodes[i].kind == InputStruct ==> DistinctFields(FieldsOf(nodes[i])))
  }

  /** Node i converts the value exactly to what it takes the tree as. */
  ghost predicate Agrees(ops: FloatOps, nodes: seq<InputNode>, store: Store, i: nat, value: Star, a: Arg) {
    forall v :: Takes(ops, nodes, i, a, v) <==> ConvertsTo(Convert(ops, nodes, store, i, value), v)
  }

  lemma {:induction false} ConvertAgrees(ops: FloatOps, nodes: seq<InputNode>, store: Store, i: nat,
                                         value: Star, a: Arg)
    requires Sound(nodes) && i < |nodes| && Denotes(store, value, a)
    ensures Agrees(ops, nodes, store, i, value, a)
    decreases i, 1
  {
    match nodes[i].kind
    case InputOptional => if a != ArgNone { ConvertAgrees(ops, nodes, store, nodes[i].elem, value, a); }
    case InputList => ListAgrees(ops, nodes, store, i, value, a);
    case InputMap => MapAgrees(ops, nodes, store, i, value, a);
    case InputStruct => StructAgrees(ops, nodes, store, i, value, a);
    case _ => ScalarAgrees(ops, nodes, store, i, value, a);
  }

  predicate IsScalar(kind: InputKind) {
    kind == InputString || kind == InputInt || kind == InputBool || kind == InputFloat || kind == UnknownKind
  }

  lemma ScalarAgrees(ops: FloatOps, nodes: seq<InputNode>, store: Store, i: nat, value: Star, a: Arg)
    requires i < |nodes| && IsScalar(nodes[i].kind) && Denotes(store, value, a)
    ensures Agrees(ops, nodes, store, i, value, a)
  {}

  lemma {:induction false} ListAgrees(ops: FloatOps, nodes: seq<InputNode>, store: Store, i: nat, value: Star, a: Arg)
    requires Sound(nodes) && i < |nodes| && nodes[i].kind == InputList && Denotes(store, value, a)
    ensures Agrees(ops, nodes, store, i, value, a)
    decreases i, 0
  {
    var items := SequenceOf(store, value);
    if items.Some? {
      var elem := nodes[i].elem;
      forall n | 0 <= n < |items.value| ensures Agrees(ops, nodes, store, elem, items.value[n], a.items[n]) {
        ConvertAgrees(ops, nodes, store, elem, items.value[n], a.items[n]);
      }
      ItemsSome(ops, nodes, store, elem, items.value, |items.value|);
      ItemsAgree(ops, nodes, store, i, items.value, a);
    }
  }

  lemma ItemsAgree(ops: FloatOps, nodes: seq<InputNode>, store: Store, i: nat, items: seq<Star>, a: Arg)
    requires i < |nodes| && PointsBack(nodes[i], i) && nodes[i].kind == InputList
    requires a.ArgList? && |a.items| == |items|
    requires forall n :: 0 <= n < |items| ==> Agrees(ops, nodes, store, nodes[i].elem, items[n], a.items[n])
    ensures forall v :: Takes(ops, nodes, i, a, v)
                        <==> ConvertsTo(AsList(ConvertItems(ops, nodes, store, nodes[i].elem, items, |items|)), v)
  {
    var elem := nodes[i].elem;
    ItemsSome(ops, nodes, store, elem, items, |items|);
    var all := ConvertItems(ops, nodes, store, elem, items, |items|);
    forall v | ConvertsTo(AsList(all), v) ensures Takes(ops, nodes, i, a, v) {
      forall n | 0 <= n < |items| ensures Takes(ops, nodes, elem, a.items[n], v.items[n]) {
        assert Agrees(ops, nodes, store, elem, items[n], a.items[n]);
      }
    }
    forall v | Takes(ops, nodes, i, a, v) ensures ConvertsTo(AsList(all), v) {
      forall n | 0 <= n < |items| ensures ConvertsTo(Convert(ops, nodes, store, elem, items[n]), v.items[n]) {
        assert Agrees(ops, nodes, store, elem, items[n], a.items[n]);
      }
      assert all.value.value == v.items;
    }
  }

  lemma {:induction false} MapAgrees(ops: FloatOps, nodes: seq<InputNode>, store: Store, i: nat, value: Star, a: Arg)
    requires Sound(nodes) && i < |nodes| && nodes[i].kind == InputMap && Denotes(store, value, a)
    ensures Agrees(ops, nodes, store, i, value, a)
    decreases i, 0
  {
    var entries := DictOf(store, value);
    if entries.Some? {
      var elem := nodes[i].elem;
      forall n | 0 <= n < |entries.value|
        ensures Agrees(ops, nodes, store, elem, entries.value[n].value, a.fields[entries.value[n].key.s]) {
        ConvertAgrees(ops, nodes, store, elem, entries.value[n].value, a.fields[entries.value[n].key.s]);
      }
      EntriesAgree(ops, nodes, store, i, entries.value, a);
    }
  }

  lemma EntriesAgree(ops: FloatOps, nodes: seq<InputNode>, store: Store, i: nat, entries: seq<Entry>, a: Arg)
    requires i < |nodes| && PointsBack(nodes[i], i) && nodes[i].kind == InputMap
    requires DistinctKeys(entries) && DenotesEntries(store, entries, a)
    requires forall n :: 0 <= n < |entries| ==>
               Agrees(ops, nodes, store, nodes[i].elem, entries[n].value, a.fields[entries[n].key.s])
    ensures forall v :: Takes(ops, nodes, i, a, v)
                        <==> ConvertsTo(AsObj(ConvertMap(ops, nodes, store, nodes[i].elem, entries, |entries|)), v)
  {
    var all := ConvertMap(ops, nodes, store, nodes[i].elem, entries, |entries|);
    if all.Some? { EntriesTaken(ops, nodes, store, i, entries, a); }
    forall v | Takes(ops, nodes, i, a, v) ensures ConvertsTo(AsObj(all), v) {
      EntriesConvert(ops, nodes, store, i, entries, a, v);
    }
  }

  lemma EntriesTaken(ops: FloatOps, nodes: seq<InputNode>, store: Store, i: nat, entries: seq<Entry>, a: Arg)
    requires i < |nodes| && PointsBack(nodes[i], i) && nodes[i].kind == InputMap
    requires DistinctKeys(entries) && DenotesEntries(store, entries, a)
    requires forall n :: 0 <= n < |entries| ==>
               Agrees(ops, nodes, store, nodes[i].elem, entries[n].value, a.fields[entries[n].key.s])
    requires ConvertMap(ops, nodes, store, nodes[i].elem, entries, |entries|).Some?
    ensures Takes(ops, nodes, i, a, Obj(ConvertMap(ops, nodes, store, nodes[i].elem, entries, |entries|).value.value))
  {
    var elem := nodes[i].elem;
    var kept := ConvertMap(ops, nodes, store, elem, entries, |entries|).value.value;
    MapNames(ops, nodes, store, elem, entries, |entries|);
    forall k | k in kept ensures k in a.fields { NameFrom(entries, |entries|, k); }
    forall k | k in a.fields ensures k in kept {
      assert HasKey(entries, k);
      NamesHave(entries, |entries|, KeyAt(entries, k));
    }
    forall k | k in a.fields { EntryTaken(ops, nodes, store, elem, entries, a, k); }
  }

  ghost function KeyAt(entries: seq<Entry>, k: Bytes): (n: nat)
    requires HasKey(entries, k)
    ensures n < |entries| && entries[n].key == StrStar(k)
  {
    var n :| 0 <= n < |entries| && entries[n].key == StrStar(k);
    n
  }

  lemma EntryTaken(ops: FloatOps, nodes: seq<InputNode>, store: Store, elem: nat, entries: seq<Entry>, a: Arg, k: Bytes)
    requires DistinctKeys(entries) && DenotesEntries(store, entries, a) && k in a.fields
    requires forall n :: 0 <= n < |entries|
               ==> Agrees(ops, nodes, store, elem, entries[n].value, a.fields[entries[n].key.s])
    requires ConvertMap(ops, nodes, store, elem, entries, |entries|).Some?
    ensures var kept := ConvertMap(ops, nodes, store, elem, entries, |entries|).value.value;
            k in kept ==> Takes(ops, nodes, elem, a.fields[k], kept[k])
  {
    assert HasKey(entries, k);
    var n := KeyAt(entries, k);
    EntryAt(ops, nodes, store, elem, entries, n);
  }

  lemma TakenAs(ops: FloatOps, nodes: seq<InputNode>, store: Store, i: nat, value: Star, a: Arg, v: Value)
    requires Agrees(ops, nodes, store, i, value, a)
    ensures Takes(ops, nodes, i, a, v) <==> ConvertsTo(Convert(ops, nodes, store, i, value), v)
  {}

  /** Entry j's conversion is under its name. */
  ghost predicate EntryIs(ops: FloatOps, nodes: seq<InputNode>, store: Store, elem: nat, entries: seq<Entry>, j: nat,
                          kept: map<Bytes, Value>)
    requires j < |entries|
  {
    && EntryConverts(ops, nodes, store, elem, entries, j) && entries[j].key.s in kept
    && ConvertsTo(Convert(ops, nodes, store, elem, entries[j].value), kept[entries[j].key.s])
  }

  lemma EntryAt(ops: FloatOps, nodes: seq<InputNode>, store: Store, elem: nat, entries: seq<Entry>, j: nat)
    requires j < |entries| && DistinctKeys(entries)
    requires ConvertMap(ops, nodes, store, elem, entries, |entries|).Some?
    ensures EntryIs(ops, nodes, store, elem, entries, j,
                    ConvertMap(ops, nodes, store, elem, entries, |entries|).value.value)
  {
    MapSome(ops, nodes, store, elem, entries, |entries|);
    MapAre(ops, nodes, store, elem, entries, |entries|, j);
  }

  /** The map that holds every entry's conversion and nothing else is the one that is built. */
  lemma SameEntries(ops: FloatOps, nodes: seq<InputNode>, store: Store, elem: nat, entries: seq<Entry>,
                    m: map<Bytes, Value>)
    requires DistinctKeys(entries) && forall k :: k in m ==> HasKey(entries, k)
    requires forall j :: 0 <= j < |entries| ==> EntryIs(ops, nodes, store, elem, entries, j, m)
    ensures var all := ConvertMap(ops, nodes, store, elem, entries, |entries|); all.Some? && all.value.value == m
  {
    forall j | 0 <= j < |entries| ensures EntryConverts(ops, nodes, store, elem, entries, j) {
      assert EntryIs(ops, nodes, store, elem, entries, j, m);
    }
    MapSome(ops, nodes, store, elem, entries, |entries|);
    var kept := ConvertMap(ops, nodes, store, elem, entries, |entries|).value.value;
    MapNames(ops, nodes, store, elem, entries, |entries|);
    forall k ensures k in kept <==> k in m
             ensures k in kept && k in m ==> kept[k] == m[k] {
      if k in kept || k in m {
        if k in kept { NameFrom(entries, |entries|, k); } else { assert HasKey(entries, k); }
        var j :| 0 <= j < |entries| && entries[j].key == StrStar(k);
        EntryAt(ops, nodes, store, elem, entries, j);
        assert EntryIs(ops, nodes, store, elem, entries, j, m);
      }
    }
  }

  lemma EntriesConvert(ops: FloatOps, nodes: seq<InputNode>, store: Store, i: nat, entries: seq<Entry>, a: Arg,
                       v: Value)
    requires i < |nodes| && PointsBack(nodes[i], i) && nodes[i].kind == InputMap
    requires DistinctKeys(entries) && DenotesEntries(store, entries, a)
    requires forall n :: 0 <= n < |entries| ==>
               Agrees(ops, nodes, store, nodes[i].elem, entries[n].value, a.fields[entries[n].key.s])
    requires Takes(ops, nodes, i, a, v)
    ensures ConvertsTo(AsObj(ConvertMap(ops, nodes, store, nodes[i].elem, entries, |entries|)), v)
  {
    var elem := nodes[i].elem;
    forall n | 0 <= n < |entries| ensures EntryIs(ops, nodes, store, elem, entries, n, v.fields) {
      var k := entries[n].key.s;
      TakenAs(ops, nodes, store, elem, entries[n].value, a.fields[k], v.fields[k]);
    }
    SameEntries(ops, nodes, store, elem, entries, v.fields);
  }

  lemma {:induction false} StructAgrees(ops: FloatOps, nodes: seq<InputNode>, store: Store, i: nat, value: Star, a: Arg)
    requires Sound(nodes) && i < |nodes| && nodes[i].kind == InputStruct && Denotes(store, value, a)
    ensures Agrees(ops, nodes, store, i, value, a)
    decreases i, 0
  {
    var entries := DictOf(store, value);
    if entries.Some? {
      MembersAgree(ops, nodes, store, i, entries.value, a);
    }
  }

  /** Every member named by an entry agrees with its tree. */
  ghost predicate MembersAgreeAt(ops: FloatOps, nodes: seq<InputNode>, store: Store, i: nat,
                                 entries: seq<Entry>, a: Arg)
    requires i < |nodes| && PointsBack(nodes[i], i) && nodes[i].kind == InputStruct && DenotesEntries(store, entries, a)
  {
    forall j :: 0 <= j < |entries| && MemberAt(nodes, i, entries, j).Some? ==>
      Agrees(ops, nodes, store, MemberAt(nodes, i, entries, j).value, entries[j].value, a.fields[entries[j].key.s])
  }

  lemma {:induction false} MembersAgree(ops: FloatOps, nodes: seq<InputNode>, store: Store, i: nat, entries: seq<Entry>,
                                        a: Arg)
    requires Sound(nodes) && i < |nodes| && nodes[i].kind == InputStruct && DenotesEntries(store, entries, a)
    ensures forall v :: Takes(ops, nodes, i, a, v)
                        <==> ConvertsTo(AsObj(ConvertStruct(ops, nodes, store, i, entries)), v)
    decreases i, 0, 0
  {
    forall j | 0 <= j < |entries| && MemberAt(nodes, i, entries, j).Some?
      ensures Agrees(ops, nodes, store, MemberAt(nodes, i, entries, j).value, entries[j].value,
                     a.fields[entries[j].key.s]) {
      ConvertAgrees(ops, nodes, store, MemberAt(nodes, i, entries, j).value, entries[j].value,
                    a.fields[entries[j].key.s]);
    }
    if ConvertStruct(ops, nodes, store, i, entries).Some? { MembersTaken(ops, nodes, store, i, entries, a); }
    forall v | Takes(ops, nodes, i, a, v) ensures ConvertsTo(AsObj(ConvertStruct(ops, nodes, store, i, entries)), v) {
      MembersConvert(ops, nodes, store, i, entries, a, v);
    }
  }

  /** The entry of a declared member. */
  lemma EntryOf(store: Store, nodes: seq<InputNode>, i: nat, entries: seq<Entry>, a: Arg, n: nat) returns (j: nat)
    requires i < |nodes| && nodes[i].kind == InputStruct && DistinctFields(FieldsOf(nodes[i]))
    requires DenotesEntries(store, entries, a) && n < |FieldsOf(nodes[i])| && FieldsOf(nodes[i])[n].name in a.fields
    ensures j < |entries| && entries[j].key == StrStar(FieldsOf(nodes[i])[n].name)
    ensures MemberAt(nodes, i, entries, j) == Some(FieldsOf(nodes[i])[n].node)
    ensures Denotes(store, entries[j].value, a.fields[entries[j].key.s])
  {
    var name := FieldsOf(nodes[i])[n].name;
    assert HasKey(entries, name);
    j :| 0 <= j < |entries| && entries[j].key == StrStar(name);
    FieldAt(FieldsOf(nodes[i]), n);
  }

  lemma MembersTaken(ops: FloatOps, nodes: seq<InputNode>, store: Store, i: nat, entries: seq<Entry>, a: Arg)
    requires Sound(nodes) && i < |nodes| && nodes[i].kind == InputStruct && DenotesEntries(store, entries, a)
    requires MembersAgreeAt(ops, nodes, store, i, entries, a)
    requires ConvertStruct(ops, nodes, store, i, entries).Some?
    ensures Takes(ops, nodes, i, a, Obj(ConvertStruct(ops, nodes, store, i, entries).value.value))
  {
    var fields := FieldsOf(nodes[i]);
    var kept := ConvertStruct(ops, nodes, store, i, entries).value.value;
    FieldsSome(ops, nodes, store, i, entries, |entries|);
    FieldNames(ops, nodes, store, i, entries, |entries|);
    forall k | k in a.fields ensures Declared(fields, k) {
      assert HasKey(entries, k);
      assert MemberConverts(ops, nodes, store, i, entries, KeyAt(entries, k));
    }
    forall k | k in kept ensures k in a.fields { NameFrom(entries, |entries|, k); }
    forall n | 0 <= n < |fields| && fields[n].name !in a.fields ensures IsOptional(nodes, fields[n].node) {
      if !IsOptional(nodes, fields[n].node) { NameFrom(entries, |entries|, fields[n].name); }
    }
    forall n | 0 <= n < |fields| && fields[n].name in a.fields {
      MemberKept(ops, nodes, store, i, entries, a, n);
    }
  }

  lemma MemberKept(ops: FloatOps, nodes: seq<InputNode>, store: Store, i: nat, entries: seq<Entry>, a: Arg, n: nat)
    requires Sound(nodes) && i < |nodes| && nodes[i].kind == InputStruct && DenotesEntries(store, entries, a)
    requires MembersAgreeAt(ops, nodes, store, i, entries, a)
    requires ConvertFields(ops, nodes, store, i, entries, |entries|).Some?
    requires n < |FieldsOf(nodes[i])| && FieldsOf(nodes[i])[n].name in a.fields
    ensures var kept := ConvertFields(ops, nodes, store, i, entries, |entries|).value.value;
            var field := FieldsOf(nodes[i])[n];
            && (field.name !in kept <==> IsOptional(nodes, field.node) && a.fields[field.name] == ArgNone)
            && (field.name in kept ==> Takes(ops, nodes, field.node, a.fields[field.name], kept[field.name]))
  {
    var j := EntryOf(store, nodes, i, entries, a, n);
    FieldsAre(ops, nodes, store, i, entries, |entries|, j);
    NoneIsNone(store, entries[j].value, a.fields[entries[j].key.s]);
  }

  lemma OwnKeyIsNew(entries: seq<Entry>, n: nat)
    requires n < |entries| && OwnKey(entries, n)
    ensures entries[n].key.s !in NamesOf(entries, n)
  {
    if entries[n].key.s in NamesOf(entries, n) { NameFrom(entries, n, entries[n].key.s); }
  }

  lemma MembersConvert(ops: FloatOps, nodes: seq<InputNode>, store: Store, i: nat, entries: seq<Entry>, a: Arg,
                       v: Value)
    requires Sound(nodes) && i < |nodes| && nodes[i].kind == InputStruct && DenotesEntries(store, entries, a)
    requires MembersAgreeAt(ops, nodes, store, i, entries, a)
    requires Takes(ops, nodes, i, a, v)
    ensures ConvertsTo(AsObj(ConvertStruct(ops, nodes, store, i, entries)), v)
  {
    var fields := FieldsOf(nodes[i]);
    forall j | 0 <= j < |entries|
      ensures MemberConverts(ops, nodes, store, i, entries, j)
      ensures MemberIs(ops, nodes, store, i, entries, j, v.fields) {
      MemberTaken(ops, nodes, store, i, entries, a, v, j);
    }
    FieldsSome(ops, nodes, store, i, entries, |entries|);
    forall n | 0 <= n < |fields| && !IsOptional(nodes, fields[n].node)
      ensures fields[n].name in NamesOf(entries, |entries|) {
      var j := EntryOf(store, nodes, i, entries, a, n);
      NamesHave(entries, |entries|, j);
    }
    var kept := ConvertFields(ops, nodes, store, i, entries, |entries|).value.value;
    SameKept(ops, nodes, store, i, entries, a, v.fields);
    assert kept == v.fields;
  }

  lemma MemberTaken(ops: FloatOps, nodes: seq<InputNode>, store: Store, i: nat, entries: seq<Entry>, a: Arg,
                    v: Value, j: nat)
    requires Sound(nodes) && i < |nodes| && nodes[i].kind == InputStruct && DenotesEntries(store, entries, a)
    requires MembersAgreeAt(ops, nodes, store, i, entries, a) && Takes(ops, nodes, i, a, v) && j < |entries|
    ensures MemberConverts(ops, nodes, store, i, entries, j)
    ensures MemberIs(ops, nodes, store, i, entries, j, v.fields)
  {
    var fields := FieldsOf(nodes[i]);
    assert OwnKey(entries, j);
    OwnKeyIsNew(entries, j);
    var k := entries[j].key.s;
    assert Declared(fields, k);
    var n :| 0 <= n < |fields| && fields[n].name == k;
    FieldAt(fields, n);
    assert MemberAt(nodes, i, entries, j) == Some(fields[n].node);
    if k in v.fields {
      TakenAs(ops, nodes, store, fields[n].node, entries[j].value, a.fields[k], v.fields[k]);
    }
    NoneIsNone(store, entries[j].value, a.fields[k]);
  }

  lemma NoneIsNone(store: Store, value: Star, a: Arg)
    requires Denotes(store, value, a)
    ensures value.NoneStar? <==> a == ArgNone
  {}

  /** The struct's own map is the one that holds every member of it. */
  lemma SameKept(ops: FloatOps, nodes: seq<InputNode>, store: Store, i: nat, entries: seq<Entry>, a: Arg,
                 m: map<Bytes, Value>)
    requires i < |nodes| && nodes[i].kind == InputStruct && PointsBack(nodes[i], i) && DenotesEntries(store, entries, a)
    requires ConvertFields(ops, nodes, store, i, entries, |entries|).Some?
    requires forall k :: k in m ==> k in a.fields
    requires forall j :: 0 <= j < |entries| ==>
               MemberConverts(ops, nodes, store, i, entries, j) && MemberIs(ops, nodes, store, i, entries, j, m)
    ensures ConvertFields(ops, nodes, store, i, entries, |entries|).value.value == m
  {
    var kept := ConvertFields(ops, nodes, store, i, entries, |entries|).value.value;
    FieldNames(ops, nodes, store, i, entries, |entries|);
    forall k ensures k in kept <==> k in m
             ensures k in kept && k in m ==> kept[k] == m[k] {
      if k in kept || k in m {
        if k in kept { NameFrom(entries, |entries|, k); } else { assert HasKey(entries, k); }
        var j :| 0 <= j < |entries| && entries[j].key == StrStar(k);
        FieldsAre(ops, nodes, store, i, entries, |entries|, j);
      }
    }
  }

  // ----- whatever converts is a finite tree -----

  ghost predicate HasTree(store: Store, s: Star) { exists a :: Denotes(store, s, a) }

  ghost function TreeOf(store: Store, s: Star): (a: Arg)
    requires HasTree(store, s)
    ensures Denotes(store, s, a)
  {
    var a :| Denotes(store, s, a);
    a
  }

  ghost predicate EntriesHaveTree(store: Store, entries: seq<Entry>) { exists a :: DenotesEntries(store, entries, a) }

  lemma ItemsHaveTree(store: Store, items: seq<Star>) returns (a: Arg)
    requires forall j :: 0 <= j < |items| ==> HasTree(store, items[j])
    ensures DenotesItems(store, items, a)
  {
    a := ArgList(seq(|items|, j requires 0 <= j < |items| && HasTree(store, items[j]) => TreeOf(store, items[j])));
  }

  /** Entries that all have a key of their own and a tree are a tree. */
  lemma KeyedHaveTree(store: Store, entries: seq<Entry>)
    requires forall j :: 0 <= j < |entries| ==> OwnKey(entries, j) && HasTree(store, entries[j].value)
    ensures EntriesHaveTree(store, entries)
  {
    var names := NamesOf(entries, |entries|);
    forall k | k in names ensures HasKey(entries, k) { NameFrom(entries, |entries|, k); }
    var fields := map k | k in names && HasKey(entries, k) :: TreeOf(store, entries[KeyAt(entries, k)].value);
    forall j | 0 <= j < |entries|
      ensures entries[j].key.s in fields && Denotes(store, entries[j].value, fields[entries[j].key.s]) {
      assert OwnKey(entries, j);
      NamesHave(entries, |entries|, j);
      var n := KeyAt(entries, entries[j].key.s);
      assert OwnKey(entries, n);
      assert n == j;
    }
    assert DenotesEntries(store, entries, ArgDict(fields));
  }

  lemma NewIsOwnKey(entries: seq<Entry>, n: nat)
    requires n < |entries| && entries[n].key.StrStar? && entries[n].key.s !in NamesOf(entries, n)
    ensures OwnKey(entries, n)
  {
    forall m | 0 <= m < n ensures entries[m].key != entries[n].key {
      if entries[m].key == entries[n].key { NamesHave(entries, n, m); }
    }
  }

  lemma {:induction false} ConvertedHasTree(ops: FloatOps, nodes: seq<InputNode>, store: Store, i: nat, value: Star)
    requires Convert(ops, nodes, store, i, value).Some?
    ensures HasTree(store, value)
    decreases i, 1
  {
    var node := nodes[i];
    match node.kind
    case InputOptional =>
      if value.NoneStar? { NoneHasTree(store); } else { ConvertedHasTree(ops, nodes, store, nodes[i].elem, value); }
    case InputList =>
      var items := SequenceOf(store, value).value;
      ItemsSome(ops, nodes, store, nodes[i].elem, items, |items|);
      forall j | 0 <= j < |items| ensures HasTree(store, items[j]) {
        ConvertedHasTree(ops, nodes, store, nodes[i].elem, items[j]);
      }
      var a := ItemsHaveTree(store, items);
      assert Denotes(store, value, a);
    case InputMap =>
      var entries := DictOf(store, value).value;
      MapSome(ops, nodes, store, nodes[i].elem, entries, |entries|);
      forall j | 0 <= j < |entries| ensures OwnKey(entries, j) && HasTree(store, entries[j].value) {
        assert EntryConverts(ops, nodes, store, nodes[i].elem, entries, j);
        NewIsOwnKey(entries, j);
        ConvertedHasTree(ops, nodes, store, nodes[i].elem, entries[j].value);
      }
      KeyedHaveTree(store, entries);
      DictHasTree(store, value, entries);
    case InputStruct =>
      var entries := DictOf(store, value).value;
      StructHasTree(ops, nodes, store, i, entries);
      DictHasTree(store, value, entries);
    case _ => ScalarHasTree(ops, node, store, value);
  }

  lemma NoneHasTree(store: Store)
    ensures HasTree(store, NoneStar)
  {
    assert Denotes(store, NoneStar, ArgNone);
  }

  lemma DictHasTree(store: Store, value: Star, entries: seq<Entry>)
    requires DictOf(store, value) == Some(entries) && EntriesHaveTree(store, entries)
    ensures HasTree(store, value)
  {
    var a :| DenotesEntries(store, entries, a);
    assert Denotes(store, value, a);
  }

  lemma ScalarHasTree(ops: FloatOps, node: InputNode, store: Store, value: Star)
    requires BindScalar(ops, node, value).Some?
    ensures HasTree(store, value)
  {
    match value
    case StrStar(t) => assert Denotes(store, value, ArgStr(t));
    case BoolStar(b) => assert Denotes(store, value, ArgBool(b));
    case IntStar(i) => assert Denotes(store, value, ArgInt(i));
    case FloatStar(x) => assert Denotes(store, value, ArgFloat(x));
  }

  lemma {:induction false} StructHasTree(ops: FloatOps, nodes: seq<InputNode>, store: Store, i: nat,
                                         entries: seq<Entry>)
    requires i < |nodes| && nodes[i].kind == InputStruct && PointsBack(nodes[i], i)
    requires ConvertStruct(ops, nodes, store, i, entries).Some?
    ensures EntriesHaveTree(store, entries)
    decreases i, 0
  {
    FieldsSome(ops, nodes, store, i, entries, |entries|);
    forall j | 0 <= j < |entries| ensures OwnKey(entries, j) && HasTree(store, entries[j].value) {
      assert MemberConverts(ops, nodes, store, i, entries, j);
      NewIsOwnKey(entries, j);
      if entries[j].value.NoneStar? {
        NoneHasTree(store);
      } else {
        ConvertedHasTree(ops, nodes, store, MemberAt(nodes, i, entries, j).value, entries[j].value);
      }
    }
    KeyedHaveTree(store, entries);
  }

  // ----- the whole call -----

  /** A value converts exactly when it is a finite tree that the schema takes, and to what it is
      taken as. */
  lemma ConvertIff(ops: FloatOps, nodes: seq<InputNode>, store: Store, i: nat, value: Star, v: Value)
    requires Sound(nodes) && i < |nodes|
    ensures ConvertsTo(Convert(ops, nodes, store, i, value), v)
            <==> exists a :: Denotes(store, value, a) && Takes(ops, nodes, i, a, v)
  {
    if ConvertsTo(Convert(ops, nodes, store, i, value), v) {
      ConvertedHasTree(ops, nodes, store, i, value);
      var a := TreeOf(store, value);
      ConvertAgrees(ops, nodes, store, i, value, a);
      TakenAs(ops, nodes, store, i, value, a, v);
    } else if a :| Denotes(store, value, a) && Takes(ops, nodes, i, a, v) {
      ConvertAgrees(ops, nodes, store, i, value, a);
      TakenAs(ops, nodes, store, i, value, a, v);
    }
  }

  /** The keyword arguments are a tree that node i takes as v. */
  ghost predicate Given(ops: FloatOps, nodes: seq<InputNode>, store: Store, i: int, kwargs: seq<Entry>, v: Value) {
    exists a :: DenotesEntries(store, kwargs, a) && Takes(ops, nodes, i, a, v)
  }

  lemma StructIff(ops: FloatOps, nodes: seq<InputNode>, store: Store, i: nat, entries: seq<Entry>, v: Value)
    requires Sound(nodes) && i < |nodes| && nodes[i].kind == InputStruct
    ensures ConvertsTo(AsObj(ConvertStruct(ops, nodes, store, i, entries)), v)
            <==> Given(ops, nodes, store, i, entries, v)
  {
    if ConvertsTo(AsObj(ConvertStruct(ops, nodes, store, i, entries)), v) {
      StructHasTree(ops, nodes, store, i, entries);
      var a :| DenotesEntries(store, entries, a);
      MembersAgree(ops, nodes, store, i, entries, a);
    } else if Given(ops, nodes, store, i, entries, v) {
      var a :| DenotesEntries(store, entries, a) && Takes(ops, nodes, i, a, v);
      MembersAgree(ops, nodes, store, i, entries, a);
    }
  }

  /** A call binds exactly when its keyword arguments, each name given once, are finite trees that
      the schema takes, and to what they are taken as. */
  lemma CallIff(lib: NameLib, ops: FloatOps, schema: InputSchema, store: Store, kwargs: seq<Entry>, v: Value)
    requires SchemaOk(lib, schema)
    ensures ConvertsTo(ConvertCall(ops, schema, store, kwargs), v)
            <==> Given(ops, schema.nodes, store, schema.root, kwargs, v)
  {
    SchemaSound(lib, schema);
    assert NodeOk(lib, schema.nodes, schema.root);
    StructIff(ops, schema.nodes, store, schema.root, kwargs, v);
  }

  lemma SchemaSound(lib: NameLib, schema: InputSchema)
    requires SchemaOk(lib, schema)
    ensures Sound(schema.nodes)
  {
    forall i {:trigger schema.nodes[i]} | 0 <= i < |schema.nodes|
      ensures PointsBack(schema.nodes[i], i)
              && (schema.nodes[i].kind == InputStruct ==> DistinctFields(FieldsOf(schema.nodes[i]))) {
      assert NodeOk(lib, schema.nodes, i);
    }
  }

  // ----- without the schema -----

  /** v says what a says: an integer may have become a float, a float its narrowing, and an object
      may lack members that are None. */
  ghost predicate Resembles(ops: FloatOps, a: Arg, v: Value)
    decreases a
  {
    match a
    case ArgNone => v == Null
    case ArgBool(b) => v == Bool(b)
    case ArgStr(s) => v == Str(s)
    case ArgInt(i) => (v.Int? && v.i == i) || (v.Real? && Nearly(ops, ops.ofInt(i), v.x))
    case ArgFloat(x) => v.Real? && Nearly(ops, x, v.x)
    case ArgList(items) =>
      v.List? && |v.items| == |items| && forall n :: 0 <= n < |items| ==> Resembles(ops, items[n], v.items[n])
    case ArgDict(fields) =>
      && v.Obj? && v.fields.Keys <= fields.Keys
      && forall k :: k in fields ==> if k in v.fields then Resembles(ops, fields[k], v.fields[k])
                                     else fields[k] == ArgNone
  }

  predicate Nearly(ops: FloatOps, given: Float64, kept: Float64) {
    given.Finite? && (kept == given || (!ops.overflows(given.bits) && kept == Finite(ops.narrow(given.bits))))
  }

  lemma {:induction false} TakenResembles(ops: FloatOps, nodes: seq<InputNode>, i: nat, a: Arg, v: Value)
    requires Takes(ops, nodes, i, a, v)
    ensures Resembles(ops, a, v)
    decreases i
  {
    var node := nodes[i];
    match node.kind
    case InputOptional => if a != ArgNone { TakenResembles(ops, nodes, node.elem, a, v); }
    case InputList =>
      forall n | 0 <= n < |a.items| ensures Resembles(ops, a.items[n], v.items[n]) {
        TakenResembles(ops, nodes, node.elem, a.items[n], v.items[n]);
      }
    case InputMap =>
      forall k | k in a.fields ensures Resembles(ops, a.fields[k], v.fields[k]) {
        TakenResembles(ops, nodes, node.elem, a.fields[k], v.fields[k]);
      }
    case InputStruct =>
      forall k | k in a.fields
        ensures if k in v.fields then Resembles(ops, a.fields[k], v.fields[k]) else a.fields[k] == ArgNone {
        assert Declared(FieldsOf(node), k);
        var n :| 0 <= n < |FieldsOf(node)| && FieldsOf(node)[n].name == k;
        if k in v.fields { TakenResembles(ops, nodes, FieldsOf(node)[n].node, a.fields[k], v.fields[k]); }
      }
    case _ =>
  }

  /** A value as the tree that says exactly it. */
  function Written(v: Value): Arg {
    match v
    case Null => ArgNone
    case Bool(b) => ArgBool(b)
    case Str(s) => ArgStr(s)
    case Int(i) => ArgInt(i)
    case Real(x) => ArgFloat(x)
    case List(items) => ArgList(seq(|items|, n requires 0 <= n < |items| => Written(items[n])))
    case Obj(fields) => ArgDict(map k | k in fields :: Written(fields[k]))
    case Unsupported => ArgNone
  }

  /** No float, and no member that is optional, at or below node i. */
  ghost predicate Plain(nodes: seq<InputNode>, i: int)
    decreases i
  {
    0 <= i < |nodes| && PointsBack(nodes[i], i) &&
    match nodes[i].kind
    case InputFloat => false
    case InputOptional => Plain(nodes, nodes[i].elem)
    case InputList => Plain(nodes, nodes[i].elem)
    case InputMap => Plain(nodes, nodes[i].elem)
    case InputStruct =>
      forall n :: 0 <= n < |FieldsOf(nodes[i])| ==>
        !IsOptional(nodes, FieldsOf(nodes[i])[n].node) && Plain(nodes, FieldsOf(nodes[i])[n].node)
    case _ => true
  }

  lemma {:induction false} PlainIsKept(ops: FloatOps, nodes: seq<InputNode>, i: nat, a: Arg, v: Value)
    requires Takes(ops, nodes, i, a, v) && Plain(nodes, i)
    ensures a == Written(v)
    decreases i
  {
    var node := nodes[i];
    match node.kind
    case InputOptional => if a != ArgNone { PlainIsKept(ops, nodes, node.elem, a, v); }
    case InputList =>
      forall n | 0 <= n < |a.items| ensures a.items[n] == Written(v.items[n]) {
        PlainIsKept(ops, nodes, node.elem, a.items[n], v.items[n]);
      }
    case InputMap =>
      forall k | k in a.fields ensures a.fields[k] == Written(v.fields[k]) {
        PlainIsKept(ops, nodes, node.elem, a.fields[k], v.fields[k]);
      }
      assert a.fields == Written(v).fields;
    case InputStruct =>
      forall k | k in a.fields ensures k in v.fields && a.fields[k] == Written(v.fields[k]) {
        assert Declared(FieldsOf(node), k);
        var n :| 0 <= n < |FieldsOf(node)| && FieldsOf(node)[n].name == k;
        PlainIsKept(ops, nodes, FieldsOf(node)[n].node, a.fields[k], v.fields[k]);
      }
      assert a.fields == Written(v).fields;
    case _ =>
  }

  // ----- values that the any-converter unfolds -----

  /** What FromStarlark converts, said from the value it yields: s unfolds to t exactly when t is
      supported and s denotes t as written. */
  lemma {:induction false} UnfoldsIff(store: Store, s: Star, t: Value)
    ensures Unfolds(StarViews(store), s, t) <==> Supported(t) && Denotes(store, s, Written(t))
    decreases t, 1
  {
    match s
    case Tuple(items) => if t.List? { ItemsUnfoldIff(store, s, items, t); }
    case ListRef(r) => if t.List? && IsList(store, r) { ItemsUnfoldIff(store, s, store[r].items, t); }
    case DictRef(r) => if t.Obj? && IsDict(store, r) { EntriesUnfoldIff(store, s, store[r].entries, t); }
    case _ =>
  }

  lemma {:induction false} ItemsUnfoldIff(store: Store, s: Star, items: seq<Star>, t: Value)
    requires SequenceOf(store, s) == Some(items) && t.List?
    ensures Unfolds(StarViews(store), s, t) <==> Supported(t) && Denotes(store, s, Written(t))
    decreases t, 0
  {
    if |items| == |t.items| {
      forall n | 0 <= n < |items|
        ensures Unfolds(StarViews(store), items[n], t.items[n])
                <==> Supported(t.items[n]) && Denotes(store, items[n], Written(t.items[n])) {
        UnfoldsIff(store, items[n], t.items[n]);
      }
    }
  }

  lemma {:induction false} EntriesUnfoldIff(store: Store, s: Star, entries: DictEntries, t: Value)
    requires DictOf(store, s) == Some(entries) && t.Obj?
    ensures Unfolds(StarViews(store), s, t) <==> Supported(t) && Denotes(store, s, Written(t))
    decreases t, 0
  {
    forall n | 0 <= n < |entries| ensures EntryUnfoldsIff(store, entries, t, n) {
      if entries[n].key.StrStar? && entries[n].key.s in t.fields {
        UnfoldsIff(store, entries[n].value, t.fields[entries[n].key.s]);
      }
    }
    if Unfolds(StarViews(store), s, t) {
      EntriesDenote(store, entries, t);
    } else if Supported(t) && Denotes(store, s, Written(t)) {
      EntriesUnfold(store, s, entries, t);
    }
  }

  /** Entry n unfolds to the member under its key exactly when it denotes it. */
  ghost predicate EntryUnfoldsIff(store: Store, entries: seq<Entry>, t: Value, n: nat)
    requires n < |entries| && t.Obj?
  {
    entries[n].key.StrStar? && entries[n].key.s in t.fields ==>
      (Unfolds(StarViews(store), entries[n].value, t.fields[entries[n].key.s])
       <==> Supported(t.fields[entries[n].key.s])
            && Denotes(store, entries[n].value, Written(t.fields[entries[n].key.s])))
  }

  lemma EntriesDenote(store: Store, entries: DictEntries, t: Value)
    requires t.Obj? && StringKeys(entries) && t.fields.Keys == EntryMap(entries).Keys
    requires forall k :: k in t.fields ==> Unfolds(StarViews(store), EntryMap(entries)[k], t.fields[k])
    requires forall n :: 0 <= n < |entries| ==> EntryUnfoldsIff(store, entries, t, n)
    ensures Supported(t) && DenotesEntries(store, entries, Written(t))
  {
    EntryMapNames(entries, |entries|);
    forall n | 0 <= n < |entries|
      ensures OwnKey(entries, n) && entries[n].key.s in t.fields
      ensures Supported(t.fields[entries[n].key.s])
              && Denotes(store, entries[n].value, Written(t.fields[entries[n].key.s])) {
      EntryMapAt(entries, |entries|, n);
      NewIsOwnKey(entries, n);
      assert EntryUnfoldsIff(store, entries, t, n);
    }
    forall k | k in t.fields ensures HasKey(entries, k) && Supported(t.fields[k]) {
      NameFrom(entries, |entries|, k);
      assert entries[KeyAt(entries, k)].key.s == k;
    }
  }

  lemma {:induction false} OwnKeysAreStrings(entries: seq<Entry>, n: nat)
    requires n <= |entries| && forall j :: 0 <= j < |entries| ==> OwnKey(entries, j)
    ensures StringKeysTo(entries, n)
  {
    if n > 0 {
      OwnKeysAreStrings(entries, n - 1);
      assert OwnKey(entries, n - 1);
    }
  }

  lemma EntriesUnfold(store: Store, s: Star, entries: DictEntries, t: Value)
    requires DictOf(store, s) == Some(entries) && t.Obj? && Supported(t)
    requires DenotesEntries(store, entries, Written(t))
    requires forall n :: 0 <= n < |entries| ==> EntryUnfoldsIff(store, entries, t, n)
    ensures Unfolds(StarViews(store), s, t)
  {
    KeysUnfold(store, entries, t);
    forall k | k in t.fields ensures Unfolds(StarViews(store), EntryMap(entries)[k], t.fields[k]) {
      EntryUnfolds(store, entries, t, k);
    }
    assert StarViews(store)(s) == StarView(store, s);
  }

  lemma KeysUnfold(store: Store, entries: DictEntries, t: Value)
    requires t.Obj? && DenotesEntries(store, entries, Written(t))
    ensures StringKeys(entries) && t.fields.Keys == EntryMap(entries).Keys
  {
    OwnKeysAreStrings(entries, |entries|);
    EntryMapNames(entries, |entries|);
    forall k | k in t.fields ensures k in EntryMap(entries) {
      assert HasKey(entries, k);
      NamesHave(entries, |entries|, KeyAt(entries, k));
    }
    forall k | k in EntryMap(entries) ensures k in t.fields { NameFrom(entries, |entries|, k); }
  }

  lemma EntryUnfolds(store: Store, entries: DictEntries, t: Value, k: Bytes)
    requires t.Obj? && Supported(t) && StringKeys(entries) && k in t.fields
    requires DenotesEntries(store, entries, Written(t))
    requires forall n :: 0 <= n < |entries| ==> EntryUnfoldsIff(store, entries, t, n)
    ensures k in EntryMap(entries) && Unfolds(StarViews(store), EntryMap(entries)[k], t.fields[k])
  {
    assert HasKey(entries, k);
    var n := KeyAt(entries, k);
    EntryMapAt(entries, |entries|, n);
    assert EntryUnfoldsIff(store, entries, t, n);
  }

  lemma {:induction false} WrittenOnce(t: Value, v: Value)
    requires Written(t) == Written(v) && Supported(t) && Supported(v)
    ensures t == v
  {
    match t
    case List(items) =>
      forall n | 0 <= n < |items| ensures items[n] == v.items[n] {
        assert Written(items[n]) == Written(t).items[n] == Written(v).items[n];
        WrittenOnce(items[n], v.items[n]);
      }
    case Obj(fields) =>
      assert fields.Keys == Written(t).fields.Keys == Written(v).fields.Keys == v.fields.Keys;
      forall k | k in fields ensures fields[k] == v.fields[k] {
        assert Written(fields[k]) == Written(t).fields[k] == Written(v).fields[k];
        WrittenOnce(fields[k], v.fields[k]);
      }
      assert fields == v.fields;
    case _ =>
  }

  /** An argument that unfolds to t is bound to a value that resembles t, and to t itself where the
      schema has no float and no optional member. */
  lemma BoundMeansArgument(ops: FloatOps, nodes: seq<InputNode>, store: Store, i: nat, value: Star, t: Value)
    requires Sound(nodes) && i < |nodes|
    requires Unfolds(StarViews(store), value, t) && Convert(ops, nodes, store, i, value).Some?
    ensures var v := Convert(ops, nodes, store, i, value).value.value;
            Resembles(ops, Written(t), v) && (Plain(nodes, i) ==> v == t)
  {
    var v := Convert(ops, nodes, store, i, value).value.value;
    UnfoldsIff(store, value, t);
    ConvertAgrees(ops, nodes, store, i, value, Written(t));
    TakenResembles(ops, nodes, i, Written(t), v);
    if Plain(nodes, i) {
      PlainIsKept(ops, nodes, i, Written(t), v);
      ConvertedSupported(ops, nodes, store, i, value);
      WrittenOnce(t, v);
    }
  }

  /** The same of a whole call: the map the worker sends resembles the keyword arguments, and says
      exactly them where the schema has no float and no optional member. */
  lemma CallMeansArguments(lib: NameLib, ops: FloatOps, schema: InputSchema, store: Store, kwargs: seq<Entry>)
    returns (a: Arg)
    requires SchemaOk(lib, schema) && ConvertCall(ops, schema, store, kwargs).Some?
    ensures DenotesEntries(store, kwargs, a)
    ensures var v := ConvertCall(ops, schema, store, kwargs).value.value;
            Resembles(ops, a, v) && (Plain(schema.nodes, schema.root) ==> a == Written(v))
  {
    var v := ConvertCall(ops, schema, store, kwargs).value.value;
    CallIff(lib, ops, schema, store, kwargs, v);
    a :| DenotesEntries(store, kwargs, a) && Takes(ops, schema.nodes, schema.root, a, v);
    TakenResembles(ops, schema.nodes, schema.root, a, v);
    if Plain(schema.nodes, schema.root) { PlainIsKept(ops, schema.nodes, schema.root, a, v); }
  }
}
