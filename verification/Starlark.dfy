/** Starlark values: immutable scalars and tuples, and lists and dicts by reference into
    a store, so that containers can be shared and can contain themselves. */
module Starlark {
  import opened Text
  import opened Values
  import opened Unfolding

  datatype Star =
    | NoneStar
    | BoolStar(b: bool)
    | StrStar(s: Bytes)
    | IntStar(i: int)
    | FloatStar(x: Float64)
    | Tuple(items: seq<Star>)
    | ListRef(r: nat)
    | DictRef(r: nat)
    | OtherStar
    | NilStar

  datatype Entry = Entry(key: Star, value: Star)

  datatype Cell = ListCell(items: seq<Star>) | DictCell(entries: DictEntries)

  /** A Starlark dict holds each string key once. */
  type DictEntries = entries: seq<Entry> | DistinctKeys(entries)

  type Store = seq<Cell>

  predicate IsList(store: Store, r: nat) { r < |store| && store[r].ListCell? }

  predicate IsDict(store: Store, r: nat) { r < |store| && store[r].DictCell? }

  /** The first n keys are strings. */
  predicate StringKeysTo(entries: seq<Entry>, n: nat)
    requires n <= |entries|
  {
    n == 0 || (entries[n - 1].key.StrStar? && StringKeysTo(entries, n - 1))
  }

  predicate StringKeys(entries: seq<Entry>) { StringKeysTo(entries, |entries|) }

  /** The string keys among the first n entries. */
  ghost function NamesOf(entries: seq<Entry>, n: nat): set<Bytes>
    requires n <= |entries|
  {
    if n == 0 then {}
    else if entries[n - 1].key.StrStar? then NamesOf(entries, n - 1) + {entries[n - 1].key.s}
    else NamesOf(entries, n - 1)
  }

  ghost predicate DistinctKeys(entries: seq<Entry>) {
    forall n :: 0 <= n < |entries| && entries[n].key.StrStar? ==> entries[n].key.s !in NamesOf(entries, n)
  }

  /** The first n entries, all string-keyed, as a map. */
  function EntryMapTo(entries: seq<Entry>, n: nat): map<Bytes, Star>
    requires n <= |entries| && StringKeysTo(entries, n)
  {
    if n == 0 then map[] else EntryMapTo(entries, n - 1)[entries[n - 1].key.s := entries[n - 1].value]
  }

  function EntryMap(entries: seq<Entry>): map<Bytes, Star>
    requires StringKeys(entries)
  {
    EntryMapTo(entries, |entries|)
  }

  lemma {:induction false} KeyIsString(entries: seq<Entry>, n: nat, i: nat)
    requires i < n <= |entries| && StringKeysTo(entries, n)
    ensures entries[i].key.StrStar?
  {
    if i < n - 1 { KeyIsString(entries, n - 1, i); }
  }

  lemma {:induction false} EntryMapNames(entries: seq<Entry>, n: nat)
    requires n <= |entries| && StringKeysTo(entries, n) && DistinctKeys(entries)
    ensures EntryMapTo(entries, n).Keys == NamesOf(entries, n) && |EntryMapTo(entries, n)| == n
  {
    if n > 0 { EntryMapNames(entries, n - 1); }
  }

  lemma {:induction false} EntryMapAt(entries: seq<Entry>, n: nat, i: nat)
    requires i < n <= |entries| && StringKeysTo(entries, n) && DistinctKeys(entries)
    ensures entries[i].key.StrStar?
    ensures entries[i].key.s in EntryMapTo(entries, n) && EntryMapTo(entries, n)[entries[i].key.s] == entries[i].value
  {
    if i < n - 1 {
      EntryMapAt(entries, n - 1, i);
      EntryMapNames(entries, n - 1);
      assert entries[n - 1].key.s !in NamesOf(entries, n - 1);
    }
  }

  function StarView(store: Store, s: Star): View<Star> {
    match s
    case NoneStar => Scalar(Null)
    case BoolStar(b) => Scalar(Bool(b))
    case StrStar(t) => Scalar(Str(t))
    case IntStar(i) =>
      if -0x8000_0000_0000_0000 <= i < 0x8000_0000_0000_0000 then Scalar(Int(i)) else Rejected
    case FloatStar(x) => if x.Finite? then Scalar(Real(x)) else Rejected
    case Tuple(items) => Sequence(items, None)
    case ListRef(r) => if IsList(store, r) then Sequence(store[r].items, Some(VisitKey('l', r, 0))) else Rejected
    case DictRef(r) =>
      if IsDict(store, r) && StringKeys(store[r].entries)
      then Mapping(EntryMap(store[r].entries), Some(VisitKey('d', r, 0)))
      else Rejected
    case _ => Rejected
  }

  function StarViews(store: Store): Star -> View<Star> { s => StarView(store, s) }

  lemma StarViewsLawful(store: Store)
    ensures LawfulView(StarViews(store))
  {}

  /** Adding cells to the store does not change what a value unfolds to. */
  lemma {:induction false} UnfoldsLater(store: Store, later: Store, s: Star, t: Value)
    requires store <= later && Unfolds(StarViews(store), s, t)
    ensures Unfolds(StarViews(later), s, t)
    decreases t
  {
    assert StarView(store, s) == StarView(later, s);
    match StarView(store, s)
    case Sequence(items, _) =>
      forall i | 0 <= i < |items| ensures Unfolds(StarViews(later), items[i], t.items[i]) {
        UnfoldsLater(store, later, items[i], t.items[i]);
      }
    case Mapping(entries, _) =>
      forall k | k in entries ensures Unfolds(StarViews(later), entries[k], t.fields[k]) {
        UnfoldsLater(store, later, entries[k], t.fields[k]);
      }
    case _ =>
  }

  // ----- building values -----

  /** The cells allocated so far. */
  class StarHeap {
    var store: Store

    constructor ()
      ensures store == []
    {
      store := [];
    }

    method Allocate(cell: Cell) returns (r: nat)
      modifies this
      ensures store == old(store) + [cell] && r == |old(store)|
    {
      r := |store|;
      store := store + [cell];
    }
  }

  /** `built` names the relation "s unfolds to t in store", to be opened by lemmas only. */
  ghost predicate IsBuilt(built: (Store, Star, Value) -> bool) {
    forall store, s, t {:trigger Unfolds(StarViews(store), s, t)} :: built(store, s, t)
      <==> Unfolds(StarViews(store), s, t)
  }

  ghost function Built(): (built: (Store, Star, Value) -> bool)
    ensures IsBuilt(built)
  {
    (store, s, t) => Unfolds(StarViews(store), s, t)
  }

  /** The values built so far still unfold to the same trees after more allocation. */
  lemma BuiltLater(built: (Store, Star, Value) -> bool, store: Store, later: Store, s: Star, t: Value)
    requires IsBuilt(built) && built(store, s, t) && store <= later
    ensures built(later, s, t)
  {
    assert Unfolds(StarViews(store), s, t);
    UnfoldsLater(store, later, s, t);
    assert Unfolds(StarViews(later), s, t);
  }

  ghost predicate AllBuilt(built: (Store, Star, Value) -> bool, store: Store, stars: seq<Star>, trees: seq<Value>) {
    |stars| == |trees| && forall i :: 0 <= i < |stars| ==> built(store, stars[i], trees[i])
  }

  lemma AllBuiltLater(built: (Store, Star, Value) -> bool, store: Store, later: Store, stars: seq<Star>,
                      trees: seq<Value>)
    requires IsBuilt(built) && AllBuilt(built, store, stars, trees) && store <= later
    ensures AllBuilt(built, later, stars, trees)
  {
    forall i | 0 <= i < |stars| ensures built(later, stars[i], trees[i]) {
      BuiltLater(built, store, later, stars[i], trees[i]);
    }
  }

  lemma BuiltScalar(built: (Store, Star, Value) -> bool, store: Store, s: Star)
    requires IsBuilt(built) && StarView(store, s).Scalar?
    ensures built(store, s, StarView(store, s).value)
  {
    assert Unfolds(StarViews(store), s, StarView(store, s).value);
  }

  lemma BuiltList(built: (Store, Star, Value) -> bool, store: Store, stars: seq<Star>, trees: seq<Value>)
    requires IsBuilt(built) && AllBuilt(built, store, stars, trees)
    ensures built(store + [ListCell(stars)], ListRef(|store|), List(trees))
  {
    var later := store + [ListCell(stars)];
    AllBuiltLater(built, store, later, stars, trees);
    forall i | 0 <= i < |stars| ensures Unfolds(StarViews(later), stars[i], trees[i]) {
      assert built(later, stars[i], trees[i]);
    }
    assert Unfolds(StarViews(later), ListRef(|store|), List(trees));
  }

  /** The first n entries are string-keyed and hold built values of exactly these fields. */
  ghost predicate EntriesBuilt(built: (Store, Star, Value) -> bool, store: Store, entries: seq<Entry>, n: nat,
                               fields: map<Bytes, Value>)
    requires n <= |entries|
  {
    if n == 0 then fields == map[]
    else
      var e := entries[n - 1];
      && e.key.StrStar? && e.key.s in fields && built(store, e.value, fields[e.key.s])
      && EntriesBuilt(built, store, entries, n - 1, fields - {e.key.s})
  }

  lemma {:induction false} EntriesBuiltLater(built: (Store, Star, Value) -> bool, store: Store, later: Store,
                                             entries: seq<Entry>, more: seq<Entry>, n: nat, fields: map<Bytes, Value>)
    requires n <= |entries| && IsBuilt(built) && EntriesBuilt(built, store, entries, n, fields) && store <= later
             && entries <= more
    ensures EntriesBuilt(built, later, more, n, fields)
  {
    if n > 0 {
      var e := entries[n - 1];
      BuiltLater(built, store, later, e.value, fields[e.key.s]);
      EntriesBuiltLater(built, store, later, entries, more, n - 1, fields - {e.key.s});
    }
  }

  lemma EntriesBuiltStep(built: (Store, Star, Value) -> bool, store: Store, later: Store, entries: seq<Entry>,
                         fields: map<Bytes, Value>,
                         k: Bytes, s: Star, v: Value)
    requires IsBuilt(built) && EntriesBuilt(built, store, entries, |entries|, fields) && store <= later
    requires k !in fields && built(later, s, v)
    ensures EntriesBuilt(built, later, entries + [Entry(StrStar(k), s)], |entries| + 1, fields[k := v])
  {
    var more := entries + [Entry(StrStar(k), s)];
    EntriesBuiltLater(built, store, later, entries, more, |entries|, fields);
    assert fields[k := v] - {k} == fields;
  }

  lemma {:induction false} BuiltNames(built: (Store, Star, Value) -> bool, store: Store, entries: seq<Entry>, n: nat,
                                      fields: map<Bytes, Value>)
    requires n <= |entries| && EntriesBuilt(built, store, entries, n, fields)
    ensures StringKeysTo(entries, n) && NamesOf(entries, n) == fields.Keys
  {
    if n > 0 { BuiltNames(built, store, entries, n - 1, fields - {entries[n - 1].key.s}); }
  }

  lemma {:induction false} BuiltDistinct(built: (Store, Star, Value) -> bool, store: Store, entries: seq<Entry>,
                                         n: nat, fields: map<Bytes, Value>,
                                         i: nat)
    requires i < n <= |entries| && EntriesBuilt(built, store, entries, n, fields)
    ensures entries[i].key.StrStar? && entries[i].key.s !in NamesOf(entries, i)
  {
    var rest := fields - {entries[n - 1].key.s};
    if i < n - 1 {
      BuiltDistinct(built, store, entries, n - 1, rest, i);
    } else {
      BuiltNames(built, store, entries, n - 1, rest);
    }
  }

  lemma {:induction false} BuiltEntryAt(built: (Store, Star, Value) -> bool, store: Store, entries: seq<Entry>,
                                        n: nat, fields: map<Bytes, Value>,
                                        k: Bytes)
    requires n <= |entries| && EntriesBuilt(built, store, entries, n, fields) && k in fields && StringKeysTo(entries, n)
    ensures k in EntryMapTo(entries, n) && built(store, EntryMapTo(entries, n)[k], fields[k])
  {
    var last := entries[n - 1].key.s;
    if k != last { BuiltEntryAt(built, store, entries, n - 1, fields - {last}, k); }
  }

  lemma BuiltKeysDistinct(built: (Store, Star, Value) -> bool, store: Store, entries: seq<Entry>, fields: map<Bytes,
                          Value>)
    requires EntriesBuilt(built, store, entries, |entries|, fields)
    ensures DistinctKeys(entries)
  {
    forall i | 0 <= i < |entries| && entries[i].key.StrStar? ensures entries[i].key.s !in NamesOf(entries, i) {
      BuiltDistinct(built, store, entries, |entries|, fields, i);
    }
  }

  lemma BuiltEntryMap(built: (Store, Star, Value) -> bool, store: Store, entries: DictEntries, fields: map<Bytes,
                      Value>)
    requires IsBuilt(built) && EntriesBuilt(built, store, entries, |entries|, fields)
    ensures StringKeys(entries) && EntryMap(entries).Keys == fields.Keys
    ensures forall k :: k in fields ==> Unfolds(StarViews(store), EntryMap(entries)[k], fields[k])
  {
    BuiltNames(built, store, entries, |entries|, fields);
    EntryMapNames(entries, |entries|);
    var m := EntryMap(entries);
    forall k | k in fields ensures Unfolds(StarViews(store), m[k], fields[k]) {
      BuiltEntryAt(built, store, entries, |entries|, fields, k);
      assert built(store, m[k], fields[k]);
    }
  }

  lemma BuiltDict(built: (Store, Star, Value) -> bool, store: Store, entries: DictEntries, fields: map<Bytes, Value>)
    requires IsBuilt(built) && EntriesBuilt(built, store, entries, |entries|, fields)
    ensures built(store + [DictCell(entries)], DictRef(|store|), Obj(fields))
  {
    var later := store + [DictCell(entries)];
    EntriesBuiltLater(built, store, later, entries, entries, |entries|, fields);
    BuiltEntryMap(built, later, entries, fields);
    assert Unfolds(StarViews(later), DictRef(|store|), Obj(fields));
  }

  /** The entries carry the keys in order, one each. */
  ghost predicate Carries(entries: seq<Entry>, keys: seq<Bytes>) {
    |entries| <= |keys| && forall i :: 0 <= i < |entries| ==> entries[i].key == StrStar(keys[i])
  }

  // ----- converting a dict entry by entry -----

  /** A dict as the graph shows it: a mapping if all its keys are strings. */
  ghost predicate IsDictOf(g: Graph<Star>, cell: nat, entries: seq<Entry>) {
    && DistinctKeys(entries)
    && g.view(DictRef(cell)) ==
         if StringKeys(entries) then Mapping(EntryMap(entries), Some(VisitKey('d', cell, 0))) else Rejected
  }

  /** fields holds the conversions of the first n entries, all of them string-keyed. */
  ghost predicate DictDone(g: Graph<Star>, cell: nat, entries: seq<Entry>, n: nat, fields: map<Bytes, Value>,
                           b: Budget, t: Option<Value>) {
    && n <= |entries|
    && StringKeysTo(entries, n)
    && fields.Keys == NamesOf(entries, n)
    && (StringKeys(entries) ==> EntriesDone(g, DictRef(cell), fields, b, t))
  }

  lemma DictNext(g: Graph<Star>, path: set<VisitKey>, trees: map<VisitKey, Value>, cell: nat, entries: seq<Entry>,
                 n: nat, fields: map<Bytes, Value>, b: Budget, t: Value)
    requires Lawful(g) && IsDictOf(g, cell, entries) && g.tree(DictRef(cell), t) && OnPath(g, path, trees, t)
    requires n < |entries| && entries[n].key.StrStar? && DictDone(g, cell, entries, n, fields, b, Some(t))
    ensures t.Obj? && entries[n].key.s in t.fields
    ensures var id, c := Some(VisitKey('d', cell, 0)), t.fields[entries[n].key.s];
            && g.tree(entries[n].value, c)
            && OnPath(g, Entered(path, id), EnteredTrees(trees, id, t), c)
            && (Fits(t, b) ==> Fits(c, Within(b, NodesIn(fields))))
  {
    TreeParts(g, DictRef(cell), t);
    assert entries[n].key.s !in NamesOf(entries, n);
    EntryMapAt(entries, |entries|, n);
    NextEntry(g, path, trees, DictRef(cell), fields, entries[n].key.s, b, t);
  }

  lemma DictStep(g: Graph<Star>, cell: nat, entries: seq<Entry>, n: nat, fields: map<Bytes, Value>, v: Value,
                 b: Budget, t: Option<Value>)
    requires Lawful(g) && IsDictOf(g, cell, entries) && (t.Some? ==> g.tree(DictRef(cell), t.value))
    requires n < |entries| && entries[n].key.StrStar? && DictDone(g, cell, entries, n, fields, b, t)
    requires g.tree(entries[n].value, v) && Fits(v, Within(b, NodesIn(fields)))
    ensures DictDone(g, cell, entries, n + 1, fields[entries[n].key.s := v], b, t)
    ensures NodesIn(fields[entries[n].key.s := v]) == NodesIn(fields) + Nodes(v)
  {
    assert entries[n].key.s !in NamesOf(entries, n);
    NodesInsert(fields, entries[n].key.s, v);
    if StringKeys(entries) {
      EntryMapAt(entries, |entries|, n);
      EntriesStep(g, DictRef(cell), fields, entries[n].key.s, v, b, t);
    }
  }

  lemma DictEnd(g: Graph<Star>, cell: nat, entries: seq<Entry>, fields: map<Bytes, Value>, b: Budget, t: Option<Value>)
    requires Lawful(g) && IsDictOf(g, cell, entries) && DictDone(g, cell, entries, |entries|, fields, b, t)
    requires 1 + NodesIn(fields) <= b.nodes && b.depth <= b.maxDepth
    ensures g.tree(DictRef(cell), Obj(fields)) && Fits(Obj(fields), b)
  {
    EntryMapNames(entries, |entries|);
    EntriesEnd(g, DictRef(cell), fields, b, t);
  }

  lemma DictTooLong(g: Graph<Star>, cell: nat, entries: seq<Entry>, b: Budget, t: Value)
    requires Lawful(g) && IsDictOf(g, cell, entries) && g.tree(DictRef(cell), t) && |entries| > b.nodes - 1
    ensures !Fits(t, b)
  {
    TreeParts(g, DictRef(cell), t);
    EntryMapNames(entries, |entries|);
    TooManyEntries(t.fields, EntryMap(entries), b);
  }
}
