/** internal/binding/value.go: one converter threads a depth limit, a node budget and the
    set of containers on the active path over values that may share and cycle. */
module Converter {
  import opened Text
  import opened Values
  import opened Unfolding
  import opened Starlark
  import opened GoHeap

  datatype ConvertError = ValueLimit | UnsupportedValue

  datatype Outcome<+T> = Ok(value: T) | Err(error: ConvertError)

  /** How a conversion of the value h must end, within budget b: with a tree of h that fits,
      charged exactly, or with a limit error where h has a tree t that does not fit. */
  ghost predicate Exact<H(!new)>(g: Graph<H>, h: H, t: Option<Value>, b: Budget, r: Outcome<Value>, left: int) {
    && (r.Ok? ==> g.tree(h, r.value) && Fits(r.value, b) && left == b.nodes - Nodes(r.value))
    && (r.Err? && t.Some? ==> r.error.ValueLimit? && !Fits(t.value, b))
  }

  class ValueConverter {
    const maxDepth: nat
    var remainingNodes: nat
    var active: set<VisitKey>

    constructor (maxDepth: nat, maxNodes: nat)
      ensures this.maxDepth == maxDepth && remainingNodes == maxNodes && active == {}
    {
      this.maxDepth, remainingNodes, active := maxDepth, maxNodes, {};
    }

    ghost function Left(depth: nat): Budget
      reads this
    {
      Budget(maxDepth, depth, remainingNodes)
    }

    method ConsumeNode(depth: nat) returns (err: Option<ConvertError>)
      modifies this`remainingNodes
      ensures err.Some? <==> depth > maxDepth || old(remainingNodes) == 0
      ensures err.Some? ==> err.value == ValueLimit && remainingNodes == old(remainingNodes)
      ensures err.None? ==> remainingNodes == old(remainingNodes) - 1
    {
      if depth > maxDepth || remainingNodes == 0 { return Some(ValueLimit); }
      remainingNodes := remainingNodes - 1;
      return None;
    }

    /** Whether length more children fit what is left. */
    predicate ContainerFits(length: nat)
      reads this
    {
      length <= remainingNodes
    }

    /** What a conversion is told, ghostly, about the value: its finite tree t, if it has
        one, and the trees of the containers on the active path. */
    ghost predicate Told<H(!new)>(g: Graph<H>, value: H, t: Option<Value>, trees: map<VisitKey, Value>)
      reads this`active
    {
      Lawful(g) && (t.Some? ==> g.tree(value, t.value) && OnPath(g, active, trees, t.value))
    }

    // ----- Starlark to Go -----

    method ConvertStarlark(store: Store, value: Star, depth: nat, ghost g: Graph<Star>,
                           ghost t: Option<Value>, ghost trees: map<VisitKey, Value>)
      returns (r: Outcome<Value>)
      requires depth >= 1 && g.view == StarViews(store) && Told(g, value, t, trees)
      modifies this
      ensures active == old(active)
      ensures Exact(g, value, t, old(Left(depth)), r, remainingNodes)
      decreases maxDepth + 1 - depth, 2, 0
    {
      if t.Some? { TreeParts(g, value, t.value); }
      if value.NilStar? { return Err(UnsupportedValue); }
      var err := ConsumeNode(depth);
      if err.Some? { return Err(err.value); }
      if g.view(value).Scalar? { TreeOfScalar(g, value); }
      match value {
        case NoneStar => r := Ok(Null);
        case BoolStar(b) => r := Ok(Bool(b));
        case StrStar(s) => r := Ok(Str(s));
        case IntStar(i) =>
          if -0x8000_0000_0000_0000 <= i < 0x8000_0000_0000_0000 {
            r := Ok(Int(i));
          } else {
            r := Err(UnsupportedValue);
          }
        case FloatStar(x) =>
          if x.Finite? { r := Ok(Real(x)); } else { r := Err(UnsupportedValue); }
        case Tuple(items) =>
          r := ConvertItems(store, value, items, depth, active, g, t, trees);
        case ListRef(cell) =>
          if !IsList(store, cell) { return Err(UnsupportedValue); }
          r := ConvertList(store, cell, depth, g, t, trees);
        case DictRef(cell) =>
          if !IsDict(store, cell) { return Err(UnsupportedValue); }
          r := ConvertDict(store, cell, depth, g, t, trees);
        case _ => r := Err(UnsupportedValue);
      }
    }

    method ConvertList(store: Store, cell: nat, depth: nat, ghost g: Graph<Star>,
                       ghost t: Option<Value>, ghost trees: map<VisitKey, Value>)
      returns (r: Outcome<Value>)
      requires 1 <= depth <= maxDepth && IsList(store, cell)
      requires g.view == StarViews(store) && Told(g, ListRef(cell), t, trees)
      modifies this
      ensures active == old(active)
      ensures Exact(g, ListRef(cell), t, Budget(maxDepth, depth, old(remainingNodes) + 1), r, remainingNodes)
      decreases maxDepth + 1 - depth, 1, 0
    {
      var key := VisitKey('l', cell, 0);
      if t.Some? { NotOnPath(g, active, trees, ListRef(cell), t.value); }
      if key in active { return Err(UnsupportedValue); }
      ghost var path := active;
      active := active + {key};
      r := ConvertItems(store, ListRef(cell), store[cell].items, depth, path, g, t, trees);
      active := active - {key};
    }

    method ConvertItems(store: Store, ghost owner: Star, items: seq<Star>, depth: nat, ghost path: set<VisitKey>,
                        ghost g: Graph<Star>, ghost t: Option<Value>, ghost trees: map<VisitKey, Value>)
      returns (r: Outcome<Value>)
      requires 1 <= depth <= maxDepth && g.view == StarViews(store) && Lawful(g)
      requires g.view(owner).Sequence? && g.view(owner).items == items
      requires active == Entered(path, IdentityOf(g.view(owner)))
      requires t.Some? ==> g.tree(owner, t.value) && OnPath(g, path, trees, t.value)
      modifies this
      ensures active == old(active)
      ensures Exact(g, owner, t, Budget(maxDepth, depth, old(remainingNodes) + 1), r, remainingNodes)
      decreases maxDepth + 1 - depth, 0, 1
    {
      ghost var b := Budget(maxDepth, depth, remainingNodes + 1);
      if t.Some? { TreeParts(g, owner, t.value); }
      if !ContainerFits(|items|) {
        if t.Some? { TooManyItems(t.value.items, b); }
        return Err(ValueLimit);
      }
      var converted: seq<Value> := [];
      for n := 0 to |items|
        invariant active == old(active) && |converted| == n
        invariant ItemsDone(g, owner, converted, b, t)
        invariant remainingNodes == old(remainingNodes) - NodesOf(converted)
      {
        ghost var child, known := None, trees;
        if t.Some? {
          NextItem(g, path, trees, owner, converted, b, t.value);
          child, known := Some(t.value.items[n]), EnteredTrees(trees, IdentityOf(g.view(owner)), t.value);
        }
        var item := ConvertStarlark(store, items[n], depth + 1, g, child, known);
        if item.Err? { return Err(item.error); }
        ItemsStep(g, owner, converted, item.value, b, t);
        converted := converted + [item.value];
      }
      ItemsEnd(g, owner, converted, b, t);
      return Ok(List(converted));
    }

    method ConvertDict(store: Store, cell: nat, depth: nat, ghost g: Graph<Star>,
                       ghost t: Option<Value>, ghost trees: map<VisitKey, Value>)
      returns (r: Outcome<Value>)
      requires 1 <= depth <= maxDepth && IsDict(store, cell)
      requires g.view == StarViews(store) && Told(g, DictRef(cell), t, trees)
      modifies this
      ensures active == old(active)
      ensures Exact(g, DictRef(cell), t, Budget(maxDepth, depth, old(remainingNodes) + 1), r, remainingNodes)
      decreases maxDepth + 1 - depth, 1, 0
    {
      var key := VisitKey('d', cell, 0);
      if t.Some? {
        TreeParts(g, DictRef(cell), t.value);
        NotOnPath(g, active, trees, DictRef(cell), t.value);
      }
      if key in active { return Err(UnsupportedValue); }
      ghost var path := active;
      active := active + {key};
      r := ConvertEntries(store, cell, depth, path, g, t, trees);
      active := active - {key};
    }

    method ConvertEntry(store: Store, ghost cell: nat, entries: seq<Entry>, n: nat, depth: nat,
                        ghost path: set<VisitKey>,
                        ghost g: Graph<Star>, ghost t: Option<Value>, ghost trees: map<VisitKey, Value>,
                        ghost done: map<Bytes, Value>, ghost b: Budget)
      returns (r: Outcome<Value>)
      requires 1 <= depth <= maxDepth && g.view == StarViews(store) && Lawful(g)
      requires IsDictOf(g, cell, entries) && n < |entries| && entries[n].key.StrStar?
               && DictDone(g, cell, entries, n, done, b, t)
      requires active == path + {VisitKey('d', cell, 0)}
               && b == Budget(maxDepth, depth, remainingNodes + 1 + NodesIn(done))
      requires t.Some? ==> g.tree(DictRef(cell), t.value) && OnPath(g, path, trees, t.value)
      modifies this
      ensures active == old(active)
      ensures r.Ok? ==> DictDone(g, cell, entries, n + 1, done[entries[n].key.s := r.value], b, t)
                        && b == Budget(maxDepth, depth, remainingNodes + 1 + NodesIn(done[entries[n].key.s := r.value]))
      ensures r.Err? && t.Some? ==> r.error.ValueLimit? && !Fits(t.value, b)
      decreases maxDepth + 1 - depth, 0, 0
    {
      ghost var child, known := None, trees;
      if t.Some? {
        DictNext(g, path, trees, cell, entries, n, done, b, t.value);
        child, known := Some(t.value.fields[entries[n].key.s]),
          EnteredTrees(trees, Some(VisitKey('d', cell, 0)), t.value);
      }
      r := ConvertStarlark(store, entries[n].value, depth + 1, g, child, known);
      if r.Ok? { DictStep(g, cell, entries, n, done, r.value, b, t); }
    }

    method ConvertEntries(store: Store, cell: nat, depth: nat, ghost path: set<VisitKey>,
                          ghost g: Graph<Star>, ghost t: Option<Value>, ghost trees: map<VisitKey, Value>)
      returns (r: Outcome<Value>)
      requires 1 <= depth <= maxDepth && IsDict(store, cell) && g.view == StarViews(store) && Lawful(g)
      requires active == path + {VisitKey('d', cell, 0)}
      requires t.Some? ==> g.tree(DictRef(cell), t.value) && OnPath(g, path, trees, t.value)
      modifies this
      ensures active == old(active)
      ensures Exact(g, DictRef(cell), t, Budget(maxDepth, depth, old(remainingNodes) + 1), r, remainingNodes)
      decreases maxDepth + 1 - depth, 0, 1
    {
      var entries := store[cell].entries;
      ghost var b := Budget(maxDepth, depth, remainingNodes + 1);
      assert IsDictOf(g, cell, entries);
      if t.Some? { TreeParts(g, DictRef(cell), t.value); }
      if !ContainerFits(|entries|) {
        if t.Some? { DictTooLong(g, cell, entries, b, t.value); }
        return Err(ValueLimit);
      }
      var fields: map<Bytes, Value> := map[];
      for n := 0 to |entries|
        invariant active == old(active)
        invariant DictDone(g, cell, entries, n, fields, b, t)
        invariant remainingNodes == old(remainingNodes) - NodesIn(fields)
      {
        if t.Some? { KeyIsString(entries, |entries|, n); }
        if !entries[n].key.StrStar? { return Err(UnsupportedValue); }
        var name := entries[n].key.s;
        var item := ConvertEntry(store, cell, entries, n, depth, path, g, t, trees, fields, b);
        if item.Err? { return Err(item.error); }
        fields := fields[name := item.value];
      }
      DictEnd(g, cell, entries, fields, b, t);
      return Ok(Obj(fields));
    }

    // ----- checking and building from Go values -----

    method Validate<H(!new)>(view: H -> View<H>, value: H, depth: nat, ghost g: Graph<H>,
                             ghost t: Option<Value>, ghost trees: map<VisitKey, Value>)
      returns (err: Option<ConvertError>, ghost tree: Value)
      requires depth >= 1 && g.view == view && Told(g, value, t, trees)
      modifies this
      ensures active == old(active)
      ensures err.None? ==> g.tree(value, tree) && Fits(tree, old(Left(depth)))
                            && remainingNodes == old(remainingNodes) - Nodes(tree)
      ensures err.Some? && t.Some? ==> err.value.ValueLimit? && !Fits(t.value, old(Left(depth)))
      decreases maxDepth + 1 - depth, 2, 0
    {
      tree := Null;
      if t.Some? { TreeParts(g, value, t.value); }
      err := ConsumeNode(depth);
      if err.Some? { return; }
      match view(value) {
        case Scalar(v) =>
          TreeOfScalar(g, value);
          tree := v;
        case Rejected => err := Some(UnsupportedValue);
        case Sequence(items, id) =>
          if t.Some? && id.Some? { NotOnPath(g, active, trees, value, t.value); }
          if id.Some? && id.value in active { return Some(UnsupportedValue), tree; }
          ghost var path := active;
          active := if id.Some? then active + {id.value} else active;
          err, tree := ValidateItems(view, value, items, depth, path, g, t, trees);
          active := if id.Some? then active - {id.value} else active;
        case Mapping(entries, id) =>
          if t.Some? && id.Some? { NotOnPath(g, active, trees, value, t.value); }
          if id.Some? && id.value in active { return Some(UnsupportedValue), tree; }
          ghost var path := active;
          active := if id.Some? then active + {id.value} else active;
          err, tree := ValidateEntries(view, value, entries, depth, path, g, t, trees);
          active := if id.Some? then active - {id.value} else active;
      }
    }

    method ValidateItems<H(!new)>(view: H -> View<H>, ghost owner: H, items: seq<H>, depth: nat,
                           ghost path: set<VisitKey>,
                                  ghost g: Graph<H>, ghost t: Option<Value>, ghost trees: map<VisitKey, Value>)
      returns (err: Option<ConvertError>, ghost tree: Value)
      requires 1 <= depth <= maxDepth && g.view == view && Lawful(g)
      requires g.view(owner).Sequence? && g.view(owner).items == items
      requires active == Entered(path, IdentityOf(g.view(owner)))
      requires t.Some? ==> g.tree(owner, t.value) && OnPath(g, path, trees, t.value)
      modifies this
      ensures active == old(active)
      ensures err.None? ==> g.tree(owner, tree) && Fits(tree, Budget(maxDepth, depth, old(remainingNodes) + 1))
                            && remainingNodes == old(remainingNodes) + 1 - Nodes(tree)
      ensures err.Some? && t.Some? ==> err.value.ValueLimit?
                                       && !Fits(t.value, Budget(maxDepth, depth, old(remainingNodes) + 1))
      decreases maxDepth + 1 - depth, 0, 1
    {
      ghost var b := Budget(maxDepth, depth, remainingNodes + 1);
      tree := Null;
      if t.Some? { TreeParts(g, owner, t.value); }
      if !ContainerFits(|items|) {
        if t.Some? { TooManyItems(t.value.items, b); }
        return Some(ValueLimit), tree;
      }
      ghost var seen: seq<Value> := [];
      for n := 0 to |items|
        invariant active == old(active) && |seen| == n
        invariant ItemsDone(g, owner, seen, b, t)
        invariant remainingNodes == old(remainingNodes) - NodesOf(seen)
      {
        ghost var child, known := None, trees;
        if t.Some? {
          NextItem(g, path, trees, owner, seen, b, t.value);
          child, known := Some(t.value.items[n]), EnteredTrees(trees, IdentityOf(g.view(owner)), t.value);
        }
        ghost var item;
        err, item := Validate(view, items[n], depth + 1, g, child, known);
        if err.Some? { return; }
        ItemsStep(g, owner, seen, item, b, t);
        seen := seen + [item];
      }
      ItemsEnd(g, owner, seen, b, t);
      return None, List(seen);
    }

    method ValidateEntry<H(!new)>(view: H -> View<H>, ghost owner: H, entry: H, depth: nat, ghost path: set<VisitKey>,
                                  ghost g: Graph<H>, ghost t: Option<Value>, ghost trees: map<VisitKey, Value>,
                                  ghost k: Bytes, ghost left: set<Bytes>, ghost done: map<Bytes, Value>,
                                    ghost b: Budget)
      returns (err: Option<ConvertError>, ghost part: Value)
      requires 1 <= depth <= maxDepth && g.view == view && Lawful(g)
      requires Walked(g, owner, left, done, b, t) && k in left && g.view(owner).entries[k] == entry
      requires active == Entered(path, IdentityOf(g.view(owner)))
               && b == Budget(maxDepth, depth, remainingNodes + 1 + NodesIn(done))
      requires t.Some? ==> g.tree(owner, t.value) && OnPath(g, path, trees, t.value)
      modifies this
      ensures active == old(active)
      ensures err.None? ==> Walked(g, owner, left - {k}, done[k := part], b, t)
                            && b == Budget(maxDepth, depth, remainingNodes + 1 + NodesIn(done[k := part]))
      ensures err.Some? && t.Some? ==> err.value.ValueLimit? && !Fits(t.value, b)
      decreases maxDepth + 1 - depth, 0, 0
    {
      ghost var child, known := None, trees;
      if t.Some? {
        WalkNext(g, path, trees, owner, left, done, k, b, t.value);
        child, known := Some(t.value.fields[k]), EnteredTrees(trees, IdentityOf(g.view(owner)), t.value);
      }
      err, part := Validate(view, entry, depth + 1, g, child, known);
      if err.None? { WalkStep(g, owner, left, done, k, part, b, t); }
    }

    /** The map is walked in no particular order, as Go does. */
    method ValidateEntries<H(!new)>(view: H -> View<H>, ghost owner: H, entries: map<Bytes, H>, depth: nat,
                             ghost path: set<VisitKey>,
                                    ghost g: Graph<H>, ghost t: Option<Value>, ghost trees: map<VisitKey, Value>)
      returns (err: Option<ConvertError>, ghost tree: Value)
      requires 1 <= depth <= maxDepth && g.view == view && Lawful(g)
      requires g.view(owner).Mapping? && g.view(owner).entries == entries
      requires active == Entered(path, IdentityOf(g.view(owner)))
      requires t.Some? ==> g.tree(owner, t.value) && OnPath(g, path, trees, t.value)
      modifies this
      ensures active == old(active)
      ensures err.None? ==> g.tree(owner, tree) && Fits(tree, Budget(maxDepth, depth, old(remainingNodes) + 1))
                            && remainingNodes == old(remainingNodes) + 1 - Nodes(tree)
      ensures err.Some? && t.Some? ==> err.value.ValueLimit?
                                       && !Fits(t.value, Budget(maxDepth, depth, old(remainingNodes) + 1))
      decreases maxDepth + 1 - depth, 0, 1
    {
      ghost var b := Budget(maxDepth, depth, remainingNodes + 1);
      tree := Null;
      if t.Some? { TreeParts(g, owner, t.value); }
      if !ContainerFits(|entries|) {
        if t.Some? { TooManyEntries(t.value.fields, entries, b); }
        return Some(ValueLimit), tree;
      }
      ghost var seen: map<Bytes, Value> := map[];
      var keys := entries.Keys;
      while keys != {}
        invariant active == old(active) && Walked(g, owner, keys, seen, b, t)
        invariant remainingNodes == old(remainingNodes) - NodesIn(seen)
        decreases |keys|
      {
        var k :| k in keys;
        ghost var part;
        err, part := ValidateEntry(view, owner, entries[k], depth, path, g, t, trees, k, keys, seen, b);
        if err.Some? { return; }
        keys, seen := keys - {k}, seen[k := part];
      }
      WalkEnd(g, owner, seen, b, t);
      return None, Obj(seen);
    }

    method BuildStarlark<H(!new)>(heap: StarHeap, view: H -> View<H>, value: H, depth: nat, ghost built: (Store,
                           Star, Value) -> bool,
                                  ghost g: Graph<H>, ghost t: Option<Value>, ghost trees: map<VisitKey, Value>)
      returns (r: Outcome<Star>, ghost tree: Value)
      requires depth >= 1 && g.view == view && Told(g, value, t, trees) && IsBuilt(built)
      modifies this, heap
      ensures active == old(active) && old(heap.store) <= heap.store
      ensures r.Ok? ==> g.tree(value, tree) && Fits(tree, old(Left(depth))) && built(heap.store, r.value, tree)
                        && remainingNodes == old(remainingNodes) - Nodes(tree)
      ensures r.Err? && t.Some? ==> r.error.ValueLimit? && !Fits(t.value, old(Left(depth)))
      decreases maxDepth + 1 - depth, 2, 0
    {
      tree := Null;
      if t.Some? { TreeParts(g, value, t.value); }
      var err := ConsumeNode(depth);
      if err.Some? { return Err(err.value), tree; }
      match view(value) {
        case Scalar(v) =>
          TreeOfScalar(g, value);
          tree := v;
          match v {
            case Null => r := Ok(NoneStar);
            case Bool(x) => r := Ok(BoolStar(x));
            case Str(x) => r := Ok(StrStar(x));
            case Int(x) => r := Ok(IntStar(x));
            case Real(x) => r := Ok(FloatStar(x));
          }
          BuiltScalar(built, heap.store, r.value);
        case Rejected => r := Err(UnsupportedValue);
        case Sequence(items, id) =>
          if t.Some? && id.Some? { NotOnPath(g, active, trees, value, t.value); }
          if id.Some? && id.value in active { return Err(UnsupportedValue), tree; }
          ghost var path := active;
          active := if id.Some? then active + {id.value} else active;
          r, tree := BuildList(heap, view, value, items, depth, path, built, g, t, trees);
          active := if id.Some? then active - {id.value} else active;
        case Mapping(entries, id) =>
          if t.Some? && id.Some? { NotOnPath(g, active, trees, value, t.value); }
          if id.Some? && id.value in active { return Err(UnsupportedValue), tree; }
          ghost var path := active;
          active := if id.Some? then active + {id.value} else active;
          r, tree := BuildDict(heap, view, value, entries, depth, path, built, g, t, trees);
          active := if id.Some? then active - {id.value} else active;
      }
    }

    method BuildList<H(!new)>(heap: StarHeap, view: H -> View<H>, ghost owner: H, items: seq<H>, depth: nat,
                       ghost path: set<VisitKey>,
                              ghost built: (Store, Star, Value) -> bool,
                              ghost g: Graph<H>, ghost t: Option<Value>, ghost trees: map<VisitKey, Value>)
      returns (r: Outcome<Star>, ghost tree: Value)
      requires 1 <= depth <= maxDepth && g.view == view && Lawful(g) && IsBuilt(built)
      requires g.view(owner).Sequence? && g.view(owner).items == items
      requires active == Entered(path, IdentityOf(g.view(owner)))
      requires t.Some? ==> g.tree(owner, t.value) && OnPath(g, path, trees, t.value)
      modifies this, heap
      ensures active == old(active) && old(heap.store) <= heap.store
      ensures r.Ok? ==> g.tree(owner, tree) && Fits(tree, Budget(maxDepth, depth, old(remainingNodes) + 1))
                        && built(heap.store, r.value, tree)
                        && remainingNodes == old(remainingNodes) + 1 - Nodes(tree)
      ensures r.Err? && t.Some? ==> r.error.ValueLimit?
                                    && !Fits(t.value, Budget(maxDepth, depth, old(remainingNodes) + 1))
      decreases maxDepth + 1 - depth, 0, 1
    {
      ghost var b := Budget(maxDepth, depth, remainingNodes + 1);
      tree := Null;
      if t.Some? { TreeParts(g, owner, t.value); }
      if !ContainerFits(|items|) {
        if t.Some? { TooManyItems(t.value.items, b); }
        return Err(ValueLimit), tree;
      }
      var stars: seq<Star> := [];
      ghost var seen: seq<Value> := [];
      for n := 0 to |items|
        invariant active == old(active) && |seen| == n && old(heap.store) <= heap.store
        invariant ItemsDone(g, owner, seen, b, t) && AllBuilt(built, heap.store, stars, seen)
        invariant remainingNodes == old(remainingNodes) - NodesOf(seen)
      {
        ghost var child, known := None, trees;
        if t.Some? {
          NextItem(g, path, trees, owner, seen, b, t.value);
          child, known := Some(t.value.items[n]), EnteredTrees(trees, IdentityOf(g.view(owner)), t.value);
        }
        ghost var before := heap.store;
        var item; ghost var part;
        item, part := BuildStarlark(heap, view, items[n], depth + 1, built, g, child, known);
        if item.Err? { return Err(item.error), tree; }
        ItemsStep(g, owner, seen, part, b, t);
        AllBuiltLater(built, before, heap.store, stars, seen);
        stars, seen := stars + [item.value], seen + [part];
      }
      ItemsEnd(g, owner, seen, b, t);
      BuiltList(built, heap.store, stars, seen);
      var cell := heap.Allocate(ListCell(stars));
      return Ok(ListRef(cell)), List(seen);
    }

    method BuildEntry<H(!new)>(heap: StarHeap, view: H -> View<H>, ghost owner: H, entry: H, depth: nat,
                        ghost path: set<VisitKey>,
                               ghost built: (Store, Star, Value) -> bool,
                               ghost g: Graph<H>, ghost t: Option<Value>, ghost trees: map<VisitKey, Value>,
                               ghost k: Bytes, ghost left: set<Bytes>, ghost members: seq<Entry>,
                                 ghost done: map<Bytes, Value>, ghost b: Budget)
      returns (r: Outcome<Star>, ghost part: Value)
      requires 1 <= depth <= maxDepth && g.view == view && Lawful(g) && IsBuilt(built)
      requires Walked(g, owner, left, done, b, t) && k in left && g.view(owner).entries[k] == entry
      requires EntriesBuilt(built, heap.store, members, |members|, done)
      requires active == Entered(path, IdentityOf(g.view(owner)))
               && b == Budget(maxDepth, depth, remainingNodes + 1 + NodesIn(done))
      requires t.Some? ==> g.tree(owner, t.value) && OnPath(g, path, trees, t.value)
      modifies this, heap
      ensures active == old(active) && old(heap.store) <= heap.store
      ensures r.Ok? ==> Walked(g, owner, left - {k}, done[k := part], b, t)
                        && EntriesBuilt(built, heap.store, members + [Entry(StrStar(k), r.value)], |members| + 1,
                                        done[k := part])
                        && b == Budget(maxDepth, depth, remainingNodes + 1 + NodesIn(done[k := part]))
      ensures r.Err? && t.Some? ==> r.error.ValueLimit? && !Fits(t.value, b)
      decreases maxDepth + 1 - depth, 0, 0
    {
      ghost var child, known := None, trees;
      if t.Some? {
        WalkNext(g, path, trees, owner, left, done, k, b, t.value);
        child, known := Some(t.value.fields[k]), EnteredTrees(trees, IdentityOf(g.view(owner)), t.value);
      }
      r, part := BuildStarlark(heap, view, entry, depth + 1, built, g, child, known);
      if r.Ok? {
        WalkStep(g, owner, left, done, k, part, b, t);
        EntriesBuiltStep(built, old(heap.store), heap.store, members, done, k, r.value, part);
      }
    }

    /** Members are built in sorted key order. */
    method BuildEntries<H(!new)>(heap: StarHeap, view: H -> View<H>, ghost owner: H, entries: map<Bytes, H>,
                          depth: nat, ghost path: set<VisitKey>,
                                 ghost built: (Store, Star, Value) -> bool,
                                 ghost g: Graph<H>, ghost t: Option<Value>, ghost trees: map<VisitKey, Value>,
                                   ghost b: Budget)
      returns (r: Outcome<seq<Entry>>, ghost done: map<Bytes, Value>, ghost keys: seq<Bytes>)
      requires 1 <= depth <= maxDepth && g.view == view && Lawful(g) && IsBuilt(built)
      requires g.view(owner).Mapping? && g.view(owner).entries == entries
               && b == Budget(maxDepth, depth, remainingNodes + 1)
      requires active == Entered(path, IdentityOf(g.view(owner)))
      requires t.Some? ==> g.tree(owner, t.value) && OnPath(g, path, trees, t.value)
      modifies this, heap
      ensures active == old(active) && old(heap.store) <= heap.store
      ensures r.Ok? ==> Walked(g, owner, {}, done, b, t)
                        && EntriesBuilt(built, heap.store, r.value, |r.value|, done)
                        && Carries(r.value, keys) && |r.value| == |keys| && Ascending(keys, |keys|)
                        && remainingNodes == old(remainingNodes) - NodesIn(done)
      ensures r.Err? && t.Some? ==> r.error.ValueLimit? && !Fits(t.value, b)
      decreases maxDepth + 1 - depth, 0, 1
    {
      var sorted := SortedWalk(entries.Keys);
      keys := sorted;
      var members: seq<Entry> := [];
      ghost var left := entries.Keys;
      done := map[];
      if t.Some? { TreeParts(g, owner, t.value); }
      for n := 0 to |sorted|
        invariant active == old(active) && old(heap.store) <= heap.store
        invariant Lists(keys, n, left) && Walked(g, owner, left, done, b, t)
        invariant Carries(members, keys) && |members| == n
        invariant EntriesBuilt(built, heap.store, members, |members|, done)
        invariant remainingNodes == old(remainingNodes) - NodesIn(done)
      {
        var k := sorted[n];
        var item; ghost var part;
        item, part := BuildEntry(heap, view, owner, entries[k], depth, path, built, g, t, trees, k, left, members,
                                 done, b);
        if item.Err? { return Err(item.error), done, keys; }
        members, done, left := members + [Entry(StrStar(k), item.value)], done[k := part], left - {k};
      }
      r := Ok(members);
    }

    method BuildDict<H(!new)>(heap: StarHeap, view: H -> View<H>, ghost owner: H, entries: map<Bytes, H>, depth: nat,
                       ghost path: set<VisitKey>,
                              ghost built: (Store, Star, Value) -> bool,
                              ghost g: Graph<H>, ghost t: Option<Value>, ghost trees: map<VisitKey, Value>)
      returns (r: Outcome<Star>, ghost tree: Value)
      requires 1 <= depth <= maxDepth && g.view == view && Lawful(g) && IsBuilt(built)
      requires g.view(owner).Mapping? && g.view(owner).entries == entries
      requires active == Entered(path, IdentityOf(g.view(owner)))
      requires t.Some? ==> g.tree(owner, t.value) && OnPath(g, path, trees, t.value)
      modifies this, heap
      ensures active == old(active) && old(heap.store) <= heap.store
      ensures r.Ok? ==> g.tree(owner, tree) && Fits(tree, Budget(maxDepth, depth, old(remainingNodes) + 1))
                        && built(heap.store, r.value, tree)
                        && remainingNodes == old(remainingNodes) + 1 - Nodes(tree)
      ensures r.Err? && t.Some? ==> r.error.ValueLimit?
                                    && !Fits(t.value, Budget(maxDepth, depth, old(remainingNodes) + 1))
      decreases maxDepth + 1 - depth, 0, 2
    {
      ghost var b := Budget(maxDepth, depth, remainingNodes + 1);
      tree := Null;
      if !ContainerFits(|entries|) {
        if t.Some? {
          TreeParts(g, owner, t.value);
          TooManyEntries(t.value.fields, entries, b);
        }
        return Err(ValueLimit), tree;
      }
      var members; ghost var done, order;
      members, done, order := BuildEntries(heap, view, owner, entries, depth, path, built, g, t, trees, b);
      if members.Err? { return Err(members.error), tree; }
      WalkEnd(g, owner, done, b, t);
      BuiltKeysDistinct(built, heap.store, members.value, done);
      BuiltDict(built, heap.store, members.value, done);
      var cell := heap.Allocate(DictCell(members.value));
      return Ok(DictRef(cell)), Obj(done);
    }
  }

  /** FromStarlark: succeeds exactly on the values that unfold to a finite supported tree
      within both limits, and returns that tree. */
  method FromStarlark(store: Store, value: Star, maxDepth: int, maxNodes: int) returns (r: Outcome<Value>)
    ensures r.Ok? <==> maxDepth > 0 && maxNodes > 0
                       && exists t :: Unfolds(StarViews(store), value, t) && WithinDepth(t, maxDepth)
                            && Nodes(t) <= maxNodes
    ensures r.Ok? ==> Unfolds(StarViews(store), value, r.value)
    ensures r == Err(UnsupportedValue) ==> !exists t :: Unfolds(StarViews(store), value, t)
  {
    if maxDepth <= 0 || maxNodes <= 0 { return Err(ValueLimit); }
    var converter := new ValueConverter(maxDepth, maxNodes);
    StarViewsLawful(store);
    ghost var g, t := GraphOf(StarViews(store)), None;
    if tree :| Unfolds(StarViews(store), value, tree) { t := Some(tree); }
    r := converter.ConvertStarlark(store, value, 1, g, t, map[]);
    if r.Ok? {
      assert Unfolds(StarViews(store), value, r.value);
    } else if t.Some? {
      forall u | Unfolds(StarViews(store), value, u) ensures u == t.value {
        UnfoldsUnique(StarViews(store), value, u, t.value);
      }
    }
  }

  /** ValidateValue on a heap value: accepts exactly the values that unfold to a finite
      supported tree within both limits. */
  method ValidateValue(heap: Heap, value: GoAny, maxDepth: int, maxNodes: int) returns (err: Option<ConvertError>)
    ensures err.None? <==> maxDepth > 0 && maxNodes > 0
                           && exists t :: Unfolds(GoViews(heap), value, t) && WithinDepth(t, maxDepth)
                                && Nodes(t) <= maxNodes
    ensures err == Some(UnsupportedValue) ==> !exists t :: Unfolds(GoViews(heap), value, t)
  {
    if maxDepth <= 0 || maxNodes <= 0 { return Some(ValueLimit); }
    var converter := new ValueConverter(maxDepth, maxNodes);
    GoViewsLawful(heap);
    ghost var g, t := GraphOf(GoViews(heap)), None;
    if tree :| Unfolds(GoViews(heap), value, tree) { t := Some(tree); }
    ghost var seen;
    err, seen := converter.Validate(GoViews(heap), value, 1, g, t, map[]);
    if t.Some? {
      forall u | Unfolds(GoViews(heap), value, u) ensures u == t.value {
        UnfoldsUnique(GoViews(heap), value, u, t.value);
      }
    }
  }

  /** ValidateValue on a tree that shares nothing. */
  ghost predicate Accepted(v: Value, maxDepth: int, maxNodes: int) {
    maxDepth > 0 && maxNodes > 0 && Supported(v) && WithinDepth(v, maxDepth) && Nodes(v) <= maxNodes
  }

  method ValidateTree(v: Value, maxDepth: int, maxNodes: int) returns (err: Option<ConvertError>)
    ensures err.None? <==> Accepted(v, maxDepth, maxNodes)
  {
    if maxDepth <= 0 || maxNodes <= 0 { return Some(ValueLimit); }
    var converter := new ValueConverter(maxDepth, maxNodes);
    TreeViewsLawful();
    ghost var g, t := GraphOf(TreeViews()), None;
    forall u ensures Unfolds(TreeViews(), v, u) <==> Supported(v) && u == v { TreeUnfolds(v, u); }
    if Supported(v) { t := Some(v); }
    ghost var seen;
    err, seen := converter.Validate(TreeViews(), v, 1, g, t, map[]);
  }

  /** ToStarlark: builds fresh Starlark values that unfold to the same tree. */
  method ToStarlark(heap: StarHeap, goHeap: Heap, value: GoAny, maxDepth: int,
                    maxNodes: int) returns (r: Outcome<Star>, ghost tree: Value)
    modifies heap
    ensures old(heap.store) <= heap.store
    ensures r.Ok? <==> maxDepth > 0 && maxNodes > 0
                       && exists t :: Unfolds(GoViews(goHeap), value, t) && WithinDepth(t, maxDepth)
                            && Nodes(t) <= maxNodes
    ensures r.Ok? ==> Unfolds(GoViews(goHeap), value, tree) && Unfolds(StarViews(heap.store), r.value, tree)
                      && WithinDepth(tree, maxDepth) && Nodes(tree) <= maxNodes
    ensures r == Err(UnsupportedValue) ==> !exists t :: Unfolds(GoViews(goHeap), value, t)
  {
    tree := Null;
    if maxDepth <= 0 || maxNodes <= 0 { return Err(ValueLimit), tree; }
    var converter := new ValueConverter(maxDepth, maxNodes);
    GoViewsLawful(goHeap);
    ghost var g, t, built := GraphOf(GoViews(goHeap)), None, Built();
    if u :| Unfolds(GoViews(goHeap), value, u) { t := Some(u); }
    r, tree := converter.BuildStarlark(heap, GoViews(goHeap), value, 1, built, g, t, map[]);
    if t.Some? {
      forall u | Unfolds(GoViews(goHeap), value, u) ensures u == t.value {
        UnfoldsUnique(GoViews(goHeap), value, u, t.value);
      }
    }
    if r.Ok? { assert built(heap.store, r.value, tree) <==> Unfolds(StarViews(heap.store), r.value, tree); }
  }

  /** FromStarlark undoes ToStarlark under the same limits, for every Go value that
      ToStarlark accepts, however much of it is shared. */
  method ThroughStarlark(heap: StarHeap, goHeap: Heap, value: GoAny, maxDepth: int, maxNodes: int)
    returns (sent: Outcome<Star>, back: Outcome<Value>)
    modifies heap
    ensures sent.Ok? <==> back.Ok?
    ensures back.Ok? ==> Unfolds(GoViews(goHeap), value, back.value)
  {
    ghost var tree;
    sent, tree := ToStarlark(heap, goHeap, value, maxDepth, maxNodes);
    if sent.Err? { return sent, Err(sent.error); }
    back := FromStarlark(heap.store, sent.value, maxDepth, maxNodes);
    UnfoldsUnique(StarViews(heap.store), sent.value, tree, back.value);
  }
}
