/** Heap values with aliasing and cycles, seen one container at a time, and the finite
    tree such a value unfolds to, if there is one. */
module Unfolding {
  import opened Text
  import opened Values

  /** The converter's identity of a container on the active path. The length tells
      apart slices of different extent that share a backing array. */
  datatype VisitKey = VisitKey(kind: char, pointer: nat, length: nat)

  /** One value of a heap: a scalar, a container of further values, or a value outside
      the accepted matrix. */
  datatype View<+H> =
    | Scalar(value: Value)
    | Sequence(items: seq<H>, identity: Option<VisitKey>)
    | Mapping(entries: map<Bytes, H>, identity: Option<VisitKey>)
    | Rejected

  function IdentityOf<H>(v: View<H>): Option<VisitKey> {
    match v
    case Sequence(_, id) => id
    case Mapping(_, id) => id
    case _ => None
  }

  /** h unfolds to the finite tree t. */
  ghost predicate Unfolds<H(!new)>(view: H -> View<H>, h: H, t: Value)
    decreases t
  {
    match view(h)
    case Scalar(v) => t == v
    case Sequence(items, _) =>
      t.List? && |t.items| == |items| &&
      forall i :: 0 <= i < |items| ==> Unfolds(view, items[i], t.items[i])
    case Mapping(entries, _) =>
      t.Obj? && t.fields.Keys == entries.Keys &&
      forall k :: k in entries ==> Unfolds(view, entries[k], t.fields[k])
    case Rejected => false
  }

  /** A value unfolds to at most one tree. */
  lemma {:induction false} UnfoldsUnique<H(!new)>(view: H -> View<H>, h: H, t: Value, u: Value)
    requires Unfolds(view, h, t) && Unfolds(view, h, u)
    ensures t == u
    decreases t
  {
    match view(h)
    case Sequence(items, _) =>
      forall i | 0 <= i < |items| ensures t.items[i] == u.items[i] {
        UnfoldsUnique(view, items[i], t.items[i], u.items[i]);
      }
    case Mapping(entries, _) =>
      forall k | k in entries ensures t.fields[k] == u.fields[k] {
        UnfoldsUnique(view, entries[k], t.fields[k], u.fields[k]);
      }
    case _ =>
  }

  /** A heap as the converters see it. `tree` is the unfolding relation of `view`, carried
      by name so that a proof opens it one level at a time (TreeParts, TreeOf). */
  datatype Graph<!H> = Graph(view: H -> View<H>, tree: (H, Value) -> bool)

  ghost function GraphOf<H(!new)>(view: H -> View<H>): (g: Graph<H>)
    ensures g.view == view && (forall h, t :: g.tree(h, t) <==> Unfolds(view, h, t))
  {
    Graph(view, (h, t) => Unfolds(view, h, t))
  }

  /** Scalars are supported scalars, and one identity names one container. */
  ghost predicate LawfulView<H(!new)>(view: H -> View<H>) {
    && (forall h :: view(h).Scalar? ==>
          Supported(view(h).value) && !view(h).value.List? && !view(h).value.Obj?)
    && (forall x, y :: IdentityOf(view(x)).Some? && IdentityOf(view(x)) == IdentityOf(view(y)) ==> view(x) == view(y))
  }

  ghost predicate Lawful<H(!new)>(g: Graph<H>) {
    && LawfulView(g.view)
    && (forall h, t {:trigger Unfolds(g.view, h, t)} :: g.tree(h, t) <==> Unfolds(g.view, h, t))
  }

  lemma SameTree<H(!new)>(g: Graph<H>, h: H, t: Value, u: Value)
    requires Lawful(g) && g.tree(h, t) && g.tree(h, u)
    ensures t == u
  {
    assert Unfolds(g.view, h, t) && Unfolds(g.view, h, u);
    UnfoldsUnique(g.view, h, t, u);
  }

  /** A tree's parts are the trees of the container's parts. */
  lemma TreeParts<H(!new)>(g: Graph<H>, h: H, t: Value)
    requires Lawful(g) && g.tree(h, t)
    ensures match g.view(h)
            case Scalar(v) => t == v
            case Sequence(items, _) =>
              t.List? && |t.items| == |items| && forall i :: 0 <= i < |items| ==> g.tree(items[i], t.items[i])
            case Mapping(entries, _) =>
              t.Obj? && t.fields.Keys == entries.Keys && forall k :: k in entries ==> g.tree(entries[k], t.fields[k])
            case Rejected => false
  {
    assert Unfolds(g.view, h, t);
    match g.view(h)
    case Sequence(items, _) =>
      forall i | 0 <= i < |items| ensures g.tree(items[i], t.items[i]) { assert Unfolds(g.view, items[i], t.items[i]); }
    case Mapping(entries, _) =>
      forall k | k in entries ensures g.tree(entries[k], t.fields[k]) {
        assert Unfolds(g.view, entries[k], t.fields[k]);
      }
    case _ =>
  }

  lemma TreeOfScalar<H(!new)>(g: Graph<H>, h: H)
    requires Lawful(g) && g.view(h).Scalar?
    ensures g.tree(h, g.view(h).value)
  {
    assert Unfolds(g.view, h, g.view(h).value);
  }

  lemma TreeOfItems<H(!new)>(g: Graph<H>, h: H, items: seq<Value>)
    requires Lawful(g) && g.view(h).Sequence? && |items| == |g.view(h).items|
    requires forall i :: 0 <= i < |items| ==> g.tree(g.view(h).items[i], items[i])
    ensures g.tree(h, List(items))
  {
    forall i | 0 <= i < |items| ensures Unfolds(g.view, g.view(h).items[i], items[i]) {
      assert g.tree(g.view(h).items[i], items[i]);
    }
    assert Unfolds(g.view, h, List(items));
  }

  lemma TreeOfEntries<H(!new)>(g: Graph<H>, h: H, fields: map<Bytes, Value>)
    requires Lawful(g) && g.view(h).Mapping? && fields.Keys == g.view(h).entries.Keys
    requires forall k :: k in fields ==> g.tree(g.view(h).entries[k], fields[k])
    ensures g.tree(h, Obj(fields))
  {
    forall k | k in fields ensures Unfolds(g.view, g.view(h).entries[k], fields[k]) {
      assert g.tree(g.view(h).entries[k], fields[k]);
    }
    assert Unfolds(g.view, h, Obj(fields));
  }

  lemma {:induction false} TreeSupported<H(!new)>(g: Graph<H>, h: H, t: Value)
    requires Lawful(g) && g.tree(h, t)
    ensures Supported(t)
    decreases t
  {
    TreeParts(g, h, t);
    match g.view(h)
    case Sequence(items, _) =>
      forall i | 0 <= i < |items| ensures Supported(t.items[i]) { TreeSupported(g, items[i], t.items[i]); }
    case Mapping(entries, _) =>
      forall k | k in entries ensures Supported(t.fields[k]) { TreeSupported(g, entries[k], t.fields[k]); }
    case _ =>
  }

  // ----- the active path -----

  ghost function Entered(active: set<VisitKey>, id: Option<VisitKey>): set<VisitKey> {
    if id.Some? then active + {id.value} else active
  }

  ghost function EnteredTrees(trees: map<VisitKey, Value>, id: Option<VisitKey>, t: Value): map<VisitKey, Value> {
    if id.Some? then trees[id.value := t] else trees
  }

  /** trees gives the unfolding of every container on the active path, all of them larger
      than t: the reason why meeting one of them again would mean a cycle. */
  ghost predicate OnPath<H(!new)>(g: Graph<H>, active: set<VisitKey>, trees: map<VisitKey, Value>, t: Value) {
    && (forall k :: k in active ==> k in trees && Nodes(t) < Nodes(trees[k]))
    && (forall h ::
          IdentityOf(g.view(h)).Some? && IdentityOf(g.view(h)).value in active && IdentityOf(g.view(h)).value in trees
          ==> g.tree(h, trees[IdentityOf(g.view(h)).value]))
  }

  /** A container that unfolds is never already on the path: sharing is not rejected. */
  lemma NotOnPath<H(!new)>(g: Graph<H>, active: set<VisitKey>, trees: map<VisitKey, Value>, h: H, t: Value)
    requires Lawful(g) && g.tree(h, t) && OnPath(g, active, trees, t) && IdentityOf(g.view(h)).Some?
    ensures IdentityOf(g.view(h)).value !in active
  {
    var k := IdentityOf(g.view(h)).value;
    if k in active { SameTree(g, h, t, trees[k]); }
  }

  lemma PathToChild<H(!new)>(g: Graph<H>, active: set<VisitKey>, trees: map<VisitKey, Value>, h: H, t: Value, c: Value)
    requires Lawful(g) && g.tree(h, t) && OnPath(g, active, trees, t) && Nodes(c) < Nodes(t)
    ensures OnPath(g, Entered(active, IdentityOf(g.view(h))), EnteredTrees(trees, IdentityOf(g.view(h)), t), c)
  {
    var id := IdentityOf(g.view(h));
    var inside, known := Entered(active, id), EnteredTrees(trees, id, t);
    forall x | IdentityOf(g.view(x)).Some? && IdentityOf(g.view(x)).value in inside
      && IdentityOf(g.view(x)).value in known
      ensures g.tree(x, known[IdentityOf(g.view(x)).value])
    {
      if IdentityOf(g.view(x)) == id {
        assert Unfolds(g.view, h, t);
        assert g.view(x) == g.view(h) && Unfolds(g.view, x, t);
      }
    }
  }

  // ----- the budget, child by child -----

  /** The limits of one conversion, at the point where depth levels are already used. */
  datatype Budget = Budget(maxDepth: int, depth: int, nodes: int)

  ghost predicate Fits(t: Value, b: Budget) {
    WithinDepth(t, b.maxDepth - b.depth + 1) && Nodes(t) <= b.nodes
  }

  /** The budget left for the next child of a container charged from b. */
  ghost function Within(b: Budget, spent: nat): Budget { Budget(b.maxDepth, b.depth + 1, b.nodes - 1 - spent) }

  lemma ItemFits(items: seq<Value>, n: nat, b: Budget)
    requires n < |items|
    ensures Fits(List(items), b) ==> Fits(items[n], Within(b, NodesOf(items[..n])))
    ensures Nodes(items[n]) < Nodes(List(items))
  {
    NodesSplit(items, n);
  }

  lemma {:induction false} NodesAtMonotone(owner: Value, some: set<Bytes>, more: set<Bytes>)
    requires owner.Obj? && some <= more <= owner.fields.Keys
    ensures NodesAt(owner, some) <= NodesAt(owner, more)
    decreases |more|
  {
    if some != {} {
      var k :| k in some;
      NodesAtRemove(owner, some, k);
      NodesAtRemove(owner, more, k);
      NodesAtMonotone(owner, some - {k}, more - {k});
    }
  }

  lemma EntryFits(fields: map<Bytes, Value>, done: map<Bytes, Value>, k: Bytes, b: Budget)
    requires k in fields && k !in done && forall j :: j in done ==> j in fields && done[j] == fields[j]
    ensures Fits(Obj(fields), b) ==> Fits(fields[k], Within(b, NodesIn(done)))
    ensures Nodes(fields[k]) < Nodes(Obj(fields))
  {
    var owner := Obj(fields);
    NodesAtSame(Obj(done), owner, done.Keys);
    NodesAtRemove(owner, fields.Keys, k);
    NodesAtMonotone(owner, done.Keys, fields.Keys - {k});
  }

  /** done are conversions of the first items of h, and the first items of its tree t. */
  ghost predicate ItemsDone<H(!new)>(g: Graph<H>, h: H, done: seq<Value>, b: Budget, t: Option<Value>) {
    && g.view(h).Sequence? && |done| <= |g.view(h).items|
    && (forall i :: 0 <= i < |done|
          ==> g.tree(g.view(h).items[i], done[i]) && WithinDepth(done[i], b.maxDepth - b.depth))
    && (t.Some? ==> t.value.List? && |done| <= |t.value.items| && done == t.value.items[..|done|])
  }

  lemma ItemsStep<H(!new)>(g: Graph<H>, h: H, done: seq<Value>, v: Value, b: Budget, t: Option<Value>)
    requires Lawful(g) && ItemsDone(g, h, done, b, t) && |done| < |g.view(h).items|
    requires g.tree(g.view(h).items[|done|], v) && Fits(v, Within(b, NodesOf(done)))
    requires t.Some? ==> g.tree(h, t.value)
    ensures ItemsDone(g, h, done + [v], b, t)
    ensures NodesOf(done + [v]) == NodesOf(done) + Nodes(v)
  {
    NodesAppend(done, v);
    if t.Some? {
      TreeParts(g, h, t.value);
      SameTree(g, g.view(h).items[|done|], v, t.value.items[|done|]);
    }
  }

  lemma ItemsEnd<H(!new)>(g: Graph<H>, h: H, done: seq<Value>, b: Budget, t: Option<Value>)
    requires Lawful(g) && ItemsDone(g, h, done, b, t) && |done| == |g.view(h).items|
    requires 1 + NodesOf(done) <= b.nodes && b.depth <= b.maxDepth
    ensures g.tree(h, List(done)) && Fits(List(done), b)
  {
    TreeOfItems(g, h, done);
  }

  lemma TooManyItems(items: seq<Value>, b: Budget)
    requires |items| > b.nodes - 1
    ensures !Fits(List(items), b)
  {
    NodesAtLeastLength(items);
  }

  /** done holds conversions of entries of h, and entries of its tree t. */
  ghost predicate EntriesDone<H(!new)>(g: Graph<H>, h: H, done: map<Bytes, Value>, b: Budget, t: Option<Value>) {
    && g.view(h).Mapping? && done.Keys <= g.view(h).entries.Keys
    && (forall k :: k in done ==> g.tree(g.view(h).entries[k], done[k]) && WithinDepth(done[k], b.maxDepth - b.depth))
    && (t.Some? ==> t.value.Obj? && forall k :: k in done ==> k in t.value.fields && done[k] == t.value.fields[k])
  }

  lemma EntriesStep<H(!new)>(g: Graph<H>, h: H, done: map<Bytes, Value>, k: Bytes, v: Value, b: Budget,
                      t: Option<Value>)
    requires Lawful(g) && EntriesDone(g, h, done, b, t) && k in g.view(h).entries && k !in done
    requires g.tree(g.view(h).entries[k], v) && Fits(v, Within(b, NodesIn(done)))
    requires t.Some? ==> g.tree(h, t.value)
    ensures EntriesDone(g, h, done[k := v], b, t)
    ensures NodesIn(done[k := v]) == NodesIn(done) + Nodes(v)
  {
    NodesInsert(done, k, v);
    if t.Some? {
      TreeParts(g, h, t.value);
      SameTree(g, g.view(h).entries[k], v, t.value.fields[k]);
    }
  }

  lemma EntriesEnd<H(!new)>(g: Graph<H>, h: H, done: map<Bytes, Value>, b: Budget, t: Option<Value>)
    requires Lawful(g) && EntriesDone(g, h, done, b, t) && done.Keys == g.view(h).entries.Keys
    requires 1 + NodesIn(done) <= b.nodes && b.depth <= b.maxDepth
    ensures g.tree(h, Obj(done)) && Fits(Obj(done), b)
  {
    TreeOfEntries(g, h, done);
  }

  lemma TooManyEntries<H>(fields: map<Bytes, Value>, entries: map<Bytes, H>, b: Budget)
    requires fields.Keys == entries.Keys && |entries| > b.nodes - 1
    ensures !Fits(Obj(fields), b)
  {
    NodesInAtLeast(fields);
    assert |fields.Keys| == |fields| && |entries.Keys| == |entries|;
  }

  /** What the next child of a container may be told: its tree, if the container has one. */
  lemma NextItem<H(!new)>(g: Graph<H>, path: set<VisitKey>, trees: map<VisitKey, Value>, h: H, done: seq<Value>,
                   b: Budget, t: Value)
    requires Lawful(g) && g.tree(h, t) && OnPath(g, path, trees, t)
    requires ItemsDone(g, h, done, b, Some(t)) && |done| < |g.view(h).items|
    ensures t.List? && |done| < |t.items|
    ensures var c := t.items[|done|];
            && g.tree(g.view(h).items[|done|], c)
            && OnPath(g, Entered(path, IdentityOf(g.view(h))), EnteredTrees(trees, IdentityOf(g.view(h)), t), c)
            && (Fits(t, b) ==> Fits(c, Within(b, NodesOf(done))))
  {
    TreeParts(g, h, t);
    ItemFits(t.items, |done|, b);
    PathToChild(g, path, trees, h, t, t.items[|done|]);
  }

  lemma NextEntry<H(!new)>(g: Graph<H>, path: set<VisitKey>, trees: map<VisitKey, Value>, h: H, done: map<Bytes,
                    Value>, k: Bytes, b: Budget, t: Value)
    requires Lawful(g) && g.tree(h, t) && OnPath(g, path, trees, t)
    requires EntriesDone(g, h, done, b, Some(t)) && k in g.view(h).entries && k !in done
    ensures t.Obj? && k in t.fields
    ensures var c := t.fields[k];
            && g.tree(g.view(h).entries[k], c)
            && OnPath(g, Entered(path, IdentityOf(g.view(h))), EnteredTrees(trees, IdentityOf(g.view(h)), t), c)
            && (Fits(t, b) ==> Fits(c, Within(b, NodesIn(done))))
  {
    TreeParts(g, h, t);
    EntryFits(t.fields, done, k, b);
    PathToChild(g, path, trees, h, t, t.fields[k]);
  }

  /** A walk over a mapping in any order: `left` are the keys still to visit. */
  ghost predicate Walked<H(!new)>(g: Graph<H>, h: H, left: set<Bytes>, done: map<Bytes, Value>, b: Budget,
                                  t: Option<Value>) {
    && g.view(h).Mapping? && left <= g.view(h).entries.Keys && done.Keys == g.view(h).entries.Keys - left
    && EntriesDone(g, h, done, b, t)
  }

  lemma WalkStep<H(!new)>(g: Graph<H>, h: H, left: set<Bytes>, done: map<Bytes, Value>, k: Bytes, v: Value,
                   b: Budget, t: Option<Value>)
    requires Lawful(g) && Walked(g, h, left, done, b, t) && k in left
    requires g.tree(g.view(h).entries[k], v) && Fits(v, Within(b, NodesIn(done)))
    requires t.Some? ==> g.tree(h, t.value)
    ensures Walked(g, h, left - {k}, done[k := v], b, t)
    ensures NodesIn(done[k := v]) == NodesIn(done) + Nodes(v)
  {
    EntriesStep(g, h, done, k, v, b, t);
  }

  lemma WalkNext<H(!new)>(g: Graph<H>, path: set<VisitKey>, trees: map<VisitKey, Value>, h: H, left: set<Bytes>,
                          done: map<Bytes, Value>, k: Bytes, b: Budget, t: Value)
    requires Lawful(g) && g.tree(h, t) && OnPath(g, path, trees, t)
    requires Walked(g, h, left, done, b, Some(t)) && k in left
    ensures t.Obj? && k in t.fields
    ensures var c := t.fields[k];
            && g.tree(g.view(h).entries[k], c)
            && OnPath(g, Entered(path, IdentityOf(g.view(h))), EnteredTrees(trees, IdentityOf(g.view(h)), t), c)
            && (Fits(t, b) ==> Fits(c, Within(b, NodesIn(done))))
  {
    NextEntry(g, path, trees, h, done, k, b, t);
  }

  lemma WalkEnd<H(!new)>(g: Graph<H>, h: H, done: map<Bytes, Value>, b: Budget, t: Option<Value>)
    requires Lawful(g) && Walked(g, h, {}, done, b, t)
    requires 1 + NodesIn(done) <= b.nodes && b.depth <= b.maxDepth
    ensures g.tree(h, Obj(done)) && Fits(Obj(done), b)
  {
    EntriesEnd(g, h, done, b, t);
  }
}
