/** internal/execution/namespace.go: capability names assembled in a trie of mutable nodes,
    then frozen into nested modules. */
module Namespace {
  import opened Text
  import opened Dotted
  import opened Modules

  /** One segment further. */
  function Under(p: Path, c: Bytes): (q: Path)
    ensures |q| == |p| + 1 && q[..|p|] == p && q[|p|] == c
  {
    p + [c]
  }

  lemma UnderInjective(p: Path, c: Bytes, q: Path, d: Bytes)
    ensures Under(p, c) == Under(q, d) ==> p == q && c == d
  {
    if Under(p, c) == Under(q, d) {
      assert p == Under(p, c)[..|p|] == Under(q, d)[..|q|] == q;
    }
  }

  /** namespaceNode. */
  class NamespaceNode {
    var children: map<Bytes, NamespaceNode>
    var functions: map<Bytes, Binding>

    constructor ()
      ensures children == map[] && functions == map[]
    {
      children, functions := map[], map[];
    }
  }

  /** What a map by path holds one segment below p, as a map by segment. */
  ghost predicate Keyed<V>(all: map<Path, V>, p: Path, here: map<Bytes, V>) {
    forall c :: (c in here <==> Under(p, c) in all) && (c in here ==> here[c] == all[Under(p, c)])
  }

  lemma KeyedMore<V>(all: map<Path, V>, q: Path, here: map<Bytes, V>, p: Path, c: Bytes, v: V)
    requires Keyed(all, q, here)
    ensures Keyed(all[Under(p, c) := v], q, if q == p then here[c := v] else here)
  {
    var now, mine := all[Under(p, c) := v], if q == p then here[c := v] else here;
    forall d ensures (d in mine <==> Under(q, d) in now) && (d in mine ==> mine[d] == now[Under(q, d)]) {
      UnderInjective(p, c, q, d);
    }
  }

  /** Every parent path has a node. */
  ghost predicate Parented(at: map<Path, NamespaceNode>, registered: map<Path, Binding>) {
    && (forall p, c :: Under(p, c) in at ==> p in at)
    && (forall p, f :: Under(p, f) in registered ==> p in at)
  }

  lemma ParentedMore(at: map<Path, NamespaceNode>, registered: map<Path, Binding>, p: Path, f: Bytes,
                     capability: Binding)
    requires Parented(at, registered) && p in at
    ensures Parented(at, registered[Under(p, f) := capability])
  {
    forall q, d | Under(q, d) in registered[Under(p, f) := capability] ensures q in at { UnderInjective(p, f, q, d); }
  }

  lemma FreshPath(at: map<Path, NamespaceNode>, registered: map<Path, Binding>, p: Path, c: Bytes, child: NamespaceNode)
    requires Parented(at, registered) && p in at && Under(p, c) !in at
    ensures Parented(at[Under(p, c) := child], registered)
    ensures Keyed(at[Under(p, c) := child], Under(p, c), map[]) && Keyed(registered, Under(p, c), map[])
  {
    var s := Under(p, c);
    forall q, d | Under(q, d) in at[s := child] ensures q in at && q != s { UnderInjective(q, d, p, c); }
  }

  /** Functions and the modules of the children, child modules last. */
  lemma FrozenAgrees(registered: map<Path, Binding>, p: Path, functions: map<Bytes, Binding>, modules: map<Bytes,
                     Member>, members: map<Bytes, Member>)
    requires Keyed(registered, p, functions) && forall c :: c in modules <==> IsSpace(registered, Under(p, c))
    requires forall c :: c in modules ==> modules[c] == Module(ModuleAt(registered, Under(p, c)))
    requires members.Keys == functions.Keys + modules.Keys
    requires forall c :: c in members ==> members[c] == if c in modules then modules[c] else Function(functions[c])
    ensures members == ModuleAt(registered, p)
  {
    forall c ensures c in members <==> c in Next(registered, p) {
      NextMeans(registered, p, c);
      assert Under(p, c) == p + [c];
    }
    forall c | c in members ensures members[c] == ModuleAt(registered, p)[c] {
      assert Under(p, c) == p + [c];
      assert c in functions <==> Under(p, c) in registered;
    }
  }

  /** The trie under assembly, with the node of every namespace and the paths registered so far. */
  class Assembly {
    const root: NamespaceNode
    ghost var at: map<Path, NamespaceNode>
    ghost var registered: map<Path, Binding>

    ghost predicate Valid()
      reads this, at.Values
    {
      && [] in at && at[[]] == root && Parented(at, registered)
      && (forall p, q :: p in at && q in at && p != q ==> at[p] != at[q])
      && (forall p :: p in at ==> Keyed(at, p, at[p].children))
      && (forall p :: p in at ==> Keyed(registered, p, at[p].functions))
    }

    constructor ()
      ensures Valid() && fresh(root) && at == map[[] := root] && registered == map[]
    {
      root := new NamespaceNode();
      new;
      at := map[[] := root];
      registered := map[];
    }

    /** The child of a node, created where it is missing. */
    method Child(node: NamespaceNode, ghost p: Path, segment: Bytes) returns (child: NamespaceNode)
      requires Valid() && p in at && at[p] == node
      modifies this, node
      ensures Valid() && registered == old(registered)
      ensures at == old(at)[Under(p, segment) := child]
      ensures child in old(at.Values) || fresh(child)
    {
      if segment in node.children {
        child := node.children[segment];
        assert at == at[Under(p, segment) := child];
        return;
      }
      child := new NamespaceNode();
      Attach(node, p, segment, child);
    }

    method Attach(node: NamespaceNode, ghost p: Path, segment: Bytes, child: NamespaceNode)
      requires Valid() && p in at && at[p] == node && Under(p, segment) !in at
      requires child !in at.Values && child.children == map[] && child.functions == map[]
      modifies this, node
      ensures Valid() && registered == old(registered) && at == old(at)[Under(p, segment) := child]
    {
      ghost var s := Under(p, segment);
      ghost var was := at;
      ghost var children := map q | q in at :: at[q].children;
      assert forall q :: q in at ==> at[q] in at.Values && at[q] != child;
      node.children := node.children[segment := child];
      at := at[s := child];
      FreshPath(was, registered, p, segment, child);
      forall q | q in at ensures Keyed(at, q, at[q].children) {
        if q != s { KeyedMore(was, q, children[q], p, segment, child); }
      }
    }

    /** Every node is there for a registered path, or for the one about to be registered. */
    ghost predicate Grounded(pending: Path)
      reads this
    {
      forall p :: p in at && p != [] ==> p <= pending || IsSpace(registered, p)
    }

    /** The node of a namespace path, with every missing node on the way created. */
    method Walk(segments: Path) returns (node: NamespaceNode)
      requires Valid() && Grounded([])
      modifies this, at.Values
      ensures Valid() && Grounded(segments) && registered == old(registered)
      ensures segments in at && at[segments] == node
      ensures fresh(at.Values - old(at.Values))
    {
      node := root;
      assert segments[..0] == [];
      for k := 0 to |segments|
        invariant Valid() && registered == old(registered) && Grounded(segments)
        invariant segments[..k] in at && at[segments[..k]] == node
        invariant fresh(at.Values - old(at.Values))
      {
        assert Under(segments[..k], segments[k]) == segments[..k + 1];
        node := Child(node, segments[..k], segments[k]);
      }
      assert segments[..|segments|] == segments;
    }

    /** The loop body of buildPredeclared: the capability joins the trie unless its name is taken. */
    method Register(capability: Binding) returns (ok: bool)
      requires Valid() && Grounded([])
      modifies this, at.Values
      ensures fresh(at.Values - old(at.Values))
      ensures Valid()
      ensures ok <==> Split(capability.name) !in old(registered)
      ensures ok ==> Grounded([]) && registered == old(registered)[Split(capability.name) := capability]
    {
      var all := Split(capability.name);
      var segments, leaf := all[..|all| - 1], all[|all| - 1];
      var node := Walk(segments);
      assert Under(segments, leaf) == all;
      if leaf in node.functions {
        return false;
      }
      Put(node, segments, leaf, capability);
      return true;
    }

    method Put(node: NamespaceNode, ghost p: Path, leaf: Bytes, capability: Binding)
      requires Valid() && Grounded(p) && p in at && at[p] == node && leaf !in node.functions
      modifies `registered, node
      ensures Valid() && Grounded([]) && registered == old(registered)[Under(p, leaf) := capability]
    {
      ghost var was := registered;
      ghost var functions := map q | q in at :: at[q].functions;
      node.functions := node.functions[leaf := capability];
      registered := registered[Under(p, leaf) := capability];
      ParentedMore(at, was, p, leaf, capability);
      forall q | q in at ensures Keyed(registered, q, at[q].functions) {
        KeyedMore(was, q, functions[q], p, leaf, capability);
      }
      GroundedMore(was, p, leaf, capability);
    }

    lemma GroundedMore(was: map<Path, Binding>, p: Path, leaf: Bytes, capability: Binding)
      requires registered == was[Under(p, leaf) := capability]
      requires forall q :: q in at && q != [] ==> q <= p || IsSpace(was, q)
      ensures Grounded([])
    {
      forall q | q in at && q != [] ensures IsSpace(registered, q) {
        if q <= p {
          assert q < Under(p, leaf) && Under(p, leaf) in registered;
        } else {
          var r :| r in was && q < r;
          assert r in registered;
        }
      }
    }

    /** Every registered namespace has its node. */
    lemma {:induction false} SpaceHasNode(r: Path, n: nat)
      requires Valid() && r in registered && n < |r|
      ensures r[..n] in at
      decreases |r| - n
    {
      if n == |r| - 1 {
        assert Under(r[..n], r[n]) == r;
      } else {
        SpaceHasNode(r, n + 1);
        assert Under(r[..n], r[n]) == r[..n + 1];
      }
    }

    lemma NodesAreSpaces(p: Path)
      requires Valid() && Grounded([]) && p != []
      ensures p in at <==> IsSpace(registered, p)
    {
      if IsSpace(registered, p) {
        var r :| r in registered && p < r;
        SpaceHasNode(r, |p|);
        assert r[..|p|] == p;
      }
    }

    lemma ChildrenAreSpaces(node: NamespaceNode, p: Path)
      requires Valid() && Grounded([]) && p in at && at[p] == node
      ensures forall c :: c in node.children <==> IsSpace(registered, Under(p, c))
    {
      forall c ensures c in node.children <==> IsSpace(registered, Under(p, c)) { NodesAreSpaces(Under(p, c)); }
    }

    function FreezeChild(node: NamespaceNode, ghost p: Path, c: Bytes): (m: map<Bytes, Member>)
      requires Valid() && Grounded([]) && p in at && at[p] == node && c in node.children
      reads this, at.Values
      ensures m == ModuleAt(registered, Under(p, c))
      decreases Longest(registered.Keys) - |p|, 0
    {
      NodesAreSpaces(Under(p, c));
      SpaceIsShort(registered, Under(p, c));
      FreezeModule(node.children[c], Under(p, c))
    }

    /** freezeModule: functions first, then a module for every child. The trie freezes to the
        modules its registered paths determine. */
    function FreezeModule(node: NamespaceNode, ghost p: Path): (m: map<Bytes, Member>)
      requires Valid() && Grounded([]) && p in at && at[p] == node
      reads this, at.Values
      ensures m == ModuleAt(registered, p)
      decreases Longest(registered.Keys) - |p|, 1
    {
      var functions := map f | f in node.functions :: Function(node.functions[f]);
      var modules := map c | c in node.children :: Module(FreezeChild(node, p, c));
      ChildrenAreSpaces(node, p);
      FrozenAgrees(registered, p, node.functions, modules, functions + modules);
      functions + modules
    }
  }
}
