/** What the frozen modules of internal/execution/namespace.go must be: a nested module value
    determined by the registered paths alone, and what walking it reaches. */
module Modules {
  import opened Text
  import opened Schema

  /** CapabilityBinding: one capability exposed to the interpreter. */
  datatype Binding = Binding(id: Bytes, name: Bytes, input: InputSchema)

  /** A Starlark value of the predeclared surface; the fixed builtins are known by number. */
  datatype Member = Function(capability: Binding) | Module(members: map<Bytes, Member>) | FixedBuiltin(number: nat)

  type Path = seq<Bytes>

  /** Walking a dotted path through module members. */
  function Resolve(members: map<Bytes, Member>, path: Path): Option<Member>
    decreases path
  {
    if path == [] || path[0] !in members then None
    else if |path| == 1 then Some(members[path[0]])
    else match members[path[0]]
         case Module(inner) => Resolve(inner, path[1..])
         case _ => None
  }

  /** The path is a namespace: some registered path properly extends it. */
  ghost predicate IsSpace(registered: map<Path, Binding>, p: Path) { exists r :: r in registered && p < r }

  ghost function Longest(paths: set<Path>): (n: nat)
    ensures forall r :: r in paths ==> |r| <= n
  {
    if paths == {} then 0
    else
      var r :| r in paths;
      var rest := Longest(paths - {r});
      if |r| > rest then |r| else rest
  }

  ghost function Next(registered: map<Path, Binding>, p: Path): set<Bytes> {
    set r | r in registered && p < r :: r[|p|]
  }

  lemma NextMeans(registered: map<Path, Binding>, p: Path, c: Bytes)
    ensures c in Next(registered, p) <==> p + [c] in registered || IsSpace(registered, p + [c])
  {
    if c in Next(registered, p) {
      var r :| r in registered && p < r && r[|p|] == c;
      if |r| == |p| + 1 { assert r == p + [c]; } else { assert p + [c] < r; }
    }
    if p + [c] in registered {
      assert p < p + [c] && (p + [c])[|p|] == c;
    }
    if IsSpace(registered, p + [c]) {
      var r :| r in registered && p + [c] < r;
      assert p < r && r[|p|] == (p + [c])[|p|];
    }
  }

  lemma SpaceIsShort(registered: map<Path, Binding>, p: Path)
    ensures IsSpace(registered, p) ==> |p| < Longest(registered.Keys)
  {}

  /** The members a namespace must have: a module for every namespace below it, otherwise the
      capability registered there. */
  ghost function ModuleAt(registered: map<Path, Binding>, p: Path): (m: map<Bytes, Member>)
    ensures m.Keys == Next(registered, p)
    decreases Longest(registered.Keys) - |p|
  {
    map c | c in Next(registered, p) ::
      NextMeans(registered, p, c);
      SpaceIsShort(registered, p + [c]);
      if IsSpace(registered, p + [c]) then Module(ModuleAt(registered, p + [c])) else Function(registered[p + [c]])
  }

  /** Walking the modules reaches a capability exactly when the whole path is registered and is
      not also a namespace, and then it reaches that capability. */
  lemma {:induction false} ResolveReaches(registered: map<Path, Binding>, p: Path, path: Path, b: Binding)
    requires path != []
    ensures Resolve(ModuleAt(registered, p), path) == Some(Function(b))
       <==> p + path in registered && registered[p + path] == b && !IsSpace(registered, p + path)
    decreases path
  {
    var c := path[0];
    NextMeans(registered, p, c);
    assert path == [c] + path[1..];
    if |path| == 1 {
      assert path == [c];
    } else {
      var q := p + [c];
      assert q + path[1..] == p + path;
      assert p + path in registered ==> q < p + path;
      ResolveReaches(registered, q, path[1..], b);
      if !IsSpace(registered, q) && c in Next(registered, p) {
        assert ModuleAt(registered, p)[c].Function?;
      } else if c !in Next(registered, p) {
        assert !IsSpace(registered, q);
      }
    }
  }

  /** No registered path is also a namespace. */
  ghost predicate PrefixFree(registered: map<Path, Binding>) { forall r :: r in registered ==> !IsSpace(registered, r) }

  /** Under one collision-free registration the nested modules and the flat names agree. */
  lemma FlatAgrees(registered: map<Path, Binding>, path: Path, b: Binding)
    requires PrefixFree(registered) && path != []
    ensures Resolve(ModuleAt(registered, []), path) == Some(Function(b))
            <==> path in registered && registered[path] == b
  {
    ResolveReaches(registered, [], path, b);
    assert [] + path == path;
  }
}
