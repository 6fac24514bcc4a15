/** The registration half of internal/execution/engine.go: which bindings are accepted, and
    what a program can call once they are. */
module Engine {
  import opened Text
  import opened Tokens
  import opened Schema
  import opened Dotted
  import opened Modules
  import opened Namespace

  /** Unicode, identifiers and the reserved roots of the fixed language surface. */
  datatype Language = Language(u: Unicode, names: NameLib, reserved: Bytes -> bool, fixed: map<Bytes, Member>)

  /** Every fixed root is reserved. */
  ghost predicate LanguageOk(language: Language) { forall root :: root in language.fixed ==> language.reserved(root) }

  /** Not empty, and strings.TrimSpace would not change it. */
  predicate Trimmed(u: Unicode, text: Bytes) {
    var s := Runes(text);
    text != [] && !u.space(s[0]) && !u.space(s[|s| - 1])
  }

  predicate NameOk(language: Language, name: Bytes) {
    IsDotted(language.names, name) && !language.reserved(Split(name)[0])
  }

  ghost predicate BindingOk(language: Language, b: Binding) {
    Trimmed(language.u, b.id) && NameOk(language, b.name) && SchemaOk(language.names, b.input)
  }

  function Ids(bindings: seq<Binding>): (r: seq<Bytes>)
    ensures |r| == |bindings|
  {
    seq(|bindings|, i requires 0 <= i < |bindings| => bindings[i].id)
  }

  function Names(bindings: seq<Binding>): (r: seq<Bytes>)
    ensures |r| == |bindings|
  {
    seq(|bindings|, i requires 0 <= i < |bindings| => bindings[i].name)
  }

  ghost predicate AllOk(language: Language, bindings: seq<Binding>) {
    forall i :: 0 <= i < |bindings| ==> BindingOk(language, bindings[i])
  }

  /** Every binding is fine by itself and no two share an ID or a name. */
  ghost predicate Separate(language: Language, bindings: seq<Binding>) {
    AllOk(language, bindings) && NoDuplicates(Ids(bindings)) && NoDuplicates(Names(bindings))
  }

  /** What the engine demands of its bindings. */
  ghost predicate BindingsOk(language: Language, bindings: seq<Binding>) {
    Separate(language, bindings) && NoCollisions(KeySet(Names(bindings)))
  }

  lemma ListsMore(bindings: seq<Binding>, n: nat)
    requires n < |bindings|
    ensures Ids(bindings[..n + 1]) == Ids(bindings[..n]) + [bindings[n].id]
    ensures Names(bindings[..n + 1]) == Names(bindings[..n]) + [bindings[n].name]
  {}

  lemma AllOkMore(language: Language, bindings: seq<Binding>, n: nat)
    requires n < |bindings| && AllOk(language, bindings[..n])
    ensures AllOk(language, bindings[..n + 1]) <==> BindingOk(language, bindings[n])
  {
    assert bindings[..n + 1][n] == bindings[n];
  }

  lemma SeparateMore(language: Language, bindings: seq<Binding>, n: nat)
    requires n < |bindings| && Separate(language, bindings[..n])
    ensures Separate(language, bindings[..n + 1])
       <==> BindingOk(language, bindings[n]) && bindings[n].id !in KeySet(Ids(bindings[..n]))
            && bindings[n].name !in KeySet(Names(bindings[..n]))
    ensures KeySet(Ids(bindings[..n + 1])) == KeySet(Ids(bindings[..n])) + {bindings[n].id}
    ensures KeySet(Names(bindings[..n + 1])) == KeySet(Names(bindings[..n])) + {bindings[n].name}
  {
    ListsMore(bindings, n);
    AllOkMore(language, bindings, n);
    NoDuplicatesMore(Ids(bindings[..n]), bindings[n].id);
    NoDuplicatesMore(Names(bindings[..n]), bindings[n].name);
  }

  lemma SeparatePrefix(language: Language, bindings: seq<Binding>, n: nat)
    requires n <= |bindings| && Separate(language, bindings)
    ensures Separate(language, bindings[..n])
  {
    assert Ids(bindings[..n]) == Ids(bindings)[..n] && Names(bindings[..n]) == Names(bindings)[..n];
  }

  method CheckBinding(language: Language, b: Binding, ids: set<Bytes>, names: set<Bytes>) returns (ok: bool)
    ensures ok <==> BindingOk(language, b) && b.id !in ids && b.name !in names
  {
    if !Trimmed(language.u, b.id) { return false; }
    if b.id in ids { return false; }
    if !IsDotted(language.names, b.name) { return false; }
    if language.reserved(Split(b.name)[0]) { return false; }
    if b.name in names { return false; }
    ok := Validate(language.names, b.input);
  }

  /** validateBindings. */
  method ValidateBindings(language: Language, bindings: seq<Binding>) returns (ok: bool)
    ensures ok <==> BindingsOk(language, bindings)
  {
    var ids: set<Bytes>, names: set<Bytes> := {}, {};
    for n := 0 to |bindings|
      invariant Separate(language, bindings[..n]) && ids == KeySet(Ids(bindings[..n]))
                && names == KeySet(Names(bindings[..n]))
    {
      SeparateMore(language, bindings, n);
      var fine := CheckBinding(language, bindings[n], ids, names);
      if !fine {
        if Separate(language, bindings) { SeparatePrefix(language, bindings, n + 1); }
        return false;
      }
      ids, names := ids + {bindings[n].id}, names + {bindings[n].name};
    }
    assert bindings[..|bindings|] == bindings;
    ok := CheckCollisions(names);
  }

  // ----- the flat registration -----

  /** Every name, by segments. */
  ghost function Registered(bindings: seq<Binding>): map<Path, Binding> {
    if bindings == [] then map[]
    else Registered(bindings[..|bindings| - 1])[Split(bindings[|bindings| - 1].name) := bindings[|bindings| - 1]]
  }

  lemma RegisteredMore(bindings: seq<Binding>, n: nat)
    requires n < |bindings|
    ensures Registered(bindings[..n + 1]) == Registered(bindings[..n])[Split(bindings[n].name) := bindings[n]]
  {
    assert bindings[..n + 1][..n] == bindings[..n];
  }

  lemma {:induction false} RegisteredFrom(bindings: seq<Binding>, p: Path) returns (i: nat)
    requires p in Registered(bindings)
    ensures i < |bindings| && Split(bindings[i].name) == p && Registered(bindings)[p] == bindings[i]
  {
    i := |bindings| - 1;
    if Split(bindings[i].name) != p { i := RegisteredFrom(bindings[..i], p); }
  }

  /** With distinct names nothing is overwritten. */
  lemma {:induction false} RegisteredHas(bindings: seq<Binding>, i: nat)
    requires NoDuplicates(Names(bindings)) && i < |bindings|
    ensures Split(bindings[i].name) in Registered(bindings)
            && Registered(bindings)[Split(bindings[i].name)] == bindings[i]
  {
    var n := |bindings| - 1;
    if i < n {
      assert Names(bindings)[i] != Names(bindings)[n];
      if Split(bindings[i].name) == Split(bindings[n].name) { SplitInjective(bindings[i].name, bindings[n].name); }
      assert Names(bindings[..n]) == Names(bindings)[..n];
      RegisteredHas(bindings[..n], i);
    }
  }

  lemma NameIsFree(bindings: seq<Binding>, n: nat)
    requires n < |bindings| && NoDuplicates(Names(bindings))
    ensures Split(bindings[n].name) !in Registered(bindings[..n])
  {
    var p := Split(bindings[n].name);
    if p in Registered(bindings[..n]) {
      var i := RegisteredFrom(bindings[..n], p);
      assert Names(bindings)[i] != Names(bindings)[n];
      SplitInjective(bindings[i].name, bindings[n].name);
    }
  }

  lemma RegisteredPath(language: Language, bindings: seq<Binding>, p: Path)
    requires BindingsOk(language, bindings) && p in Registered(bindings)
    ensures |p| >= MINIMUM_SEGMENTS && !language.reserved(p[0])
  {
    var i := RegisteredFrom(bindings, p);
    assert BindingOk(language, bindings[i]);
  }

  // ----- assembling -----

  /** The predeclared surface the bindings call for: the fixed one, with their modules added. */
  ghost function Surface(language: Language, bindings: seq<Binding>): map<Bytes, Member> {
    language.fixed + ModuleAt(Registered(bindings), [])
  }

  method Assemble(bindings: seq<Binding>) returns (trie: Assembly)
    requires NoDuplicates(Names(bindings))
    ensures trie.Valid() && trie.Grounded([]) && trie.registered == Registered(bindings)
  {
    trie := new Assembly();
    for n := 0 to |bindings|
      invariant trie.Valid() && trie.Grounded([]) && trie.registered == Registered(bindings[..n])
      invariant fresh(trie) && fresh(trie.at.Values)
    {
      NameIsFree(bindings, n);
      RegisteredMore(bindings, n);
      var ok := trie.Register(bindings[n]);
    }
    assert bindings[..|bindings|] == bindings;
  }

  /** A dotted name has a namespace, so every root of the trie is a module and none is fixed. */
  lemma RootsAreFree(language: Language, bindings: seq<Binding>, root: Bytes)
    requires LanguageOk(language) && BindingsOk(language, bindings) && root in Next(Registered(bindings), [])
    ensures root !in language.fixed && IsSpace(Registered(bindings), [root])
  {
    var all := Registered(bindings);
    var r :| r in all && [] < r && r[0] == root;
    RegisteredPath(language, bindings, r);
    assert [root] < r;
  }

  /** All of the modules but those left have joined the fixed surface. */
  ghost predicate Merging(fixed: map<Bytes, Member>, modules: map<Bytes, Member>, left: set<Bytes>,
                          m: map<Bytes, Member>) {
    && left <= modules.Keys
    && (forall c :: c in m <==> c in fixed || (c in modules && c !in left))
    && (forall c :: c in modules && c !in left ==> c !in fixed && m[c] == modules[c])
    && (forall c :: c in fixed ==> m[c] == fixed[c])
  }

  lemma MergingStep(fixed: map<Bytes, Member>, modules: map<Bytes, Member>, left: set<Bytes>, m: map<Bytes, Member>,
                    name: Bytes)
    requires Merging(fixed, modules, left, m) && name in left
    ensures name in m <==> name in fixed
    ensures name !in m ==> Merging(fixed, modules, left - {name}, m[name := modules[name]])
  {}

  lemma MergingDone(fixed: map<Bytes, Member>, modules: map<Bytes, Member>, m: map<Bytes, Member>)
    requires Merging(fixed, modules, {}, m)
    ensures fixed.Keys !! modules.Keys && m == fixed + modules
  {}

  /** The end of buildPredeclared: every root joins the fixed surface, unless it is taken. */
  method MergeRoots(fixed: map<Bytes, Member>, modules: map<Bytes, Member>) returns (r: Option<map<Bytes, Member>>)
    ensures r.Some? <==> fixed.Keys !! modules.Keys
    ensures r.Some? ==> r.value == fixed + modules
  {
    var predeclared := fixed;
    var left := modules.Keys;
    while left != {}
      invariant Merging(fixed, modules, left, predeclared)
      decreases |left|
    {
      var name :| name in left;
      MergingStep(fixed, modules, left, predeclared, name);
      if name in predeclared {
        assert name in fixed && name in modules;
        return None;
      }
      predeclared := predeclared[name := modules[name]];
      left := left - {name};
    }
    MergingDone(fixed, modules, predeclared);
    return Some(predeclared);
  }

  /** New: validateBindings, then buildPredeclared. It succeeds exactly on acceptable bindings and
      yields the surface they determine. */
  method New(language: Language, bindings: seq<Binding>) returns (r: Option<map<Bytes, Member>>)
    requires LanguageOk(language)
    ensures r.Some? <==> BindingsOk(language, bindings)
    ensures r.Some? ==> r.value == Surface(language, bindings)
  {
    var ok := ValidateBindings(language, bindings);
    if !ok {
      return None;
    }
    var trie := Assemble(bindings);
    forall root | root in Next(Registered(bindings), []) ensures root !in language.fixed {
      RootsAreFree(language, bindings, root);
    }
    r := MergeRoots(language.fixed, trie.FreezeModule(trie.root, []));
  }

  // ----- what a program can call -----

  lemma NotBelow(bindings: seq<Binding>, r: Path, q: Path)
    requires NoCollisions(KeySet(Names(bindings))) && r in Registered(bindings) && q in Registered(bindings)
    ensures !(r < q)
  {
    var i := RegisteredFrom(bindings, r);
    var j := RegisteredFrom(bindings, q);
    var a, b := Names(bindings)[i], Names(bindings)[j];
    assert a in KeySet(Names(bindings)) && b in KeySet(Names(bindings));
    assert !IsNamespaceOf(a, b);
  }

  lemma BindingsArePrefixFree(language: Language, bindings: seq<Binding>)
    requires BindingsOk(language, bindings)
    ensures PrefixFree(Registered(bindings))
  {
    var all := Registered(bindings);
    forall r, q | r in all && q in all ensures !(r < q) { NotBelow(bindings, r, q); }
  }

  lemma RegisteredExactly(bindings: seq<Binding>, name: Bytes, b: Binding)
    requires NoDuplicates(Names(bindings))
    ensures Split(name) in Registered(bindings) && Registered(bindings)[Split(name)] == b
            <==> b in bindings && b.name == name
  {
    if b in bindings && b.name == name {
      var i :| 0 <= i < |bindings| && bindings[i] == b;
      RegisteredHas(bindings, i);
    }
    if Split(name) in Registered(bindings) {
      var i := RegisteredFrom(bindings, Split(name));
      SplitInjective(bindings[i].name, name);
    }
  }

  lemma ResolveBeside(fixed: map<Bytes, Member>, modules: map<Bytes, Member>, path: Path)
    requires path != [] && path[0] !in fixed
    ensures Resolve(fixed + modules, path) == Resolve(modules, path)
  {}

  /** Walking a dotted path outside the fixed surface reaches a capability exactly when the path
      is a registered name, and then it is the capability of that name. */
  lemma CallableExactly(language: Language, bindings: seq<Binding>, name: Bytes, b: Binding)
    requires BindingsOk(language, bindings) && Split(name)[0] !in language.fixed
    ensures Resolve(Surface(language, bindings), Split(name)) == Some(Function(b)) <==> b in bindings && b.name == name
  {
    BindingsArePrefixFree(language, bindings);
    FlatAgrees(Registered(bindings), Split(name), b);
    ResolveBeside(language.fixed, ModuleAt(Registered(bindings), []), Split(name));
    RegisteredExactly(bindings, name, b);
  }

  lemma SameRegistered(a: seq<Binding>, b: seq<Binding>, p: Path)
    requires NoDuplicates(Names(b)) && p in Registered(a) && forall x :: x in a ==> x in b
    ensures p in Registered(b) && Registered(b)[p] == Registered(a)[p]
  {
    var i := RegisteredFrom(a, p);
    assert a[i] in b;
    var j :| 0 <= j < |b| && b[j] == a[i];
    RegisteredHas(b, j);
  }

  /** The order of the bindings does not show. */
  lemma OrderIrrelevant(language: Language, a: seq<Binding>, b: seq<Binding>)
    requires NoDuplicates(Names(a)) && NoDuplicates(Names(b)) && forall x :: x in a <==> x in b
    ensures Surface(language, a) == Surface(language, b)
  {
    forall p | p in Registered(a) || p in Registered(b)
      ensures p in Registered(a) && p in Registered(b) && Registered(a)[p] == Registered(b)[p]
    {
      if p in Registered(a) { SameRegistered(a, b, p); } else { SameRegistered(b, a, p); }
    }
    assert Registered(a) == Registered(b);
  }
}
