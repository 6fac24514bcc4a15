/** internal/catalog/build.go and catalog.go: an immutable catalog built from registrations, its
    lookups, and what building does not depend on. */
module Catalog {
  import opened Text
  import opened Tokens
  import opened Dotted
  import opened Index
  import opened Registrations
  import Engine
  import Search

  datatype NamespaceBinding = NamespaceBinding(segments: seq<Bytes>, leaf: Bytes, capability: Entry)

  /** The fields of a catalog. */
  datatype Contents = Contents(enabled: seq<Entry>, byName: map<Bytes, nat>, byId: map<Bytes, nat>,
                               namespaces: seq<NamespaceBinding>,
                               documents: seq<Document>, maxQueryBytes: nat, maxResults: nat)

  function Entries(ls: seq<Listing>): (r: seq<Entry>)
    ensures |r| == |ls|
  {
    seq(|ls|, i requires 0 <= i < |ls| => ls[i].entry)
  }

  function Terms(ls: seq<Listing>): (r: seq<seq<Bytes>>)
    ensures |r| == |ls|
  {
    seq(|ls|, i requires 0 <= i < |ls| => ls[i].terms)
  }

  function EntryNames(entries: seq<Entry>): (r: seq<Bytes>)
    ensures |r| == |entries|
  {
    seq(|entries|, i requires 0 <= i < |entries| => entries[i].name)
  }

  function EntryIds(entries: seq<Entry>): (r: seq<Bytes>)
    ensures |r| == |entries|
  {
    seq(|entries|, i requires 0 <= i < |entries| => entries[i].id)
  }

  /** A map from every key to its position. */
  ghost predicate Positions(keys: seq<Bytes>, m: map<Bytes, nat>) {
    && (forall i :: 0 <= i < |keys| ==> keys[i] in m && m[keys[i]] == i)
    && (forall k :: k in m ==> m[k] < |keys| && keys[m[k]] == k)
  }

  function BindingOf(e: Entry): NamespaceBinding {
    var segments := Split(e.name);
    NamespaceBinding(segments[..|segments| - 1], segments[|segments| - 1], e)
  }

  function Bindings(entries: seq<Entry>): (r: seq<NamespaceBinding>)
    ensures |r| == |entries|
  {
    seq(|entries|, i requires 0 <= i < |entries| => BindingOf(entries[i]))
  }

  /** The three indexes agree with the entry list. */
  ghost predicate Indexed(c: Contents) {
    Positions(EntryNames(c.enabled), c.byName) && Positions(EntryIds(c.enabled), c.byId)
      && c.namespaces == Bindings(c.enabled)
  }

  /** The specification of the catalog of some candidates. */
  ghost predicate IsCatalogOf(u: Unicode, plans: Plans, candidates: seq<Listing>, c: Contents) {
    exists ls :: IsSorted(ls, candidates) && c.enabled == Entries(ls)
      && IsIndex(u, plans.encode, c.enabled, Terms(ls), c.documents) && Indexed(c)
  }

  /** The catalog of some registrations under some options. */
  ghost predicate IsCatalog(language: Engine.Language, plans: Plans, rs: seq<Registration>, disabled: set<Bytes>,
                            c: Contents) {
    exists ls :: Listed(plans, Enabled(rs, disabled), ls) && IsCatalogOf(language.u, plans, ls, c)
  }

  /** Every enabled result could occupy a response alone. */
  ghost predicate ResultsFit(plans: Plans, rs: seq<Registration>) {
    forall i :: 0 <= i < |rs| ==> rs[i].plan.Some? && rs[i].handler.Some?
                                  && ResultFits(plans.encode(ListingOf(plans, rs[i]).entry))
  }

  /** When Build succeeds. */
  ghost predicate Buildable(language: Engine.Language, plans: Plans, rs: seq<Registration>, options: Options) {
    && options.maxQueryBytes > 0 && options.maxResults > 0 && Acceptable(Check(language), rs)
    && NoDuplicates(options.disabled) && KeySet(options.disabled) <= KeySet(Ids(rs))
    && ResultsFit(plans, Enabled(rs, KeySet(options.disabled)))
  }

  lemma PositionsUnique(keys: seq<Bytes>, a: map<Bytes, nat>, b: map<Bytes, nat>)
    requires Positions(keys, a) && Positions(keys, b)
    ensures a == b
  {
    forall k | k in a ensures k in b && a[k] == b[k] { assert keys[a[k]] == k; }
    forall k | k in b ensures k in a { assert keys[b[k]] == k; }
  }

  predicate SameBounds(a: Contents, b: Contents) { a.maxQueryBytes == b.maxQueryBytes && a.maxResults == b.maxResults }

  lemma CatalogOfUnique(u: Unicode, plans: Plans, x: seq<Listing>, y: seq<Listing>, a: Contents, b: Contents)
    requires IsCatalogOf(u, plans, x, a) && IsCatalogOf(u, plans, y, b) && Members(x) == Members(y)
    requires SameBounds(a, b)
    ensures a == b
  {
    var p :| IsSorted(p, x) && a.enabled == Entries(p) && IsIndex(u, plans.encode, a.enabled, Terms(p), a.documents)
      && Indexed(a);
    var q :| IsSorted(q, y) && b.enabled == Entries(q) && IsIndex(u, plans.encode, b.enabled, Terms(q), b.documents)
      && Indexed(b);
    SortingUnique(p, q);
    IndexUnique(u, plans.encode, a.enabled, Terms(p), a.documents, b.documents);
    PositionsUnique(EntryNames(a.enabled), a.byName, b.byName);
    PositionsUnique(EntryIds(a.enabled), a.byId, b.byId);
  }

  /** The same registrations are enabled, in whatever order. */
  ghost predicate SameRegistrations(a: seq<Registration>, b: seq<Registration>) { forall r :: r in a <==> r in b }

  lemma SameListings(plans: Plans, a: seq<Registration>, b: seq<Registration>, x: seq<Listing>, y: seq<Listing>)
    requires SameRegistrations(a, b) && Listed(plans, a, x) && Listed(plans, b, y)
    ensures Members(x) <= Members(y)
  {
    forall l | l in Members(x) ensures l in Members(y) {
      var i :| 0 <= i < |x| && x[i] == l;
      assert a[i] in b;
      var j :| 0 <= j < |b| && b[j] == a[i];
      assert y[j] == l;
    }
  }

  /** A catalog depends only on which registrations are enabled: not on their order, and not on
      which others were registered and disabled. Entries, lookups, namespaces, rarity factors and
      documents are all the same. */
  lemma CatalogUnique(language: Engine.Language, plans: Plans, a: seq<Registration>, b: seq<Registration>,
                      off: set<Bytes>, none: set<Bytes>,
                      c: Contents, d: Contents)
    requires IsCatalog(language, plans, a, off, c) && IsCatalog(language, plans, b, none, d)
    requires SameRegistrations(Enabled(a, off), Enabled(b, none))
    requires SameBounds(c, d)
    ensures c == d
  {
    var x :| Listed(plans, Enabled(a, off), x) && IsCatalogOf(language.u, plans, x, c);
    var y :| Listed(plans, Enabled(b, none), y) && IsCatalogOf(language.u, plans, y, d);
    SameListings(plans, Enabled(a, off), Enabled(b, none), x, y);
    SameListings(plans, Enabled(b, none), Enabled(a, off), y, x);
    CatalogOfUnique(language.u, plans, x, y, c, d);
  }

  // ----- building -----

  lemma PositionsMore(keys: seq<Bytes>, n: nat, m: map<Bytes, nat>)
    requires NoDuplicates(keys) && n < |keys| && Positions(keys[..n], m)
    ensures Positions(keys[..n + 1], m[keys[n] := n])
  {}

  /** An immutable catalog; only Index writes it. */
  class LiveCatalog {
    var enabled: seq<Entry>
    var byName: map<Bytes, nat>
    var byId: map<Bytes, nat>
    var namespaces: seq<NamespaceBinding>
    var documents: seq<Document>
    const maxQueryBytes: nat
    const maxResults: nat

    ghost function Data(): Contents
      reads this
    {
      Contents(enabled, byName, byId, namespaces, documents, maxQueryBytes, maxResults)
    }

    constructor (enabled: seq<Entry>, documents: seq<Document>, maxQueryBytes: nat, maxResults: nat)
      ensures Data() == Contents(enabled, map[], map[], [], documents, maxQueryBytes, maxResults)
    {
      this.enabled, this.documents, this.maxQueryBytes, this.maxResults := enabled, documents, maxQueryBytes,
        maxResults;
      byName, byId, namespaces := map[], map[], [];
    }

    /** indexCatalog. */
    method Index()
      requires byName == map[] && byId == map[] && namespaces == []
      requires NoDuplicates(EntryNames(enabled)) && NoDuplicates(EntryIds(enabled))
      modifies this
      ensures Indexed(Data()) && enabled == old(enabled) && documents == old(documents)
    {
      ghost var names, ids := EntryNames(enabled), EntryIds(enabled);
      for n := 0 to |enabled|
        invariant enabled == old(enabled) && documents == old(documents)
        invariant Positions(names[..n], byName) && Positions(ids[..n], byId) && namespaces == Bindings(enabled)[..n]
      {
        PositionsMore(names, n, byName);
        PositionsMore(ids, n, byId);
        byName := byName[enabled[n].name := n];
        byId := byId[enabled[n].id := n];
        namespaces := namespaces + [BindingOf(enabled[n])];
      }
      assert names[..|enabled|] == names && ids[..|enabled|] == ids
             && Bindings(enabled)[..|enabled|] == Bindings(enabled);
    }

    /** Lookup: exactly the enabled entry of that name. */
    method Lookup(name: Bytes) returns (r: Option<Entry>)
      requires Indexed(Data())
      ensures forall e :: r == Some(e) <==> e in enabled && e.name == name
    {
      if name !in byName {
        NotNamed(Data(), name);
        return None;
      }
      NamedOnce(Data(), name);
      return Some(enabled[byName[name]]);
    }

    /** LookupID: exactly the enabled entry of that ID. */
    method LookupId(id: Bytes) returns (r: Option<Entry>)
      requires Indexed(Data())
      ensures forall e :: r == Some(e) <==> e in enabled && e.id == id
    {
      if id !in byId {
        NotIdentified(Data(), id);
        return None;
      }
      IdentifiedOnce(Data(), id);
      return Some(enabled[byId[id]]);
    }

    /** Search, over the documents of this catalog. */
    method Ask(u: Unicode, query: Bytes) returns (r: Search.Answer)
      requires Search.DistinctNames(documents) && forall i :: 0 <= i < |documents| ==> DocumentOk(documents[i])
      ensures Search.IsAnswer(u, documents, maxQueryBytes, maxResults, query, r)
    {
      r := Search.Search(u, documents, maxQueryBytes, maxResults, query);
    }
  }

  lemma NamedOnce(c: Contents, name: Bytes)
    requires Indexed(c) && name in c.byName
    ensures c.byName[name] < |c.enabled| && c.enabled[c.byName[name]].name == name
    ensures forall e :: e in c.enabled && e.name == name ==> e == c.enabled[c.byName[name]]
  {
    forall e | e in c.enabled && e.name == name ensures e == c.enabled[c.byName[name]] {
      var i :| 0 <= i < |c.enabled| && c.enabled[i] == e;
      assert EntryNames(c.enabled)[i] == name;
    }
  }

  lemma NotNamed(c: Contents, name: Bytes)
    requires Indexed(c) && name !in c.byName
    ensures forall e :: e in c.enabled ==> e.name != name
  {
    forall i | 0 <= i < |c.enabled| ensures c.enabled[i].name != name { assert EntryNames(c.enabled)[i] in c.byName; }
  }

  lemma NotIdentified(c: Contents, id: Bytes)
    requires Indexed(c) && id !in c.byId
    ensures forall e :: e in c.enabled ==> e.id != id
  {
    forall i | 0 <= i < |c.enabled| ensures c.enabled[i].id != id { assert EntryIds(c.enabled)[i] in c.byId; }
  }

  lemma IdentifiedOnce(c: Contents, id: Bytes)
    requires Indexed(c) && id in c.byId
    ensures c.byId[id] < |c.enabled| && c.enabled[c.byId[id]].id == id
    ensures forall e :: e in c.enabled && e.id == id ==> e == c.enabled[c.byId[id]]
  {
    forall e | e in c.enabled && e.id == id ensures e == c.enabled[c.byId[id]] {
      var i :| 0 <= i < |c.enabled| && c.enabled[i] == e;
      assert EntryIds(c.enabled)[i] == id;
    }
  }

  datatype BuildError = InvalidRegistration | UnknownDisabledCapability

  // ----- what filtering keeps -----

  lemma CollectableAppend(check: Registration -> bool, rs: seq<Registration>, r: Registration)
    requires Collectable(check, rs)
    ensures Collectable(check, rs + [r])
       <==> check(r) && TotalMetadata(rs) + MetadataBytes(r) <= MAX_METADATA_BYTES
            && r.id !in KeySet(Ids(rs)) && r.name !in KeySet(Names(rs))
    ensures KeySet(Ids(rs + [r])) == KeySet(Ids(rs)) + {r.id} && KeySet(Names(rs + [r])) == KeySet(Names(rs)) + {r.name}
    ensures TotalMetadata(rs + [r]) == TotalMetadata(rs) + MetadataBytes(r)
  {
    var more, n := rs + [r], |rs|;
    assert more[..n] == rs && more[..n + 1] == more;
    CollectableMore(check, more, n);
    ListsMore(more, n);
  }

  /** Part of a list of registrations: nothing new, and no more metadata. */
  ghost predicate Part(a: seq<Registration>, b: seq<Registration>) {
    && |a| <= |b| && TotalMetadata(a) <= TotalMetadata(b)
    && KeySet(Ids(a)) <= KeySet(Ids(b)) && KeySet(Names(a)) <= KeySet(Names(b))
  }

  lemma PartMore(check: Registration -> bool, a: seq<Registration>, b: seq<Registration>, r: Registration)
    requires Part(a, b) && Collectable(check, a) && Collectable(check, b) && Collectable(check, b + [r])
    ensures Part(a, b + [r]) && Part(a + [r], b + [r]) && Collectable(check, a + [r])
  {
    CollectableAppend(check, a, r);
    CollectableAppend(check, b, r);
  }

  lemma {:induction false} EnabledCollectable(check: Registration -> bool, rs: seq<Registration>, disabled: set<Bytes>)
    requires Collectable(check, rs)
    ensures Collectable(check, Enabled(rs, disabled)) && Part(Enabled(rs, disabled), rs)
  {
    if rs != [] {
      var n := |rs| - 1;
      var front, r := rs[..n], rs[n];
      assert rs == front + [r];
      CollectablePrefix(check, rs, n);
      EnabledCollectable(check, front, disabled);
      PartMore(check, Enabled(front, disabled), front, r);
      assert Enabled(front, disabled) + [] == Enabled(front, disabled);
    }
  }

  lemma EnabledAcceptable(check: Registration -> bool, rs: seq<Registration>, disabled: set<Bytes>)
    requires Acceptable(check, rs)
    ensures Acceptable(check, Enabled(rs, disabled))
  {
    EnabledCollectable(check, rs, disabled);
  }

  /** Filtering is static: where Build succeeds, building only what is enabled succeeds too. With
      CatalogUnique the two catalogs are the same. */
  lemma BuildableEnabled(language: Engine.Language, plans: Plans, rs: seq<Registration>, options: Options)
    requires Buildable(language, plans, rs, options)
    ensures Buildable(language, plans, Enabled(rs, KeySet(options.disabled)), options.(disabled := []))
    ensures Enabled(Enabled(rs, KeySet(options.disabled)), KeySet([])) == Enabled(rs, KeySet(options.disabled))
  {
    var kept := Enabled(rs, KeySet(options.disabled));
    EnabledAcceptable(Check(language), rs, KeySet(options.disabled));
    NothingDisabled(kept);
    assert KeySet([]) == {};
  }

  // ----- Build -----

  lemma SortedMember(ls: seq<Listing>, kept: seq<Listing>, i: nat) returns (j: nat)
    requires IsSorted(ls, kept) && i < |ls|
    ensures j < |kept| && kept[j] == ls[i]
  {
    assert ls[i] in Members(kept);
    j :| 0 <= j < |kept| && kept[j] == ls[i];
  }

  /** Sorting by unique names keeps IDs unique. */
  lemma IdsStayUnique(plans: Plans, rs: seq<Registration>, kept: seq<Listing>, ls: seq<Listing>)
    requires Listed(plans, rs, kept) && NoDuplicates(Ids(rs)) && IsSorted(ls, kept)
    ensures NoDuplicates(EntryIds(Entries(ls))) && NoDuplicates(EntryNames(Entries(ls)))
  {
    var entries := Entries(ls);
    forall i, j | 0 <= i < j < |ls|
      ensures EntryIds(entries)[i] != EntryIds(entries)[j] && EntryNames(entries)[i] != EntryNames(entries)[j] {
      assert Below(ListingNames(ls)[i], ListingNames(ls)[j]);
      var p := SortedMember(ls, kept, i);
      var q := SortedMember(ls, kept, j);
      assert Ids(rs)[p] == ls[i].entry.id && Ids(rs)[q] == ls[j].entry.id;
      if p < q { assert Ids(rs)[p] != Ids(rs)[q]; } else { assert q < p; }
    }
  }

  lemma FitAgrees(plans: Plans, rs: seq<Registration>, kept: seq<Listing>, ls: seq<Listing>)
    requires Listed(plans, rs, kept) && IsSorted(ls, kept)
    ensures AllFit(plans.encode, Entries(ls)) <==> ResultsFit(plans, rs)
  {
    if AllFit(plans.encode, Entries(ls)) {
      forall i | 0 <= i < |rs| ensures ResultFits(plans.encode(ListingOf(plans, rs[i]).entry)) {
        assert kept[i] in Members(kept);
        var j :| 0 <= j < |ls| && ls[j] == kept[i];
        assert Entries(ls)[j] == kept[i].entry;
      }
    }
    if ResultsFit(plans, rs) {
      forall i | 0 <= i < |ls| ensures ResultFits(plans.encode(Entries(ls)[i])) {
        var j := SortedMember(ls, kept, i);
        assert kept[j] == ListingOf(plans, rs[j]);
      }
    }
  }

  lemma KeptNames(plans: Plans, rs: seq<Registration>, kept: seq<Listing>)
    requires Listed(plans, rs, kept)
    ensures ListingNames(kept) == Names(rs)
  {}

  /** The last third of Build: sort, compile the index, fill the catalog. */
  method Assemble(u: Unicode, plans: Plans, ghost rs: seq<Registration>, kept: seq<Listing>,
                  options: Options) returns (catalog: Option<LiveCatalog>)
    requires Listed(plans, rs, kept) && NoDuplicates(Ids(rs)) && NoDuplicates(Names(rs))
    requires options.maxQueryBytes > 0 && options.maxResults > 0
    ensures catalog.Some? <==> ResultsFit(plans, rs)
    ensures catalog.Some? ==> fresh(catalog.value) && IsCatalogOf(u, plans, kept, catalog.value.Data())
                              && catalog.value.maxQueryBytes == options.maxQueryBytes
                              && catalog.value.maxResults == options.maxResults
  {
    KeptNames(plans, rs, kept);
    var ls := SortByName(kept);
    var entries := Entries(ls);
    FitAgrees(plans, rs, kept, ls);
    var documents := CompileIndex(u, plans.encode, entries, Terms(ls));
    if documents.None? {
      return None;
    }
    IdsStayUnique(plans, rs, kept, ls);
    var c := new LiveCatalog(entries, documents.value, options.maxQueryBytes, options.maxResults);
    c.Index();
    return Some(c);
  }

  /** Build: it succeeds exactly on acceptable registrations and options, and yields the catalog
      they determine. Only an unknown disabled ID has an error class of its own. */
  method Build(language: Engine.Language, plans: Plans, rs: seq<Registration>, options: Options)
    returns (catalog: Option<LiveCatalog>, error: Option<BuildError>)
    ensures catalog.Some? <==> Buildable(language, plans, rs, options)
    ensures error.Some? <==> catalog.None?
    ensures catalog.Some? ==> fresh(catalog.value)
                              && IsCatalog(language, plans, rs, KeySet(options.disabled), catalog.value.Data())
                              && catalog.value.maxQueryBytes == options.maxQueryBytes
                              && catalog.value.maxResults == options.maxResults
    ensures error == Some(UnknownDisabledCapability)
       <==> options.maxQueryBytes > 0 && options.maxResults > 0 && Acceptable(Check(language), rs)
            && DisablingOf(options.disabled, KeySet(Ids(rs))) == UnknownId
  {
    if options.maxQueryBytes <= 0 || options.maxResults <= 0 || |rs| > MAX_REGISTRATIONS {
      return None, Some(InvalidRegistration);
    }
    var ok, candidates, ids, names := CollectCandidates(language, plans, rs);
    if !ok {
      return None, Some(InvalidRegistration);
    }
    ok := CheckCollisions(names);
    if !ok {
      return None, Some(InvalidRegistration);
    }
    DisablingMeans(options.disabled, ids);
    var disabled := ValidateDisabled(options.disabled, ids);
    if disabled == DuplicateId {
      return None, Some(InvalidRegistration);
    }
    if disabled == UnknownId {
      return None, Some(UnknownDisabledCapability);
    }
    var kept := DropDisabled(candidates, disabled.ids);
    KeptListed(plans, rs, candidates, disabled.ids);
    EnabledCollectable(Check(language), rs, disabled.ids);
    catalog := Assemble(language.u, plans, Enabled(rs, disabled.ids), kept, options);
    error := if catalog.None? then Some(InvalidRegistration) else None;
  }

  // ----- order -----

  lemma {:induction false} UniqueCount(keys: seq<Bytes>)
    ensures |KeySet(keys)| <= |keys| && (NoDuplicates(keys) <==> |KeySet(keys)| == |keys|)
  {
    if keys != [] {
      var front, last := keys[..|keys| - 1], keys[|keys| - 1];
      assert keys == front + [last];
      UniqueCount(front);
      NoDuplicatesMore(front, last);
    } else {
      assert KeySet(keys) == {};
    }
  }

  lemma {:induction false} MetadataWithout(rs: seq<Registration>, i: nat)
    requires i < |rs|
    ensures TotalMetadata(rs) == TotalMetadata(rs[..i] + rs[i + 1..]) + MetadataBytes(rs[i])
  {
    var n := |rs| - 1;
    if i == n {
      assert rs[..i] + rs[i + 1..] == rs[..n];
    } else {
      MetadataWithout(rs[..n], i);
      var without := rs[..i] + rs[i + 1..];
      assert without[..n - 1] == rs[..n][..i] + rs[..n][i + 1..];
      assert without[n - 1] == rs[n];
    }
  }

  lemma MultisetWithout(rs: seq<Registration>, i: nat)
    requires i < |rs|
    ensures multiset(rs) == multiset(rs[..i] + rs[i + 1..]) + multiset{rs[i]}
  {
    assert rs == rs[..i] + [rs[i]] + rs[i + 1..];
  }

  lemma Cancel(m: multiset<Registration>, k: multiset<Registration>, r: Registration)
    requires m + multiset{r} == k + multiset{r}
    ensures m == k
  {
    assert m + multiset{r} - multiset{r} == m && k + multiset{r} - multiset{r} == k;
  }

  lemma {:induction false} MetadataPermuted(a: seq<Registration>, b: seq<Registration>)
    requires multiset(a) == multiset(b)
    ensures TotalMetadata(a) == TotalMetadata(b) && |a| == |b|
  {
    assert |multiset(a)| == |a| && |multiset(b)| == |b|;
    if a != [] {
      var n := |a| - 1;
      assert a[n] in multiset(b);
      var i :| 0 <= i < |b| && b[i] == a[n];
      MultisetWithout(a, n);
      MultisetWithout(b, i);
      assert a[..n] + a[n + 1..] == a[..n];
      Cancel(multiset(a[..n]), multiset(b[..i] + b[i + 1..]), a[n]);
      MetadataPermuted(a[..n], b[..i] + b[i + 1..]);
      MetadataWithout(b, i);
    }
  }

  lemma SameKeys(a: seq<Registration>, b: seq<Registration>)
    requires SameRegistrations(a, b)
    ensures KeySet(Ids(a)) <= KeySet(Ids(b)) && KeySet(Names(a)) <= KeySet(Names(b))
  {
    forall i | 0 <= i < |a| ensures Ids(a)[i] in KeySet(Ids(b)) && Names(a)[i] in KeySet(Names(b)) {
      assert a[i] in b;
      var j :| 0 <= j < |b| && b[j] == a[i];
      assert Ids(b)[j] == Ids(a)[i] && Names(b)[j] == Names(a)[i];
    }
  }

  lemma PermutedAcceptable(check: Registration -> bool, a: seq<Registration>, b: seq<Registration>)
    requires multiset(a) == multiset(b) && Acceptable(check, a)
    ensures Acceptable(check, b)
  {
    MetadataPermuted(a, b);
    forall r ensures r in a <==> r in b { assert r in multiset(a) <==> r in multiset(b); }
    SameKeys(a, b);
    SameKeys(b, a);
    assert KeySet(Ids(a)) == KeySet(Ids(b)) && KeySet(Names(a)) == KeySet(Names(b));
    UniqueCount(Ids(a));
    UniqueCount(Ids(b));
    UniqueCount(Names(a));
    UniqueCount(Names(b));
    forall i | 0 <= i < |b| ensures check(b[i]) {
      assert b[i] in a;
      var j :| 0 <= j < |a| && a[j] == b[i];
    }
  }

  /** Permuting the registrations changes neither whether Build succeeds nor what it yields. */
  lemma OrderIrrelevant(language: Engine.Language, plans: Plans, a: seq<Registration>, b: seq<Registration>,
                        options: Options)
    requires multiset(a) == multiset(b) && Buildable(language, plans, a, options)
    ensures Buildable(language, plans, b, options)
    ensures forall c, d | IsCatalog(language, plans, a, KeySet(options.disabled), c)
              && IsCatalog(language, plans, b, KeySet(options.disabled), d)
                          && SameBounds(c, d) :: c == d
  {
    var off := KeySet(options.disabled);
    PermutedAcceptable(Check(language), a, b);
    forall r ensures r in a <==> r in b { assert r in multiset(a) <==> r in multiset(b); }
    SameKeys(a, b);
    EnabledMeans(a, off);
    EnabledMeans(b, off);
    FitPermuted(plans, Enabled(a, off), Enabled(b, off));
    forall c, d | IsCatalog(language, plans, a, off, c) && IsCatalog(language, plans, b, off, d)
                  && SameBounds(c, d)
      ensures c == d
    {
      CatalogUnique(language, plans, a, b, off, off, c, d);
    }
  }

  lemma FitPermuted(plans: Plans, a: seq<Registration>, b: seq<Registration>)
    requires SameRegistrations(a, b) && ResultsFit(plans, a)
    ensures ResultsFit(plans, b)
  {
    forall i | 0 <= i < |b|
      ensures b[i].plan.Some? && b[i].handler.Some? && ResultFits(plans.encode(ListingOf(plans, b[i]).entry)) {
      assert b[i] in a;
      var j :| 0 <= j < |a| && a[j] == b[i];
    }
  }
}
