/** One catalog, every live surface: lookups, namespaces, callable names and search results all
    show exactly the enabled registrations. */
module Surfaces {
  import opened Text
  import opened Tokens
  import opened Schema
  import opened Dotted
  import opened Index
  import opened Registrations
  import opened Catalog
  import Engine
  import Modules
  import Search

  /** The candidates behind a catalog: as registered, and in name order. */
  lemma Parts(language: Engine.Language, plans: Plans, rs: seq<Registration>, disabled: set<Bytes>, c: Contents)
    returns (kept: seq<Listing>, ls: seq<Listing>)
    requires IsCatalog(language, plans, rs, disabled, c)
    ensures Listed(plans, Enabled(rs, disabled), kept) && IsSorted(ls, kept) && c.enabled == Entries(ls) && Indexed(c)
    ensures IsIndex(language.u, plans.encode, c.enabled, Terms(ls), c.documents)
  {
    kept :| Listed(plans, Enabled(rs, disabled), kept) && IsCatalogOf(language.u, plans, kept, c);
    ls :| IsSorted(ls, kept) && c.enabled == Entries(ls)
      && IsIndex(language.u, plans.encode, c.enabled, Terms(ls), c.documents) && Indexed(c);
  }

  lemma EntryOfListing(ls: seq<Listing>, kept: seq<Listing>, j: nat)
    requires IsSorted(ls, kept) && j < |kept|
    ensures kept[j].entry in Entries(ls)
  {
    assert kept[j] in Members(ls);
    var i :| 0 <= i < |ls| && ls[i] == kept[j];
    assert Entries(ls)[i] == kept[j].entry;
  }

  /** The entry is what the registration contributes while it is enabled. */
  ghost predicate Contributes(plans: Plans, disabled: set<Bytes>, r: Registration, e: Entry) {
    && r.id !in disabled && r.plan == Some(e.plan) && r.handler == Some(e.handler)
    && e.id == r.id && e.name == r.name && e.summary == r.summary && e.description == r.description
    && e.signature == plans.signature(e.plan, r.name)
  }

  lemma EntryHasSource(language: Engine.Language, plans: Plans, rs: seq<Registration>, disabled: set<Bytes>,
                       c: Contents, e: Entry)
    returns (r: Registration)
    requires IsCatalog(language, plans, rs, disabled, c) && e in c.enabled
    ensures r in rs && Contributes(plans, disabled, r, e)
  {
    var kept, ls := Parts(language, plans, rs, disabled, c);
    var i :| 0 <= i < |ls| && Entries(ls)[i] == e;
    var j := SortedMember(ls, kept, i);
    EnabledMeans(rs, disabled);
    r := Enabled(rs, disabled)[j];
    assert r in Enabled(rs, disabled);
  }

  lemma SourceHasEntry(language: Engine.Language, plans: Plans, rs: seq<Registration>, disabled: set<Bytes>,
                       c: Contents, r: Registration, e: Entry)
    requires IsCatalog(language, plans, rs, disabled, c) && r in rs && Contributes(plans, disabled, r, e)
    ensures e in c.enabled
  {
    var kept, ls := Parts(language, plans, rs, disabled, c);
    EnabledMeans(rs, disabled);
    assert r in Enabled(rs, disabled);
    var j :| 0 <= j < |kept| && Enabled(rs, disabled)[j] == r;
    EntryOfListing(ls, kept, j);
  }

  /** The entries are those of the enabled registrations, no more and no fewer. */
  lemma EntriesAreEnabled(language: Engine.Language, plans: Plans, rs: seq<Registration>, disabled: set<Bytes>,
                          c: Contents, e: Entry)
    requires IsCatalog(language, plans, rs, disabled, c)
    ensures e in c.enabled <==> exists r :: r in rs && Contributes(plans, disabled, r, e)
  {
    if e in c.enabled { var r := EntryHasSource(language, plans, rs, disabled, c, e); }
    if r :| r in rs && Contributes(plans, disabled, r, e) { SourceHasEntry(language, plans, rs, disabled, c, r, e); }
  }

  lemma UniqueRegistration(rs: seq<Registration>, a: Registration, b: Registration)
    requires NoDuplicates(Ids(rs)) && NoDuplicates(Names(rs)) && a in rs && b in rs
             && (a.id == b.id || a.name == b.name)
    ensures a == b
  {
    var i :| 0 <= i < |rs| && rs[i] == a;
    var j :| 0 <= j < |rs| && rs[j] == b;
    assert Ids(rs)[i] == a.id && Ids(rs)[j] == b.id && Names(rs)[i] == a.name && Names(rs)[j] == b.name;
  }

  lemma InByName(c: Contents, name: Bytes)
    requires Indexed(c)
    ensures name in c.byName <==> exists e :: e in c.enabled && e.name == name
  {
    if name in c.byName { NamedOnce(c, name); } else { NotNamed(c, name); }
  }

  lemma InById(c: Contents, id: Bytes)
    requires Indexed(c)
    ensures id in c.byId <==> exists e :: e in c.enabled && e.id == id
  {
    if id in c.byId { IdentifiedOnce(c, id); } else { NotIdentified(c, id); }
  }

  /** A registration answers to its ID and to its name exactly when it is not disabled. */
  lemma VisibleIffEnabled(language: Engine.Language, plans: Plans, rs: seq<Registration>, disabled: set<Bytes>,
                          c: Contents, r: Registration)
    requires IsCatalog(language, plans, rs, disabled, c) && Acceptable(Check(language), rs) && r in rs
    ensures Indexed(c) && (r.id in c.byId <==> r.id !in disabled) && (r.name in c.byName <==> r.id !in disabled)
  {
    var kept, ls := Parts(language, plans, rs, disabled, c);
    InById(c, r.id);
    InByName(c, r.name);
    var i :| 0 <= i < |rs| && rs[i] == r;
    assert Check(language)(rs[i]);
    if r.id !in disabled { SourceHasEntry(language, plans, rs, disabled, c, r, ListingOf(plans, r).entry); }
    forall e | e in c.enabled && (e.id == r.id || e.name == r.name) ensures r.id !in disabled {
      var s := EntryHasSource(language, plans, rs, disabled, c, e);
      UniqueRegistration(rs, r, s);
    }
  }

  // ----- what a program can call -----

  /** The bindings the parent hands to the engine, one for each namespace binding. */
  function BindingsFor(schema: nat -> InputSchema, entries: seq<Entry>): (r: seq<Modules.Binding>)
    ensures |r| == |entries|
  {
    seq(|entries|, i requires 0 <= i < |entries| =>
        Modules.Binding(entries[i].id, entries[i].name, schema(entries[i].plan)))
  }

  lemma CatalogIsSeparate(language: Engine.Language, plans: Plans, rs: seq<Registration>, disabled: set<Bytes>,
                          c: Contents)
    requires IsCatalog(language, plans, rs, disabled, c) && Acceptable(Check(language), rs)
    ensures NoDuplicates(EntryIds(c.enabled)) && NoDuplicates(EntryNames(c.enabled)) && Indexed(c)
  {
    var kept, ls := Parts(language, plans, rs, disabled, c);
    EnabledCollectable(Check(language), rs, disabled);
    IdsStayUnique(plans, Enabled(rs, disabled), kept, ls);
  }

  lemma EntryIsRegistered(language: Engine.Language, plans: Plans, rs: seq<Registration>, disabled: set<Bytes>,
                          c: Contents, e: Entry)
    requires IsCatalog(language, plans, rs, disabled, c) && Acceptable(Check(language), rs) && e in c.enabled
    ensures Engine.Trimmed(language.u, e.id) && Engine.NameOk(language, e.name) && e.name in KeySet(Names(rs))
  {
    var r := EntryHasSource(language, plans, rs, disabled, c, e);
    var i :| 0 <= i < |rs| && rs[i] == r;
    assert Check(language)(rs[i]) && Names(rs)[i] == e.name;
  }

  /** The engine accepts the bindings of every catalog whose plans have valid schemas. */
  lemma EngineAccepts(language: Engine.Language, plans: Plans, rs: seq<Registration>, disabled: set<Bytes>,
                      c: Contents, schema: nat -> InputSchema)
    requires IsCatalog(language, plans, rs, disabled, c) && Acceptable(Check(language), rs)
    requires forall plan :: SchemaOk(language.names, schema(plan))
    ensures Engine.BindingsOk(language, BindingsFor(schema, c.enabled))
  {
    var bs := BindingsFor(schema, c.enabled);
    CatalogIsSeparate(language, plans, rs, disabled, c);
    assert Engine.Ids(bs) == EntryIds(c.enabled) && Engine.Names(bs) == EntryNames(c.enabled);
    forall i | 0 <= i < |bs| ensures Engine.BindingOk(language, bs[i]) && Engine.Names(bs)[i] in KeySet(Names(rs)) {
      EntryIsRegistered(language, plans, rs, disabled, c, c.enabled[i]);
    }
    assert KeySet(Engine.Names(bs)) <= KeySet(Names(rs));
  }

  /** What a dotted name of the program reaches. */
  ghost function Reached(language: Engine.Language, bs: seq<Modules.Binding>, name: Bytes): Option<Modules.Member> {
    Modules.Resolve(Engine.Surface(language, bs), Split(name))
  }

  /** The capability of a name the catalog can look up. */
  ghost function Found(c: Contents, schema: nat -> InputSchema, name: Bytes): Option<Modules.Binding>
    requires Indexed(c)
  {
    if name in c.byName then Some(BindingsFor(schema, c.enabled)[Position(c, name)]) else None
  }

  ghost function Position(c: Contents, name: Bytes): (i: nat)
    requires Indexed(c) && name in c.byName
    ensures i < |c.enabled| && c.enabled[i].name == name
  {
    NamedOnce(c, name);
    c.byName[name]
  }

  lemma FoundMeans(c: Contents, schema: nat -> InputSchema, name: Bytes, b: Modules.Binding)
    requires Indexed(c)
    ensures Found(c, schema, name) == Some(b) <==> b in BindingsFor(schema, c.enabled) && b.name == name
  {
    var bs := BindingsFor(schema, c.enabled);
    InByName(c, name);
    if b in bs && b.name == name {
      var i :| 0 <= i < |bs| && bs[i] == b;
      assert c.enabled[i] in c.enabled && c.enabled[i].name == name;
      NamedOnce(c, name);
      assert EntryNames(c.enabled)[i] == name;
    }
  }

  /** A program reaches a capability by a dotted name outside the fixed surface exactly when the
      catalog can look the name up, and it reaches the capability the lookup finds. */
  lemma CallableIffListed(language: Engine.Language, plans: Plans, rs: seq<Registration>, disabled: set<Bytes>,
                          c: Contents,
                          schema: nat -> InputSchema, name: Bytes, b: Modules.Binding)
    requires IsCatalog(language, plans, rs, disabled, c) && Acceptable(Check(language), rs) && Indexed(c)
    requires (forall plan :: SchemaOk(language.names, schema(plan))) && Split(name)[0] !in language.fixed
    ensures Reached(language, BindingsFor(schema, c.enabled), name) == Some(Modules.Function(b))
            <==> Found(c, schema, name) == Some(b)
  {
    EngineAccepts(language, plans, rs, disabled, c, schema);
    Engine.CallableExactly(language, BindingsFor(schema, c.enabled), name, b);
    FoundMeans(c, schema, name, b);
  }

  // ----- what a search can find -----

  /** A built catalog can be searched: names are distinct, every factor is from 1 to 8 and every
      result could occupy a response alone. */
  lemma CatalogIsSearchable(language: Engine.Language, plans: Plans, rs: seq<Registration>, disabled: set<Bytes>,
                            c: Contents)
    requires IsCatalog(language, plans, rs, disabled, c) && Acceptable(Check(language), rs)
    ensures |c.documents| == |c.enabled| && Search.DistinctNames(c.documents)
    ensures forall i :: 0 <= i < |c.documents|
              ==> DocumentOk(c.documents[i]) && c.documents[i].name == c.enabled[i].name
  {
    var kept, ls := Parts(language, plans, rs, disabled, c);
    CatalogIsSeparate(language, plans, rs, disabled, c);
    forall i | 0 <= i < |c.documents| ensures DocumentOk(c.documents[i]) && c.documents[i].name == c.enabled[i].name {
      IndexIsOk(language.u, plans.encode, c.enabled, Terms(ls), c.documents, i);
    }
    forall i, j | 0 <= i < j < |c.documents| ensures c.documents[i].name != c.documents[j].name {
      assert EntryNames(c.enabled)[i] != EntryNames(c.enabled)[j];
    }
  }

  /** The answer a catalog of the registrations under the options owes the query. */
  ghost predicate Owed(language: Engine.Language, plans: Plans, rs: seq<Registration>, options: Options, c: Contents,
                       query: Bytes, r: Search.Answer) {
    && IsCatalog(language, plans, rs, KeySet(options.disabled), c)
    && c.maxQueryBytes == options.maxQueryBytes && c.maxResults == options.maxResults
    && Search.IsAnswer(language.u, c.documents, c.maxQueryBytes, c.maxResults, query, r)
  }

  /** From registrations to a search answer: there is one exactly where Build succeeds, and it is
      the one the specifications of both determine. */
  method BuildAndAsk(language: Engine.Language, plans: Plans, rs: seq<Registration>, options: Options, query: Bytes)
    returns (r: Option<Search.Answer>)
    ensures r.Some? <==> Buildable(language, plans, rs, options)
    ensures r.Some? ==> exists c :: Owed(language, plans, rs, options, c, query, r.value)
  {
    var catalog, error := Build(language, plans, rs, options);
    if catalog.None? {
      return None;
    }
    ghost var c := catalog.value.Data();
    CatalogIsSearchable(language, plans, rs, KeySet(options.disabled), c);
    var answer := catalog.value.Ask(language.u, query);
    assert Owed(language, plans, rs, options, c, query, answer);
    return Some(answer);
  }

  /** The registrations, the options and the query determine the answer. */
  lemma OwedUnique(language: Engine.Language, plans: Plans, rs: seq<Registration>, options: Options, c: Contents,
                   d: Contents, query: Bytes, a: Search.Answer, b: Search.Answer)
    requires Owed(language, plans, rs, options, c, query, a) && Owed(language, plans, rs, options, d, query, b)
    ensures a == b
  {
    var disabled := KeySet(options.disabled);
    CatalogUnique(language, plans, rs, rs, disabled, disabled, c, d);
    Search.AnswerUnique(language.u, c.documents, c.maxQueryBytes, c.maxResults, query, a, b);
  }

  predicate SameLowered(u: Unicode, a: Bytes, b: Bytes) { Lowered(u, Runes(a)) == Lowered(u, Runes(b)) }

  /** Asked for the name of an enabled capability, a catalog lists a capability of that name up
      to case first, and that very one if no other enabled name is equal up to case. */
  lemma OwnNameComesFirst(language: Engine.Language, plans: Plans, rs: seq<Registration>, disabled: set<Bytes>,
                          c: Contents, d: nat, query: Bytes, tokens: seq<string>, r: Search.Answer)
    requires IsCatalog(language, plans, rs, disabled, c) && c.maxResults > 0 && |query| <= c.maxQueryBytes
    requires d < |c.enabled| && Trim(language.u, Runes(query)) == Runes(c.enabled[d].name)
    requires TokensOf(language.u, Runes(query), tokens) && DistinctWithin(tokens).Some? && tokens != []
    requires Search.IsAnswer(language.u, c.documents, c.maxQueryBytes, c.maxResults, query, r)
    ensures r.Answer? && r.results != [] && r.results[0].document < |c.enabled|
    ensures SameLowered(language.u, c.enabled[r.results[0].document].name, c.enabled[d].name)
    ensures (forall e :: e in c.enabled && SameLowered(language.u, e.name, c.enabled[d].name) ==> e == c.enabled[d])
            ==> c.enabled[r.results[0].document] == c.enabled[d]
  {
    var kept, ls := Parts(language, plans, rs, disabled, c);
    IndexedNameComesFirst(language.u, plans, Terms(ls), c, d, query, tokens, r);
  }

  lemma NormalizedName(u: Unicode, encode: Entry -> Bytes, entries: seq<Entry>, terms: seq<seq<Bytes>>,
                       documents: seq<Document>, i: nat)
    requires IsIndex(u, encode, entries, terms, documents) && i < |documents|
    ensures documents[i].normalizedName == Lowered(u, Runes(entries[i].name))
  {
    assert DocumentOf(u, encode, entries[i], terms[i], documents[i]);
  }

  lemma IndexedNameComesFirst(u: Unicode, plans: Plans, terms: seq<seq<Bytes>>, c: Contents, d: nat, query: Bytes,
                              tokens: seq<string>, r: Search.Answer)
    requires IsIndex(u, plans.encode, c.enabled, terms, c.documents) && d < |c.enabled|
    requires Trim(u, Runes(query)) == Runes(c.enabled[d].name) && |query| <= c.maxQueryBytes && c.maxResults > 0
    requires TokensOf(u, Runes(query), tokens) && DistinctWithin(tokens).Some? && tokens != []
    requires Search.IsAnswer(u, c.documents, c.maxQueryBytes, c.maxResults, query, r)
    ensures r.Answer? && r.results != [] && r.results[0].document < |c.enabled|
    ensures SameLowered(u, c.enabled[r.results[0].document].name, c.enabled[d].name)
  {
    Search.ExactComesFirst(u, plans.encode, c.enabled, terms, c.documents, c.maxQueryBytes, c.maxResults,
                           query, tokens, r, d);
    NormalizedName(u, plans.encode, c.enabled, terms, c.documents, r.results[0].document);
  }

  /** Building without the disabled registrations answers every query alike. */
  lemma SearchesAgree(language: Engine.Language, plans: Plans, rs: seq<Registration>, options: Options, c: Contents,
                      d: Contents,
                      query: Bytes, a: Search.Answer, b: Search.Answer)
    requires Buildable(language, plans, rs, options)
    requires IsCatalog(language, plans, rs, KeySet(options.disabled), c)
    requires IsCatalog(language, plans, Enabled(rs, KeySet(options.disabled)), {}, d) && SameBounds(c, d)
    requires Search.IsAnswer(language.u, c.documents, c.maxQueryBytes, c.maxResults, query, a)
    requires Search.IsAnswer(language.u, d.documents, d.maxQueryBytes, d.maxResults, query, b)
    ensures c == d && a == b
  {
    var on := Enabled(rs, KeySet(options.disabled));
    NothingDisabled(on);
    CatalogUnique(language, plans, rs, on, KeySet(options.disabled), {}, c, d);
    Search.AnswerUnique(language.u, c.documents, c.maxQueryBytes, c.maxResults, query, a, b);
  }
}
