/** internal/catalog/build.go up to filterEnabled: registrations are validated together, filtered
    once and sorted by name. */
module Registrations {
  import opened Text
  import opened Tokens
  import opened Dotted
  import opened Index
  import opened Engine

  const MAX_REGISTRATIONS: nat := 4096
  const MAX_METADATA_BYTES: nat := 33554432
  const MAX_TERM_PHRASES: nat := 16
  const MAX_TERM_BYTES: nat := 1024

  /** Plans and handlers are known by number; nil is None. */
  datatype Registration = Registration(id: Bytes, name: Bytes, summary: Bytes, description: Bytes, terms: seq<Bytes>,
                                       plan: Option<nat>, handler: Option<nat>)

  datatype Options = Options(disabled: seq<Bytes>, maxQueryBytes: int, maxResults: int)

  /** What compiled plans and the JSON encoder contribute. */
  datatype Plans = Plans(signature: (nat, Bytes) -> Bytes, encode: Entry -> Bytes)

  // ----- one registration -----

  function TotalBytes(texts: seq<Bytes>): nat {
    if texts == [] then 0 else TotalBytes(texts[..|texts| - 1]) + |texts[|texts| - 1]|
  }

  predicate TermsOk(u: Unicode, terms: seq<Bytes>) {
    |terms| <= MAX_TERM_PHRASES && (forall i :: 0 <= i < |terms| ==> Trimmed(u, terms[i]))
      && TotalBytes(terms) <= MAX_TERM_BYTES
  }

  /** ValidateRegistration. */
  predicate RegistrationOk(language: Language, r: Registration) {
    && Trimmed(language.u, r.id) && NameOk(language, r.name) && Trimmed(language.u, r.summary)
    && Trimmed(language.u, r.description)
    && r.plan.Some? && r.handler.Some? && TermsOk(language.u, r.terms)
  }

  /** searchableMetadataBytes. */
  function MetadataBytes(r: Registration): nat { |r.name| + |r.summary| + |r.description| + TotalBytes(r.terms) }

  function TotalMetadata(rs: seq<Registration>): nat {
    if rs == [] then 0 else TotalMetadata(rs[..|rs| - 1]) + MetadataBytes(rs[|rs| - 1])
  }

  // ----- all registrations -----

  function Ids(rs: seq<Registration>): (r: seq<Bytes>)
    ensures |r| == |rs|
  {
    seq(|rs|, i requires 0 <= i < |rs| => rs[i].id)
  }

  function Names(rs: seq<Registration>): (r: seq<Bytes>)
    ensures |r| == |rs|
  {
    seq(|rs|, i requires 0 <= i < |rs| => rs[i].name)
  }

  function Check(language: Language): Registration -> bool { r => RegistrationOk(language, r) }

  ghost predicate AllOk(check: Registration -> bool, rs: seq<Registration>) { All(check, rs) }

  /** What collectCandidates lets through. */
  ghost predicate Collectable(check: Registration -> bool, rs: seq<Registration>) {
    && AllOk(check, rs) && TotalMetadata(rs) <= MAX_METADATA_BYTES && NoDuplicates(Ids(rs)) && NoDuplicates(Names(rs))
  }

  /** What Build demands of the registrations, enabled or not. */
  ghost predicate Acceptable(check: Registration -> bool, rs: seq<Registration>) {
    |rs| <= MAX_REGISTRATIONS && Collectable(check, rs) && NoCollisions(KeySet(Names(rs)))
  }

  lemma ListsMore(rs: seq<Registration>, n: nat)
    requires n < |rs|
    ensures Ids(rs[..n + 1]) == Ids(rs[..n]) + [rs[n].id] && Names(rs[..n + 1]) == Names(rs[..n]) + [rs[n].name]
    ensures TotalMetadata(rs[..n + 1]) == TotalMetadata(rs[..n]) + MetadataBytes(rs[n])
  {
    assert rs[..n + 1][..n] == rs[..n];
  }

  lemma CollectableMore(check: Registration -> bool, rs: seq<Registration>, n: nat)
    requires n < |rs| && Collectable(check, rs[..n])
    ensures Collectable(check, rs[..n + 1])
       <==> check(rs[n]) && TotalMetadata(rs[..n]) + MetadataBytes(rs[n]) <= MAX_METADATA_BYTES
            && rs[n].id !in KeySet(Ids(rs[..n])) && rs[n].name !in KeySet(Names(rs[..n]))
    ensures KeySet(Ids(rs[..n + 1])) == KeySet(Ids(rs[..n])) + {rs[n].id}
    ensures KeySet(Names(rs[..n + 1])) == KeySet(Names(rs[..n])) + {rs[n].name}
  {
    ListsMore(rs, n);
    AllMore(check, rs, n);
    NoDuplicatesMore(Ids(rs[..n]), rs[n].id);
    NoDuplicatesMore(Names(rs[..n]), rs[n].name);
  }

  lemma {:induction false} MetadataPrefix(rs: seq<Registration>, n: nat)
    requires n <= |rs|
    ensures TotalMetadata(rs[..n]) <= TotalMetadata(rs)
    decreases |rs| - n
  {
    if n == |rs| {
      assert rs[..n] == rs;
    } else {
      ListsMore(rs, n);
      MetadataPrefix(rs, n + 1);
    }
  }

  lemma CollectablePrefix(check: Registration -> bool, rs: seq<Registration>, n: nat)
    requires n <= |rs| && Collectable(check, rs)
    ensures Collectable(check, rs[..n])
  {
    MetadataPrefix(rs, n);
    assert Ids(rs[..n]) == Ids(rs)[..n] && Names(rs[..n]) == Names(rs)[..n];
  }

  /** A candidate: the entry and the search terms kept beside it. */
  datatype Listing = Listing(entry: Entry, terms: seq<Bytes>)

  function ListingOf(plans: Plans, r: Registration): Listing
    requires r.plan.Some? && r.handler.Some?
  {
    Listing(Entry(r.id, r.name, r.summary, r.description, r.plan.value, r.handler.value,
                  plans.signature(r.plan.value, r.name)), r.terms)
  }

  /** The candidates of the registrations, one for one. */
  ghost predicate Listed(plans: Plans, rs: seq<Registration>, ls: seq<Listing>) {
    |ls| == |rs| && forall i :: 0 <= i < |rs|
                      ==> rs[i].plan.Some? && rs[i].handler.Some? && ls[i] == ListingOf(plans, rs[i])
  }

  lemma ListedMore(plans: Plans, rs: seq<Registration>, n: nat, ls: seq<Listing>)
    requires n < |rs| && Listed(plans, rs[..n], ls) && rs[n].plan.Some? && rs[n].handler.Some?
    ensures Listed(plans, rs[..n + 1], ls + [ListingOf(plans, rs[n])])
  {}

  /** One registration against what was collected before it. */
  method CheckNext(language: Language, r: Registration, searchable: nat, ids: set<Bytes>,
                   names: set<Bytes>) returns (ok: bool)
    ensures ok <==> Check(language)(r) && searchable + MetadataBytes(r) <= MAX_METADATA_BYTES && r.id !in ids
                    && r.name !in names
    ensures ok ==> r.plan.Some? && r.handler.Some?
  {
    if !RegistrationOk(language, r) { return false; }
    if searchable + MetadataBytes(r) > MAX_METADATA_BYTES { return false; }
    if r.id in ids { return false; }
    return r.name !in names;
  }

  /** collectCandidates: it succeeds exactly when every registration is valid, IDs and names are
      unique and the searchable metadata is within bounds. */
  method CollectCandidates(language: Language, plans: Plans, rs: seq<Registration>)
    returns (ok: bool, ls: seq<Listing>, ids: set<Bytes>, names: set<Bytes>)
    ensures ok <==> Collectable(Check(language), rs)
    ensures ok ==> Listed(plans, rs, ls) && ids == KeySet(Ids(rs)) && names == KeySet(Names(rs))
  {
    ok, ls, ids, names := true, [], {}, {};
    var searchable := 0;
    for n := 0 to |rs|
      invariant ok && Collectable(Check(language), rs[..n]) && Listed(plans, rs[..n], ls)
                && searchable == TotalMetadata(rs[..n])
      invariant ids == KeySet(Ids(rs[..n])) && names == KeySet(Names(rs[..n]))
    {
      CollectableMore(Check(language), rs, n);
      ListsMore(rs, n);
      ok := CheckNext(language, rs[n], searchable, ids, names);
      if !ok {
        if Collectable(Check(language), rs) { CollectablePrefix(Check(language), rs, n + 1); }
        return;
      }
      ListedMore(plans, rs, n, ls);
      searchable := searchable + MetadataBytes(rs[n]);
      ids, names := ids + {rs[n].id}, names + {rs[n].name};
      ls := ls + [ListingOf(plans, rs[n])];
    }
    assert rs[..|rs|] == rs;
  }

  // ----- filtering -----

  /** The registrations that are not disabled, in their order. */
  ghost function Enabled(rs: seq<Registration>, disabled: set<Bytes>): seq<Registration> {
    if rs == [] then []
    else
      var last := rs[|rs| - 1];
      Enabled(rs[..|rs| - 1], disabled) + if last.id in disabled then [] else [last]
  }

  ghost function Kept(ls: seq<Listing>, disabled: set<Bytes>): seq<Listing> {
    if ls == [] then []
    else
      var last := ls[|ls| - 1];
      Kept(ls[..|ls| - 1], disabled) + if last.entry.id in disabled then [] else [last]
  }

  lemma {:induction false} KeptListed(plans: Plans, rs: seq<Registration>, ls: seq<Listing>, disabled: set<Bytes>)
    requires Listed(plans, rs, ls)
    ensures Listed(plans, Enabled(rs, disabled), Kept(ls, disabled))
  {
    if rs != [] {
      var n := |rs| - 1;
      KeptListed(plans, rs[..n], ls[..n], disabled);
      assert ls[n] == ListingOf(plans, rs[n]);
    }
  }

  lemma {:induction false} EnabledMeans(rs: seq<Registration>, disabled: set<Bytes>)
    ensures forall r :: r in Enabled(rs, disabled) <==> r in rs && r.id !in disabled
  {
    if rs != [] {
      EnabledMeans(rs[..|rs| - 1], disabled);
      assert rs == rs[..|rs| - 1] + [rs[|rs| - 1]];
    }
  }

  lemma {:induction false} NothingDisabled(rs: seq<Registration>)
    ensures Enabled(rs, {}) == rs
  {
    if rs != [] {
      NothingDisabled(rs[..|rs| - 1]);
      assert rs == rs[..|rs| - 1] + [rs[|rs| - 1]];
    }
  }

  function ListingNames(ls: seq<Listing>): (r: seq<Bytes>)
    ensures |r| == |ls|
  {
    seq(|ls|, i requires 0 <= i < |ls| => ls[i].entry.name)
  }

  ghost function Members(ls: seq<Listing>): set<Listing> { set l | l in ls }

  /** The listings of some candidates in name order. */
  ghost predicate IsSorted(ls: seq<Listing>, of: seq<Listing>) {
    Sorted(ListingNames(ls)) && Members(ls) == Members(of)
  }

  lemma NamesOfMembers(a: seq<Listing>, b: seq<Listing>)
    requires Members(a) <= Members(b)
    ensures KeySet(ListingNames(a)) <= KeySet(ListingNames(b))
  {
    forall k | k in KeySet(ListingNames(a)) ensures k in KeySet(ListingNames(b)) {
      var i :| 0 <= i < |a| && ListingNames(a)[i] == k;
      assert a[i] in Members(b);
      var j :| 0 <= j < |b| && b[j] == a[i];
      assert ListingNames(b)[j] == k;
    }
  }

  /** Candidates have one listing in name order, whatever order they came in. */
  lemma SortingUnique(a: seq<Listing>, b: seq<Listing>)
    requires Sorted(ListingNames(a)) && Sorted(ListingNames(b)) && Members(a) == Members(b)
    ensures a == b
  {
    NamesOfMembers(a, b);
    NamesOfMembers(b, a);
    SortedUnique(ListingNames(a), ListingNames(b));
    forall i | 0 <= i < |a| ensures a[i] == b[i] {
      assert a[i] in Members(b);
      var j :| 0 <= j < |b| && b[j] == a[i];
      assert ListingNames(b)[j] == ListingNames(a)[i] == ListingNames(b)[i];
    }
  }

  lemma InsertSorted(ls: seq<Listing>, l: Listing, at: nat)
    requires Sorted(ListingNames(ls)) && at <= |ls|
    requires forall i :: 0 <= i < at ==> Below(ListingNames(ls)[i], l.entry.name)
    requires forall i :: at <= i < |ls| ==> Below(l.entry.name, ListingNames(ls)[i])
    ensures IsSorted(ls[..at] + [l] + ls[at..], ls + [l])
  {
    var more := ls[..at] + [l] + ls[at..];
    InsertKeeps(ListingNames(ls), l.entry.name, at);
    assert ListingNames(more) == ListingNames(ls)[..at] + [l.entry.name] + ListingNames(ls)[at..];
    assert ls == ls[..at] + ls[at..];
  }

  /** sort.Slice by name, as an insertion sort. */
  method SortByName(ls: seq<Listing>) returns (sorted: seq<Listing>)
    requires NoDuplicates(ListingNames(ls))
    ensures IsSorted(sorted, ls)
  {
    sorted := [];
    for n := 0 to |ls|
      invariant IsSorted(sorted, ls[..n])
    {
      NewName(ls, n, sorted);
      var at := InsertionPoint(ListingNames(sorted), ls[n].entry.name);
      InsertSorted(sorted, ls[n], at);
      sorted := sorted[..at] + [ls[n]] + sorted[at..];
      MembersMore(ls, n);
    }
    assert ls[..|ls|] == ls;
  }

  lemma MembersMore(ls: seq<Listing>, n: nat)
    requires n < |ls|
    ensures Members(ls[..n + 1]) == Members(ls[..n]) + {ls[n]}
  {
    assert ls[..n + 1] == ls[..n] + [ls[n]];
  }

  lemma NewName(ls: seq<Listing>, n: nat, sorted: seq<Listing>)
    requires NoDuplicates(ListingNames(ls)) && n < |ls| && Members(sorted) == Members(ls[..n])
    ensures ls[n].entry.name !in ListingNames(sorted)
  {
    forall i | 0 <= i < |sorted| ensures ListingNames(sorted)[i] != ls[n].entry.name {
      assert sorted[i] in Members(ls[..n]);
      var j :| 0 <= j < n && ls[..n][j] == sorted[i];
      assert ListingNames(ls)[j] != ListingNames(ls)[n];
    }
  }

  /** The loop of filterEnabled. */
  method DropDisabled(ls: seq<Listing>, disabled: set<Bytes>) returns (kept: seq<Listing>)
    ensures kept == Kept(ls, disabled)
  {
    kept := [];
    for n := 0 to |ls|
      invariant kept == Kept(ls[..n], disabled)
    {
      assert ls[..n + 1][..n] == ls[..n];
      if ls[n].entry.id in disabled {
        continue;
      }
      kept := kept + [ls[n]];
    }
    assert ls[..|ls|] == ls;
  }

  datatype Disabling = Disabling(ids: set<Bytes>) | DuplicateId | UnknownId

  /** The first configured ID that is repeated or unknown, if there is one, decides. */
  ghost function DisablingOf(configured: seq<Bytes>, known: set<Bytes>): Disabling {
    if configured == [] then Disabling({})
    else
      var before, id := DisablingOf(configured[..|configured| - 1], known), configured[|configured| - 1];
      if !before.Disabling? then before
      else if id in before.ids then DuplicateId
      else if id !in known then UnknownId
      else Disabling(before.ids + {id})
  }

  lemma {:induction false} DisablingMeans(configured: seq<Bytes>, known: set<Bytes>)
    ensures DisablingOf(configured, known).Disabling? <==> NoDuplicates(configured) && KeySet(configured) <= known
    ensures DisablingOf(configured, known).Disabling? ==> DisablingOf(configured, known).ids == KeySet(configured)
  {
    if configured != [] {
      var front, id := configured[..|configured| - 1], configured[|configured| - 1];
      assert configured == front + [id];
      DisablingMeans(front, known);
      NoDuplicatesMore(front, id);
    }
  }

  lemma {:induction false} DisablingStops(configured: seq<Bytes>, known: set<Bytes>, n: nat)
    requires n <= |configured| && !DisablingOf(configured[..n], known).Disabling?
    ensures DisablingOf(configured, known) == DisablingOf(configured[..n], known)
    decreases |configured| - n
  {
    if n == |configured| {
      assert configured[..n] == configured;
    } else {
      assert configured[..n + 1][..n] == configured[..n];
      DisablingStops(configured, known, n + 1);
    }
  }

  /** validateDisabled. */
  method ValidateDisabled(configured: seq<Bytes>, known: set<Bytes>) returns (r: Disabling)
    ensures r == DisablingOf(configured, known)
  {
    var disabled: set<Bytes> := {};
    for n := 0 to |configured|
      invariant DisablingOf(configured[..n], known) == Disabling(disabled)
    {
      assert configured[..n + 1][..n] == configured[..n];
      var id := configured[n];
      if id in disabled || id !in known {
        DisablingStops(configured, known, n + 1);
        return if id in disabled then DuplicateId else UnknownId;
      }
      disabled := disabled + {id};
    }
    assert configured[..|configured|] == configured;
    return Disabling(disabled);
  }
}
