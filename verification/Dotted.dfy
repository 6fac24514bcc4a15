/** Dotted capability names, as internal/catalog/build.go and internal/execution/engine.go
    both read them: segments, reserved roots, and names that are also namespaces. */
module Dotted {
  import opened Text
  import opened Schema

  const DOT: Byte := 0x2E
  const MINIMUM_SEGMENTS: nat := 2

  /** strings.Split on the dot. */
  function Split(name: Bytes): (r: seq<Bytes>)
    ensures |r| >= 1
  {
    if name == [] then [[]]
    else if name[0] == DOT then [[]] + Split(name[1..])
    else var rest := Split(name[1..]); [[name[0]] + rest[0]] + rest[1..]
  }

  /** strings.Join with the dot. */
  function Join(segments: seq<Bytes>): Bytes {
    if segments == [] then []
    else if |segments| == 1 then segments[0]
    else segments[0] + [DOT] + Join(segments[1..])
  }

  lemma {:induction false} JoinOfSplit(name: Bytes)
    ensures Join(Split(name)) == name
  {
    if name != [] {
      var rest := Split(name[1..]);
      JoinOfSplit(name[1..]);
      if name[0] == DOT {
        assert ([[]] + rest)[1..] == rest;
      } else {
        assert Split(name)[1..] == rest[1..];
        assert Join(Split(name)) == [name[0]] + Join(rest);
      }
      assert name == [name[0]] + name[1..];
    }
  }

  /** Names and segment lists determine each other. */
  lemma SplitInjective(a: Bytes, b: Bytes)
    requires Split(a) == Split(b)
    ensures a == b
  {
    JoinOfSplit(a);
    JoinOfSplit(b);
  }

  ghost predicate NoDots(segments: seq<Bytes>) { forall i :: 0 <= i < |segments| ==> DOT !in segments[i] }

  lemma {:induction false} SplitHasNoDots(name: Bytes)
    ensures NoDots(Split(name))
  {
    if name != [] { SplitHasNoDots(name[1..]); }
  }

  lemma {:induction false} SplitWithin(segment: Bytes, rest: Bytes)
    requires DOT !in segment && (rest == [] || rest[0] == DOT)
    ensures Split(segment + rest) == if rest == [] then [segment] else [segment] + Split(rest[1..])
  {
    if segment == [] {
      assert [] + rest == rest;
    } else {
      assert (segment + rest)[1..] == segment[1..] + rest;
      SplitWithin(segment[1..], rest);
      assert [segment[0]] + segment[1..] == segment;
    }
  }

  lemma {:induction false} SplitOfJoin(segments: seq<Bytes>)
    requires NoDots(segments) && segments != []
    ensures Split(Join(segments)) == segments
  {
    if |segments| == 1 {
      assert segments[0] + [] == segments[0];
      SplitWithin(segments[0], []);
    } else {
      var rest := [DOT] + Join(segments[1..]);
      SplitOfJoin(segments[1..]);
      SplitWithin(segments[0], rest);
      assert rest[1..] == Join(segments[1..]);
      assert segments[0] + [DOT] + Join(segments[1..]) == segments[0] + rest;
    }
  }

  /** isDottedName. */
  predicate IsDotted(lib: NameLib, name: Bytes) {
    |Split(name)| >= MINIMUM_SEGMENTS && forall i :: 0 <= i < |Split(name)| ==> ValidIdentifier(lib, Split(name)[i])
  }

  /** The name itself is a namespace of the other: a proper prefix, segment by segment. */
  predicate IsNamespaceOf(name: Bytes, other: Bytes) { Split(name) < Split(other) }

  ghost predicate NoCollisions(names: set<Bytes>) {
    forall a, b :: a in names && b in names ==> !IsNamespaceOf(a, b)
  }

  function FirstSegments(name: Bytes, end: nat): Bytes
    requires end <= |Split(name)|
  {
    Join(Split(name)[..end])
  }

  lemma PrefixIsNamespace(name: Bytes, end: nat)
    requires 0 < end < |Split(name)|
    ensures Split(FirstSegments(name, end)) == Split(name)[..end] && IsNamespaceOf(FirstSegments(name, end), name)
  {
    SplitHasNoDots(name);
    SplitOfJoin(Split(name)[..end]);
  }

  lemma NamespaceIsPrefix(a: Bytes, name: Bytes)
    requires IsNamespaceOf(a, name)
    ensures 0 < |Split(a)| < |Split(name)| && a == FirstSegments(name, |Split(a)|)
  {
    assert Split(name)[..|Split(a)|] == Split(a);
    JoinOfSplit(a);
  }

  /** One name: does a prefix of it appear among the names? */
  method HasNamespaceAmong(names: set<Bytes>, name: Bytes) returns (found: bool)
    ensures found <==> exists a :: a in names && IsNamespaceOf(a, name)
  {
    var segments := Split(name);
    for end := 1 to |segments|
      invariant forall e :: 0 < e < end ==> FirstSegments(name, e) !in names
    {
      var prefix := FirstSegments(name, end);
      if prefix in names {
        PrefixIsNamespace(name, end);
        assert IsNamespaceOf(prefix, name);
        return true;
      }
    }
    forall a | a in names ensures !IsNamespaceOf(a, name) {
      if IsNamespaceOf(a, name) { NamespaceIsPrefix(a, name); }
    }
    return false;
  }

  /** validateNamespaceCollisions: no name is also a namespace of another. */
  method CheckCollisions(names: set<Bytes>) returns (ok: bool)
    ensures ok <==> NoCollisions(names)
  {
    var left := names;
    while left != {}
      invariant left <= names
      invariant forall a, b :: a in names && b in names - left ==> !IsNamespaceOf(a, b)
      decreases |left|
    {
      var name :| name in left;
      var found := HasNamespaceAmong(names, name);
      if found {
        return false;
      }
      left := left - {name};
    }
    return true;
  }

  // ----- unique identities -----

  ghost predicate NoDuplicates(keys: seq<Bytes>) { forall i, j :: 0 <= i < j < |keys| ==> keys[i] != keys[j] }

  lemma NoDuplicatesMore(keys: seq<Bytes>, key: Bytes)
    ensures NoDuplicates(keys + [key]) <==> NoDuplicates(keys) && key !in KeySet(keys)
    ensures KeySet(keys + [key]) == KeySet(keys) + {key}
  {
    var more := keys + [key];
    if NoDuplicates(more) {
      assert more[|keys|] == key && more[..|keys|] == keys;
      forall k | k in keys ensures k != key {
        var i :| 0 <= i < |keys| && keys[i] == k;
        assert more[i] == k;
      }
    }
  }

  // ----- lists all of whose members pass -----

  ghost predicate All<T>(p: T -> bool, s: seq<T>) { forall i :: 0 <= i < |s| ==> p(s[i]) }

  lemma AllMore<T>(p: T -> bool, s: seq<T>, n: nat)
    requires n < |s| && All(p, s[..n])
    ensures All(p, s[..n + 1]) <==> p(s[n])
  {
    assert s[..n + 1][n] == s[n];
  }
}
