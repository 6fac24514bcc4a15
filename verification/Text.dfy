/** Byte strings, their order, and UTF-8 (RFC 3629 sections 3 and 4).

    A Go string is a sequence of bytes that need not be valid UTF-8. A JSON text
    is a Dafny string, a sequence of Unicode scalar values. */
module Text {
  type Byte = b: int | 0 <= b < 256
  type Bytes = seq<Byte>

  /** What a Go range loop and the JSON encoder put in place of an invalid byte. */
  const REPLACEMENT: char := '\U{FFFD}'

  datatype Option<+T> = None | Some(value: T)

  // ----- UTF-8 -----

  function EncodeChar(c: char): (b: Bytes)
    ensures 1 <= |b| <= 4
  {
    var n := c as int;
    if n < 0x80 then [n]
    else if n < 0x800 then [0xC0 + n / 64, 0x80 + n % 64]
    else if n < 0x1_0000 then [0xE0 + n / 64 / 64, 0x80 + n / 64 % 64, 0x80 + n % 64]
    else [0xF0 + n / 64 / 64 / 64, 0x80 + n / 64 / 64 % 64, 0x80 + n / 64 % 64, 0x80 + n % 64]
  }

  function Utf8(s: string): Bytes {
    if s == [] then [] else EncodeChar(s[0]) + Utf8(s[1..])
  }

  predicate Continuation(b: Byte) { 0x80 <= b <= 0xBF }

  /** Appends the six payload bits of a continuation byte to high. */
  function Join(high: int, low: Byte): int { high * 64 + (low - 0x80) }

  /** The first scalar value of b and its width, or None where b does not start
      with a well-formed sequence (RFC 3629 section 4). */
  function DecodeChar(b: Bytes): (r: Option<(char, nat)>)
    ensures r.Some? ==> 1 <= r.value.1 <= |b|
  {
    if |b| == 0 then None
    else if b[0] < 0x80 then Some((b[0] as char, 1))
    else if 0xC2 <= b[0] <= 0xDF then
      if |b| >= 2 && Continuation(b[1]) then
        Some((Join(b[0] - 0xC0, b[1]) as char, 2))
      else None
    else if 0xE0 <= b[0] <= 0xEF then
      if && |b| >= 3 && Continuation(b[1]) && Continuation(b[2])
         && (b[0] == 0xE0 ==> 0xA0 <= b[1]) && (b[0] == 0xED ==> b[1] <= 0x9F)
      then Some((Join(Join(b[0] - 0xE0, b[1]), b[2]) as char, 3))
      else None
    else if 0xF0 <= b[0] <= 0xF4 then
      if && |b| >= 4 && Continuation(b[1]) && Continuation(b[2]) && Continuation(b[3])
         && (b[0] == 0xF0 ==> 0x90 <= b[1]) && (b[0] == 0xF4 ==> b[1] <= 0x8F)
      then Some((Join(Join(Join(b[0] - 0xF0, b[1]), b[2]), b[3]) as char, 4))
      else None
    else None
  }

  /** The scalar values a Go range loop yields: an invalid byte yields REPLACEMENT. */
  function Runes(b: Bytes): string {
    if b == [] then []
    else match DecodeChar(b)
      case Some(step) => [step.0] + Runes(b[step.1..])
      case None => [REPLACEMENT] + Runes(b[1..])
  }

  predicate ValidUtf8(b: Bytes) {
    b == [] || (DecodeChar(b).Some? && ValidUtf8(b[DecodeChar(b).value.1..]))
  }

  lemma DecodeOfEncodeChar(c: char, rest: Bytes)
    ensures DecodeChar(EncodeChar(c) + rest) == Some((c, |EncodeChar(c)|))
  {
    var n := c as int;
    var e := EncodeChar(c);
    var b := e + rest;
    SplitJoins(n);
    assert b[0] == e[0];
    if 0x80 <= n < 0x800 {
      assert b[1] == e[1];
    } else if 0x800 <= n < 0x1_0000 {
      assert b[1] == e[1] && b[2] == e[2];
      SplitJoins(n / 64);
    } else if 0x1_0000 <= n {
      assert b[1] == e[1] && b[2] == e[2] && b[3] == e[3];
      SplitJoins(n / 64);
      SplitJoins(n / 64 / 64);
    }
  }

  lemma SplitJoins(n: nat)
    ensures Join(n / 64, 0x80 + n % 64) == n && 0 <= n % 64 < 64
  {}

  lemma JoinSplits(high: int, low: Byte)
    requires Continuation(low)
    ensures Join(high, low) / 64 == high && Join(high, low) % 64 == low - 0x80
  {}

  lemma EncodeOfDecodeChar(b: Bytes)
    requires DecodeChar(b).Some?
    ensures EncodeChar(DecodeChar(b).value.0) == b[..DecodeChar(b).value.1]
  {
    var (c, w) := DecodeChar(b).value;
    var n := c as int;
    if w == 2 {
      JoinSplits(b[0] - 0xC0, b[1]);
      assert b[..2] == [b[0], b[1]];
    } else if w == 3 {
      var high := Join(b[0] - 0xE0, b[1]);
      JoinSplits(b[0] - 0xE0, b[1]);
      JoinSplits(high, b[2]);
      assert n / 64 == high;
      assert b[..3] == [b[0], b[1], b[2]];
    } else if w == 4 {
      var top := Join(b[0] - 0xF0, b[1]);
      var high := Join(top, b[2]);
      JoinSplits(b[0] - 0xF0, b[1]);
      JoinSplits(top, b[2]);
      JoinSplits(high, b[3]);
      assert n / 64 == high;
      assert b[..4] == [b[0], b[1], b[2], b[3]];
    }
  }

  /** Decoding undoes encoding, and encoded text is valid. */
  lemma {:induction false} RunesOfUtf8(s: string)
    ensures Runes(Utf8(s)) == s
    ensures ValidUtf8(Utf8(s))
  {
    if s != [] {
      DecodeOfEncodeChar(s[0], Utf8(s[1..]));
      var e := EncodeChar(s[0]);
      assert (e + Utf8(s[1..]))[|e|..] == Utf8(s[1..]);
      RunesOfUtf8(s[1..]);
      assert s == [s[0]] + s[1..];
    }
  }

  /** Encoding undoes decoding exactly on valid UTF-8. */
  lemma {:induction false} Utf8OfRunes(b: Bytes)
    ensures Utf8(Runes(b)) == b <==> ValidUtf8(b)
  {
    if ValidUtf8(b) { Utf8OfValidRunes(b); }
    if Utf8(Runes(b)) == b { RunesOfUtf8(Runes(b)); }
  }

  lemma {:induction false} Utf8OfValidRunes(b: Bytes)
    requires ValidUtf8(b)
    ensures Utf8(Runes(b)) == b
  {
    if b != [] {
      var (c, w) := DecodeChar(b).value;
      EncodeOfDecodeChar(b);
      Utf8OfValidRunes(b[w..]);
      Utf8Prepend(c, Runes(b[w..]));
    }
  }

  lemma Utf8Prepend(c: char, s: string)
    ensures Utf8([c] + s) == EncodeChar(c) + Utf8(s)
  {}

  lemma {:induction false} Utf8Concat(s: string, t: string)
    ensures Utf8(s + t) == Utf8(s) + Utf8(t)
  {
    if s == [] {
      assert s + t == t;
    } else {
      assert (s + t)[1..] == s[1..] + t;
      Utf8Concat(s[1..], t);
    }
  }

  // ----- the byte order of Go strings -----

  /** The order of strings.Compare and slices.Sort on Go strings. */
  predicate AtMost(a: Bytes, b: Bytes) {
    a == [] || (b != [] && (a[0] < b[0] || (a[0] == b[0] && AtMost(a[1..], b[1..]))))
  }

  predicate Below(a: Bytes, b: Bytes) { a != b && AtMost(a, b) }

  lemma AtMostReflexive(a: Bytes)
    ensures AtMost(a, a)
  {}

  lemma {:induction false} AtMostTotal(a: Bytes, b: Bytes)
    ensures AtMost(a, b) || AtMost(b, a)
  {
    if a != [] && b != [] { AtMostTotal(a[1..], b[1..]); }
  }

  lemma {:induction false} AtMostAntisymmetric(a: Bytes, b: Bytes)
    requires AtMost(a, b) && AtMost(b, a)
    ensures a == b
  {
    if a != [] && b != [] {
      AtMostAntisymmetric(a[1..], b[1..]);
      assert a == [a[0]] + a[1..] && b == [b[0]] + b[1..];
    }
  }

  lemma {:induction false} AtMostTransitive(a: Bytes, b: Bytes, c: Bytes)
    requires AtMost(a, b) && AtMost(b, c)
    ensures AtMost(a, c)
  {
    if a != [] && a[0] == b[0] == c[0] { AtMostTransitive(a[1..], b[1..], c[1..]); }
  }

  /** The first n bytes agree, and then a ends or its next byte is smaller. */
  predicate DiffersAt(a: Bytes, b: Bytes, n: nat) {
    && n <= |a| && n < |b| && a[..n] == b[..n]
    && (n == |a| || a[n] < b[n])
  }

  lemma HeadsAgree(a: Bytes, b: Bytes, n: nat)
    requires a != [] && b != []
    ensures DiffersAt(a, b, n) && n > 0 ==> a[0] == b[0]
  {
    if DiffersAt(a, b, n) && n > 0 { assert a[..n][0] == b[..n][0]; }
  }

  /** Bytewise order: the first difference decides, and a proper prefix comes first. */
  lemma {:induction false} BelowIff(a: Bytes, b: Bytes)
    ensures Below(a, b) <==> exists n: nat :: DiffersAt(a, b, n)
  {
    if a == [] {
      if b != [] { assert DiffersAt(a, b, 0); }
    } else if b != [] {
      BelowIff(a[1..], b[1..]);
      if a[0] < b[0] {
        assert DiffersAt(a, b, 0);
      } else if a[0] == b[0] {
        assert a == [a[0]] + a[1..] && b == [b[0]] + b[1..];
        if n: nat :| DiffersAt(a[1..], b[1..], n) {
          assert a[..n + 1] == [a[0]] + a[1..][..n] && b[..n + 1] == [b[0]] + b[1..][..n];
          assert DiffersAt(a, b, n + 1);
        }
        if n: nat :| DiffersAt(a, b, n) {
          assert n > 0 && a[1..][..n - 1] == a[..n][1..] && b[1..][..n - 1] == b[..n][1..];
          assert DiffersAt(a[1..], b[1..], n - 1);
        }
      } else {
        forall n: nat ensures !DiffersAt(a, b, n) {
          HeadsAgree(a, b, n);
        }
      }
    }
  }

  lemma BelowTransitive(a: Bytes, b: Bytes, c: Bytes)
    requires Below(a, b) && AtMost(b, c)
    ensures Below(a, c)
  {
    AtMostTransitive(a, b, c);
    if a == c { AtMostAntisymmetric(a, b); }
  }

  /** Strictly increasing: the keys of a Go map after slices.Sort. */
  ghost predicate Sorted(keys: seq<Bytes>) {
    forall i, j :: 0 <= i < j < |keys| ==> Below(keys[i], keys[j])
  }

  ghost function KeySet(keys: seq<Bytes>): set<Bytes> { set k | k in keys }

  lemma NoKeys(a: seq<Bytes>)
    ensures a == [] <==> KeySet(a) == {}
  {
    if a != [] { assert a[0] in KeySet(a); }
  }

  /** A set of keys has only one sorted listing, so map iteration order cannot show. */
  lemma {:induction false} SortedUnique(a: seq<Bytes>, b: seq<Bytes>)
    requires Sorted(a) && Sorted(b) && KeySet(a) == KeySet(b)
    ensures a == b
  {
    NoKeys(a);
    NoKeys(b);
    if a != [] {
      assert a[0] in KeySet(a) && a[0] in b;
      assert b[0] in KeySet(b) && b[0] in a;
      var i :| 0 <= i < |a| && a[i] == b[0];
      var j :| 0 <= j < |b| && b[j] == a[0];
      if i > 0 && j > 0 { AtMostAntisymmetric(a[0], b[0]); }
      assert a[0] == b[0];
      assert KeySet(a[1..]) == KeySet(a) - {a[0]} by { TailKeys(a); }
      assert KeySet(b[1..]) == KeySet(b) - {b[0]} by { TailKeys(b); }
      SortedUnique(a[1..], b[1..]);
      assert a == [a[0]] + a[1..] && b == [b[0]] + b[1..];
    }
  }

  lemma TailKeys(a: seq<Bytes>)
    requires Sorted(a) && a != []
    ensures KeySet(a[1..]) == KeySet(a) - {a[0]}
  {
    assert a == [a[0]] + a[1..];
    forall k | k in KeySet(a[1..]) ensures k != a[0] {
      var i :| 0 <= i < |a[1..]| && a[1..][i] == k;
      assert a[i + 1] == k;
    }
  }

  /** The sorted listing of a set of keys. */
  ghost function SortedKeys(keys: set<Bytes>): (r: seq<Bytes>)
    ensures Sorted(r) && KeySet(r) == keys
  {
    if keys == {} then []
    else
      LeastExists(keys);
      var k :| k in keys && forall x :: x in keys ==> AtMost(k, x);
      var rest := SortedKeys(keys - {k});
      assert forall i :: 0 <= i < |rest| ==> rest[i] in KeySet(rest);
      assert KeySet([k] + rest) == {k} + KeySet(rest);
      [k] + rest
  }

  lemma {:induction false} LeastExists(keys: set<Bytes>)
    requires keys != {}
    ensures exists k :: k in keys && forall x :: x in keys ==> AtMost(k, x)
  {
    var y :| y in keys;
    if keys == {y} {
      AtMostReflexive(y);
      assert forall x :: x in keys ==> AtMost(y, x);
    } else {
      LeastExists(keys - {y});
      var k :| k in keys - {y} && forall x :: x in keys - {y} ==> AtMost(k, x);
      AtMostTotal(k, y);
      var m := if AtMost(k, y) then k else y;
      forall x | x in keys ensures AtMost(m, x) {
        AtMostReflexive(y);
        if x != y && m == y { AtMostTransitive(y, k, x); }
      }
    }
  }

  /** Where key belongs in a sorted list that lacks it. */
  method InsertionPoint(sorted: seq<Bytes>, key: Bytes) returns (at: nat)
    requires Sorted(sorted) && key !in sorted
    ensures at <= |sorted|
    ensures forall i :: 0 <= i < at ==> Below(sorted[i], key)
    ensures forall i :: at <= i < |sorted| ==> Below(key, sorted[i])
  {
    at := 0;
    while at < |sorted| && AtMost(sorted[at], key)
      invariant at <= |sorted|
      invariant forall i :: 0 <= i < at ==> Below(sorted[i], key)
    {
      at := at + 1;
    }
    if at < |sorted| { AtMostTotal(sorted[at], key); }
    forall i | at <= i < |sorted| ensures Below(key, sorted[i]) {
      if i > at { BelowTransitive(key, sorted[at], sorted[i]); }
    }
  }

  lemma InsertKeeps(sorted: seq<Bytes>, key: Bytes, at: nat)
    requires Sorted(sorted) && at <= |sorted|
    requires forall i :: 0 <= i < at ==> Below(sorted[i], key)
    requires forall i :: at <= i < |sorted| ==> Below(key, sorted[i])
    ensures Sorted(sorted[..at] + [key] + sorted[at..])
    ensures KeySet(sorted[..at] + [key] + sorted[at..]) == KeySet(sorted) + {key}
  {
    assert sorted == sorted[..at] + sorted[at..];
  }

  /** slices.Sort over distinct strings, as an insertion sort. */
  method SortKeys(keys: seq<Bytes>) returns (sorted: seq<Bytes>)
    requires forall i, j :: 0 <= i < j < |keys| ==> keys[i] != keys[j]
    ensures sorted == SortedKeys(KeySet(keys))
  {
    sorted := [];
    for n := 0 to |keys|
      invariant Sorted(sorted) && KeySet(sorted) == KeySet(keys[..n])
    {
      var key := keys[n];
      assert key !in KeySet(keys[..n]) && forall k :: k in sorted ==> k in KeySet(sorted);
      var at := InsertionPoint(sorted, key);
      InsertKeeps(sorted, key, at);
      sorted := sorted[..at] + [key] + sorted[at..];
      assert keys[..n + 1] == keys[..n] + [key];
    }
    assert keys[..|keys|] == keys;
    SortedUnique(sorted, SortedKeys(KeySet(keys)));
  }

  /** The keys of a Go map, collected in some order and sorted. */
  method SortedListing(keys: set<Bytes>) returns (sorted: seq<Bytes>)
    ensures sorted == SortedKeys(keys)
  {
    var rest, listed := keys, [];
    while rest != {}
      invariant rest <= keys && KeySet(listed) == keys - rest
      invariant forall i, j :: 0 <= i < j < |listed| ==> listed[i] != listed[j]
      decreases |rest|
    {
      var k :| k in rest;
      assert k !in KeySet(listed);
      assert KeySet(listed + [k]) == KeySet(listed) + {k};
      rest, listed := rest - {k}, listed + [k];
    }
    assert KeySet(listed) == keys;
    sorted := SortKeys(listed);
  }

  /** The keys from n on are the members of left, each once. */
  ghost predicate Lists(keys: seq<Bytes>, n: nat, left: set<Bytes>)
    requires n <= |keys|
    decreases |keys| - n
  {
    if n == |keys| then left == {} else keys[n] in left && Lists(keys, n + 1, left - {keys[n]})
  }

  lemma {:induction false} SortedLists(keys: seq<Bytes>, n: nat)
    requires Sorted(keys) && n <= |keys|
    ensures Lists(keys, n, KeySet(keys[n..]))
    decreases |keys| - n
  {
    if n < |keys| {
      assert keys[n..][0] == keys[n] && keys[n..][1..] == keys[n + 1..];
      TailKeys(keys[n..]);
      SortedLists(keys, n + 1);
    }
  }

  /** The first n keys are in strictly increasing order. */
  ghost predicate Ascending(keys: seq<Bytes>, n: nat)
    requires n <= |keys|
  {
    n < 2 || (Below(keys[n - 2], keys[n - 1]) && Ascending(keys, n - 1))
  }

  lemma {:induction false} SortedAscends(keys: seq<Bytes>, n: nat)
    requires Sorted(keys) && n <= |keys|
    ensures Ascending(keys, n)
  {
    if n >= 2 { SortedAscends(keys, n - 1); }
  }

  /** The keys of a Go map in sorted order, for a walk that meets each once. */
  method SortedWalk(keys: set<Bytes>) returns (sorted: seq<Bytes>)
    ensures Lists(sorted, 0, keys) && Ascending(sorted, |sorted|)
  {
    sorted := SortedListing(keys);
    SortedLists(sorted, 0);
    SortedAscends(sorted, |sorted|);
    assert sorted[0..] == sorted;
  }
}
