/** The process-neutral value domain shared by both processes, and its measures. */
module Values {
  import opened Text

  type Int64 = i: int | -0x8000_0000_0000_0000 <= i < 0x8000_0000_0000_0000

  /** A float64: a finite number known by its bit pattern, or a NaN or infinity. */
  datatype Float64 = Finite(bits: nat) | NonFinite

  /** A Go `any`. Unsupported stands for every dynamic type outside the accepted
      matrix, such as json.Number or int. A nil and an empty container are one value. */
  datatype Value =
    | Null
    | Bool(b: bool)
    | Str(s: Bytes)
    | Int(i: Int64)
    | Real(x: Float64)
    | List(items: seq<Value>)
    | Obj(fields: map<Bytes, Value>)
    | Unsupported

  /** Every part has an accepted type and every float is finite. */
  ghost predicate Supported(v: Value) {
    match v
    case Real(x) => x.Finite?
    case List(items) => forall i :: 0 <= i < |items| ==> Supported(items[i])
    case Obj(fields) => forall k :: k in fields ==> Supported(fields[k])
    case Unsupported => false
    case _ => true
  }

  /** No part lies deeper than d, where v itself is at depth 1. */
  ghost predicate WithinDepth(v: Value, d: int) {
    1 <= d &&
    match v
    case List(items) => forall i :: 0 <= i < |items| ==> WithinDepth(items[i], d - 1)
    case Obj(fields) => forall k :: k in fields ==> WithinDepth(fields[k], d - 1)
    case _ => true
  }

  /** At most n containers lie inside one another. */
  ghost predicate Nested(v: Value, n: int) {
    match v
    case List(items) => 1 <= n && forall i :: 0 <= i < |items| ==> Nested(items[i], n - 1)
    case Obj(fields) => 1 <= n && forall k :: k in fields ==> Nested(fields[k], n - 1)
    case _ => 0 <= n
  }

  /** Every string and every key is valid UTF-8. */
  ghost predicate AllUtf8(v: Value) {
    match v
    case Str(s) => ValidUtf8(s)
    case List(items) => forall i :: 0 <= i < |items| ==> AllUtf8(items[i])
    case Obj(fields) => forall k :: k in fields ==> ValidUtf8(k) && AllUtf8(fields[k])
    case _ => true
  }

  /** The number of values in the tree: what the converters charge. */
  ghost function Nodes(v: Value): (n: nat)
    ensures n >= 1
    decreases v, 1, 0
  {
    match v
    case List(items) => 1 + NodesOf(items)
    case Obj(fields) => 1 + NodesAt(v, fields.Keys)
    case _ => 1
  }

  ghost function NodesOf(items: seq<Value>): nat
    decreases items, 0, |items|
  {
    if items == [] then 0 else Nodes(items[0]) + NodesOf(items[1..])
  }

  ghost function NodesAt(owner: Value, keys: set<Bytes>): nat
    requires owner.Obj? && keys <= owner.fields.Keys
    decreases owner, 0, |keys|
  {
    if keys == {} then 0
    else var k :| k in keys; Nodes(owner.fields[k]) + NodesAt(owner, keys - {k})
  }

  /** The nodes below an object. */
  ghost function NodesIn(fields: map<Bytes, Value>): nat { NodesAt(Obj(fields), fields.Keys) }

  lemma {:induction false} NodesAtRemove(owner: Value, keys: set<Bytes>, k: Bytes)
    requires owner.Obj? && keys <= owner.fields.Keys && k in keys
    ensures NodesAt(owner, keys) == Nodes(owner.fields[k]) + NodesAt(owner, keys - {k})
    decreases |keys|
  {
    var p :| p in keys && NodesAt(owner, keys) == Nodes(owner.fields[p]) + NodesAt(owner, keys - {p});
    if p != k {
      NodesAtRemove(owner, keys - {p}, k);
      NodesAtRemove(owner, keys - {k}, p);
      assert keys - {p} - {k} == keys - {k} - {p};
    }
  }

  lemma {:induction false} NodesAtSame(a: Value, b: Value, keys: set<Bytes>)
    requires a.Obj? && b.Obj? && keys <= a.fields.Keys && keys <= b.fields.Keys
    requires forall k :: k in keys ==> a.fields[k] == b.fields[k]
    ensures NodesAt(a, keys) == NodesAt(b, keys)
    decreases |keys|
  {
    if keys != {} {
      var k :| k in keys;
      NodesAtRemove(a, keys, k);
      NodesAtRemove(b, keys, k);
      NodesAtSame(a, b, keys - {k});
    }
  }

  lemma NodesInsert(fields: map<Bytes, Value>, k: Bytes, v: Value)
    requires k !in fields
    ensures NodesIn(fields[k := v]) == NodesIn(fields) + Nodes(v)
  {
    var more := fields[k := v];
    NodesAtRemove(Obj(more), more.Keys, k);
    assert more.Keys - {k} == fields.Keys;
    NodesAtSame(Obj(fields), Obj(more), fields.Keys);
  }

  lemma {:induction false} NodesAppend(items: seq<Value>, v: Value)
    ensures NodesOf(items + [v]) == NodesOf(items) + Nodes(v)
  {
    if items != [] {
      assert (items + [v])[1..] == items[1..] + [v];
      NodesAppend(items[1..], v);
    } else {
      assert ([] + [v])[1..] == [];
    }
  }

  /** A tree holds at least as many nodes as any list prefix of it, and at least one each. */
  lemma {:induction false} NodesAtLeastLength(items: seq<Value>)
    ensures NodesOf(items) >= |items|
  {
    if items != [] { NodesAtLeastLength(items[1..]); }
  }

  lemma {:induction false} NodesAtLeastKeys(owner: Value, keys: set<Bytes>)
    requires owner.Obj? && keys <= owner.fields.Keys
    ensures NodesAt(owner, keys) >= |keys|
    decreases |keys|
  {
    if keys != {} {
      var k :| k in keys;
      NodesAtRemove(owner, keys, k);
      NodesAtLeastKeys(owner, keys - {k});
    }
  }

  lemma NodesInAtLeast(fields: map<Bytes, Value>)
    ensures NodesIn(fields) >= |fields|
  {
    NodesAtLeastKeys(Obj(fields), fields.Keys);
  }

  lemma {:induction false} NodesSplit(items: seq<Value>, n: nat)
    requires n < |items|
    ensures NodesOf(items) >= NodesOf(items[..n]) + Nodes(items[n]) + (|items| - n - 1)
  {
    if n == 0 {
      NodesAtLeastLength(items[1..]);
      assert items[..0] == [];
    } else {
      NodesSplit(items[1..], n - 1);
      assert items[..n][1..] == items[1..][..n - 1];
      assert items[..n][0] == items[0];
    }
  }

  /** A part is strictly smaller than the whole. */
  lemma {:induction false} PartSmaller(items: seq<Value>, n: nat)
    requires n < |items|
    ensures Nodes(items[n]) <= NodesOf(items)
  {
    NodesSplit(items, n);
  }

  lemma FieldSmaller(fields: map<Bytes, Value>, k: Bytes)
    requires k in fields
    ensures Nodes(fields[k]) <= NodesIn(fields)
  {
    NodesAtRemove(Obj(fields), fields.Keys, k);
  }
}
