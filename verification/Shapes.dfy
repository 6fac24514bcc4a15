/** Go types as a finite, possibly cyclic graph, and the finite shape a type unrolls to when
    everything it reaches is supported and nothing it reaches contains itself. */
module Shapes {
  import opened Text
  import opened Schema

  datatype Direction = InputDirection | OutputDirection

  /** A struct field after its tag was read: None where the tag or visibility is refused. */
  datatype GoField = GoField(name: Option<Bytes>, omitempty: bool, typ: nat)

  datatype GoType =
    | TString
    | TBool
    | TInt(bits: nat)
    | TUint(bits: nat)
    | TFloat(bits: nat)
    | TPointer(elem: nat)
    | TSlice(elem: nat)
    | TArray(elem: nat)
    | TMap(key: nat, elem: nat)
    | TStruct(fields: seq<GoField>)
    | TOther

  /** All types by number, and which of them carry a custom codec for this direction. */
  datatype Universe = Universe(dir: Direction, types: seq<GoType>, forbidden: nat -> bool, names: NameLib)

  datatype Shape =
    | SString
    | SBool
    | SInt(bits: nat)
    | SUint(bits: nat)
    | SFloat(bits: nat)
    | SBytes
    | SList(elem: Shape)
    | SMap(elem: Shape)
    | SPointer(elem: Shape)
    | SStruct(fields: seq<ShapeField>)

  datatype ShapeField = ShapeField(name: Bytes, omitempty: bool, shape: Shape)

  predicate Plain(u: Universe, t: nat) { t < |u.types| && !u.forbidden(t) }

  predicate IsPointer(u: Universe, t: nat) { t < |u.types| && u.types[t].TPointer? }

  /** compileSequence's byte case: output only, and only for a plain uint8 element. */
  predicate ByteSequence(u: Universe, elem: nat) {
    u.dir.OutputDirection? && Plain(u, elem) && u.types[elem] == TUint(8)
  }

  /** compileFieldName and the omitempty rule. */
  predicate FieldAllowed(u: Universe, field: GoField, keywords: bool) {
    && field.name.Some?
    && (if keywords then ValidIdentifier(u.names, field.name.value) else ValidJsonName(u.names, field.name.value))
    && (field.omitempty ==> IsPointer(u, field.typ))
  }

  predicate KeyAllowed(u: Universe, key: nat) { Plain(u, key) && u.types[key].TString? }

  ghost predicate DistinctNames(fields: seq<GoField>) {
    forall i, j :: 0 <= i < j < |fields| ==> fields[i].name != fields[j].name
  }

  /** Type t is supported and unrolls to s; keywords selects the root's name rule. */
  ghost predicate Unrolls(u: Universe, t: nat, keywords: bool, s: Shape)
    decreases s
  {
    Plain(u, t) &&
    match u.types[t]
    case TString => s == SString
    case TBool => s == SBool
    case TInt(bits) => s == SInt(bits)
    case TUint(bits) => s == SUint(bits)
    case TFloat(bits) => s == SFloat(bits)
    case TPointer(elem) =>
      s.SPointer? && !(u.dir.InputDirection? && IsPointer(u, elem)) && Unrolls(u, elem, keywords, s.elem)
    case TSlice(elem) => if ByteSequence(u, elem) then s == SBytes else s.SList? && Unrolls(u, elem, keywords, s.elem)
    case TArray(elem) =>
      u.dir.OutputDirection? && if ByteSequence(u, elem) then s == SBytes else s.SList?
                                                                               && Unrolls(u, elem, keywords, s.elem)
    case TMap(key, elem) => s.SMap? && KeyAllowed(u, key) && Unrolls(u, elem, keywords, s.elem)
    case TStruct(fields) =>
      && s.SStruct? && |s.fields| == |fields| && DistinctNames(fields)
      && forall n :: 0 <= n < |fields| ==>
           && FieldAllowed(u, fields[n], keywords)
           && s.fields[n].name == fields[n].name.value && s.fields[n].omitempty == fields[n].omitempty
           && Unrolls(u, fields[n].typ, false, s.fields[n].shape)
    case TOther => false
  }

  /** A type has at most one shape. */
  lemma {:induction false} ShapeUnique(u: Universe, t: nat, k: bool, l: bool, a: Shape, b: Shape)
    requires Unrolls(u, t, k, a) && Unrolls(u, t, l, b)
    ensures a == b
    decreases a
  {
    match u.types[t]
    case TPointer(elem) => ShapeUnique(u, elem, k, l, a.elem, b.elem);
    case TSlice(elem) => if !ByteSequence(u, elem) { ShapeUnique(u, elem, k, l, a.elem, b.elem); }
    case TArray(elem) => if !ByteSequence(u, elem) { ShapeUnique(u, elem, k, l, a.elem, b.elem); }
    case TMap(_, elem) => ShapeUnique(u, elem, k, l, a.elem, b.elem);
    case TStruct(fields) =>
      forall n | 0 <= n < |fields| ensures a.fields[n] == b.fields[n] {
        ShapeUnique(u, fields[n].typ, false, false, a.fields[n].shape, b.fields[n].shape);
      }
    case _ =>
  }

  ghost function Size(s: Shape): nat
    decreases s, 0
  {
    match s
    case SList(elem) => 1 + Size(elem)
    case SMap(elem) => 1 + Size(elem)
    case SPointer(elem) => 1 + Size(elem)
    case SStruct(fields) => 1 + FieldSizes(fields, |fields|)
    case _ => 1
  }

  ghost function FieldSizes(fields: seq<ShapeField>, n: nat): nat
    requires n <= |fields|
    decreases fields, 0, n
  {
    if n == 0 then 0 else FieldSizes(fields, n - 1) + Size(fields[n - 1].shape)
  }

  lemma {:induction false} FieldIsSmaller(fields: seq<ShapeField>, i: nat, n: nat)
    requires i < n <= |fields|
    ensures Size(fields[i].shape) <= FieldSizes(fields, n)
  {
    if i < n - 1 { FieldIsSmaller(fields, i, n - 1); }
  }

  /** The keyword rule is the stricter one. */
  lemma {:induction false} KeywordsStricter(u: Universe, t: nat, s: Shape)
    requires KnowsDigits(u.names) && Unrolls(u, t, true, s)
    ensures Unrolls(u, t, false, s)
    decreases s
  {
    match u.types[t]
    case TPointer(elem) => KeywordsStricter(u, elem, s.elem);
    case TSlice(elem) => if !ByteSequence(u, elem) { KeywordsStricter(u, elem, s.elem); }
    case TArray(elem) => if !ByteSequence(u, elem) { KeywordsStricter(u, elem, s.elem); }
    case TMap(_, elem) => KeywordsStricter(u, elem, s.elem);
    case TStruct(fields) =>
      forall n | 0 <= n < |fields| ensures FieldAllowed(u, fields[n], false) {
        assert FieldAllowed(u, fields[n], true);
        IdentifierIsJsonName(u.names, fields[n].name.value);
      }
    case _ =>
  }

  lemma {:induction false} SmallSet(s: set<nat>, n: nat)
    requires forall x :: x in s ==> x < n
    ensures |s| <= n
  {
    if n > 0 {
      SmallSet(s - {n - 1}, n - 1);
    } else {
      assert s == {};
    }
  }
}
