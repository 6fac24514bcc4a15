/** What a handler's output means, said on its Go type alone: the relation between a Go value and
    the value the program sees, without the arena and without the converter. */
module OutputMeaning {
  import opened Text
  import opened Values
  import opened Unfolding
  import opened Converter
  import opened Shapes
  import opened Compiler
  import opened Output

  /** A nil pointer under omitempty leaves its member out. */
  predicate LeftOut(field: GoField, out: Out) { field.omitempty && out == OutPointer(None) }

  /** Member n of the struct is named k and not left out. */
  predicate Keeps(fields: seq<GoField>, outs: seq<Out>, n: nat, k: Bytes)
    requires n < |fields| == |outs|
  {
    fields[n].name == Some(k) && !LeftOut(fields[n], outs[n])
  }

  predicate Declares(fields: seq<GoField>, outs: seq<Out>, k: Bytes)
    requires |fields| == |outs|
  {
    exists n :: 0 <= n < |fields| && Keeps(fields, outs, n, k)
  }

  /** The Go value out of type t is seen as v. */
  ghost predicate Says(u: Universe, t: nat, out: Out, v: Value)
    decreases v, out, 1
  {
    t < |u.types| &&
    match u.types[t]
    case TString => out.OutString? && v == Str(out.s)
    case TBool => out.OutBool? && v == Bool(out.b)
    case TInt(_) => out.OutInt? && v == Int(out.i)
    case TUint(_) => out.OutUint? && v.Int? && v.i == out.u
    case TFloat(_) => out.OutFloat? && out.x.Finite? && v == Real(out.x)
    case TPointer(elem) =>
      out.OutPointer? && if out.target.None? then v.Null? else Says(u, elem, out.target.value, v)
    case TSlice(elem) => if ByteSequence(u, elem) then SaysBytes(out, v) else SaysItems(u, elem, out, v)
    case TArray(elem) => if ByteSequence(u, elem) then SaysBytes(out, v) else SaysItems(u, elem, out, v)
    case TMap(key, elem) =>
      out.OutMap? && key < |u.types| && u.types[key].TString? &&
      if out.entries.None? then v.Null?
      else
        v.Obj? && v.fields.Keys == out.entries.value.Keys
        && forall k :: k in out.entries.value ==> Says(u, elem, out.entries.value[k], v.fields[k])
    case TStruct(fields) =>
      && out.OutStruct? && |out.fields| == |fields| && v.Obj?
      && (forall k :: k in v.fields ==> Declares(fields, out.fields, k))
      && forall n, k :: 0 <= n < |fields| && Keeps(fields, out.fields, n, k) ==>
           k in v.fields && Says(u, fields[n].typ, out.fields[n], v.fields[k])
    case TOther => false
  }

  /** Bytes are seen as integers. */
  predicate SaysBytes(out: Out, v: Value) {
    out.OutBytes? &&
    if out.bytes.None? then v.Null?
    else v.List? && |v.items| == |out.bytes.value|
         && forall i :: 0 <= i < |v.items| ==> v.items[i] == Int(out.bytes.value[i])
  }

  ghost predicate SaysItems(u: Universe, elem: nat, out: Out, v: Value)
    decreases v, out, 0
  {
    out.OutList? &&
    if out.items.None? then v.Null?
    else v.List? && |v.items| == |out.items.value|
         && forall i :: 0 <= i < |v.items| ==> Says(u, elem, out.items.value[i], v.items[i])
  }

  // ----- the arena says the same -----

  lemma {:induction false} MeansIff(u: Universe, root: nat, k: bool, arena: Arena, shapes: seq<Shape>, i: nat,
                                    t: nat, l: bool, out: Out, v: Value)
    requires ArenaOf(u, root, k, arena, shapes) && i < |arena.nodes| && Unrolls(u, t, l, shapes[i])
    requires ArenaSound(arena.nodes)
    ensures Means(arena.nodes, i, out, v) <==> Says(u, t, out, v)
    decreases i, 1
  {
    var node := arena.nodes[i];
    assert Describes(node, shapes, i, shapes[i]) && NodeSound(arena.nodes, i);
    match node.kind
    case NodePointer => PointerIff(u, root, k, arena, shapes, i, t, l, out, v);
    case NodeBytes => BytesIff(u, arena.nodes, shapes[i], i, t, l, out, v);
    case NodeList => ListIff(u, root, k, arena, shapes, i, t, l, out, v);
    case NodeMap => MapIff(u, root, k, arena, shapes, i, t, l, out, v);
    case NodeStruct => StructIff(u, root, k, arena, shapes, i, t, l, out, v);
    case _ => ScalarIff(u, arena.nodes, shapes[i], i, t, l, out, v);
  }

  predicate IsScalar(kind: NodeKind) {
    kind == NodeString || kind == NodeBool || kind == NodeInt || kind == NodeUint || kind == NodeFloat
  }

  lemma ScalarIff(u: Universe, nodes: seq<TypeNode>, s: Shape, i: nat, t: nat, l: bool, out: Out, v: Value)
    requires i < |nodes| && IsScalar(nodes[i].kind) && Unrolls(u, t, l, s) && Describes(nodes[i], [], 0, s)
    ensures Means(nodes, i, out, v) <==> Says(u, t, out, v)
  {
    match nodes[i].kind
    case NodeString =>
    case NodeBool =>
    case NodeInt =>
    case NodeUint =>
    case NodeFloat =>
    case _ =>
  }

  lemma {:induction false} PointerIff(u: Universe, root: nat, k: bool, arena: Arena, shapes: seq<Shape>, i: nat,
                                      t: nat, l: bool, out: Out, v: Value)
    requires ArenaOf(u, root, k, arena, shapes) && i < |arena.nodes| && Unrolls(u, t, l, shapes[i])
    requires ArenaSound(arena.nodes) && arena.nodes[i].kind == NodePointer
    ensures Means(arena.nodes, i, out, v) <==> Says(u, t, out, v)
    decreases i, 0
  {
    var node := arena.nodes[i];
    assert Describes(node, shapes, i, shapes[i]) && NodeSound(arena.nodes, i);
    if out.OutPointer? && out.target.Some? {
      var inner := out.target.value;
      MeansIff(u, root, k, arena, shapes, node.elem, u.types[t].elem, l, inner, v);
      assert Seen(arena.nodes, At(i, out)) == Seen(arena.nodes, At(node.elem, inner));
    }
  }

  lemma BytesIff(u: Universe, nodes: seq<TypeNode>, s: Shape, i: nat, t: nat, l: bool, out: Out, v: Value)
    requires i < |nodes| && nodes[i].kind == NodeBytes && Unrolls(u, t, l, s) && Describes(nodes[i], [], 0, s)
    ensures Means(nodes, i, out, v) <==> Says(u, t, out, v)
  {
    BytesMean(nodes, i, out, v);
  }

  lemma BytesMean(nodes: seq<TypeNode>, i: nat, out: Out, v: Value)
    requires i < |nodes| && nodes[i].kind == NodeBytes
    ensures Means(nodes, i, out, v) <==> SaysBytes(out, v)
  {
    if out.OutBytes? && out.bytes.Some? && v.List? && |v.items| == |out.bytes.value| {
      var places := ByteItems(out.bytes.value);
      forall n | 0 <= n < |v.items|
        ensures Unfolds(Views(nodes), places[n], v.items[n]) <==> v.items[n] == Int(out.bytes.value[n]) {}
    }
  }

  lemma {:induction false} ListIff(u: Universe, root: nat, k: bool, arena: Arena, shapes: seq<Shape>, i: nat,
                                   t: nat, l: bool, out: Out, v: Value)
    requires ArenaOf(u, root, k, arena, shapes) && i < |arena.nodes| && Unrolls(u, t, l, shapes[i])
    requires ArenaSound(arena.nodes) && arena.nodes[i].kind == NodeList
    ensures Means(arena.nodes, i, out, v) <==> Says(u, t, out, v)
    decreases i, 0
  {
    var node := arena.nodes[i];
    assert Describes(node, shapes, i, shapes[i]) && NodeSound(arena.nodes, i);
    if out.OutList? && out.items.Some? && v.List? && |v.items| == |out.items.value| {
      var elem, places := u.types[t].elem, Items(node.elem, out.items.value);
      forall n | 0 <= n < |v.items|
        ensures Unfolds(Views(arena.nodes), places[n], v.items[n]) <==> Says(u, elem, out.items.value[n], v.items[n]) {
        MeansIff(u, root, k, arena, shapes, node.elem, elem, l, out.items.value[n], v.items[n]);
      }
    }
  }

  lemma {:induction false} MapIff(u: Universe, root: nat, k: bool, arena: Arena, shapes: seq<Shape>, i: nat,
                                  t: nat, l: bool, out: Out, v: Value)
    requires ArenaOf(u, root, k, arena, shapes) && i < |arena.nodes| && Unrolls(u, t, l, shapes[i])
    requires ArenaSound(arena.nodes) && arena.nodes[i].kind == NodeMap
    ensures Means(arena.nodes, i, out, v) <==> Says(u, t, out, v)
    decreases i, 0
  {
    var node := arena.nodes[i];
    assert Describes(node, shapes, i, shapes[i]) && NodeSound(arena.nodes, i);
    if out.OutMap? && out.entries.Some? && v.Obj? {
      var elem, places := u.types[t].elem, Entries(node.elem, out.entries.value);
      assert places.Keys == out.entries.value.Keys;
      forall n | n in places && n in v.fields
        ensures Unfolds(Views(arena.nodes), places[n], v.fields[n])
                <==> Says(u, elem, out.entries.value[n], v.fields[n]) {
        MeansIff(u, root, k, arena, shapes, node.elem, elem, l, out.entries.value[n], v.fields[n]);
      }
    }
  }

  /** The members a struct value includes are those that its type does not leave out. */
  predicate SameMembers(fields: seq<GoField>, compiled: seq<StructField>, outs: seq<Out>) {
    && |fields| == |compiled| == |outs|
    && forall n :: 0 <= n < |fields| ==>
         fields[n].name == Some(compiled[n].name) && fields[n].omitempty == compiled[n].omitempty
  }

  lemma IncludedIff(fields: seq<GoField>, compiled: seq<StructField>, outs: seq<Out>)
    requires SameMembers(fields, compiled, outs) && DistinctFieldNames(compiled)
    ensures var included := Included(compiled, outs, |compiled|);
            && (forall k :: k in included <==> Declares(fields, outs, k))
            && forall n :: 0 <= n < |fields| && !LeftOut(fields[n], outs[n]) ==>
                 compiled[n].name in included && included[compiled[n].name] == At(compiled[n].node, outs[n])
  {
    var included := Included(compiled, outs, |compiled|);
    forall n | 0 <= n < |fields| && !LeftOut(fields[n], outs[n])
      ensures compiled[n].name in included && included[compiled[n].name] == At(compiled[n].node, outs[n]) {
      IncludedHas(compiled, outs, |compiled|, n);
    }
    forall k | k in included ensures Declares(fields, outs, k) {
      var n := IncludedFrom(compiled, outs, |compiled|, k);
      assert Keeps(fields, outs, n, k);
    }
  }

  /** Every kept member that v has means what its type says. */
  ghost predicate MembersIff(u: Universe, nodes: seq<TypeNode>, fields: seq<GoField>, compiled: seq<StructField>,
                             outs: seq<Out>, v: Value)
    requires SameMembers(fields, compiled, outs) && v.Obj?
  {
    forall n :: 0 <= n < |fields| && compiled[n].name in v.fields ==>
      (Unfolds(Views(nodes), At(compiled[n].node, outs[n]), v.fields[compiled[n].name])
       <==> Says(u, fields[n].typ, outs[n], v.fields[compiled[n].name]))
  }

  lemma StructSays(u: Universe, t: nat, nodes: seq<TypeNode>, i: nat, outs: seq<Out>, v: Value)
    requires i < |nodes| && nodes[i].kind == NodeStruct && t < |u.types| && u.types[t].TStruct?
    requires SameMembers(u.types[t].fields, nodes[i].fields, outs) && DistinctFieldNames(nodes[i].fields)
    requires v.Obj? && MembersIff(u, nodes, u.types[t].fields, nodes[i].fields, outs, v)
    requires Means(nodes, i, OutStruct(outs), v)
    ensures Says(u, t, OutStruct(outs), v)
  {
    var fields, compiled := u.types[t].fields, nodes[i].fields;
    IncludedIff(fields, compiled, outs);
    var included := Included(compiled, outs, |compiled|);
    assert Seen(nodes, At(i, OutStruct(outs))) == Mapping(included, None);
    assert v.fields.Keys == included.Keys;
    forall n, k | 0 <= n < |fields| && Keeps(fields, outs, n, k)
      ensures k in v.fields && Says(u, fields[n].typ, outs[n], v.fields[k]) {
      assert k == compiled[n].name && included[k] == At(compiled[n].node, outs[n]);
      assert Unfolds(Views(nodes), included[k], v.fields[k]);
    }
  }

  lemma StructMeans(u: Universe, t: nat, nodes: seq<TypeNode>, i: nat, outs: seq<Out>, v: Value)
    requires i < |nodes| && nodes[i].kind == NodeStruct && t < |u.types| && u.types[t].TStruct?
    requires SameMembers(u.types[t].fields, nodes[i].fields, outs) && DistinctFieldNames(nodes[i].fields)
    requires v.Obj? && MembersIff(u, nodes, u.types[t].fields, nodes[i].fields, outs, v)
    requires Says(u, t, OutStruct(outs), v)
    ensures Means(nodes, i, OutStruct(outs), v)
  {
    var fields, compiled := u.types[t].fields, nodes[i].fields;
    IncludedIff(fields, compiled, outs);
    var included := Included(compiled, outs, |compiled|);
    forall k | k in included
      ensures Declares(fields, outs, k) && k in v.fields && Unfolds(Views(nodes), included[k], v.fields[k]) {
      var n :| 0 <= n < |fields| && Keeps(fields, outs, n, k);
      assert k == compiled[n].name && included[k] == At(compiled[n].node, outs[n]);
      assert Says(u, fields[n].typ, outs[n], v.fields[k]);
    }
    assert v.fields.Keys == included.Keys;
    assert Seen(nodes, At(i, OutStruct(outs))) == Mapping(included, None);
  }

  lemma {:induction false} StructIff(u: Universe, root: nat, k: bool, arena: Arena, shapes: seq<Shape>, i: nat,
                                     t: nat, l: bool, out: Out, v: Value)
    requires ArenaOf(u, root, k, arena, shapes) && i < |arena.nodes| && Unrolls(u, t, l, shapes[i])
    requires ArenaSound(arena.nodes) && arena.nodes[i].kind == NodeStruct
    ensures Means(arena.nodes, i, out, v) <==> Says(u, t, out, v)
    decreases i, 0
  {
    var node, fields := arena.nodes[i], u.types[t].fields;
    assert Describes(node, shapes, i, shapes[i]) && NodeSound(arena.nodes, i);
    if out.OutStruct? && |out.fields| == |fields| && v.Obj? {
      forall n | 0 <= n < |fields|
        ensures fields[n].name == Some(node.fields[n].name) && fields[n].omitempty == node.fields[n].omitempty {
        assert FieldAllowed(u, fields[n], l);
      }
      forall n | 0 <= n < |fields| && node.fields[n].name in v.fields
        ensures Unfolds(Views(arena.nodes), At(node.fields[n].node, out.fields[n]), v.fields[node.fields[n].name])
                <==> Says(u, fields[n].typ, out.fields[n], v.fields[node.fields[n].name]) {
        MeansIff(u, root, k, arena, shapes, node.fields[n].node, fields[n].typ, false, out.fields[n],
                 v.fields[node.fields[n].name]);
      }
      if Means(arena.nodes, i, out, v) { StructSays(u, t, arena.nodes, i, out.fields, v); }
      if Says(u, t, out, v) { StructMeans(u, t, arena.nodes, i, out.fields, v); }
    }
  }

  /** The value that ConvertOutput decides for a compiled output type (Means) is the one that the Go
      value and its type say. */
  lemma OutputSays(u: Universe, root: nat, arena: Arena, shapes: seq<Shape>, out: Out, v: Value)
    requires u.dir.OutputDirection? && ArenaOf(u, root, false, arena, shapes)
    ensures ArenaSound(arena.nodes)
    ensures Means(arena.nodes, arena.root, out, v) <==> Says(u, root, out, v)
  {
    CompiledArenaSound(u, root, arena, shapes);
    MeansIff(u, root, false, arena, shapes, arena.root, root, false, out, v);
  }
}
