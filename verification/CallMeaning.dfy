/** A call from end to end: which Go value a handler's type receives for the call's arguments, said
    on the Go type and the argument tree alone. Between them lie the compiled schema, the worker's
    binding and the parent's. */
module CallMeaning {
  import opened Text
  import opened Values
  import opened Starlark
  import opened Schema
  import opened Binder
  import opened Rebinder
  import opened Shapes
  import opened Compiler
  import opened CallAgreement
  import opened BindMeaning
  import opened InputMeaning
  import OutputMeaning

  /** The float type of this width stores these bits for the given number. */
  predicate StoresNumber(ops: FloatOps, width: nat, given: Float64, bits: nat) {
    given.Finite? && Stores(ops, width, given.bits, bits)
  }

  /** Go type t receives the argument a as the value x. */
  ghost predicate Receives(ops: FloatOps, u: Universe, t: nat, a: Arg, x: GoInput)
    decreases x
  {
    t < |u.types| &&
    match u.types[t]
    case TString => a.ArgStr? && x == GoString(a.s)
    case TBool => a.ArgBool? && x == GoBool(a.b)
    case TInt(width) => a.ArgInt? && x.GoInt? && x.i == a.i && 0 - Pow2(width) <= 2 * a.i < Pow2(width)
    case TUint(width) => a.ArgInt? && x.GoUint? && x.u == a.i && a.i < Pow2(width) && a.i < 0x8000_0000_0000_0000
    case TFloat(width) =>
      x.GoFloat? && ((a.ArgFloat? && StoresNumber(ops, width, a.x, x.bits))
                     || (a.ArgInt? && StoresNumber(ops, width, ops.ofInt(a.i), x.bits)))
    case TPointer(elem) =>
      if a == ArgNone then x == GoNilPointer else x.GoPointer? && Receives(ops, u, elem, a, x.target)
    case TSlice(elem) =>
      && a.ArgList? && x.GoSlice? && |x.items| == |a.items|
      && forall n :: 0 <= n < |a.items| ==> Receives(ops, u, elem, a.items[n], x.items[n])
    case TMap(key, elem) =>
      && StringKeyed(u, key) && a.ArgDict? && x.GoMap? && x.entries.Keys == a.fields.Keys
      && forall k :: k in a.fields ==> Receives(ops, u, elem, a.fields[k], x.entries[k])
    case TStruct(fields) =>
      && a.ArgDict? && x.GoStruct? && |x.fields| == |fields|
      && (forall k :: k in a.fields ==> Declares(fields, k))
      && (forall n, k :: 0 <= n < |fields| && Named(fields, n, k) ==>
            if k in a.fields then Receives(ops, u, fields[n].typ, a.fields[k], x.fields[n])
            else IsPointer(u, fields[n].typ) && x.fields[n] == GoNilPointer)
    case _ => false
  }

  /** Node i takes the argument as a value that type t reads as x. */
  ghost predicate Passes(ops: FloatOps, u: Universe, nodes: seq<InputNode>, i: int, t: nat, a: Arg, x: GoInput) {
    exists v :: Takes(ops, nodes, i, a, v) && Reads(ops, u, t, v, x)
  }

  ghost function Between(ops: FloatOps, u: Universe, nodes: seq<InputNode>, i: int, t: nat, a: Arg,
                         x: GoInput): (v: Value)
    requires Passes(ops, u, nodes, i, t, a, x)
    ensures Takes(ops, nodes, i, a, v) && Reads(ops, u, t, v, x)
  {
    var v :| Takes(ops, nodes, i, a, v) && Reads(ops, u, t, v, x);
    v
  }

  ghost predicate Same(ops: FloatOps, u: Universe, nodes: seq<InputNode>, i: int, t: nat, a: Arg, x: GoInput) {
    Passes(ops, u, nodes, i, t, a, x) <==> Receives(ops, u, t, a, x)
  }

  // ----- one container -----

  lemma ItemsSame(ops: FloatOps, u: Universe, nodes: seq<InputNode>, i: nat, t: nat, a: Arg, x: GoInput)
    requires i < |nodes| && nodes[i].kind == InputList && PointsBack(nodes[i], i)
    requires t < |u.types| && u.types[t].TSlice? && a.ArgList? && x.GoSlice? && |a.items| == |x.items|
    requires forall n :: 0 <= n < |a.items| ==>
               Same(ops, u, nodes, nodes[i].elem, u.types[t].elem, a.items[n], x.items[n])
    ensures Same(ops, u, nodes, i, t, a, x)
  {
    var elem, of := nodes[i].elem, u.types[t].elem;
    if Passes(ops, u, nodes, i, t, a, x) {
      var v := Between(ops, u, nodes, i, t, a, x);
      forall n | 0 <= n < |a.items| ensures Receives(ops, u, of, a.items[n], x.items[n]) {
        assert Takes(ops, nodes, elem, a.items[n], v.items[n]) && Reads(ops, u, of, v.items[n], x.items[n]);
        assert Same(ops, u, nodes, elem, of, a.items[n], x.items[n]);
      }
    }
    if Receives(ops, u, t, a, x) {
      forall n | 0 <= n < |a.items| ensures Passes(ops, u, nodes, elem, of, a.items[n], x.items[n]) {
        assert Same(ops, u, nodes, elem, of, a.items[n], x.items[n]);
      }
      var v := List(seq(|a.items|, n requires 0 <= n < |a.items|
                        && Passes(ops, u, nodes, elem, of, a.items[n], x.items[n]) =>
                          Between(ops, u, nodes, elem, of, a.items[n], x.items[n])));
      assert Takes(ops, nodes, i, a, v) && Reads(ops, u, t, v, x);
    }
  }

  lemma EntriesSame(ops: FloatOps, u: Universe, nodes: seq<InputNode>, i: nat, t: nat, a: Arg, x: GoInput)
    requires i < |nodes| && nodes[i].kind == InputMap && PointsBack(nodes[i], i)
    requires t < |u.types| && u.types[t].TMap? && StringKeyed(u, u.types[t].key)
    requires a.ArgDict? && x.GoMap? && a.fields.Keys == x.entries.Keys
    requires forall k :: k in a.fields ==>
               Same(ops, u, nodes, nodes[i].elem, u.types[t].elem, a.fields[k], x.entries[k])
    ensures Same(ops, u, nodes, i, t, a, x)
  {
    var elem, of := nodes[i].elem, u.types[t].elem;
    if Passes(ops, u, nodes, i, t, a, x) {
      var v := Between(ops, u, nodes, i, t, a, x);
      forall k | k in a.fields ensures Receives(ops, u, of, a.fields[k], x.entries[k]) {
        assert Takes(ops, nodes, elem, a.fields[k], v.fields[k]) && Reads(ops, u, of, v.fields[k], x.entries[k]);
        assert Same(ops, u, nodes, elem, of, a.fields[k], x.entries[k]);
      }
    }
    if Receives(ops, u, t, a, x) {
      forall k | k in a.fields ensures Passes(ops, u, nodes, elem, of, a.fields[k], x.entries[k]) {
        assert Same(ops, u, nodes, elem, of, a.fields[k], x.entries[k]);
      }
      var v := Obj(map k | k in a.fields && Passes(ops, u, nodes, elem, of, a.fields[k], x.entries[k]) ::
                     Between(ops, u, nodes, elem, of, a.fields[k], x.entries[k]));
      assert v.fields.Keys == a.fields.Keys;
      assert Takes(ops, nodes, i, a, v) && Reads(ops, u, t, v, x);
    }
  }

  // ----- one struct -----

  /** The schema's members are the type's fields. */
  ghost predicate SameFields(u: Universe, nodes: seq<InputNode>, fields: seq<GoField>, declared: seq<InputField>) {
    && |fields| == |declared| && DistinctFields(declared)
    && forall n :: 0 <= n < |fields| ==>
         && fields[n].name == Some(declared[n].name) && declared[n].node >= 0
         && (IsOptional(nodes, declared[n].node) <==> IsPointer(u, fields[n].typ))
  }

  /** Member n of both sides: named, and passing exactly what it receives. */
  ghost predicate MemberSame(ops: FloatOps, u: Universe, nodes: seq<InputNode>, fields: seq<GoField>,
                             declared: seq<InputField>, a: map<Bytes, Arg>, xs: seq<GoInput>, n: nat)
    requires n < |fields| == |declared| == |xs|
  {
    declared[n].name in a ==> Same(ops, u, nodes, declared[n].node, fields[n].typ, a[declared[n].name], xs[n])
  }

  /** Every member of both sides is the same. */
  ghost predicate MembersSame(ops: FloatOps, u: Universe, nodes: seq<InputNode>, fields: seq<GoField>,
                              declared: seq<InputField>, a: map<Bytes, Arg>, xs: seq<GoInput>) {
    && SameFields(u, nodes, fields, declared) && |xs| == |fields|
    && forall n :: 0 <= n < |fields| ==> MemberSame(ops, u, nodes, fields, declared, a, xs, n)
  }

  /** What member n goes through on its way. */
  ghost predicate MemberPasses(ops: FloatOps, u: Universe, nodes: seq<InputNode>, fields: seq<GoField>,
                               declared: seq<InputField>, a: map<Bytes, Arg>, xs: seq<GoInput>, n: nat,
                               v: map<Bytes, Value>)
    requires n < |fields| == |declared| == |xs|
  {
    var k := declared[n].name;
    if k in v then
      k in a && Takes(ops, nodes, declared[n].node, a[k], v[k]) && Reads(ops, u, fields[n].typ, v[k], xs[n])
    else IsPointer(u, fields[n].typ) && xs[n] == GoNilPointer && (k in a ==> a[k] == ArgNone)
  }

  lemma StructParts(ops: FloatOps, u: Universe, nodes: seq<InputNode>, i: nat, t: nat, a: Arg, x: GoInput, v: Value)
    requires i < |nodes| && nodes[i].kind == InputStruct && t < |u.types| && u.types[t].TStruct?
    requires SameFields(u, nodes, u.types[t].fields, FieldsOf(nodes[i]))
    requires Takes(ops, nodes, i, a, v) && Reads(ops, u, t, v, x)
    ensures a.ArgDict? && v.Obj? && x.GoStruct? && |x.fields| == |u.types[t].fields|
    ensures forall k :: k in a.fields ==> Declared(FieldsOf(nodes[i]), k)
    ensures forall n :: 0 <= n < |x.fields| ==>
              MemberPasses(ops, u, nodes, u.types[t].fields, FieldsOf(nodes[i]), a.fields, x.fields, n, v.fields)
  {
    var fields, declared := u.types[t].fields, FieldsOf(nodes[i]);
    forall n | 0 <= n < |fields|
      ensures MemberPasses(ops, u, nodes, fields, declared, a.fields, x.fields, n, v.fields) {
      assert Named(fields, n, declared[n].name);
    }
  }

  lemma MemberReceived(ops: FloatOps, u: Universe, nodes: seq<InputNode>, fields: seq<GoField>,
                       declared: seq<InputField>, a: map<Bytes, Arg>, xs: seq<GoInput>, n: nat, v: map<Bytes, Value>)
    requires n < |fields| && MembersSame(ops, u, nodes, fields, declared, a, xs)
    requires MemberPasses(ops, u, nodes, fields, declared, a, xs, n, v)
    ensures var k := declared[n].name;
            if k in a then Receives(ops, u, fields[n].typ, a[k], xs[n])
            else IsPointer(u, fields[n].typ) && xs[n] == GoNilPointer
  {
    var k := declared[n].name;
    if k in v {
      assert MemberSame(ops, u, nodes, fields, declared, a, xs, n);
      assert Passes(ops, u, nodes, declared[n].node, fields[n].typ, a[k], xs[n]);
    }
  }

  lemma SameNames(u: Universe, nodes: seq<InputNode>, fields: seq<GoField>, declared: seq<InputField>)
    requires SameFields(u, nodes, fields, declared)
    ensures forall k :: Declares(fields, k) <==> Declared(declared, k)
    ensures forall n, k :: 0 <= n < |fields| ==> (Named(fields, n, k) <==> declared[n].name == k)
  {
    forall k ensures Declares(fields, k) <==> Declared(declared, k) {
      if Declares(fields, k) {
        var n :| 0 <= n < |fields| && Named(fields, n, k);
        assert declared[n].name == k;
      } else if Declared(declared, k) {
        var n :| 0 <= n < |declared| && declared[n].name == k;
        assert Named(fields, n, k);
      }
    }
  }

  lemma MembersReceived(ops: FloatOps, u: Universe, nodes: seq<InputNode>, i: nat, t: nat, a: Arg, x: GoInput)
    requires i < |nodes| && nodes[i].kind == InputStruct && t < |u.types| && u.types[t].TStruct?
    requires a.ArgDict? && x.GoStruct?
    requires MembersSame(ops, u, nodes, u.types[t].fields, FieldsOf(nodes[i]), a.fields, x.fields)
    requires Passes(ops, u, nodes, i, t, a, x)
    ensures Receives(ops, u, t, a, x)
  {
    var fields, declared := u.types[t].fields, FieldsOf(nodes[i]);
    var v := Between(ops, u, nodes, i, t, a, x);
    StructParts(ops, u, nodes, i, t, a, x, v);
    SameNames(u, nodes, fields, declared);
    forall k | k in a.fields ensures Declares(fields, k) {}
    forall n, k | 0 <= n < |fields| && Named(fields, n, k)
      ensures if k in a.fields then Receives(ops, u, fields[n].typ, a.fields[k], x.fields[n])
              else IsPointer(u, fields[n].typ) && x.fields[n] == GoNilPointer {
      MemberReceived(ops, u, nodes, fields, declared, a.fields, x.fields, n, v.fields);
    }
  }

  /** What the schema keeps of member n: nothing of an optional None, and otherwise a value that
      passes. */
  ghost predicate MemberKeeps(ops: FloatOps, u: Universe, nodes: seq<InputNode>, fields: seq<GoField>,
                              declared: seq<InputField>, a: map<Bytes, Arg>, xs: seq<GoInput>, n: nat,
                              kept: map<Bytes, Value>)
    requires n < |fields| == |declared| == |xs|
  {
    var k := declared[n].name;
    k in a ==>
      if IsOptional(nodes, declared[n].node) && a[k] == ArgNone then k !in kept
      else k in kept && Takes(ops, nodes, declared[n].node, a[k], kept[k])
           && Reads(ops, u, fields[n].typ, kept[k], xs[n])
  }

  predicate DeclaredTo(declared: seq<InputField>, n: nat, k: Bytes)
    requires n <= |declared|
  {
    exists m :: 0 <= m < n && declared[m].name == k
  }

  lemma KeptMembers(ops: FloatOps, u: Universe, nodes: seq<InputNode>, fields: seq<GoField>, declared: seq<InputField>,
                    a: map<Bytes, Arg>, xs: seq<GoInput>, n: nat)
    returns (kept: map<Bytes, Value>)
    requires n <= |fields| == |declared| == |xs| && DistinctFields(declared)
    requires forall m :: 0 <= m < |fields| && declared[m].name in a ==>
               Passes(ops, u, nodes, declared[m].node, fields[m].typ, a[declared[m].name], xs[m])
    ensures forall k :: k in kept ==> k in a && DeclaredTo(declared, n, k)
    ensures forall m :: 0 <= m < n ==> MemberKeeps(ops, u, nodes, fields, declared, a, xs, m, kept)
  {
    if n == 0 {
      kept := map[];
    } else {
      var before := KeptMembers(ops, u, nodes, fields, declared, a, xs, n - 1);
      var k := declared[n - 1].name;
      kept := before;
      if k in a && !(IsOptional(nodes, declared[n - 1].node) && a[k] == ArgNone) {
        kept := before[k := Between(ops, u, nodes, declared[n - 1].node, fields[n - 1].typ, a[k], xs[n - 1])];
      }
      assert MemberKeeps(ops, u, nodes, fields, declared, a, xs, n - 1, kept);
      forall m | 0 <= m < n - 1 ensures MemberKeeps(ops, u, nodes, fields, declared, a, xs, m, kept) {
        assert MemberKeeps(ops, u, nodes, fields, declared, a, xs, m, before);
      }
    }
  }

  lemma MembersPass(ops: FloatOps, u: Universe, nodes: seq<InputNode>, i: nat, t: nat, a: Arg, x: GoInput)
    requires i < |nodes| && nodes[i].kind == InputStruct && PointsBack(nodes[i], i)
    requires t < |u.types| && u.types[t].TStruct? && a.ArgDict? && x.GoStruct?
    requires MembersSame(ops, u, nodes, u.types[t].fields, FieldsOf(nodes[i]), a.fields, x.fields)
    requires Receives(ops, u, t, a, x)
    ensures Passes(ops, u, nodes, i, t, a, x)
  {
    var fields, declared := u.types[t].fields, FieldsOf(nodes[i]);
    SameNames(u, nodes, fields, declared);
    forall n | 0 <= n < |fields| && declared[n].name in a.fields
      ensures Passes(ops, u, nodes, declared[n].node, fields[n].typ, a.fields[declared[n].name], x.fields[n]) {
      assert Named(fields, n, declared[n].name) && MemberSame(ops, u, nodes, fields, declared, a.fields, x.fields, n);
    }
    var kept := KeptMembers(ops, u, nodes, fields, declared, a.fields, x.fields, |fields|);
    forall n | 0 <= n < |fields| && declared[n].name !in a.fields
      ensures IsPointer(u, fields[n].typ) && x.fields[n] == GoNilPointer {
      assert Named(fields, n, declared[n].name);
    }
    KeptTaken(ops, u, nodes, i, t, a, x, kept);
    KeptRead(ops, u, nodes, i, t, a, x, kept);
  }

  /** Every member is kept as it passes, and what is not named is a nil pointer. */
  ghost predicate MembersKeep(ops: FloatOps, u: Universe, nodes: seq<InputNode>, fields: seq<GoField>,
                              declared: seq<InputField>, a: map<Bytes, Arg>, xs: seq<GoInput>,
                              kept: map<Bytes, Value>) {
    && SameFields(u, nodes, fields, declared) && |xs| == |fields|
    && (forall k :: k in kept ==> k in a)
    && (forall k :: k in a ==> Declared(declared, k))
    && (forall n :: 0 <= n < |fields| ==> MemberKeeps(ops, u, nodes, fields, declared, a, xs, n, kept))
    && forall n :: 0 <= n < |fields| && declared[n].name !in a ==> IsPointer(u, fields[n].typ) && xs[n] == GoNilPointer
  }

  lemma KeptTaken(ops: FloatOps, u: Universe, nodes: seq<InputNode>, i: nat, t: nat, a: Arg, x: GoInput,
                  kept: map<Bytes, Value>)
    requires i < |nodes| && nodes[i].kind == InputStruct && PointsBack(nodes[i], i)
    requires t < |u.types| && u.types[t].TStruct? && a.ArgDict? && x.GoStruct?
    requires MembersKeep(ops, u, nodes, u.types[t].fields, FieldsOf(nodes[i]), a.fields, x.fields, kept)
    ensures Takes(ops, nodes, i, a, Obj(kept))
  {
    var fields, declared := u.types[t].fields, FieldsOf(nodes[i]);
    forall n | 0 <= n < |fields|
      ensures declared[n].name in a.fields || IsOptional(nodes, declared[n].node)
      ensures declared[n].name in a.fields ==>
                (declared[n].name !in kept <==> IsOptional(nodes, declared[n].node)
                                                && a.fields[declared[n].name] == ArgNone)
      ensures declared[n].name in a.fields && declared[n].name in kept
              ==> Takes(ops, nodes, declared[n].node, a.fields[declared[n].name], kept[declared[n].name]) {
      assert MemberKeeps(ops, u, nodes, fields, declared, a.fields, x.fields, n, kept);
    }
    assert SameMembers(nodes, declared, a.fields, kept);
  }

  lemma KeptRead(ops: FloatOps, u: Universe, nodes: seq<InputNode>, i: nat, t: nat, a: Arg, x: GoInput,
                 kept: map<Bytes, Value>)
    requires i < |nodes| && nodes[i].kind == InputStruct && PointsBack(nodes[i], i)
    requires t < |u.types| && u.types[t].TStruct? && a.ArgDict? && x.GoStruct?
    requires Receives(ops, u, t, a, x)
    requires MembersKeep(ops, u, nodes, u.types[t].fields, FieldsOf(nodes[i]), a.fields, x.fields, kept)
    ensures Reads(ops, u, t, Obj(kept), x)
  {
    var fields, declared := u.types[t].fields, FieldsOf(nodes[i]);
    SameNames(u, nodes, fields, declared);
    forall n, k | 0 <= n < |fields| && Named(fields, n, k)
      ensures if k in kept then Reads(ops, u, fields[n].typ, kept[k], x.fields[n])
              else IsPointer(u, fields[n].typ) && x.fields[n] == GoNilPointer {
      assert k == declared[n].name && MemberKeeps(ops, u, nodes, fields, declared, a.fields, x.fields, n, kept);
    }
  }

  // ----- every node -----

  lemma {:induction false} PassesIff(ops: FloatOps, u: Universe, root: nat, arena: Arena, shapes: seq<Shape>,
                                     i: nat, t: nat, a: Arg, x: GoInput)
    requires Compiled(ops, u, root, arena, shapes) && Stands(u, arena, shapes, i, t)
    ensures Same(ops, u, PlanOf(arena).nodes, i, t, a, x)
    decreases i, 1
  {
    NodeStands(ops, u, root, arena, shapes, i, t);
    match arena.nodes[i].kind
    case NodePointer => PointerPasses(ops, u, root, arena, shapes, i, t, a, x);
    case NodeList => ListPasses(ops, u, root, arena, shapes, i, t, a, x);
    case NodeMap => MapPasses(ops, u, root, arena, shapes, i, t, a, x);
    case NodeStruct => StructPasses(ops, u, root, arena, shapes, i, t, a, x);
    case _ => ScalarPasses(ops, u, root, arena, shapes, i, t, a, x);
  }

  lemma {:induction false} PointerPasses(ops: FloatOps, u: Universe, root: nat, arena: Arena, shapes: seq<Shape>,
                                         i: nat, t: nat, a: Arg, x: GoInput)
    requires Compiled(ops, u, root, arena, shapes) && Stands(u, arena, shapes, i, t)
    requires arena.nodes[i].kind == NodePointer
    ensures Same(ops, u, PlanOf(arena).nodes, i, t, a, x)
    decreases i, 0
  {
    NodeStands(ops, u, root, arena, shapes, i, t);
    PointerNode(ops, u, root, arena, shapes, i, t);
    var nodes, elem, of := PlanOf(arena).nodes, arena.nodes[i].elem, u.types[t].elem;
    if x.GoPointer? { PassesIff(ops, u, root, arena, shapes, elem, of, a, x.target); }
    TargetSame(ops, u, nodes, i, t, a, x);
  }

  lemma {:induction false} ListPasses(ops: FloatOps, u: Universe, root: nat, arena: Arena, shapes: seq<Shape>,
                                      i: nat, t: nat, a: Arg, x: GoInput)
    requires Compiled(ops, u, root, arena, shapes) && Stands(u, arena, shapes, i, t)
    requires arena.nodes[i].kind == NodeList
    ensures Same(ops, u, PlanOf(arena).nodes, i, t, a, x)
    decreases i, 0
  {
    ListNode(ops, u, root, arena, shapes, i, t);
    var nodes, elem, of := PlanOf(arena).nodes, arena.nodes[i].elem, u.types[t].elem;
    if a.ArgList? && x.GoSlice? && |a.items| == |x.items| {
      forall n | 0 <= n < |a.items| ensures Same(ops, u, nodes, elem, of, a.items[n], x.items[n]) {
        PassesIff(ops, u, root, arena, shapes, elem, of, a.items[n], x.items[n]);
      }
      ItemsSame(ops, u, nodes, i, t, a, x);
    }
  }

  lemma {:induction false} MapPasses(ops: FloatOps, u: Universe, root: nat, arena: Arena, shapes: seq<Shape>,
                                     i: nat, t: nat, a: Arg, x: GoInput)
    requires Compiled(ops, u, root, arena, shapes) && Stands(u, arena, shapes, i, t)
    requires arena.nodes[i].kind == NodeMap
    ensures Same(ops, u, PlanOf(arena).nodes, i, t, a, x)
    decreases i, 0
  {
    MapNode(ops, u, root, arena, shapes, i, t);
    var nodes, elem, of := PlanOf(arena).nodes, arena.nodes[i].elem, u.types[t].elem;
    if a.ArgDict? && x.GoMap? && a.fields.Keys == x.entries.Keys {
      forall k | k in a.fields ensures Same(ops, u, nodes, elem, of, a.fields[k], x.entries[k]) {
        PassesIff(ops, u, root, arena, shapes, elem, of, a.fields[k], x.entries[k]);
      }
      EntriesSame(ops, u, nodes, i, t, a, x);
    }
  }

  lemma {:induction false} StructPasses(ops: FloatOps, u: Universe, root: nat, arena: Arena, shapes: seq<Shape>,
                                        i: nat, t: nat, a: Arg, x: GoInput)
    requires Compiled(ops, u, root, arena, shapes) && Stands(u, arena, shapes, i, t)
    requires arena.nodes[i].kind == NodeStruct
    ensures Same(ops, u, PlanOf(arena).nodes, i, t, a, x)
    decreases i, 0
  {
    NodeStands(ops, u, root, arena, shapes, i, t);
    var nodes, fields := PlanOf(arena).nodes, u.types[t].fields;
    var declared := FieldsOf(nodes[i]);
    if a.ArgDict? && x.GoStruct? && |x.fields| == |fields| {
      FieldsAreSame(ops, u, root, arena, shapes, i, t);
      forall n | 0 <= n < |fields| ensures MemberSame(ops, u, nodes, fields, declared, a.fields, x.fields, n) {
        if declared[n].name in a.fields {
          PassesIff(ops, u, root, arena, shapes, declared[n].node, fields[n].typ, a.fields[declared[n].name],
                    x.fields[n]);
        }
      }
      if Passes(ops, u, nodes, i, t, a, x) { MembersReceived(ops, u, nodes, i, t, a, x); }
      if Receives(ops, u, t, a, x) { MembersPass(ops, u, nodes, i, t, a, x); }
    }
  }

  lemma FieldsAreSame(ops: FloatOps, u: Universe, root: nat, arena: Arena, shapes: seq<Shape>, i: nat, t: nat)
    requires Compiled(ops, u, root, arena, shapes) && Stands(u, arena, shapes, i, t)
    requires arena.nodes[i].kind == NodeStruct && t < |u.types| && u.types[t].TStruct?
    ensures PointsBack(PlanOf(arena).nodes[i], i)
    ensures SameFields(u, PlanOf(arena).nodes, u.types[t].fields, FieldsOf(PlanOf(arena).nodes[i]))
  {
    NodeStands(ops, u, root, arena, shapes, i, t);
    CompiledPlanOk(u, root, arena, shapes);
    var nodes, fields := PlanOf(arena).nodes, u.types[t].fields;
    assert NodeFine(PlanOf(arena), i);
    forall n | 0 <= n < |fields|
      ensures IsOptional(nodes, FieldsOf(nodes[i])[n].node) <==> IsPointer(u, fields[n].typ) {
      NodeStands(ops, u, root, arena, shapes, FieldsOf(nodes[i])[n].node, fields[n].typ);
    }
  }

  lemma PointerNode(ops: FloatOps, u: Universe, root: nat, arena: Arena, shapes: seq<Shape>, i: nat, t: nat)
    requires Compiled(ops, u, root, arena, shapes) && Stands(u, arena, shapes, i, t)
    requires arena.nodes[i].kind == NodePointer
    ensures var nodes := PlanOf(arena).nodes;
            nodes[i].kind == InputOptional && PointsBack(nodes[i], i) && !IsOptional(nodes, nodes[i].elem)
  {
    NodeStands(ops, u, root, arena, shapes, i, t);
    CompiledPlanOk(u, root, arena, shapes);
    assert NodeFine(PlanOf(arena), i);
  }

  lemma TargetSame(ops: FloatOps, u: Universe, nodes: seq<InputNode>, i: nat, t: nat, a: Arg, x: GoInput)
    requires i < |nodes| && nodes[i].kind == InputOptional && PointsBack(nodes[i], i)
    requires !IsOptional(nodes, nodes[i].elem)
    requires t < |u.types| && u.types[t].TPointer?
    requires x.GoPointer? ==> Same(ops, u, nodes, nodes[i].elem, u.types[t].elem, a, x.target)
    ensures Same(ops, u, nodes, i, t, a, x)
  {
    if Passes(ops, u, nodes, i, t, a, x) {
      var v := Between(ops, u, nodes, i, t, a, x);
      TargetReceived(ops, u, nodes, i, t, a, x, v);
    }
    if Receives(ops, u, t, a, x) { TargetPasses(ops, u, nodes, i, t, a, x); }
  }

  lemma TargetReceived(ops: FloatOps, u: Universe, nodes: seq<InputNode>, i: nat, t: nat, a: Arg, x: GoInput, v: Value)
    requires i < |nodes| && nodes[i].kind == InputOptional && PointsBack(nodes[i], i)
    requires !IsOptional(nodes, nodes[i].elem)
    requires t < |u.types| && u.types[t].TPointer?
    requires x.GoPointer? ==> Same(ops, u, nodes, nodes[i].elem, u.types[t].elem, a, x.target)
    requires Takes(ops, nodes, i, a, v) && Reads(ops, u, t, v, x)
    ensures Receives(ops, u, t, a, x)
  {
    if a != ArgNone {
      TakenNotNull(ops, nodes, nodes[i].elem, a, v);
      assert Passes(ops, u, nodes, nodes[i].elem, u.types[t].elem, a, x.target);
    }
  }

  lemma TargetPasses(ops: FloatOps, u: Universe, nodes: seq<InputNode>, i: nat, t: nat, a: Arg, x: GoInput)
    requires i < |nodes| && nodes[i].kind == InputOptional && PointsBack(nodes[i], i)
    requires !IsOptional(nodes, nodes[i].elem)
    requires t < |u.types| && u.types[t].TPointer?
    requires x.GoPointer? ==> Same(ops, u, nodes, nodes[i].elem, u.types[t].elem, a, x.target)
    requires Receives(ops, u, t, a, x)
    ensures Passes(ops, u, nodes, i, t, a, x)
  {
    var v := if a == ArgNone then Null else Between(ops, u, nodes, nodes[i].elem, u.types[t].elem, a, x.target);
    if a != ArgNone { TakenNotNull(ops, nodes, nodes[i].elem, a, v); }
    assert Takes(ops, nodes, i, a, v);
    assert Reads(ops, u, t, v, x);
  }

  lemma TakenNotNull(ops: FloatOps, nodes: seq<InputNode>, i: int, a: Arg, v: Value)
    requires Takes(ops, nodes, i, a, v) && !IsOptional(nodes, i)
    ensures !v.Null?
  {}

  // ----- one scalar -----

  lemma ScalarPasses(ops: FloatOps, u: Universe, root: nat, arena: Arena, shapes: seq<Shape>, i: nat, t: nat,
                     a: Arg, x: GoInput)
    requires Compiled(ops, u, root, arena, shapes) && Stands(u, arena, shapes, i, t)
    requires OutputMeaning.IsScalar(arena.nodes[i].kind)
    ensures Same(ops, u, PlanOf(arena).nodes, i, t, a, x)
  {
    NodeStands(ops, u, root, arena, shapes, i, t);
    var nodes, node := PlanOf(arena).nodes, arena.nodes[i];
    match node.kind
    case NodeInt => IntegerRange(node, u.types[t]); IntegerPasses(ops, u, nodes, i, t, a, x);
    case NodeUint => IntegerRange(node, u.types[t]); IntegerPasses(ops, u, nodes, i, t, a, x);
    case NodeFloat => FloatPasses(ops, u, nodes, i, t, node, a, x);
    case _ => PlainPasses(ops, u, nodes, i, t, a, x);
  }

  lemma PlainPasses(ops: FloatOps, u: Universe, nodes: seq<InputNode>, i: nat, t: nat, a: Arg, x: GoInput)
    requires i < |nodes| && t < |u.types|
    requires (nodes[i].kind == InputString && u.types[t].TString?) || (nodes[i].kind == InputBool && u.types[t].TBool?)
    ensures Same(ops, u, nodes, i, t, a, x)
  {
    if a.ArgStr? && u.types[t].TString? && Receives(ops, u, t, a, x) {
      assert Takes(ops, nodes, i, a, Str(a.s)) && Reads(ops, u, t, Str(a.s), x);
    }
    if a.ArgBool? && u.types[t].TBool? && Receives(ops, u, t, a, x) {
      assert Takes(ops, nodes, i, a, Bool(a.b)) && Reads(ops, u, t, Bool(a.b), x);
    }
  }

  lemma IntegerTaken(ops: FloatOps, nodes: seq<InputNode>, i: nat, n: Int64)
    requires i < |nodes| && nodes[i].kind == InputInt && nodes[i].intMin <= n <= nodes[i].intMax
    ensures Takes(ops, nodes, i, ArgInt(n), Int(n))
  {}

  predicate InNode(node: InputNode, n: Int64) { node.intMin <= n <= node.intMax }

  predicate InType(typ: GoType, n: Int64) {
    (typ.TInt? && 0 - Pow2(typ.bits) <= 2 * n < Pow2(typ.bits)) || (typ.TUint? && 0 <= n < Pow2(typ.bits))
  }

  /** An integer node takes exactly the int64 integers of its type. */
  ghost predicate TakesRange(node: InputNode, typ: GoType) {
    node.kind == InputInt && forall n: Int64 :: InNode(node, n) <==> InType(typ, n)
  }

  lemma IntegerRange(node: TypeNode, typ: GoType)
    requires Width(node.bits)
    requires (node.kind == NodeInt && typ == TInt(node.bits)) || (node.kind == NodeUint && typ == TUint(node.bits))
    ensures TakesRange(ProjectNode(node), typ)
  {
    forall n: Int64 ensures InNode(ProjectNode(node), n) <==> InType(typ, n) {
      if node.kind == NodeInt { SignedRange(node, n); } else { ProjectedRange(node, n); }
    }
  }

  lemma IntegerPasses(ops: FloatOps, u: Universe, nodes: seq<InputNode>, i: nat, t: nat, a: Arg, x: GoInput)
    requires i < |nodes| && t < |u.types| && (u.types[t].TInt? || u.types[t].TUint?)
    requires TakesRange(nodes[i], u.types[t])
    ensures Same(ops, u, nodes, i, t, a, x)
  {
    if Passes(ops, u, nodes, i, t, a, x) {
      var v := Between(ops, u, nodes, i, t, a, x);
      assert InNode(nodes[i], v.i);
    }
    if Receives(ops, u, t, a, x) {
      var n: Int64 := a.i;
      assert InType(u.types[t], n) && InNode(nodes[i], n);
      IntegerTaken(ops, nodes, i, n);
      assert Reads(ops, u, t, Int(n), x);
    }
  }

  lemma FloatPasses(ops: FloatOps, u: Universe, nodes: seq<InputNode>, i: nat, t: nat, node: TypeNode, a: Arg,
                    x: GoInput)
    requires Rounds(ops) && i < |nodes| && nodes[i] == ProjectNode(node) && t < |u.types|
    requires node.kind == NodeFloat && u.types[t] == TFloat(node.bits)
    ensures Same(ops, u, nodes, i, t, a, x)
  {
    if Receives(ops, u, t, a, x) {
      var v := Real(Finite(x.bits));
      assert Takes(ops, nodes, i, a, v) && Reads(ops, u, t, v, x);
    }
  }

  // ----- the whole call -----

  /** Worker and parent together bind the call to x. */
  ghost predicate Arrives(ops: FloatOps, arena: Arena, store: Store, kwargs: seq<Entry>, x: GoInput)
    requires RootOk(PlanOf(arena), arena.root)
  {
    var c := ConvertCall(ops, Compiler.Projection(arena), store, kwargs);
    c.Some? && c.value.value.Obj? && BindsMap(ops, PlanOf(arena), arena.root, c.value.value.fields, x)
  }

  /** The keyword arguments, each name given once, are a tree that type t receives as x. */
  ghost predicate Received(ops: FloatOps, u: Universe, t: nat, store: Store, kwargs: seq<Entry>, x: GoInput) {
    exists a :: DenotesEntries(store, kwargs, a) && Receives(ops, u, t, a, x)
  }

  lemma ArrivedIsReceived(ops: FloatOps, u: Universe, root: nat, arena: Arena, shapes: seq<Shape>, store: Store,
                          kwargs: seq<Entry>, x: GoInput)
    requires Compiled(ops, u, root, arena, shapes) && RootOk(PlanOf(arena), arena.root)
    requires SchemaOk(u.names, Compiler.Projection(arena)) && Arrives(ops, arena, store, kwargs, x)
    ensures Received(ops, u, root, store, kwargs, x)
  {
    var schema := Compiler.Projection(arena);
    var m := ConvertCall(ops, schema, store, kwargs).value.value;
    CallIff(u.names, ops, schema, store, kwargs, m);
    var a :| DenotesEntries(store, kwargs, a) && Takes(ops, schema.nodes, schema.root, a, m);
    InputIsRead(ops, u, root, arena, shapes, m.fields);
    assert Passes(ops, u, PlanOf(arena).nodes, arena.root, root, a, x);
    PassesIff(ops, u, root, arena, shapes, arena.root, root, a, x);
  }

  lemma ReceivedArrives(ops: FloatOps, u: Universe, root: nat, arena: Arena, shapes: seq<Shape>, store: Store,
                        kwargs: seq<Entry>, x: GoInput)
    requires Compiled(ops, u, root, arena, shapes) && RootOk(PlanOf(arena), arena.root)
    requires SchemaOk(u.names, Compiler.Projection(arena)) && Received(ops, u, root, store, kwargs, x)
    ensures Arrives(ops, arena, store, kwargs, x)
  {
    var schema := Compiler.Projection(arena);
    var a :| DenotesEntries(store, kwargs, a) && Receives(ops, u, root, a, x);
    PassesIff(ops, u, root, arena, shapes, arena.root, root, a, x);
    var m := Between(ops, u, PlanOf(arena).nodes, arena.root, root, a, x);
    assert Given(ops, schema.nodes, store, schema.root, kwargs, m);
    CallIff(u.names, ops, schema, store, kwargs, m);
    InputIsRead(ops, u, root, arena, shapes, m.fields);
  }

  /** For every input type that compiles: a call reaches its handler exactly when its keyword
      arguments are a tree that the handler's Go type receives, and with that value. */
  lemma CallReceives(ops: FloatOps, u: Universe, root: nat, arena: Arena, shapes: seq<Shape>, store: Store,
                     kwargs: seq<Entry>, x: GoInput)
    requires Compiled(ops, u, root, arena, shapes)
    ensures RootOk(PlanOf(arena), arena.root)
    ensures Arrives(ops, arena, store, kwargs, x) <==> Received(ops, u, root, store, kwargs, x)
  {
    CompiledPlanOk(u, root, arena, shapes);
    ProjectionValid(u, root, arena, shapes);
    if Arrives(ops, arena, store, kwargs, x) {
      ArrivedIsReceived(ops, u, root, arena, shapes, store, kwargs, x);
    } else if Received(ops, u, root, store, kwargs, x) {
      ReceivedArrives(ops, u, root, arena, shapes, store, kwargs, x);
    }
  }
}
