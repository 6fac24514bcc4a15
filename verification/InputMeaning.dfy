/** What a capability's typed input means, said on its Go type alone: which Go value of the type a
    process-neutral value is read as, without the arena, the schema and the binder. */
module InputMeaning {
  import opened Text
  import opened Values
  import opened Schema
  import opened Binder
  import opened Rebinder
  import opened Shapes
  import opened Compiler
  import opened CallAgreement

  /** The float64 bits a float type of this width stores, if it can. */
  predicate Stores(ops: FloatOps, width: nat, given: nat, stored: nat) {
    if width == 32 then !ops.overflows(given) && stored == ops.narrow(given) else stored == given
  }

  /** Field n of the struct is named k. */
  predicate Named(fields: seq<GoField>, n: nat, k: Bytes)
    requires n < |fields|
  {
    fields[n].name == Some(k)
  }

  predicate StringKeyed(u: Universe, key: nat) { key < |u.types| && u.types[key].TString? }

  predicate Declares(fields: seq<GoField>, k: Bytes) { exists n :: 0 <= n < |fields| && Named(fields, n, k) }

  /** The value v is read as the Go value x of type t. */
  ghost predicate Reads(ops: FloatOps, u: Universe, t: nat, v: Value, x: GoInput)
    decreases v, x
  {
    t < |u.types| &&
    match u.types[t]
    case TString => v.Str? && x == GoString(v.s)
    case TBool => v.Bool? && x == GoBool(v.b)
    case TInt(width) => v.Int? && 0 - Pow2(width) <= 2 * v.i < Pow2(width) && x == GoInt(v.i)
    case TUint(width) => v.Int? && 0 <= v.i < Pow2(width) && x == GoUint(v.i)
    case TFloat(width) => v.Real? && v.x.Finite? && x.GoFloat? && Stores(ops, width, v.x.bits, x.bits)
    case TPointer(elem) =>
      if v.Null? then x == GoNilPointer else x.GoPointer? && Reads(ops, u, elem, v, x.target)
    case TSlice(elem) =>
      && v.List? && x.GoSlice? && |x.items| == |v.items|
      && forall i :: 0 <= i < |v.items| ==> Reads(ops, u, elem, v.items[i], x.items[i])
    case TMap(key, elem) =>
      && StringKeyed(u, key) && v.Obj? && x.GoMap? && x.entries.Keys == v.fields.Keys
      && forall k :: k in v.fields ==> Reads(ops, u, elem, v.fields[k], x.entries[k])
    case TStruct(fields) =>
      && v.Obj? && x.GoStruct? && |x.fields| == |fields|
      && (forall k :: k in v.fields ==> Declares(fields, k))
      && (forall n, k :: 0 <= n < |fields| && Named(fields, n, k) ==>
            if k in v.fields then Reads(ops, u, fields[n].typ, v.fields[k], x.fields[n])
            else IsPointer(u, fields[n].typ) && x.fields[n] == GoNilPointer)
    case _ => false
  }

  // ----- what the parent binds is what its type reads -----

  /** A compiled input type: the arena, its shapes, and the setting the binder runs in. */
  ghost predicate Compiled(ops: FloatOps, u: Universe, root: nat, arena: Arena, shapes: seq<Shape>) {
    && KnowsDigits(u.names) && KnownWidths(u) && u.dir.InputDirection? && Rounds(ops)
    && root < |u.types| && u.types[root].TStruct? && ArenaOf(u, root, true, arena, shapes)
  }

  /** Node i stands for type t. */
  ghost predicate Stands(u: Universe, arena: Arena, shapes: seq<Shape>, i: nat, t: nat) {
    i < |arena.nodes| == |shapes| && (Unrolls(u, t, false, shapes[i]) || Unrolls(u, t, true, shapes[i]))
  }

  /** What node i and its type have in common. */
  ghost predicate Matches(u: Universe, arena: Arena, shapes: seq<Shape>, i: nat, t: nat)
    requires i < |arena.nodes| && t < |u.types|
  {
    var node, typ := arena.nodes[i], u.types[t];
    match node.kind
    case NodeString => typ.TString?
    case NodeBool => typ.TBool?
    case NodeInt => typ == TInt(node.bits)
    case NodeUint => typ == TUint(node.bits)
    case NodeFloat => typ == TFloat(node.bits)
    case NodePointer => typ.TPointer? && node.elem < i && Stands(u, arena, shapes, node.elem, typ.elem)
    case NodeList => typ.TSlice? && node.elem < i && Stands(u, arena, shapes, node.elem, typ.elem)
    case NodeMap =>
      typ.TMap? && StringKeyed(u, typ.key) && node.elem < i && Stands(u, arena, shapes, node.elem, typ.elem)
    case NodeStruct =>
      typ.TStruct? && |typ.fields| == |node.fields|
      && forall n :: 0 <= n < |typ.fields| ==>
           && typ.fields[n].name == Some(node.fields[n].name) && node.fields[n].node < i
           && Stands(u, arena, shapes, node.fields[n].node, typ.fields[n].typ)
    case NodeBytes => false
  }

  lemma UnrolledMatches(u: Universe, arena: Arena, shapes: seq<Shape>, i: nat, t: nat, k: bool)
    requires u.dir.InputDirection? && i < |arena.nodes| == |shapes|
    requires Describes(arena.nodes[i], shapes, i, shapes[i]) && Unrolls(u, t, k, shapes[i])
    ensures Matches(u, arena, shapes, i, t)
  {}

  lemma NodeStands(ops: FloatOps, u: Universe, root: nat, arena: Arena, shapes: seq<Shape>, i: nat, t: nat)
    requires Compiled(ops, u, root, arena, shapes) && Stands(u, arena, shapes, i, t)
    ensures t < |u.types| && Matches(u, arena, shapes, i, t) && PlanOf(arena).nodes[i] == ProjectNode(arena.nodes[i])
  {
    if Unrolls(u, t, false, shapes[i]) {
      UnrolledMatches(u, arena, shapes, i, t, false);
    } else {
      UnrolledMatches(u, arena, shapes, i, t, true);
    }
  }

  lemma ListNode(ops: FloatOps, u: Universe, root: nat, arena: Arena, shapes: seq<Shape>, i: nat, t: nat)
    requires Compiled(ops, u, root, arena, shapes) && Stands(u, arena, shapes, i, t) && arena.nodes[i].kind == NodeList
    ensures var node := PlanOf(arena).nodes[i]; node.kind == InputList && 0 <= node.elem == arena.nodes[i].elem < i
    ensures t < |u.types| && u.types[t].TSlice? && Stands(u, arena, shapes, arena.nodes[i].elem, u.types[t].elem)
  {
    NodeStands(ops, u, root, arena, shapes, i, t);
  }

  lemma MapNode(ops: FloatOps, u: Universe, root: nat, arena: Arena, shapes: seq<Shape>, i: nat, t: nat)
    requires Compiled(ops, u, root, arena, shapes) && Stands(u, arena, shapes, i, t) && arena.nodes[i].kind == NodeMap
    ensures var node := PlanOf(arena).nodes[i]; node.kind == InputMap && 0 <= node.elem == arena.nodes[i].elem < i
    ensures t < |u.types| && u.types[t].TMap? && StringKeyed(u, u.types[t].key)
    ensures Stands(u, arena, shapes, arena.nodes[i].elem, u.types[t].elem)
  {
    NodeStands(ops, u, root, arena, shapes, i, t);
  }

  predicate Width(bits: nat) { bits == 8 || bits == 16 || bits == 32 || bits == 64 }

  lemma SignedRange(node: TypeNode, n: Int64)
    requires node.kind == NodeInt && Width(node.bits)
    ensures ProjectNode(node).intMin <= n <= ProjectNode(node).intMax
            <==> 0 - Pow2(node.bits) <= 2 * n < Pow2(node.bits)
  {
    ProjectedRange(node, n);
    assert Pow2(node.bits) == 2 * Pow2(node.bits - 1);
  }

  /** An integer node accepts what its Go type holds, as that type. */
  lemma IntegerNode(plan: Plan, node: TypeNode, i: nat, n: Int64)
    requires i < |plan.nodes| && plan.nodes[i] == ProjectNode(node) && Width(node.bits)
    requires node.kind == NodeInt || node.kind == NodeUint
    requires plan.unsigned(i) == (node.kind == NodeUint)
    ensures var r := RebindInteger(plan, i, n);
            if node.kind == NodeInt then
              (r.Some? <==> 0 - Pow2(node.bits) <= 2 * n < Pow2(node.bits)) && (r.Some? ==> r.value.input == GoInt(n))
            else
              (r.Some? <==> 0 <= n < Pow2(node.bits)) && (r.Some? ==> r.value.input == GoUint(n))
  {
    if node.kind == NodeInt { SignedRange(node, n); } else { ProjectedRange(node, n); }
  }

  ghost predicate BindsTo(ops: FloatOps, plan: Plan, i: nat, v: Value, x: GoInput) {
    Rebind(ops, plan, i, v).Some? && Rebind(ops, plan, i, v).value.input == x
  }

  /** Node i binds v exactly where type t reads it, and to the one Go value it is read as. */
  ghost predicate Agrees(ops: FloatOps, u: Universe, plan: Plan, i: nat, t: nat, v: Value) {
    var r := Rebind(ops, plan, i, v);
    && (r.Some? ==> Reads(ops, u, t, v, r.value.input))
    && forall x :: Reads(ops, u, t, v, x) ==> BindsTo(ops, plan, i, v, x)
  }

  lemma BoundAsRead(ops: FloatOps, u: Universe, plan: Plan, i: nat, t: nat, v: Value, x: GoInput)
    requires Agrees(ops, u, plan, i, t, v) && Reads(ops, u, t, v, x)
    ensures BindsTo(ops, plan, i, v, x)
  {}

  lemma SignedAgrees(ops: FloatOps, u: Universe, plan: Plan, node: TypeNode, i: nat, t: nat, v: Value)
    requires i < |plan.nodes| && plan.nodes[i] == ProjectNode(node) && Width(node.bits) && t < |u.types|
    requires node.kind == NodeInt && !plan.unsigned(i) && u.types[t] == TInt(node.bits)
    ensures Agrees(ops, u, plan, i, t, v)
  {
    if v.Int? { IntegerNode(plan, node, i, v.i); }
  }

  lemma UnsignedAgrees(ops: FloatOps, u: Universe, plan: Plan, node: TypeNode, i: nat, t: nat, v: Value)
    requires i < |plan.nodes| && plan.nodes[i] == ProjectNode(node) && Width(node.bits) && t < |u.types|
    requires node.kind == NodeUint && plan.unsigned(i) && u.types[t] == TUint(node.bits)
    ensures Agrees(ops, u, plan, i, t, v)
  {
    if v.Int? { IntegerNode(plan, node, i, v.i); }
  }

  lemma ScalarAgrees(ops: FloatOps, u: Universe, plan: Plan, node: TypeNode, i: nat, t: nat, v: Value)
    requires i < |plan.nodes| && plan.nodes[i] == ProjectNode(node) && t < |u.types|
    requires (node.kind == NodeString && u.types[t].TString?) || (node.kind == NodeBool && u.types[t].TBool?)
             || (node.kind == NodeFloat && u.types[t] == TFloat(node.bits))
    ensures Agrees(ops, u, plan, i, t, v)
  {}

  lemma {:induction false} RebindAgrees(ops: FloatOps, u: Universe, root: nat, arena: Arena, shapes: seq<Shape>,
                                        i: nat, t: nat, v: Value)
    requires Compiled(ops, u, root, arena, shapes) && Stands(u, arena, shapes, i, t)
    ensures Agrees(ops, u, PlanOf(arena), i, t, v)
    decreases i, 2
  {
    NodeStands(ops, u, root, arena, shapes, i, t);
    var plan, node := PlanOf(arena), arena.nodes[i];
    match node.kind
    case NodePointer => PointerAgrees(ops, u, root, arena, shapes, i, t, v);
    case NodeList => ListAgrees(ops, u, root, arena, shapes, i, t, v);
    case NodeMap => MapAgrees(ops, u, root, arena, shapes, i, t, v);
    case NodeInt => SignedAgrees(ops, u, plan, node, i, t, v);
    case NodeUint => UnsignedAgrees(ops, u, plan, node, i, t, v);
    case NodeStruct => StructAgrees(ops, u, root, arena, shapes, i, t, v);
    case _ => ScalarAgrees(ops, u, plan, node, i, t, v);
  }

  lemma TargetAgrees(ops: FloatOps, u: Universe, plan: Plan, i: nat, t: nat, v: Value)
    requires i < |plan.nodes| && plan.nodes[i].kind == InputOptional && 0 <= plan.nodes[i].elem < i
    requires t < |u.types| && u.types[t].TPointer?
    requires Agrees(ops, u, plan, plan.nodes[i].elem, u.types[t].elem, v)
    ensures Agrees(ops, u, plan, i, t, v)
  {}

  lemma {:induction false} PointerAgrees(ops: FloatOps, u: Universe, root: nat, arena: Arena, shapes: seq<Shape>,
                                         i: nat, t: nat, v: Value)
    requires Compiled(ops, u, root, arena, shapes) && Stands(u, arena, shapes, i, t)
    requires arena.nodes[i].kind == NodePointer
    ensures Agrees(ops, u, PlanOf(arena), i, t, v)
    decreases i, 0
  {
    NodeStands(ops, u, root, arena, shapes, i, t);
    RebindAgrees(ops, u, root, arena, shapes, arena.nodes[i].elem, u.types[t].elem, v);
    TargetAgrees(ops, u, PlanOf(arena), i, t, v);
  }

  lemma {:induction false} ListAgrees(ops: FloatOps, u: Universe, root: nat, arena: Arena, shapes: seq<Shape>,
                                      i: nat, t: nat, v: Value)
    requires Compiled(ops, u, root, arena, shapes) && Stands(u, arena, shapes, i, t)
    requires arena.nodes[i].kind == NodeList
    ensures Agrees(ops, u, PlanOf(arena), i, t, v)
    decreases i, 0
  {
    ListNode(ops, u, root, arena, shapes, i, t);
    var plan, elem, of := PlanOf(arena), arena.nodes[i].elem, u.types[t].elem;
    if v.List? {
      forall n | 0 <= n < |v.items| ensures Agrees(ops, u, plan, elem, of, v.items[n]) {
        RebindAgrees(ops, u, root, arena, shapes, elem, of, v.items[n]);
      }
      ItemsAgree(ops, u, plan, i, t, v);
    } else {
      NoListAgrees(ops, u, plan, i, t, v);
    }
  }

  lemma NoListAgrees(ops: FloatOps, u: Universe, plan: Plan, i: nat, t: nat, v: Value)
    requires i < |plan.nodes| && plan.nodes[i].kind == InputList && t < |u.types| && u.types[t].TSlice? && !v.List?
    ensures Agrees(ops, u, plan, i, t, v)
  {}

  lemma ItemsAgree(ops: FloatOps, u: Universe, plan: Plan, i: nat, t: nat, v: Value)
    requires i < |plan.nodes| && plan.nodes[i].kind == InputList && 0 <= plan.nodes[i].elem < i
    requires t < |u.types| && u.types[t].TSlice? && v.List?
    requires forall n :: 0 <= n < |v.items| ==> Agrees(ops, u, plan, plan.nodes[i].elem, u.types[t].elem, v.items[n])
    ensures Agrees(ops, u, plan, i, t, v)
  {
    var r, elem := Rebind(ops, plan, i, v), plan.nodes[i].elem;
    if r.Some? {
      forall n | 0 <= n < |v.items| ensures Reads(ops, u, u.types[t].elem, v.items[n], r.value.input.items[n]) {
        assert Agrees(ops, u, plan, elem, u.types[t].elem, v.items[n]);
      }
    }
    forall x | Reads(ops, u, t, v, x) ensures BindsTo(ops, plan, i, v, x) {
      forall n | 0 <= n < |v.items|
        ensures BindsTo(ops, plan, elem, v.items[n], x.items[n]) {
        BoundAsRead(ops, u, plan, elem, u.types[t].elem, v.items[n], x.items[n]);
      }
      assert r.value.input.items == x.items;
    }
  }

  lemma {:induction false} MapAgrees(ops: FloatOps, u: Universe, root: nat, arena: Arena, shapes: seq<Shape>,
                                     i: nat, t: nat, v: Value)
    requires Compiled(ops, u, root, arena, shapes) && Stands(u, arena, shapes, i, t)
    requires arena.nodes[i].kind == NodeMap
    ensures Agrees(ops, u, PlanOf(arena), i, t, v)
    decreases i, 0
  {
    MapNode(ops, u, root, arena, shapes, i, t);
    var plan, elem, of := PlanOf(arena), arena.nodes[i].elem, u.types[t].elem;
    if v.Obj? {
      forall k | k in v.fields ensures Agrees(ops, u, plan, elem, of, v.fields[k]) {
        RebindAgrees(ops, u, root, arena, shapes, elem, of, v.fields[k]);
      }
      EntriesAgree(ops, u, plan, i, t, v);
    } else {
      NoMapAgrees(ops, u, plan, i, t, v);
    }
  }

  lemma NoMapAgrees(ops: FloatOps, u: Universe, plan: Plan, i: nat, t: nat, v: Value)
    requires i < |plan.nodes| && plan.nodes[i].kind == InputMap && t < |u.types| && u.types[t].TMap? && !v.Obj?
    ensures Agrees(ops, u, plan, i, t, v)
  {}

  lemma EntriesAgree(ops: FloatOps, u: Universe, plan: Plan, i: nat, t: nat, v: Value)
    requires i < |plan.nodes| && plan.nodes[i].kind == InputMap && 0 <= plan.nodes[i].elem < i
    requires t < |u.types| && u.types[t].TMap? && StringKeyed(u, u.types[t].key) && v.Obj?
    requires forall k :: k in v.fields ==> Agrees(ops, u, plan, plan.nodes[i].elem, u.types[t].elem, v.fields[k])
    ensures Agrees(ops, u, plan, i, t, v)
  {
    if Rebind(ops, plan, i, v).Some? { EntriesRead(ops, u, plan, i, t, v); }
    forall x | Reads(ops, u, t, v, x) ensures BindsTo(ops, plan, i, v, x) { EntriesBind(ops, u, plan, i, t, v, x); }
  }

  lemma EntriesRead(ops: FloatOps, u: Universe, plan: Plan, i: nat, t: nat, v: Value)
    requires i < |plan.nodes| && plan.nodes[i].kind == InputMap && 0 <= plan.nodes[i].elem < i
    requires t < |u.types| && u.types[t].TMap? && StringKeyed(u, u.types[t].key) && v.Obj?
    requires forall k :: k in v.fields ==> Agrees(ops, u, plan, plan.nodes[i].elem, u.types[t].elem, v.fields[k])
    requires Rebind(ops, plan, i, v).Some?
    ensures Reads(ops, u, t, v, Rebind(ops, plan, i, v).value.input)
  {
    var x := Rebind(ops, plan, i, v).value.input;
    forall k | k in v.fields ensures Reads(ops, u, u.types[t].elem, v.fields[k], x.entries[k]) {
      assert Agrees(ops, u, plan, plan.nodes[i].elem, u.types[t].elem, v.fields[k]);
    }
  }

  lemma EntriesBind(ops: FloatOps, u: Universe, plan: Plan, i: nat, t: nat, v: Value, x: GoInput)
    requires i < |plan.nodes| && plan.nodes[i].kind == InputMap && 0 <= plan.nodes[i].elem < i
    requires t < |u.types| && u.types[t].TMap? && StringKeyed(u, u.types[t].key) && v.Obj?
    requires forall k :: k in v.fields ==> Agrees(ops, u, plan, plan.nodes[i].elem, u.types[t].elem, v.fields[k])
    requires Reads(ops, u, t, v, x)
    ensures BindsTo(ops, plan, i, v, x)
  {
    var elem := plan.nodes[i].elem;
    forall k | k in v.fields ensures BindsTo(ops, plan, elem, v.fields[k], x.entries[k]) {
      BoundAsRead(ops, u, plan, elem, u.types[t].elem, v.fields[k], x.entries[k]);
    }
    assert Rebind(ops, plan, i, v).value.input.entries == x.entries;
  }

  // Structs: member by member, as Fill goes.

  /** Each member of given is bound as its type reads it. */
  ghost predicate MembersAgree(ops: FloatOps, u: Universe, plan: Plan, fields: seq<GoField>, declared: seq<InputField>,
                               index: nat, given: map<Bytes, Value>) {
    && |declared| == |fields|
    && forall n :: 0 <= n < |fields| ==>
         && fields[n].name == Some(declared[n].name) && 0 <= declared[n].node < index
         && (IsOptional(plan.nodes, declared[n].node) <==> IsPointer(u, fields[n].typ))
         && (declared[n].name in given ==>
               Agrees(ops, u, plan, declared[n].node, fields[n].typ, given[declared[n].name]))
  }

  lemma MemberReads(ops: FloatOps, u: Universe, plan: Plan, i: nat, fields: seq<GoField>, given: map<Bytes, Value>,
                    n: nat, filled: Filled)
    requires PlanOk(plan) && i < |plan.nodes| && n < |fields|
    requires MembersAgree(ops, u, plan, fields, FieldsOf(plan.nodes[i]), i, given)
    requires FilledWith(Inner(ops, plan, i), plan.nodes, FieldsOf(plan.nodes[i]), given, |fields|, filled)
    ensures var k := FieldsOf(plan.nodes[i])[n].name;
            if k in given then Reads(ops, u, fields[n].typ, given[k], filled.inputs[n])
            else IsPointer(u, fields[n].typ) && filled.inputs[n] == GoNilPointer
  {
    var declared := FieldsOf(plan.nodes[i]);
    if !Skipped(plan.nodes, declared[n], given) {
      assert Rebind(ops, plan, declared[n].node, given[declared[n].name]).value.input == filled.inputs[n];
    }
  }

  lemma StructReads(ops: FloatOps, u: Universe, plan: Plan, i: nat, t: nat, given: map<Bytes, Value>)
    requires PlanOk(plan) && i < |plan.nodes| && plan.nodes[i].kind == InputStruct
    requires t < |u.types| && u.types[t].TStruct?
    requires MembersAgree(ops, u, plan, u.types[t].fields, FieldsOf(plan.nodes[i]), i, given)
    requires RebindStruct(ops, plan, i, given).Some?
    ensures Reads(ops, u, t, Obj(given), RebindStruct(ops, plan, i, given).value.input)
  {
    var fields, declared, inner := u.types[t].fields, FieldsOf(plan.nodes[i]), Inner(ops, plan, i);
    var x := RebindStruct(ops, plan, i, given).value.input;
    assert NodeFine(plan, i);
    FillIs(inner, plan.nodes, declared, given, |declared|);
    forall k | k in given ensures Declares(fields, k) {
      assert Known(declared, k);
      assert Named(fields, FieldPosition(declared, k).value, k);
    }
    forall n, k | 0 <= n < |fields| && Named(fields, n, k)
      ensures if k in given then Reads(ops, u, fields[n].typ, given[k], x.fields[n])
              else IsPointer(u, fields[n].typ) && x.fields[n] == GoNilPointer
    {
      MemberReads(ops, u, plan, i, fields, given, n, Fill(inner, plan.nodes, declared, given, |declared|).value);
    }
  }

  /** What filling needs of each member to end in these inputs. */
  ghost predicate FillsTo(inner: (int, Value) -> Option<Typed>, nodes: seq<InputNode>, declared: seq<InputField>,
                          given: map<Bytes, Value>, inputs: seq<GoInput>) {
    && |inputs| == |declared|
    && forall n :: 0 <= n < |declared| ==>
         if Skipped(nodes, declared[n], given) then inputs[n] == GoNilPointer
         else declared[n].name in given && inner(declared[n].node, given[declared[n].name]).Some?
              && inner(declared[n].node, given[declared[n].name]).value.input == inputs[n]
  }

  lemma {:induction false} FillIsInputs(inner: (int, Value) -> Option<Typed>, nodes: seq<InputNode>,
                                        declared: seq<InputField>, given: map<Bytes, Value>, inputs: seq<GoInput>,
                                        n: nat)
    requires FillsTo(inner, nodes, declared, given, inputs) && n <= |declared|
    ensures Fill(inner, nodes, declared, given, n).Some?
            && Fill(inner, nodes, declared, given, n).value.inputs == inputs[..n]
  {
    if n > 0 { FillIsInputs(inner, nodes, declared, given, inputs, n - 1); }
  }

  lemma MemberBinds(ops: FloatOps, u: Universe, plan: Plan, i: nat, t: nat, given: map<Bytes, Value>, x: GoInput,
                    n: nat)
    requires i < |plan.nodes| && t < |u.types| && u.types[t].TStruct? && n < |u.types[t].fields|
    requires MembersAgree(ops, u, plan, u.types[t].fields, FieldsOf(plan.nodes[i]), i, given)
    requires Reads(ops, u, t, Obj(given), x)
    ensures var field := FieldsOf(plan.nodes[i])[n];
            if Skipped(plan.nodes, field, given) then x.fields[n] == GoNilPointer
            else field.name in given && BindsTo(ops, plan, field.node, given[field.name], x.fields[n])
  {
    var fields, k := u.types[t].fields, FieldsOf(plan.nodes[i])[n].name;
    assert Named(fields, n, k);
    if k in given {
      BoundAsRead(ops, u, plan, FieldsOf(plan.nodes[i])[n].node, fields[n].typ, given[k], x.fields[n]);
    }
  }

  lemma StructBinds(ops: FloatOps, u: Universe, plan: Plan, i: nat, t: nat, given: map<Bytes, Value>, x: GoInput)
    requires i < |plan.nodes| && plan.nodes[i].kind == InputStruct && t < |u.types| && u.types[t].TStruct?
    requires MembersAgree(ops, u, plan, u.types[t].fields, FieldsOf(plan.nodes[i]), i, given)
    requires Reads(ops, u, t, Obj(given), x)
    ensures RebindStruct(ops, plan, i, given).Some? && RebindStruct(ops, plan, i, given).value.input == x
  {
    var fields, declared, inner := u.types[t].fields, FieldsOf(plan.nodes[i]), Inner(ops, plan, i);
    forall n | 0 <= n < |declared|
      ensures if Skipped(plan.nodes, declared[n], given) then x.fields[n] == GoNilPointer
              else declared[n].name in given
                   && BindsTo(ops, plan, declared[n].node, given[declared[n].name], x.fields[n])
    {
      MemberBinds(ops, u, plan, i, t, given, x, n);
    }
    FillIsInputs(inner, plan.nodes, declared, given, x.fields, |declared|);
    forall k | k in given ensures Known(declared, k) {
      assert Declares(fields, k);
      var n :| 0 <= n < |fields| && Named(fields, n, k);
      assert declared[n].name == k;
    }
  }

  lemma {:induction false} StructAgrees(ops: FloatOps, u: Universe, root: nat, arena: Arena, shapes: seq<Shape>,
                                        i: nat, t: nat, v: Value)
    requires Compiled(ops, u, root, arena, shapes) && Stands(u, arena, shapes, i, t)
    requires arena.nodes[i].kind == NodeStruct
    ensures Agrees(ops, u, PlanOf(arena), i, t, v)
    decreases i, 1
  {
    NodeStands(ops, u, root, arena, shapes, i, t);
    CompiledPlanOk(u, root, arena, shapes);
    var plan, node := PlanOf(arena), arena.nodes[i];
    assert NodeFine(plan, i);
    if v.Obj? {
      MembersOf(ops, u, root, arena, shapes, i, t, v.fields);
      if RebindStruct(ops, plan, i, v.fields).Some? { StructReads(ops, u, plan, i, t, v.fields); }
      forall x | Reads(ops, u, t, v, x) ensures BindsTo(ops, plan, i, v, x) {
        StructBinds(ops, u, plan, i, t, v.fields, x);
      }
    }
  }

  lemma {:induction false} MembersOf(ops: FloatOps, u: Universe, root: nat, arena: Arena, shapes: seq<Shape>,
                                     i: nat, t: nat, given: map<Bytes, Value>)
    requires Compiled(ops, u, root, arena, shapes) && Stands(u, arena, shapes, i, t)
    requires arena.nodes[i].kind == NodeStruct && t < |u.types| && u.types[t].TStruct?
    ensures MembersAgree(ops, u, PlanOf(arena), u.types[t].fields, FieldsOf(PlanOf(arena).nodes[i]), i, given)
    decreases i, 0
  {
    NodeStands(ops, u, root, arena, shapes, i, t);
    var plan, fields, node := PlanOf(arena), u.types[t].fields, arena.nodes[i];
    forall n | 0 <= n < |fields|
      ensures IsOptional(plan.nodes, node.fields[n].node) <==> IsPointer(u, fields[n].typ)
      ensures node.fields[n].name in given
              ==> Agrees(ops, u, plan, node.fields[n].node, fields[n].typ, given[node.fields[n].name])
    {
      NodeStands(ops, u, root, arena, shapes, node.fields[n].node, fields[n].typ);
      if node.fields[n].name in given {
        RebindAgrees(ops, u, root, arena, shapes, node.fields[n].node, fields[n].typ, given[node.fields[n].name]);
      }
    }
  }

  /** What binding a call's map gives is what its type reads: it binds exactly the maps the type
      can read, and to the one Go value it reads. */
  lemma InputIsRead(ops: FloatOps, u: Universe, root: nat, arena: Arena, shapes: seq<Shape>, given: map<Bytes, Value>)
    requires Compiled(ops, u, root, arena, shapes)
    ensures RootOk(PlanOf(arena), arena.root)
    ensures var r := RebindStruct(ops, PlanOf(arena), arena.root, given);
            forall x :: Reads(ops, u, root, Obj(given), x) <==> r.Some? && r.value.input == x
  {
    CompiledPlanOk(u, root, arena, shapes);
    assert NodeFine(PlanOf(arena), arena.root);
    RebindAgrees(ops, u, root, arena, shapes, arena.root, root, Obj(given));
    var r := RebindStruct(ops, PlanOf(arena), arena.root, given);
    forall x ensures Reads(ops, u, root, Obj(given), x) <==> r.Some? && r.value.input == x {
      if Reads(ops, u, root, Obj(given), x) {
        BoundAsRead(ops, u, PlanOf(arena), arena.root, root, Obj(given), x);
      }
    }
  }

  // ----- the Go values a handler can receive -----

  /** x is a value of Go type t. */
  ghost predicate Inhabits(ops: FloatOps, u: Universe, t: nat, x: GoInput)
    decreases x
  {
    t < |u.types| &&
    match u.types[t]
    case TString => x.GoString?
    case TBool => x.GoBool?
    case TInt(width) => x.GoInt? && 0 - Pow2(width) <= 2 * x.i < Pow2(width)
    case TUint(width) => x.GoUint? && x.u < Pow2(width)
    case TFloat(width) => x.GoFloat? && Stores(ops, width, x.bits, x.bits)
    case TPointer(elem) => x.GoNilPointer? || (x.GoPointer? && Inhabits(ops, u, elem, x.target))
    case TSlice(elem) => x.GoSlice? && forall i :: 0 <= i < |x.items| ==> Inhabits(ops, u, elem, x.items[i])
    case TMap(key, elem) =>
      StringKeyed(u, key) && x.GoMap? && forall k :: k in x.entries ==> Inhabits(ops, u, elem, x.entries[k])
    case TStruct(fields) =>
      x.GoStruct? && |x.fields| == |fields|
      && forall n :: 0 <= n < |fields| ==> Inhabits(ops, u, fields[n].typ, x.fields[n])
    case _ => false
  }

  /** Every unsigned integer in x fits an int64. */
  ghost predicate FitsInt64(x: GoInput) {
    match x
    case GoUint(n) => n < 0x8000_0000_0000_0000
    case GoPointer(target) => FitsInt64(target)
    case GoSlice(items) => forall i :: 0 <= i < |items| ==> FitsInt64(items[i])
    case GoMap(entries) => forall k :: k in entries ==> FitsInt64(entries[k])
    case GoStruct(fields) => forall n :: 0 <= n < |fields| ==> FitsInt64(fields[n])
    case _ => true
  }

  lemma {:induction false} ReadInhabits(ops: FloatOps, u: Universe, t: nat, k: bool, s: Shape, v: Value, x: GoInput)
    requires Rounds(ops) && u.dir.InputDirection? && Unrolls(u, t, k, s) && Reads(ops, u, t, v, x)
    ensures Inhabits(ops, u, t, x) && FitsInt64(x)
    decreases s
  {
    match u.types[t]
    case TPointer(elem) => if !v.Null? { ReadInhabits(ops, u, elem, k, s.elem, v, x.target); }
    case TSlice(elem) =>
      forall i | 0 <= i < |x.items| ensures Inhabits(ops, u, elem, x.items[i]) && FitsInt64(x.items[i]) {
        ReadInhabits(ops, u, elem, k, s.elem, v.items[i], x.items[i]);
      }
    case TMap(_, elem) =>
      forall n | n in x.entries ensures Inhabits(ops, u, elem, x.entries[n]) && FitsInt64(x.entries[n]) {
        ReadInhabits(ops, u, elem, k, s.elem, v.fields[n], x.entries[n]);
      }
    case TStruct(fields) =>
      forall n | 0 <= n < |fields| ensures Inhabits(ops, u, fields[n].typ, x.fields[n]) && FitsInt64(x.fields[n]) {
        assert FieldAllowed(u, fields[n], k) && Named(fields, n, fields[n].name.value);
        if fields[n].name.value in v.fields {
          ReadInhabits(ops, u, fields[n].typ, false, s.fields[n].shape, v.fields[fields[n].name.value], x.fields[n]);
        }
      }
    case _ =>
  }

  /** A value that x is read from: the plain one, with every nil pointer shown as null. */
  ghost function Shown(u: Universe, t: nat, x: GoInput): Value
    decreases x
  {
    if t >= |u.types| then Null
    else match x
      case GoString(s) => Str(s)
      case GoBool(b) => Bool(b)
      case GoInt(i) => Int(i)
      case GoUint(n) => if n < 0x8000_0000_0000_0000 then Int(n) else Null
      case GoFloat(bits) => Real(Finite(bits))
      case GoNilPointer => Null
      case GoPointer(target) => if u.types[t].TPointer? then Shown(u, u.types[t].elem, target) else Null
      case GoSlice(items) =>
        if u.types[t].TSlice?
        then List(seq(|items|, i requires 0 <= i < |items| => Shown(u, u.types[t].elem, items[i])))
        else Null
      case GoMap(entries) =>
        if u.types[t].TMap? then Obj(map k | k in entries :: Shown(u, u.types[t].elem, entries[k])) else Null
      case GoStruct(values) =>
        if u.types[t].TStruct? && |u.types[t].fields| == |values|
        then Obj(Under(u.types[t].fields, seq(|values|, i requires 0 <= i < |values| =>
                                                          Shown(u, u.types[t].fields[i].typ, values[i])), |values|))
        else Null
  }

  /** The first n values, each under its field's name. */
  ghost function Under(fields: seq<GoField>, shown: seq<Value>, n: nat): map<Bytes, Value>
    requires n <= |shown| == |fields|
  {
    if n == 0 then map[]
    else if fields[n - 1].name.None? then Under(fields, shown, n - 1)
    else Under(fields, shown, n - 1)[fields[n - 1].name.value := shown[n - 1]]
  }

  lemma {:induction false} UnderNames(fields: seq<GoField>, shown: seq<Value>, n: nat)
    requires n <= |shown| == |fields| && DistinctNames(fields)
    requires forall i :: 0 <= i < |fields| ==> fields[i].name.Some?
    ensures var m := Under(fields, shown, n);
            && (forall k :: k in m ==> exists i :: 0 <= i < n && Named(fields, i, k))
            && forall i :: 0 <= i < n ==> fields[i].name.value in m && m[fields[i].name.value] == shown[i]
  {
    if n > 0 {
      UnderNames(fields, shown, n - 1);
      assert Named(fields, n - 1, fields[n - 1].name.value);
    }
  }

  lemma {:induction false} ShownReads(ops: FloatOps, u: Universe, t: nat, k: bool, s: Shape, x: GoInput)
    requires u.dir.InputDirection? && Unrolls(u, t, k, s) && Inhabits(ops, u, t, x) && FitsInt64(x)
    ensures Reads(ops, u, t, Shown(u, t, x), x)
    ensures !u.types[t].TPointer? ==> !Shown(u, t, x).Null?
    decreases s
  {
    match u.types[t]
    case TPointer(elem) => if x.GoPointer? { ShownReads(ops, u, elem, k, s.elem, x.target); }
    case TSlice(elem) =>
      var v := Shown(u, t, x);
      forall i | 0 <= i < |x.items| ensures Reads(ops, u, elem, v.items[i], x.items[i]) {
        ShownReads(ops, u, elem, k, s.elem, x.items[i]);
      }
    case TMap(_, elem) =>
      var v := Shown(u, t, x);
      forall n | n in x.entries ensures Reads(ops, u, elem, v.fields[n], x.entries[n]) {
        ShownReads(ops, u, elem, k, s.elem, x.entries[n]);
      }
    case TStruct(fields) => ShownStruct(ops, u, t, k, s, x);
    case _ =>
  }

  lemma {:induction false} ShownStruct(ops: FloatOps, u: Universe, t: nat, k: bool, s: Shape, x: GoInput)
    requires u.dir.InputDirection? && Unrolls(u, t, k, s) && Inhabits(ops, u, t, x) && FitsInt64(x)
    requires u.types[t].TStruct?
    ensures Reads(ops, u, t, Shown(u, t, x), x) && Shown(u, t, x).Obj?
    decreases s, 0
  {
    var fields := u.types[t].fields;
    forall i | 0 <= i < |fields| ensures fields[i].name.Some? { assert FieldAllowed(u, fields[i], k); }
    var shown := seq(|x.fields|, i requires 0 <= i < |x.fields| => Shown(u, fields[i].typ, x.fields[i]));
    UnderNames(fields, shown, |fields|);
    var m := Under(fields, shown, |fields|);
    assert Shown(u, t, x) == Obj(m);
    forall n | n in m ensures Declares(fields, n) {
      var i :| 0 <= i < |fields| && Named(fields, i, n);
    }
    forall i, n | 0 <= i < |fields| && Named(fields, i, n)
      ensures n in m && Reads(ops, u, fields[i].typ, m[n], x.fields[i]) {
      ShownReads(ops, u, fields[i].typ, false, s.fields[i].shape, x.fields[i]);
    }
  }

  /** The typed inputs a handler can receive are exactly the values of its Go type whose unsigned
      integers fit an int64: every one of them, and nothing else. */
  lemma InputsAreInhabitants(ops: FloatOps, u: Universe, root: nat, arena: Arena, shapes: seq<Shape>, x: GoInput)
    requires Compiled(ops, u, root, arena, shapes)
    ensures RootOk(PlanOf(arena), arena.root)
    ensures (exists given: map<Bytes, Value> :: BindsMap(ops, PlanOf(arena), arena.root, given, x))
            <==> Inhabits(ops, u, root, x) && FitsInt64(x)
  {
    CompiledPlanOk(u, root, arena, shapes);
    if given: map<Bytes, Value> :| BindsMap(ops, PlanOf(arena), arena.root, given, x) {
      InputIsRead(ops, u, root, arena, shapes, given);
      ReadInhabits(ops, u, root, true, shapes[arena.root], Obj(given), x);
    }
    if Inhabits(ops, u, root, x) && FitsInt64(x) {
      ShownStruct(ops, u, root, true, shapes[arena.root], x);
      var given := Shown(u, root, x).fields;
      InputIsRead(ops, u, root, arena, shapes, given);
      assert BindsMap(ops, PlanOf(arena), arena.root, given, x);
    }
  }

  /** Binding the map gives x. */
  ghost predicate BindsMap(ops: FloatOps, plan: Plan, root: nat, given: map<Bytes, Value>, x: GoInput)
    requires RootOk(plan, root)
  {
    RebindStruct(ops, plan, root, given).Some? && RebindStruct(ops, plan, root, given).value.input == x
  }
}
