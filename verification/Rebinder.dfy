/** internal/binding/input.go: the parent binds the normalized map again, independently of the
    worker, and builds the typed Go input together with a fresh canonical copy. */
module Rebinder {
  import opened Text
  import opened Values
  import opened Starlark
  import opened Schema
  import opened Binder

  /** The typed input a handler receives. A nil pointer is an absent optional. */
  datatype GoInput =
    | GoString(s: Bytes)
    | GoInt(i: Int64)
    | GoUint(u: nat)
    | GoBool(b: bool)
    | GoFloat(bits: nat)
    | GoNilPointer
    | GoPointer(target: GoInput)
    | GoSlice(items: seq<GoInput>)
    | GoMap(entries: map<Bytes, GoInput>)
    | GoStruct(fields: seq<GoInput>)

  /** The schema arena and, aligned with it, which integer nodes have an unsigned Go type. */
  datatype Plan = Plan(nodes: seq<InputNode>, unsigned: nat -> bool)

  datatype Typed = Typed(input: GoInput, canonical: Value)

  datatype Filled = Filled(inputs: seq<GoInput>, canonical: map<Bytes, Value>)

  /** Arena facts that Validate established, node by node. */
  ghost predicate NodeFine(plan: Plan, i: int)
    requires 0 <= i < |plan.nodes|
  {
    && PointsBack(plan.nodes[i], i)
    && (plan.nodes[i].kind == InputOptional ==> !IsOptional(plan.nodes, plan.nodes[i].elem))
    && (plan.nodes[i].kind == InputStruct ==> DistinctFields(FieldsOf(plan.nodes[i])))
    && (plan.unsigned(i) ==> plan.nodes[i].intMin >= 0)
  }

  ghost predicate PlanOk(plan: Plan) {
    forall i {:trigger NodeFine(plan, i)} :: 0 <= i < |plan.nodes| ==> NodeFine(plan, i)
  }

  ghost predicate Known(fields: seq<InputField>, name: Bytes) { FieldPosition(fields, name).Some? }

  /** rebindInteger. */
  function RebindInteger(plan: Plan, index: nat, i: Int64): Option<Typed>
    requires index < |plan.nodes|
  {
    if !(plan.nodes[index].intMin <= i <= plan.nodes[index].intMax) then None
    else if plan.unsigned(index) && i >= 0 then Some(Typed(GoUint(i), Int(i)))
    else Some(Typed(GoInt(i), Int(i)))
  }

  /** What a normalized value means for a node of the plan. */
  ghost function Rebind(ops: FloatOps, plan: Plan, index: nat, v: Value): Option<Typed>
    decreases index, 1, 0
  {
    if index >= |plan.nodes| || !PointsBack(plan.nodes[index], index) then None
    else
      var node := plan.nodes[index];
      match node.kind
      case InputString => if v.Str? then Some(Typed(GoString(v.s), v)) else None
      case InputInt => if v.Int? then RebindInteger(plan, index, v.i) else None
      case InputBool => if v.Bool? then Some(Typed(GoBool(v.b), v)) else None
      case InputFloat => if v.Real? then RebindFloat(CheckFloat(ops, node, v.x)) else None
      case InputOptional =>
        if v.Null? then Some(Typed(GoNilPointer, Null))
        else
          var inner := Rebind(ops, plan, node.elem, v);
          if inner.Some? then Some(Typed(GoPointer(inner.value.input), inner.value.canonical)) else None
      case InputList =>
        if v.List? && forall i :: 0 <= i < |v.items| ==> Rebind(ops, plan, node.elem, v.items[i]).Some? then
          Some(Typed(GoSlice(seq(|v.items|, i requires 0 <= i < |v.items|
                                 && Rebind(ops, plan, node.elem, v.items[i]).Some? =>
                                            Rebind(ops, plan, node.elem, v.items[i]).value.input)),
                     List(seq(|v.items|, i requires 0 <= i < |v.items|
                              && Rebind(ops, plan, node.elem, v.items[i]).Some? =>
                                         Rebind(ops, plan, node.elem, v.items[i]).value.canonical))))
        else None
      case InputMap =>
        if v.Obj? && forall k :: k in v.fields ==> Rebind(ops, plan, node.elem, v.fields[k]).Some? then
          Some(Typed(GoMap(map k | k in v.fields :: Rebind(ops, plan, node.elem, v.fields[k]).value.input),
                     Obj(map k | k in v.fields :: Rebind(ops, plan, node.elem, v.fields[k]).value.canonical)))
        else None
      case InputStruct => if v.Obj? then RebindStruct(ops, plan, index, v.fields) else None
      case UnknownKind => None
  }

  function RebindFloat(checked: Option<Value>): Option<Typed> {
    if checked.Some? && checked.value.Real? && checked.value.x.Finite?
      then Some(Typed(GoFloat(checked.value.x.bits), checked.value)) else None
  }

  /** Rebinding against the nodes before index. */
  ghost function Inner(ops: FloatOps, plan: Plan, index: nat): (int, Value) -> Option<Typed>
    decreases index, 0, 0
  {
    (i: int, v: Value) => if 0 <= i < index then Rebind(ops, plan, i, v) else None
  }

  ghost function RebindStruct(ops: FloatOps, plan: Plan, index: nat, given: map<Bytes, Value>): Option<Typed>
    requires index < |plan.nodes| && plan.nodes[index].kind == InputStruct
    decreases index, 0, 1
  {
    var fields := FieldsOf(plan.nodes[index]);
    var filled := Fill(Inner(ops, plan, index), plan.nodes, fields, given, |fields|);
    if filled.Some? && forall k :: k in given ==> Known(fields, k)
    then Some(Typed(GoStruct(filled.value.inputs), Obj(filled.value.canonical)))
    else None
  }

  // ----- the members of one struct -----

  /** An optional member that is absent or null stays a nil pointer. */
  predicate Skipped(nodes: seq<InputNode>, field: InputField, given: map<Bytes, Value>) {
    IsOptional(nodes, field.node) && (field.name !in given || given[field.name].Null?)
  }

  /** One declared member, and what rebinding makes of it. */
  ghost function AddMember(inner: (int, Value) -> Option<Typed>, nodes: seq<InputNode>, field: InputField,
                           given: map<Bytes, Value>, before: Filled)
    : Option<Filled>
  {
    if Skipped(nodes, field, given) then Some(Filled(before.inputs + [GoNilPointer], before.canonical))
    else if field.name !in given || inner(field.node, given[field.name]).None? then None
    else
      var last := inner(field.node, given[field.name]).value;
      Some(Filled(before.inputs + [last.input], before.canonical[field.name := last.canonical]))
  }

  /** The first n declared members. */
  ghost function Fill(inner: (int, Value) -> Option<Typed>, nodes: seq<InputNode>, fields: seq<InputField>,
                      given: map<Bytes, Value>, n: nat)
    : Option<Filled>
    requires n <= |fields|
  {
    if n == 0 then Some(Filled([], map[]))
    else
      var before := Fill(inner, nodes, fields, given, n - 1);
      if before.None? then None else AddMember(inner, nodes, fields[n - 1], given, before.value)
  }

  /** What the first n members hold afterwards, member by member. */
  ghost predicate FilledWith(inner: (int, Value) -> Option<Typed>, nodes: seq<InputNode>, fields: seq<InputField>,
                             given: map<Bytes, Value>,
                             n: nat, filled: Filled)
    requires n <= |fields|
  {
    && |filled.inputs| == n
    && (forall k :: k in filled.canonical ==> k in given && exists i :: 0 <= i < n && fields[i].name == k)
    && forall i :: 0 <= i < n ==>
         if Skipped(nodes, fields[i], given)
           then fields[i].name !in filled.canonical && filled.inputs[i] == GoNilPointer
         else
           && fields[i].name in given && fields[i].name in filled.canonical
           && inner(fields[i].node, given[fields[i].name])
              == Some(Typed(filled.inputs[i], filled.canonical[fields[i].name]))
  }

  lemma FillOneMore(inner: (int, Value) -> Option<Typed>, nodes: seq<InputNode>, fields: seq<InputField>,
                    given: map<Bytes, Value>,
                    n: nat, before: Filled)
    requires DistinctFields(fields) && n < |fields| && FilledWith(inner, nodes, fields, given, n, before)
    requires AddMember(inner, nodes, fields[n], given, before).Some?
    ensures FilledWith(inner, nodes, fields, given, n + 1, AddMember(inner, nodes, fields[n], given, before).value)
  {}

  lemma {:induction false} FillIs(inner: (int, Value) -> Option<Typed>, nodes: seq<InputNode>,
                                  fields: seq<InputField>, given: map<Bytes, Value>, n: nat)
    requires DistinctFields(fields) && n <= |fields| && Fill(inner, nodes, fields, given, n).Some?
    ensures FilledWith(inner, nodes, fields, given, n, Fill(inner, nodes, fields, given, n).value)
  {
    if n > 0 {
      FillIs(inner, nodes, fields, given, n - 1);
      FillOneMore(inner, nodes, fields, given, n - 1, Fill(inner, nodes, fields, given, n - 1).value);
    }
  }

  /** Two objects whose members mean the same fill a struct the same way. */
  lemma {:induction false} FillAgrees(inner: (int, Value) -> Option<Typed>, nodes: seq<InputNode>,
                                      fields: seq<InputField>,
                                      a: map<Bytes, Value>, b: map<Bytes, Value>, n: nat)
    requires n <= |fields|
    requires forall i :: 0 <= i < n ==> Skipped(nodes, fields[i], a) == Skipped(nodes, fields[i], b)
    requires forall i :: 0 <= i < n && !Skipped(nodes, fields[i], a) ==>
      && fields[i].name in a && fields[i].name in b
      && inner(fields[i].node, a[fields[i].name]) == inner(fields[i].node, b[fields[i].name])
    ensures Fill(inner, nodes, fields, a, n) == Fill(inner, nodes, fields, b, n)
  {
    if n > 0 { FillAgrees(inner, nodes, fields, a, b, n - 1); }
  }

  /** Members that rebind to themselves are copied. */
  lemma {:induction false} FillCopies(inner: (int, Value) -> Option<Typed>, nodes: seq<InputNode>,
                                      fields: seq<InputField>, given: map<Bytes, Value>, n: nat)
    requires n <= |fields|
    requires forall i :: 0 <= i < n ==>
      if fields[i].name in given then
        && !given[fields[i].name].Null? && inner(fields[i].node, given[fields[i].name]).Some?
        && inner(fields[i].node, given[fields[i].name]).value.canonical == given[fields[i].name]
      else IsOptional(nodes, fields[i].node)
    ensures Fill(inner, nodes, fields, given, n).Some?
    ensures var c := Fill(inner, nodes, fields, given, n).value.canonical;
            && (forall k :: k in c ==> k in given && c[k] == given[k])
            && forall i :: 0 <= i < n && fields[i].name in given ==> fields[i].name in c
  {
    if n > 0 { FillCopies(inner, nodes, fields, given, n - 1); }
  }

  // ----- canonical values -----

  /** The form that both sides agree on: exact member sets, no explicit null members, numbers
      in range and already rounded. */
  ghost predicate Canonical(ops: FloatOps, plan: Plan, index: nat, v: Value)
    decreases index
  {
    index < |plan.nodes| && PointsBack(plan.nodes[index], index) &&
    var node := plan.nodes[index];
    match node.kind
    case InputString => v.Str?
    case InputInt => v.Int? && node.intMin <= v.i <= node.intMax
    case InputBool => v.Bool?
    case InputFloat => v.Real? && CheckFloat(ops, node, v.x) == Some(v)
    case InputOptional => v.Null? || Canonical(ops, plan, node.elem, v)
    case InputList => v.List? && forall i :: 0 <= i < |v.items| ==> Canonical(ops, plan, node.elem, v.items[i])
    case InputMap => v.Obj? && forall k :: k in v.fields ==> Canonical(ops, plan, node.elem, v.fields[k])
    case InputStruct =>
      v.Obj? && (forall k :: k in v.fields ==> Known(FieldsOf(node), k))
      && forall n :: 0 <= n < |FieldsOf(node)| ==>
           var field := FieldsOf(node)[n];
           if field.name in v.fields then Canonical(ops, plan, field.node, v.fields[field.name])
                                          && !v.fields[field.name].Null?
           else IsOptional(plan.nodes, field.node)
    case UnknownKind => false
  }

  lemma NotNull(ops: FloatOps, plan: Plan, index: nat, v: Value)
    requires !IsOptional(plan.nodes, index) && Rebind(ops, plan, index, v).Some?
    ensures !Rebind(ops, plan, index, v).value.canonical.Null? && !v.Null?
  {}

  // ----- binding its own output again changes nothing -----

  lemma {:induction false} RebindStable(ops: FloatOps, plan: Plan, index: nat, v: Value)
    requires Rounds(ops) && PlanOk(plan) && Rebind(ops, plan, index, v).Some?
    ensures Rebind(ops, plan, index, Rebind(ops, plan, index, v).value.canonical) == Rebind(ops, plan, index, v)
    decreases index, 1, 0
  {
    assert NodeFine(plan, index);
    var node := plan.nodes[index];
    match node.kind
    case InputOptional =>
      if !v.Null? {
        RebindStable(ops, plan, node.elem, v);
        NotNull(ops, plan, node.elem, v);
      }
    case InputList => ListStable(ops, plan, index, v);
    case InputMap => MapStable(ops, plan, index, v);
    case InputStruct => StructStable(ops, plan, index, v.fields);
    case _ =>
  }

  lemma {:induction false} ListStable(ops: FloatOps, plan: Plan, index: nat, v: Value)
    requires Rounds(ops) && PlanOk(plan) && Rebind(ops, plan, index, v).Some? && plan.nodes[index].kind == InputList
    ensures Rebind(ops, plan, index, Rebind(ops, plan, index, v).value.canonical) == Rebind(ops, plan, index, v)
    decreases index, 0, 0
  {
    var elem, t := plan.nodes[index].elem, Rebind(ops, plan, index, v).value;
    forall i | 0 <= i < |v.items|
      ensures Rebind(ops, plan, elem, t.canonical.items[i]) == Rebind(ops, plan, elem, v.items[i]) {
      RebindStable(ops, plan, elem, v.items[i]);
    }
    var again := Rebind(ops, plan, index, t.canonical).value;
    assert again.input.items == t.input.items;
    assert again.canonical.items == t.canonical.items;
  }

  lemma {:induction false} MapStable(ops: FloatOps, plan: Plan, index: nat, v: Value)
    requires Rounds(ops) && PlanOk(plan) && Rebind(ops, plan, index, v).Some? && plan.nodes[index].kind == InputMap
    ensures Rebind(ops, plan, index, Rebind(ops, plan, index, v).value.canonical) == Rebind(ops, plan, index, v)
    decreases index, 0, 0
  {
    var elem, t := plan.nodes[index].elem, Rebind(ops, plan, index, v).value;
    forall k | k in v.fields
      ensures Rebind(ops, plan, elem, t.canonical.fields[k]) == Rebind(ops, plan, elem, v.fields[k]) {
      RebindStable(ops, plan, elem, v.fields[k]);
    }
    var again := Rebind(ops, plan, index, t.canonical).value;
    assert again.input.entries == t.input.entries;
    assert again.canonical.fields == t.canonical.fields;
  }

  lemma {:induction false} StructStable(ops: FloatOps, plan: Plan, index: nat, given: map<Bytes, Value>)
    requires Rounds(ops) && PlanOk(plan) && index < |plan.nodes| && plan.nodes[index].kind == InputStruct
    requires RebindStruct(ops, plan, index, given).Some?
    ensures RebindStruct(ops, plan, index, RebindStruct(ops, plan, index, given).value.canonical.fields)
            == RebindStruct(ops, plan, index, given)
    decreases index, 0, 0
  {
    assert NodeFine(plan, index);
    var fields, inner := FieldsOf(plan.nodes[index]), Inner(ops, plan, index);
    var kept := RebindStruct(ops, plan, index, given).value.canonical.fields;
    FillIs(inner, plan.nodes, fields, given, |fields|);
    forall i | 0 <= i < |fields| && !Skipped(plan.nodes, fields[i], given)
      ensures inner(fields[i].node, kept[fields[i].name]) == inner(fields[i].node, given[fields[i].name])
      ensures !Skipped(plan.nodes, fields[i], kept)
    {
      var v := given[fields[i].name];
      RebindStable(ops, plan, fields[i].node, v);
      if IsOptional(plan.nodes, fields[i].node) {
        assert NodeFine(plan, fields[i].node);
        NotNull(ops, plan, plan.nodes[fields[i].node].elem, v);
      }
    }
    FillAgrees(inner, plan.nodes, fields, given, kept, |fields|);
  }

  // ----- canonical is exactly what rebinding leaves alone -----

  lemma {:induction false} CanonicalRebinds(ops: FloatOps, plan: Plan, index: nat, v: Value)
    requires PlanOk(plan) && Canonical(ops, plan, index, v)
    ensures Rebind(ops, plan, index, v).Some? && Rebind(ops, plan, index, v).value.canonical == v
    decreases index, 1, 0
  {
    assert NodeFine(plan, index);
    var node := plan.nodes[index];
    match node.kind
    case InputOptional => if !v.Null? { CanonicalRebinds(ops, plan, node.elem, v); }
    case InputList =>
      forall i | 0 <= i < |v.items| ensures Rebind(ops, plan, node.elem, v.items[i]).Some?
        && Rebind(ops, plan, node.elem, v.items[i]).value.canonical == v.items[i] {
        CanonicalRebinds(ops, plan, node.elem, v.items[i]);
      }
      assert Rebind(ops, plan, index, v).value.canonical.items == v.items;
    case InputMap =>
      forall k | k in v.fields ensures Rebind(ops, plan, node.elem, v.fields[k]).Some?
        && Rebind(ops, plan, node.elem, v.fields[k]).value.canonical == v.fields[k] {
        CanonicalRebinds(ops, plan, node.elem, v.fields[k]);
      }
      assert Rebind(ops, plan, index, v).value.canonical.fields == v.fields;
    case InputStruct => CanonicalStruct(ops, plan, index, v);
    case _ =>
  }

  lemma CanonicalMember(ops: FloatOps, plan: Plan, index: nat, v: Value, n: nat)
    requires Canonical(ops, plan, index, v) && plan.nodes[index].kind == InputStruct
             && n < |FieldsOf(plan.nodes[index])|
    ensures v.Obj? && 0 <= FieldsOf(plan.nodes[index])[n].node < index
    ensures var field := FieldsOf(plan.nodes[index])[n];
            if field.name in v.fields then Canonical(ops, plan, field.node, v.fields[field.name])
                                           && !v.fields[field.name].Null?
            else IsOptional(plan.nodes, field.node)
  {}

  lemma {:induction false} CanonicalStruct(ops: FloatOps, plan: Plan, index: nat, v: Value)
    requires PlanOk(plan) && Canonical(ops, plan, index, v) && plan.nodes[index].kind == InputStruct
    ensures RebindStruct(ops, plan, index, v.fields).Some?
            && RebindStruct(ops, plan, index, v.fields).value.canonical == v
    decreases index, 0, 0
  {
    var fields, inner := FieldsOf(plan.nodes[index]), Inner(ops, plan, index);
    forall n | 0 <= n < |fields|
      ensures if fields[n].name in v.fields then
                && !v.fields[fields[n].name].Null? && inner(fields[n].node, v.fields[fields[n].name]).Some?
                && inner(fields[n].node, v.fields[fields[n].name]).value.canonical == v.fields[fields[n].name]
              else IsOptional(plan.nodes, fields[n].node)
    {
      CanonicalMember(ops, plan, index, v, n);
      if fields[n].name in v.fields { CanonicalRebinds(ops, plan, fields[n].node, v.fields[fields[n].name]); }
    }
    FillCopies(inner, plan.nodes, fields, v.fields, |fields|);
    var c := Fill(inner, plan.nodes, fields, v.fields, |fields|).value.canonical;
    forall k | k in v.fields ensures k in c {
      assert Known(fields, k);
      var at := FieldPosition(fields, k).value;
      assert fields[at].name in v.fields;
    }
    assert c == v.fields;
  }

  /** Whatever the parent accepts leaves it in canonical form. */
  lemma {:induction false} RebindIsCanonical(ops: FloatOps, plan: Plan, index: nat, v: Value)
    requires Rounds(ops) && PlanOk(plan) && Rebind(ops, plan, index, v).Some?
    ensures Canonical(ops, plan, index, Rebind(ops, plan, index, v).value.canonical)
    decreases index, 1, 0
  {
    assert NodeFine(plan, index);
    var node := plan.nodes[index];
    match node.kind
    case InputOptional => if !v.Null? { RebindIsCanonical(ops, plan, node.elem, v); }
    case InputList =>
      forall i | 0 <= i < |v.items|
        ensures Canonical(ops, plan, node.elem, Rebind(ops, plan, node.elem, v.items[i]).value.canonical) {
        RebindIsCanonical(ops, plan, node.elem, v.items[i]);
      }
    case InputMap =>
      forall k | k in v.fields
        ensures Canonical(ops, plan, node.elem, Rebind(ops, plan, node.elem, v.fields[k]).value.canonical) {
        RebindIsCanonical(ops, plan, node.elem, v.fields[k]);
      }
    case InputStruct => StructIsCanonical(ops, plan, index, v.fields);
    case _ =>
  }

  lemma {:induction false} StructIsCanonical(ops: FloatOps, plan: Plan, index: nat, given: map<Bytes, Value>)
    requires Rounds(ops) && PlanOk(plan) && index < |plan.nodes| && plan.nodes[index].kind == InputStruct
    requires RebindStruct(ops, plan, index, given).Some?
    ensures Canonical(ops, plan, index, RebindStruct(ops, plan, index, given).value.canonical)
    decreases index, 0, 0
  {
    assert NodeFine(plan, index);
    var fields := FieldsOf(plan.nodes[index]);
    var c := RebindStruct(ops, plan, index, given).value.canonical;
    FillIs(Inner(ops, plan, index), plan.nodes, fields, given, |fields|);
    forall n | 0 <= n < |fields|
      ensures if fields[n].name in c.fields then Canonical(ops, plan, fields[n].node, c.fields[fields[n].name])
                                                 && !c.fields[fields[n].name].Null?
              else IsOptional(plan.nodes, fields[n].node)
    {
      var field := fields[n];
      if !Skipped(plan.nodes, field, given) {
        RebindIsCanonical(ops, plan, field.node, given[field.name]);
        if IsOptional(plan.nodes, field.node) {
          assert NodeFine(plan, field.node);
          NotNull(ops, plan, plan.nodes[field.node].elem, given[field.name]);
        } else {
          NotNull(ops, plan, field.node, given[field.name]);
        }
      }
    }
  }

  // ----- the canonical map is the projection of the typed input -----

  ghost function Project(plan: Plan, index: nat, input: GoInput): Value
    decreases index, 1, 0
  {
    if index >= |plan.nodes| || !PointsBack(plan.nodes[index], index) then Null
    else
      var node := plan.nodes[index];
      match input
      case GoString(s) => Str(s)
      case GoInt(i) => Int(i)
      case GoUint(u) => if u < 0x8000_0000_0000_0000 then Int(u) else Null
      case GoBool(b) => Bool(b)
      case GoFloat(bits) => Real(Finite(bits))
      case GoNilPointer => Null
      case GoPointer(target) => if node.kind == InputOptional then Project(plan, node.elem, target) else Null
      case GoSlice(items) =>
        if node.kind == InputList then List(seq(|items|, i requires 0 <= i < |items| =>
                                                Project(plan, node.elem, items[i]))) else Null
      case GoMap(entries) =>
        if node.kind == InputMap then Obj(map k | k in entries :: Project(plan, node.elem, entries[k])) else Null
      case GoStruct(fields) =>
        if node.kind == InputStruct && |fields| == |FieldsOf(node)|
        then Obj(ProjectMembers(Projection(plan, index), plan.nodes, FieldsOf(node), fields, |fields|))
        else Null
  }

  ghost function Projection(plan: Plan, index: nat): (int, GoInput) -> Value
    decreases index, 0, 0
  {
    (i: int, input: GoInput) => if 0 <= i < index then Project(plan, i, input) else Null
  }

  /** A nil optional member is absent from the projection. */
  ghost function ProjectMembers(inner: (int, GoInput) -> Value, nodes: seq<InputNode>, fields: seq<InputField>,
                                inputs: seq<GoInput>, n: nat)
    : map<Bytes, Value>
    requires n <= |fields| && n <= |inputs|
  {
    if n == 0 then map[]
    else
      var before := ProjectMembers(inner, nodes, fields, inputs, n - 1);
      if IsOptional(nodes, fields[n - 1].node) && inputs[n - 1].GoNilPointer? then before
      else before[fields[n - 1].name := inner(fields[n - 1].node, inputs[n - 1])]
  }

  lemma {:induction false} ProjectMembersPrefix(inner: (int, GoInput) -> Value, nodes: seq<InputNode>,
                                                fields: seq<InputField>,
                                                a: seq<GoInput>, b: seq<GoInput>, n: nat)
    requires n <= |fields| && n <= |a| && a <= b
    ensures ProjectMembers(inner, nodes, fields, a, n) == ProjectMembers(inner, nodes, fields, b, n)
  {
    if n > 0 { ProjectMembersPrefix(inner, nodes, fields, a, b, n - 1); }
  }

  /** If every member's typed part projects to its canonical part, so does the struct. */
  lemma {:induction false} FillProjects(inner: (int, Value) -> Option<Typed>, project: (int, GoInput) -> Value,
                                        nodes: seq<InputNode>,
                                        fields: seq<InputField>, given: map<Bytes, Value>, n: nat)
    requires n <= |fields| && Fill(inner, nodes, fields, given, n).Some?
    requires forall i :: 0 <= i < n && !Skipped(nodes, fields[i], given) && fields[i].name in given ==>
      var t := inner(fields[i].node, given[fields[i].name]);
      t.Some? ==> project(fields[i].node, t.value.input) == t.value.canonical
                  && (IsOptional(nodes, fields[i].node) ==> !t.value.input.GoNilPointer?)
    ensures var filled := Fill(inner, nodes, fields, given, n).value;
            |filled.inputs| == n && ProjectMembers(project, nodes, fields, filled.inputs, n) == filled.canonical
  {
    if n > 0 {
      FillProjects(inner, project, nodes, fields, given, n - 1);
      ProjectMembersPrefix(project, nodes, fields, Fill(inner, nodes, fields, given, n - 1).value.inputs,
                           Fill(inner, nodes, fields, given, n).value.inputs, n - 1);
    }
  }

  /** The canonical map that authorization sees is exactly what the handler's typed input says. */
  lemma {:induction false} ProjectOfRebind(ops: FloatOps, plan: Plan, index: nat, v: Value)
    requires PlanOk(plan) && Rebind(ops, plan, index, v).Some?
    ensures Project(plan, index, Rebind(ops, plan, index, v).value.input) == Rebind(ops, plan, index, v).value.canonical
    decreases index, 1, 0
  {
    var node, t := plan.nodes[index], Rebind(ops, plan, index, v).value;
    match node.kind
    case InputOptional => if !v.Null? { ProjectOfRebind(ops, plan, node.elem, v); }
    case InputList =>
      forall i | 0 <= i < |v.items| ensures Project(plan, node.elem, t.input.items[i]) == t.canonical.items[i] {
        ProjectOfRebind(ops, plan, node.elem, v.items[i]);
      }
      assert Project(plan, index, t.input).items == t.canonical.items;
    case InputMap =>
      forall k | k in v.fields ensures Project(plan, node.elem, t.input.entries[k]) == t.canonical.fields[k] {
        ProjectOfRebind(ops, plan, node.elem, v.fields[k]);
      }
      assert Project(plan, index, t.input).fields == t.canonical.fields;
    case InputStruct => ProjectOfStruct(ops, plan, index, v.fields);
    case _ =>
  }

  lemma {:induction false} ProjectOfStruct(ops: FloatOps, plan: Plan, index: nat, given: map<Bytes, Value>)
    requires PlanOk(plan) && index < |plan.nodes| && plan.nodes[index].kind == InputStruct
             && RebindStruct(ops, plan, index, given).Some?
    ensures Project(plan, index, RebindStruct(ops, plan, index, given).value.input)
            == RebindStruct(ops, plan, index, given).value.canonical
    decreases index, 0, 0
  {
    assert NodeFine(plan, index);
    var fields, inner, project := FieldsOf(plan.nodes[index]), Inner(ops, plan, index), Projection(plan, index);
    forall i | 0 <= i < |fields| && !Skipped(plan.nodes, fields[i], given) && fields[i].name in given
      ensures var t := inner(fields[i].node, given[fields[i].name]);
              t.Some? ==> project(fields[i].node, t.value.input) == t.value.canonical
                          && (IsOptional(plan.nodes, fields[i].node) ==> !t.value.input.GoNilPointer?)
    {
      if inner(fields[i].node, given[fields[i].name]).Some? {
        ProjectOfRebind(ops, plan, fields[i].node, given[fields[i].name]);
      }
    }
    FillProjects(inner, project, plan.nodes, fields, given, |fields|);
  }

  // ----- the rebinder as it runs -----

  lemma SameKeys(small: map<Bytes, Value>, big: map<Bytes, Value>)
    requires small.Keys <= big.Keys && |big| <= |small|
    ensures small.Keys == big.Keys
  {
    assert |small.Keys| == |small| && |big.Keys| == |big|;
    if small.Keys != big.Keys {
      assert !(big.Keys <= small.Keys);
      var k :| k in big.Keys && k !in small.Keys;
      SubsetSize(small.Keys, big.Keys - {k});
    }
  }

  lemma {:induction false} SubsetSize(a: set<Bytes>, b: set<Bytes>)
    requires a <= b
    ensures |a| <= |b|
    decreases |a|
  {
    if a != {} {
      var k :| k in a;
      SubsetSize(a - {k}, b - {k});
    }
  }

  class ArgumentRebinder {
    const plan: Plan
    var path: seq<Segment>

    constructor (plan: Plan)
      ensures this.plan == plan && path == []
    {
      this.plan, path := plan, [];
    }

    /** rebindValue. */
    method RebindValue(ops: FloatOps, index: nat, v: Value) returns (r: Option<Typed>)
      requires index < |plan.nodes| && PlanOk(plan)
      modifies this
      ensures r == Rebind(ops, plan, index, v)
      ensures r.Some? ==> path == old(path)
      decreases index, 1, 0
    {
      assert NodeFine(plan, index);
      var node := plan.nodes[index];
      match node.kind
      case InputString => return if v.Str? then Some(Typed(GoString(v.s), v)) else None;
      case InputInt => return if v.Int? then RebindInteger(plan, index, v.i) else None;
      case InputBool => return if v.Bool? then Some(Typed(GoBool(v.b), v)) else None;
      case InputFloat => return if v.Real? then RebindFloat(CheckFloat(ops, node, v.x)) else None;
      case InputOptional =>
        if v.Null? { return Some(Typed(GoNilPointer, Null)); }
        var inner := RebindValue(ops, node.elem, v);
        return if inner.Some? then Some(Typed(GoPointer(inner.value.input), inner.value.canonical)) else None;
      case InputList => r := RebindList(ops, index, v);
      case InputMap => r := RebindMap(ops, index, v);
      case InputStruct => if v.Obj? { r := RebindObject(ops, index, v.fields); } else { r := None; }
      case UnknownKind => return None;
    }

    method RebindList(ops: FloatOps, index: nat, v: Value) returns (r: Option<Typed>)
      requires index < |plan.nodes| && PlanOk(plan) && plan.nodes[index].kind == InputList
      modifies this
      ensures r == Rebind(ops, plan, index, v)
      ensures r.Some? ==> path == old(path)
      decreases index, 0, 0
    {
      assert NodeFine(plan, index);
      if !v.List? { return None; }
      var elem := plan.nodes[index].elem;
      var slice: seq<GoInput>, canonical: seq<Value> := [], [];
      for n := 0 to |v.items|
        invariant path == old(path) && |slice| == n && |canonical| == n
        invariant forall i :: 0 <= i < n ==> Rebind(ops, plan, elem, v.items[i]) == Some(Typed(slice[i], canonical[i]))
      {
        path := path + [Index(n)];
        var item := RebindValue(ops, elem, v.items[n]);
        if item.None? { return None; }
        path := path[..|path| - 1];
        slice, canonical := slice + [item.value.input], canonical + [item.value.canonical];
      }
      r := Some(Typed(GoSlice(slice), List(canonical)));
      ListIs(ops, index, v, slice, canonical);
    }

    lemma ListIs(ops: FloatOps, index: nat, v: Value, slice: seq<GoInput>, canonical: seq<Value>)
      requires index < |plan.nodes| && PointsBack(plan.nodes[index], index) && plan.nodes[index].kind == InputList
               && v.List?
      requires |slice| == |canonical| == |v.items|
      requires forall i :: 0 <= i < |slice|
                 ==> Rebind(ops, plan, plan.nodes[index].elem, v.items[i]) == Some(Typed(slice[i], canonical[i]))
      ensures Rebind(ops, plan, index, v) == Some(Typed(GoSlice(slice), List(canonical)))
    {
      var t := Rebind(ops, plan, index, v).value;
      assert t.input.items == slice && t.canonical.items == canonical;
    }

    method RebindMap(ops: FloatOps, index: nat, v: Value) returns (r: Option<Typed>)
      requires index < |plan.nodes| && PlanOk(plan) && plan.nodes[index].kind == InputMap
      modifies this
      ensures r == Rebind(ops, plan, index, v)
      ensures r.Some? ==> path == old(path)
      decreases index, 0, 0
    {
      assert NodeFine(plan, index);
      if !v.Obj? { return None; }
      var elem, keys := plan.nodes[index].elem, v.fields.Keys;
      var entries: map<Bytes, GoInput>, canonical: map<Bytes, Value> := map[], map[];
      while keys != {}
        invariant path == old(path) && keys <= v.fields.Keys
        invariant entries.Keys == canonical.Keys == v.fields.Keys - keys
        invariant forall k :: k in entries
                    ==> Rebind(ops, plan, elem, v.fields[k]) == Some(Typed(entries[k], canonical[k]))
        decreases |keys|
      {
        var k :| k in keys;
        path := path + [DictKey(k)];
        var item := RebindValue(ops, elem, v.fields[k]);
        if item.None? { return None; }
        path := path[..|path| - 1];
        keys, entries, canonical := keys - {k}, entries[k := item.value.input], canonical[k := item.value.canonical];
      }
      r := Some(Typed(GoMap(entries), Obj(canonical)));
      MapIs(ops, index, v, entries, canonical);
    }

    lemma MapIs(ops: FloatOps, index: nat, v: Value, entries: map<Bytes, GoInput>, canonical: map<Bytes, Value>)
      requires index < |plan.nodes| && PointsBack(plan.nodes[index], index) && plan.nodes[index].kind == InputMap
               && v.Obj?
      requires entries.Keys == canonical.Keys == v.fields.Keys
      requires forall k :: k in entries
                 ==> Rebind(ops, plan, plan.nodes[index].elem, v.fields[k]) == Some(Typed(entries[k], canonical[k]))
      ensures Rebind(ops, plan, index, v) == Some(Typed(GoMap(entries), Obj(canonical)))
    {
      var t := Rebind(ops, plan, index, v).value;
      assert t.input.entries == entries && t.canonical.fields == canonical;
    }

    /** rebindStruct: members in declaration order; unknown names are looked for only when the
        given map is larger than what was kept. */
    method RebindObject(ops: FloatOps, index: nat, given: map<Bytes, Value>) returns (r: Option<Typed>)
      requires index < |plan.nodes| && PlanOk(plan) && plan.nodes[index].kind == InputStruct
      modifies this
      ensures r == RebindStruct(ops, plan, index, given)
      ensures r.Some? ==> path == old(path)
      decreases index, 0, 1
    {
      assert NodeFine(plan, index);
      var fields := FieldsOf(plan.nodes[index]);
      var filled := RebindMembers(ops, index, given);
      if filled.None? { return None; }
      FillIs(Inner(ops, plan, index), plan.nodes, fields, given, |fields|);
      if |given| > |filled.value.canonical| {
        var unknown := UnknownName(fields, given);
        if unknown.Some? {
          path := path + [Member(unknown.value)];
          return None;
        }
      } else {
        SameKeys(filled.value.canonical, given);
        assert forall k :: k in given ==> k in filled.value.canonical;
      }
      return Some(Typed(GoStruct(filled.value.inputs), Obj(filled.value.canonical)));
    }

    method RebindMembers(ops: FloatOps, index: nat, given: map<Bytes, Value>) returns (r: Option<Filled>)
      requires index < |plan.nodes| && PlanOk(plan) && plan.nodes[index].kind == InputStruct
      modifies this
      ensures r == Fill(Inner(ops, plan, index), plan.nodes, FieldsOf(plan.nodes[index]), given,
                        |FieldsOf(plan.nodes[index])|)
      ensures r.Some? ==> path == old(path)
      decreases index, 0, 0
    {
      assert NodeFine(plan, index);
      var fields := FieldsOf(plan.nodes[index]);
      ghost var inner := Inner(ops, plan, index);
      var inputs: seq<GoInput>, canonical: map<Bytes, Value> := [], map[];
      for n := 0 to |fields|
        invariant path == old(path)
        invariant Fill(inner, plan.nodes, fields, given, n) == Some(Filled(inputs, canonical))
      {
        var field := fields[n];
        FillPrefix(inner, plan.nodes, fields, given, n + 1, |fields|);
        if Skipped(plan.nodes, field, given) {
          inputs := inputs + [GoNilPointer];
        } else {
          path := path + [Member(field.name)];
          if field.name !in given { return None; }
          var item := RebindValue(ops, field.node, given[field.name]);
          if item.None? { return None; }
          path := path[..|path| - 1];
          inputs, canonical := inputs + [item.value.input], canonical[field.name := item.value.canonical];
        }
      }
      return Some(Filled(inputs, canonical));
    }

    method UnknownName(fields: seq<InputField>, given: map<Bytes, Value>) returns (unknown: Option<Bytes>)
      ensures unknown.None? <==> forall k :: k in given ==> Known(fields, k)
      ensures unknown.Some? ==> unknown.value in given && !Known(fields, unknown.value)
    {
      var keys := given.Keys;
      while keys != {}
        invariant keys <= given.Keys && forall k :: k in given.Keys - keys ==> Known(fields, k)
        decreases |keys|
      {
        var k :| k in keys;
        if FieldPosition(fields, k).None? { return Some(k); }
        keys := keys - {k};
      }
      return None;
    }
  }

  lemma {:induction false} FillPrefix(inner: (int, Value) -> Option<Typed>, nodes: seq<InputNode>,
                                      fields: seq<InputField>, given: map<Bytes, Value>, n: nat, m: nat)
    requires n <= m <= |fields|
    ensures Fill(inner, nodes, fields, given, m).Some? ==> Fill(inner, nodes, fields, given, n).Some?
  {
    if n < m { FillPrefix(inner, nodes, fields, given, n, m - 1); }
  }

  /** Plan.BindValue: the typed input and the canonical map, or a refusal. */
  method BindValue(ops: FloatOps, plan: Plan, root: nat, arguments: map<Bytes, Value>) returns (r: Option<Typed>)
    requires PlanOk(plan) && root < |plan.nodes| && plan.nodes[root].kind == InputStruct
    ensures r == RebindStruct(ops, plan, root, arguments)
    ensures r.Some? ==> r.value.canonical.Obj? && Project(plan, root, r.value.input) == r.value.canonical
  {
    var rebinder := new ArgumentRebinder(plan);
    r := rebinder.RebindObject(ops, root, arguments);
    if r.Some? { ProjectOfStruct(ops, plan, root, arguments); }
  }
}
