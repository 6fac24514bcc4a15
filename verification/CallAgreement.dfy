/** The worker's binding, the wire and the parent's re-binding agree on every call. */
module CallAgreement {
  import opened Text
  import opened Values
  import opened Wire
  import opened Json
  import opened Codec
  import opened Starlark
  import opened Frames
  import opened Schema
  import opened Binder
  import opened Rebinder
  import Compiler
  import Shapes

  // ----- what the worker binds is canonical -----

  lemma {:induction false} ConvertIsCanonical(ops: FloatOps, plan: Plan, store: Store, index: nat, value: Star)
    requires Rounds(ops) && PlanOk(plan) && Convert(ops, plan.nodes, store, index, value).Some?
    ensures Canonical(ops, plan, index, Convert(ops, plan.nodes, store, index, value).value.value)
    ensures !IsOptional(plan.nodes, index) ==> !Convert(ops, plan.nodes, store, index, value).value.value.Null?
    decreases index, 1, 0
  {
    assert NodeFine(plan, index);
    var node := plan.nodes[index];
    match node.kind
    case InputOptional => if !value.NoneStar? { ConvertIsCanonical(ops, plan, store, node.elem, value); }
    case InputList =>
      var items := SequenceOf(store, value).value;
      ItemsCanonical(ops, plan, store, node.elem, items, |items|);
    case InputMap =>
      var entries := DictOf(store, value).value;
      MapCanonical(ops, plan, store, node.elem, entries, |entries|);
    case InputStruct =>
      var entries := DictOf(store, value).value;
      StructCanonical(ops, plan, store, index, entries);
    case _ =>
  }

  lemma {:induction false} ItemsCanonical(ops: FloatOps, plan: Plan, store: Store, elem: nat, items: seq<Star>, n: nat)
    requires Rounds(ops) && PlanOk(plan) && n <= |items| && ConvertItems(ops, plan.nodes, store, elem, items, n).Some?
    ensures var b := ConvertItems(ops, plan.nodes, store, elem, items, n).value.value;
            forall i :: 0 <= i < |b| ==> Canonical(ops, plan, elem, b[i])
    decreases elem, 2, n
  {
    if n > 0 {
      ItemsCanonical(ops, plan, store, elem, items, n - 1);
      ConvertIsCanonical(ops, plan, store, elem, items[n - 1]);
    }
  }

  lemma {:induction false} MapCanonical(ops: FloatOps, plan: Plan, store: Store, elem: nat, entries: seq<Entry>, n: nat)
    requires Rounds(ops) && PlanOk(plan) && n <= |entries| && ConvertMap(ops, plan.nodes, store, elem, entries, n).Some?
    ensures var b := ConvertMap(ops, plan.nodes, store, elem, entries, n).value.value;
            forall k :: k in b ==> Canonical(ops, plan, elem, b[k])
    decreases elem, 2, n
  {
    if n > 0 {
      MapCanonical(ops, plan, store, elem, entries, n - 1);
      ConvertIsCanonical(ops, plan, store, elem, entries[n - 1].value);
    }
  }

  /** A kept member: declared, canonical for its node and not null. */
  ghost predicate MemberCanonical(ops: FloatOps, plan: Plan, fields: seq<InputField>, k: Bytes, v: Value) {
    && Known(fields, k) && fields[FieldPosition(fields, k).value].node >= 0
    && Canonical(ops, plan, fields[FieldPosition(fields, k).value].node, v) && !v.Null?
  }

  lemma {:induction false} FieldsCanonical(ops: FloatOps, plan: Plan, store: Store, index: nat, entries: seq<Entry>,
                                           n: nat)
    requires Rounds(ops) && PlanOk(plan)
    requires index < |plan.nodes| && plan.nodes[index].kind == InputStruct && PointsBack(plan.nodes[index], index)
    requires n <= |entries| && ConvertFields(ops, plan.nodes, store, index, entries, n).Some?
    ensures var b := ConvertFields(ops, plan.nodes, store, index, entries, n).value.value;
            && (forall k :: k in b ==> MemberCanonical(ops, plan, FieldsOf(plan.nodes[index]), k, b[k]))
            && forall k :: k in NamesOf(entries, n) ==>
                 && Known(FieldsOf(plan.nodes[index]), k)
                 && (k in b || IsOptional(plan.nodes,
                                          FieldsOf(plan.nodes[index])[FieldPosition(FieldsOf(plan.nodes[index]),
                                                                                    k).value].node))
    decreases index, 0, n
  {
    if n > 0 {
      FieldsCanonical(ops, plan, store, index, entries, n - 1);
      var e, fields := entries[n - 1], FieldsOf(plan.nodes[index]);
      var at := FieldPosition(fields, e.key.s).value;
      if !(IsOptional(plan.nodes, fields[at].node) && e.value.NoneStar?) {
        ConvertIsCanonical(ops, plan, store, fields[at].node, e.value);
        CanonicalNotNull(ops, plan, store, fields[at].node, e.value);
      }
    }
  }

  lemma {:induction false} CanonicalNotNull(ops: FloatOps, plan: Plan, store: Store, index: nat, value: Star)
    requires PlanOk(plan) && Convert(ops, plan.nodes, store, index, value).Some?
    requires !(IsOptional(plan.nodes, index) && value.NoneStar?)
    ensures !Convert(ops, plan.nodes, store, index, value).value.value.Null?
    decreases index
  {
    assert NodeFine(plan, index);
    if IsOptional(plan.nodes, index) { CanonicalNotNull(ops, plan, store, plan.nodes[index].elem, value); }
  }

  lemma {:induction false} StructCanonical(ops: FloatOps, plan: Plan, store: Store, index: nat, entries: seq<Entry>)
    requires Rounds(ops) && PlanOk(plan)
    requires index < |plan.nodes| && plan.nodes[index].kind == InputStruct && PointsBack(plan.nodes[index], index)
    requires ConvertStruct(ops, plan.nodes, store, index, entries).Some?
    ensures Canonical(ops, plan, index, Obj(ConvertStruct(ops, plan.nodes, store, index, entries).value.value))
    decreases index, 0, |entries| + 1
  {
    assert NodeFine(plan, index);
    var fields := FieldsOf(plan.nodes[index]);
    var b := ConvertStruct(ops, plan.nodes, store, index, entries).value.value;
    FieldsCanonical(ops, plan, store, index, entries, |entries|);
    FieldNames(ops, plan.nodes, store, index, entries, |entries|);
    forall n | 0 <= n < |fields|
      ensures if fields[n].name in b then Canonical(ops, plan, fields[n].node, b[fields[n].name])
                                          && !b[fields[n].name].Null?
              else IsOptional(plan.nodes, fields[n].node)
    {
      FieldAt(fields, n);
      if fields[n].name in b { assert MemberCanonical(ops, plan, fields, fields[n].name, b[fields[n].name]); }
    }
    forall k | k in b ensures Known(fields, k) { assert MemberCanonical(ops, plan, fields, k, b[k]); }
  }

  lemma SameName(fields: seq<InputField>, i: nat, n: nat)
    requires DistinctFields(fields) && i < |fields| && n < |fields| && fields[i].name == fields[n].name
    ensures i == n
  {}

  lemma FieldAt(fields: seq<InputField>, n: nat)
    requires DistinctFields(fields) && n < |fields|
    ensures FieldPosition(fields, fields[n].name) == Some(n)
  {
    SameName(fields, FieldPosition(fields, fields[n].name).value, n);
  }

  // ----- what the wire does to canonical values -----

  /** Every member name in the arena is valid UTF-8. */
  ghost predicate NamesUtf8(plan: Plan) {
    forall i, n {:trigger FieldsOf(plan.nodes[i])[n]} :: 0 <= i < |plan.nodes| && 0 <= n < |FieldsOf(plan.nodes[i])| ==>
      ValidUtf8(FieldsOf(plan.nodes[i])[n].name)
  }

  lemma ScrubbedScalar(lib: FloatLib, v: Value)
    requires Faithful(lib) && Supported(v) && !v.List? && !v.Obj?
    ensures v.Str? ==> Scrubbed(lib, v) == Str(Utf8(Runes(v.s)))
    ensures !v.Str? ==> Scrubbed(lib, v) == v
  {
    if !v.Str? { NormalizeOf(lib, v); }
  }

  lemma ScrubbedList(lib: FloatLib, v: Value)
    requires Faithful(lib) && Supported(v) && v.List?
    ensures Scrubbed(lib, v).List? && |Scrubbed(lib, v).items| == |v.items|
    ensures forall i :: 0 <= i < |v.items| ==> Scrubbed(lib, v).items[i] == Scrubbed(lib, v.items[i])
  {
    NormalizeTotal(lib, v);
  }

  /** Every member of a scrubbed object is some scrubbed member. */
  lemma ScrubbedMember(lib: FloatLib, v: Value, k: Bytes) returns (from: Bytes)
    requires Faithful(lib) && Supported(v) && v.Obj? && k in Scrubbed(lib, v).fields
    ensures from in v.fields && Scrubbed(lib, v).fields[k] == Scrubbed(lib, v.fields[from])
  {
    NormalizeTotal(lib, v);
    var keys := SortedKeys(v.fields.Keys);
    KeysFromSet(v, keys);
    var members := JsonMembers(lib, v, keys);
    from := keys[Survivors(members)[k]];
  }

  lemma ScrubbedThrough(lib: FloatLib, v: Value, keys: seq<Bytes>, expected: map<Bytes, Value>)
    requires Faithful(lib) && Supported(v) && KeysOf(v, keys) && Sorted(keys) && KeySet(keys) == v.fields.Keys
    requires forall i :: 0 <= i < |keys| ==> ValidUtf8(keys[i])
    requires expected.Keys == v.fields.Keys && forall k :: k in expected ==> expected[k] == Scrubbed(lib, v.fields[k])
    ensures Normalize(lib, JObject(JsonMembers(lib, v, keys))) == Some(Obj(expected))
  {
    SurvivingMembers(lib, v, keys);
    forall k | k in expected ensures Normalize(lib, JsonOf(lib, v.fields[k])) == Some(expected[k]) {
      NormalizeTotal(lib, v.fields[k]);
    }
    NormalizeObject(lib, JsonMembers(lib, v, keys), expected);
  }

  /** With valid UTF-8 names no member is lost or renamed. */
  lemma ScrubbedObject(lib: FloatLib, v: Value)
    requires Faithful(lib) && Supported(v) && v.Obj? && forall k :: k in v.fields ==> ValidUtf8(k)
    ensures Scrubbed(lib, v) == Obj(map k | k in v.fields :: Scrubbed(lib, v.fields[k]))
  {
    var keys, expected := SortedKeys(v.fields.Keys), map k | k in v.fields :: Scrubbed(lib, v.fields[k]);
    KeysFromSet(v, keys);
    ScrubbedThrough(lib, v, keys, expected);
  }

  lemma {:induction false} CanonicalSupported(ops: FloatOps, plan: Plan, index: nat, v: Value)
    requires Canonical(ops, plan, index, v)
    ensures Supported(v)
    decreases index
  {
    var node := plan.nodes[index];
    match node.kind
    case InputOptional => if !v.Null? { CanonicalSupported(ops, plan, node.elem, v); }
    case InputList =>
      forall i | 0 <= i < |v.items| ensures Supported(v.items[i]) {
        CanonicalSupported(ops, plan, node.elem, v.items[i]);
      }
    case InputMap =>
      forall k | k in v.fields ensures Supported(v.fields[k]) {
        CanonicalSupported(ops, plan, node.elem, v.fields[k]);
      }
    case InputStruct =>
      forall k | k in v.fields ensures Supported(v.fields[k]) {
        assert Known(FieldsOf(node), k);
        var at := FieldPosition(FieldsOf(node), k).value;
        CanonicalMember(ops, plan, index, v, at);
        CanonicalSupported(ops, plan, FieldsOf(node)[at].node, v.fields[k]);
      }
    case _ =>
  }

  /** Whatever the wire makes of a canonical value is canonical again. */
  lemma {:induction false} ScrubbedCanonical(lib: FloatLib, ops: FloatOps, plan: Plan, index: nat, v: Value)
    requires Faithful(lib) && PlanOk(plan) && NamesUtf8(plan) && Canonical(ops, plan, index, v) && Supported(v)
    ensures Canonical(ops, plan, index, Scrubbed(lib, v))
    ensures !v.Null? ==> !Scrubbed(lib, v).Null?
    decreases index
  {
    var node := plan.nodes[index];
    match node.kind
    case InputOptional =>
      if !v.Null? {
        ScrubbedCanonical(lib, ops, plan, node.elem, v);
      } else {
        ScrubbedScalar(lib, v);
      }
    case InputList =>
      ScrubbedList(lib, v);
      forall i | 0 <= i < |v.items| ensures Canonical(ops, plan, node.elem, Scrubbed(lib, v.items[i])) {
        ScrubbedCanonical(lib, ops, plan, node.elem, v.items[i]);
      }
    case InputMap =>
      NormalizeTotal(lib, v);
      forall k | k in Scrubbed(lib, v).fields ensures Canonical(ops, plan, node.elem, Scrubbed(lib, v).fields[k]) {
        var from := ScrubbedMember(lib, v, k);
        ScrubbedCanonical(lib, ops, plan, node.elem, v.fields[from]);
      }
    case InputStruct => ScrubbedStruct(lib, ops, plan, index, v);
    case _ => ScrubbedScalar(lib, v);
  }

  lemma {:induction false} ScrubbedStruct(lib: FloatLib, ops: FloatOps, plan: Plan, index: nat, v: Value)
    requires Faithful(lib) && PlanOk(plan) && NamesUtf8(plan) && Canonical(ops, plan, index, v) && Supported(v)
    requires plan.nodes[index].kind == InputStruct
    ensures Canonical(ops, plan, index, Scrubbed(lib, v))
    ensures Scrubbed(lib, v).Obj?
    decreases index, 0
  {
    var fields := FieldsOf(plan.nodes[index]);
    NormalizeTotal(lib, v);
    forall k | k in v.fields ensures ValidUtf8(k) {
      assert Known(fields, k);
      assert ValidUtf8(FieldsOf(plan.nodes[index])[FieldPosition(fields, k).value].name);
    }
    ScrubbedObject(lib, v);
    var w := Scrubbed(lib, v);
    forall n | 0 <= n < |fields|
      ensures if fields[n].name in w.fields then Canonical(ops, plan, fields[n].node, w.fields[fields[n].name])
                                                 && !w.fields[fields[n].name].Null?
              else IsOptional(plan.nodes, fields[n].node)
    {
      CanonicalMember(ops, plan, index, v, n);
      if fields[n].name in v.fields { ScrubbedCanonical(lib, ops, plan, fields[n].node, v.fields[fields[n].name]); }
    }
  }

  // ----- the whole call -----

  ghost predicate RootOk(plan: Plan, root: nat) { root < |plan.nodes| && plan.nodes[root].kind == InputStruct }

  /** The two bindings agree exactly: whatever map the worker binds, the parent accepts it,
      keeps it unchanged, builds a typed input that says the same, and would do so again. */
  lemma BothSidesAgree(ops: FloatOps, plan: Plan, root: nat, store: Store, kwargs: seq<Entry>)
    requires Rounds(ops) && PlanOk(plan) && RootOk(plan, root)
    requires ConvertCall(ops, InputSchema(root, plan.nodes), store, kwargs).Some?
    ensures var m := ConvertCall(ops, InputSchema(root, plan.nodes), store, kwargs).value.value;
            && m.Obj? && RebindStruct(ops, plan, root, m.fields).Some?
            && RebindStruct(ops, plan, root, m.fields).value.canonical == m
            && Project(plan, root, RebindStruct(ops, plan, root, m.fields).value.input) == m
  {
    assert NodeFine(plan, root);
    StructCanonical(ops, plan, store, root, kwargs);
    var m := ConvertCall(ops, InputSchema(root, plan.nodes), store, kwargs).value.value;
    CanonicalStruct(ops, plan, root, m);
    ProjectOfStruct(ops, plan, root, m.fields);
  }

  /** BindValue is idempotent on its own canonical output: the same typed input, the same map. */
  lemma RebindIdempotent(ops: FloatOps, plan: Plan, root: nat, given: map<Bytes, Value>)
    requires Rounds(ops) && PlanOk(plan) && RootOk(plan, root) && RebindStruct(ops, plan, root, given).Some?
    ensures RebindStruct(ops, plan, root, RebindStruct(ops, plan, root, given).value.canonical.fields)
            == RebindStruct(ops, plan, root, given)
  {
    StructStable(ops, plan, root, given);
  }

  /** The same over the wire. The parent always accepts what arrives; what it authorizes and
      hands over is the map the worker bound exactly when the arguments are valid UTF-8. */
  lemma AgreementOverTheWire(lib: FloatLib, ops: FloatOps, printable: char -> bool, plan: Plan, root: nat,
                             store: Store, kwargs: seq<Entry>, id: Bytes)
    requires Faithful(lib) && Rounds(ops) && PlanOk(plan) && NamesUtf8(plan) && RootOk(plan, root) && id != []
    requires ConvertCall(ops, InputSchema(root, plan.nodes), store, kwargs).Some?
    requires Nested(ConvertCall(ops, InputSchema(root, plan.nodes), store, kwargs).value.value, FRAME_NESTING)
    ensures var m := ConvertCall(ops, InputSchema(root, plan.nodes), store, kwargs).value.value;
            && m.Obj? && Supported(m)
            && var frame := DecodePayload(lib, printable, Payload(lib, printable, NativeCall(id, m)));
            && frame.Success? && frame.value.NativeCall? && frame.value.arguments.Obj?
            && var bound := RebindStruct(ops, plan, root, frame.value.arguments.fields);
            && bound.Some? && bound.value.canonical == frame.value.arguments
            && Project(plan, root, bound.value.input) == bound.value.canonical
            && (bound.value.canonical == m <==> AllUtf8(m))
  {
    assert NodeFine(plan, root);
    var m := ConvertCall(ops, InputSchema(root, plan.nodes), store, kwargs).value.value;
    StructCanonical(ops, plan, store, root, kwargs);
    CanonicalSupported(ops, plan, root, m);
    DecodeOfPayload(lib, printable, NativeCall(id, m));
    ScrubbedStruct(lib, ops, plan, root, m);
    ScrubbedIsSame(lib, m);
    var w := Scrubbed(lib, m);
    CanonicalStruct(ops, plan, root, w);
    ProjectOfStruct(ops, plan, root, w.fields);
  }

  // ----- compiled plans -----

  /** The parent's plan for a compiled input arena. */
  ghost function PlanOf(arena: Compiler.Arena): Plan {
    Plan(Compiler.Projection(arena).nodes, (i: nat) => i < |arena.nodes| && arena.nodes[i].kind == Compiler.NodeUint)
  }

  lemma CompiledPlanOk(u: Shapes.Universe, root: nat, arena: Compiler.Arena, shapes: seq<Shapes.Shape>)
    requires KnowsDigits(u.names) && Compiler.KnownWidths(u) && u.dir.InputDirection?
    requires Compiler.ArenaOf(u, root, true, arena, shapes) && u.types[root].TStruct?
    ensures PlanOk(PlanOf(arena)) && NamesUtf8(PlanOf(arena)) && RootOk(PlanOf(arena), arena.root)
  {
    var plan, schema := PlanOf(arena), Compiler.Projection(arena);
    Compiler.ProjectionValid(u, root, arena, shapes);
    forall i | 0 <= i < |plan.nodes| ensures NodeFine(plan, i) {
      assert NodeOk(u.names, schema.nodes, i);
      assert plan.nodes[i] == Compiler.ProjectNode(arena.nodes[i]);
    }
    forall i, n | 0 <= i < |plan.nodes| && 0 <= n < |FieldsOf(plan.nodes[i])|
      ensures ValidUtf8(FieldsOf(plan.nodes[i])[n].name) {
      assert NodeOk(u.names, schema.nodes, i);
      JsonNameIsUtf8(u.names, FieldsOf(plan.nodes[i])[n].name);
    }
  }

  /** For every input type that compiles, worker and parent agree on every call that binds. */
  lemma CompiledCallsAgree(u: Shapes.Universe, root: nat, arena: Compiler.Arena, shapes: seq<Shapes.Shape>,
                           ops: FloatOps, store: Store, kwargs: seq<Entry>)
    requires KnowsDigits(u.names) && Compiler.KnownWidths(u) && u.dir.InputDirection? && Rounds(ops)
    requires Compiler.ArenaOf(u, root, true, arena, shapes) && u.types[root].TStruct?
    requires ConvertCall(ops, Compiler.Projection(arena), store, kwargs).Some?
    ensures var m, plan := ConvertCall(ops, Compiler.Projection(arena), store, kwargs).value.value, PlanOf(arena);
            && RootOk(plan, arena.root) && m.Obj?
            && var bound := RebindStruct(ops, plan, arena.root, m.fields);
            && bound.Some? && bound.value.canonical == m && Project(plan, arena.root, bound.value.input) == m
            && RebindStruct(ops, plan, arena.root, bound.value.canonical.fields) == bound
  {
    CompiledPlanOk(u, root, arena, shapes);
    assert Compiler.Projection(arena) == InputSchema(arena.root, PlanOf(arena).nodes);
    BothSidesAgree(ops, PlanOf(arena), arena.root, store, kwargs);
  }
}
