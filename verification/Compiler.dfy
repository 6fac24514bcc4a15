/** internal/binding/compile.go: a depth-first compiler over the type graph with done and
    active sets, appending to a post-order arena. */
module Compiler {
  import opened Text
  import opened Values
  import opened Schema
  import opened Shapes

  datatype NodeKind = NodeString | NodeInt | NodeUint | NodeBool | NodeFloat | NodeBytes | NodeList | NodeMap
    | NodeStruct | NodePointer

  datatype StructField = StructField(name: Bytes, node: nat, omitempty: bool)

  /** One arena node; notation strings are not modelled. */
  datatype TypeNode = TypeNode(kind: NodeKind, typ: nat, bits: nat, elem: nat, fields: seq<StructField>)

  /** The node refers only to earlier nodes, and describes shape s given their shapes. */
  ghost predicate Describes(node: TypeNode, shapes: seq<Shape>, index: nat, s: Shape)
    requires index <= |shapes|
  {
    match node.kind
    case NodeString => s == SString
    case NodeInt => s == SInt(node.bits)
    case NodeUint => s == SUint(node.bits)
    case NodeBool => s == SBool
    case NodeFloat => s == SFloat(node.bits)
    case NodeBytes => s == SBytes
    case NodeList => node.elem < index && s == SList(shapes[node.elem])
    case NodeMap => node.elem < index && s == SMap(shapes[node.elem])
    case NodePointer => node.elem < index && s == SPointer(shapes[node.elem])
    case NodeStruct =>
      s.SStruct? && |s.fields| == |node.fields|
      && forall n :: 0 <= n < |node.fields| ==>
           && node.fields[n].node < index
           && s.fields[n] == ShapeField(node.fields[n].name, node.fields[n].omitempty, shapes[node.fields[n].node])
  }

  /** Node i describes shapes[i] and is the one node of its type. */
  ghost predicate NodeGood(nodes: seq<TypeNode>, shapes: seq<Shape>, done: map<nat, nat>, i: nat)
    requires i < |nodes| == |shapes|
  {
    Describes(nodes[i], shapes, i, shapes[i]) && nodes[i].typ in done && done[nodes[i].typ] == i
  }

  ghost predicate TypeGood(u: Universe, nodes: seq<TypeNode>, shapes: seq<Shape>, done: map<nat, nat>, t: nat)
    requires t in done && |nodes| == |shapes|
  {
    done[t] < |nodes| && nodes[done[t]].typ == t && Unrolls(u, t, false, shapes[done[t]])
  }

  /** Every node is a finished type, and every finished type has its one node. */
  ghost predicate ArenaGood(u: Universe, nodes: seq<TypeNode>, shapes: seq<Shape>, done: map<nat, nat>) {
    && |shapes| == |nodes|
    && (forall i {:trigger NodeGood(nodes, shapes, done, i)} :: 0 <= i < |nodes| ==> NodeGood(nodes, shapes, done, i))
    && (forall t {:trigger TypeGood(u, nodes, shapes, done, t)} :: t in done ==> TypeGood(u, nodes, shapes, done, t))
  }

  lemma ArenaGrows(u: Universe, nodes: seq<TypeNode>, shapes: seq<Shape>, done: map<nat, nat>, t: nat,
                   node: TypeNode, shape: Shape)
    requires ArenaGood(u, nodes, shapes, done) && t !in done && node.typ == t
    requires Describes(node, shapes, |nodes|, shape) && Unrolls(u, t, false, shape)
    ensures ArenaGood(u, nodes + [node], shapes + [shape], done[t := |nodes|])
  {
    var more, moreShapes, moreDone := nodes + [node], shapes + [shape], done[t := |nodes|];
    forall i | 0 <= i < |more| ensures NodeGood(more, moreShapes, moreDone, i) {
      if i < |nodes| { assert NodeGood(nodes, shapes, done, i); }
    }
    forall d | d in moreDone ensures TypeGood(u, more, moreShapes, moreDone, d) {
      if d != t { assert TypeGood(u, nodes, shapes, done, d); }
    }
  }

  class TypeCompiler {
    const u: Universe
    var nodes: seq<TypeNode>
    var done: map<nat, nat>
    var active: set<nat>
    ghost var shapes: seq<Shape>

    constructor (u: Universe)
      ensures this.u == u && nodes == [] && shapes == [] && done == map[] && active == {}
    {
      this.u, nodes, shapes, done, active := u, [], [], map[], {};
    }

    /** Between steps the arena is good and no finished type is still being compiled. */
    ghost predicate Valid()
      reads this
    {
      && ArenaGood(u, nodes, shapes, done)
      && done.Keys !! active
      && (forall t :: t in active ==> t < |u.types|)
    }

    /** What a compilation is told, ghostly: the shape of t, if it has one, and the larger
        shapes of the types being compiled around it. */
    ghost predicate Told(t: nat, keywords: bool, h: Option<Shape>, trees: map<nat, Shape>)
      reads this
    {
      h.Some? ==> Unrolls(u, t, keywords, h.value)
                  && forall a :: a in active ==> a in trees && Unrolls(u, a, false, trees[a])
                                                 && Size(h.value) < Size(trees[a])
    }

    ghost predicate Grown(before: seq<TypeNode>, shapesBefore: seq<Shape>, doneBefore: map<nat, nat>,
                          activeBefore: set<nat>)
      reads this
    {
      && before <= nodes && shapesBefore <= shapes && active == activeBefore
      && (forall t :: t in doneBefore ==> t in done && done[t] == doneBefore[t])
    }

    /** compile: an index whose node unrolls t, or None only where t has no shape at all. */
    method Compile(t: nat, keywords: bool, ghost h: Option<Shape>, ghost trees: map<nat,
                   Shape>) returns (r: Option<nat>)
      requires KnowsDigits(u.names) && Valid() && (keywords ==> done == map[]) && Told(t, keywords, h, trees)
      modifies this
      ensures Valid() && Grown(old(nodes), old(shapes), old(done), old(active))
      ensures r.Some? ==> r.value < |nodes| && t in done && done[t] == r.value
                          && Unrolls(u, t, keywords, shapes[r.value])
      ensures r.None? ==> h.None?
      decreases |u.types| - |active|, 0
    {
      if t >= |u.types| { return None; }
      if t in done {
        assert TypeGood(u, nodes, shapes, done, t);
        return Some(done[t]);
      }
      if t in active {
        if h.Some? { ShapeUnique(u, t, keywords, false, h.value, trees[t]); }
        return None;
      }
      active := active + {t};
      SmallSet(active, |u.types|);
      ghost var inside := trees;
      if h.Some? {
        if keywords { KeywordsStricter(u, t, h.value); }
        inside := trees[t := h.value];
      }
      var node; ghost var shape;
      node, shape := CompileNew(t, keywords, h, inside);
      active := active - {t};
      if node.None? { return None; }
      if keywords { KeywordsStricter(u, t, shape); }
      var index := Finish(t, node.value, shape);
      return Some(index);
    }

    /** append and the done entry of one finished type. */
    method Finish(t: nat, node: TypeNode, ghost shape: Shape) returns (index: nat)
      requires Valid() && t !in done && t !in active && node.typ == t
      requires Describes(node, shapes, |nodes|, shape) && Unrolls(u, t, false, shape)
      modifies this`nodes, this`shapes, this`done
      ensures Valid() && Grown(old(nodes), old(shapes), old(done), old(active))
      ensures index < |nodes| && t in done && done[t] == index && shapes[index] == shape
    {
      index := |nodes|;
      ArenaGrows(u, nodes, shapes, done, t, node, shape);
      nodes, shapes, done := nodes + [node], shapes + [shape], done[t := index];
    }

    /** compileNew on a type now active: its node, to be appended by the caller. */
    method CompileNew(t: nat, keywords: bool, ghost h: Option<Shape>, ghost trees: map<nat, Shape>)
      returns (r: Option<TypeNode>, ghost s: Shape)
      requires KnowsDigits(u.names) && Valid() && (keywords ==> done == map[]) && t in active && t !in done
      requires h.Some? ==> Unrolls(u, t, keywords, h.value)
      requires h.Some? ==> forall a :: a in active
                             ==> a in trees && Unrolls(u, a, false, trees[a]) && Size(h.value) <= Size(trees[a])
      modifies this
      ensures Valid() && Grown(old(nodes), old(shapes), old(done), old(active)) && t !in done
      ensures r.Some? ==> r.value.typ == t && Describes(r.value, shapes, |nodes|, s) && Unrolls(u, t, keywords, s)
      ensures r.None? ==> h.None?
      decreases |u.types| - |active|, 3
    {
      s := SString;
      if u.forbidden(t) { return None, s; }
      match u.types[t]
      case TString => r, s := Some(TypeNode(NodeString, t, 0, 0, [])), SString;
      case TBool => r, s := Some(TypeNode(NodeBool, t, 0, 0, [])), SBool;
      case TInt(bits) => r, s := Some(TypeNode(NodeInt, t, bits, 0, [])), SInt(bits);
      case TUint(bits) => r, s := Some(TypeNode(NodeUint, t, bits, 0, [])), SUint(bits);
      case TFloat(bits) => r, s := Some(TypeNode(NodeFloat, t, bits, 0, [])), SFloat(bits);
      case TPointer(elem) =>
        if u.dir.InputDirection? && IsPointer(u, elem) { return None, s; }
        var index := Compile(elem, keywords, if h.Some? then Some(h.value.elem) else None, trees);
        if index.None? { return None, s; }
        r, s := Some(TypeNode(NodePointer, t, 0, index.value, [])), SPointer(shapes[index.value]);
      case TSlice(elem) => r, s := CompileSequence(t, elem, keywords, h, trees);
      case TArray(elem) =>
        if u.dir.InputDirection? { return None, s; }
        r, s := CompileSequence(t, elem, keywords, h, trees);
      case TMap(key, elem) =>
        if !KeyAllowed(u, key) { return None, s; }
        var index := Compile(elem, keywords, if h.Some? then Some(h.value.elem) else None, trees);
        if index.None? { return None, s; }
        r, s := Some(TypeNode(NodeMap, t, 0, index.value, [])), SMap(shapes[index.value]);
      case TStruct(fields) => r, s := CompileStruct(t, fields, keywords, h, trees);
      case TOther => return None, s;
    }

    method CompileSequence(t: nat, elem: nat, keywords: bool, ghost h: Option<Shape>, ghost trees: map<nat, Shape>)
      returns (r: Option<TypeNode>, ghost s: Shape)
      requires KnowsDigits(u.names) && Valid() && (keywords ==> done == map[]) && t in active && t !in done
               && Plain(u, t)
      requires u.types[t] == TSlice(elem) || (u.types[t] == TArray(elem) && u.dir.OutputDirection?)
      requires h.Some? ==> Unrolls(u, t, keywords, h.value)
      requires h.Some? ==> forall a :: a in active
                             ==> a in trees && Unrolls(u, a, false, trees[a]) && Size(h.value) <= Size(trees[a])
      modifies this
      ensures Valid() && Grown(old(nodes), old(shapes), old(done), old(active)) && t !in done
      ensures r.Some? ==> r.value.typ == t && Describes(r.value, shapes, |nodes|, s) && Unrolls(u, t, keywords, s)
      ensures r.None? ==> h.None?
      decreases |u.types| - |active|, 1
    {
      s := SString;
      if ByteSequence(u, elem) { return Some(TypeNode(NodeBytes, t, 0, 0, [])), SBytes; }
      var index := Compile(elem, keywords, if h.Some? then Some(h.value.elem) else None, trees);
      if index.None? { return None, s; }
      r, s := Some(TypeNode(NodeList, t, 0, index.value, [])), SList(shapes[index.value]);
    }

    /** The fields compiled so far. */
    ghost predicate FieldsDone(fields: seq<GoField>, keywords: bool, compiled: seq<StructField>, made: seq<ShapeField>)
      reads this
    {
      && |compiled| == |made| <= |fields|
      && forall n :: 0 <= n < |made| ==>
           && compiled[n].node < |shapes|
           && made[n] == ShapeField(compiled[n].name, compiled[n].omitempty, shapes[compiled[n].node])
           && FieldAllowed(u, fields[n], keywords) && made[n].name == fields[n].name.value
           && made[n].omitempty == fields[n].omitempty
           && Unrolls(u, fields[n].typ, false, made[n].shape)
    }

    method CompileStruct(t: nat, fields: seq<GoField>, keywords: bool, ghost h: Option<Shape>, ghost trees: map<nat,
                         Shape>)
      returns (r: Option<TypeNode>, ghost s: Shape)
      requires KnowsDigits(u.names) && Valid() && (keywords ==> done == map[]) && t in active && t !in done
               && Plain(u, t)
      requires u.types[t] == TStruct(fields)
      requires h.Some? ==> Unrolls(u, t, keywords, h.value)
      requires h.Some? ==> forall a :: a in active
                             ==> a in trees && Unrolls(u, a, false, trees[a]) && Size(h.value) <= Size(trees[a])
      modifies this
      ensures Valid() && Grown(old(nodes), old(shapes), old(done), old(active)) && t !in done
      ensures r.Some? ==> r.value.typ == t && Describes(r.value, shapes, |nodes|, s) && Unrolls(u, t, keywords, s)
      ensures r.None? ==> h.None?
      decreases |u.types| - |active|, 2
    {
      s := SString;
      var compiled: seq<StructField> := [];
      ghost var made: seq<ShapeField> := [];
      var seen: set<Bytes> := {};
      for n := 0 to |fields|
        invariant Valid() && Grown(old(nodes), old(shapes), old(done), old(active))
        invariant |made| == n && FieldsDone(fields, keywords, compiled, made)
        invariant SeenIs(fields, n, seen)
      {
        var next; ghost var field;
        next, field := CompileField(t, fields, n, keywords, seen, h, trees);
        if next.None? { return None, s; }
        FieldSeen(fields, n, seen);
        seen, compiled, made := seen + {next.value.name}, compiled + [next.value], made + [field];
      }
      assert fields[..|fields|] == fields;
      r, s := Some(TypeNode(NodeStruct, t, 0, 0, compiled)), SStruct(made);
    }

    /** One field: its name rule, the omitempty rule, uniqueness, and its type. */
    method CompileField(ghost t: nat, fields: seq<GoField>, n: nat, keywords: bool, seen: set<Bytes>,
                        ghost h: Option<Shape>, ghost trees: map<nat, Shape>)
      returns (r: Option<StructField>, ghost made: ShapeField)
      requires KnowsDigits(u.names) && Valid() && t in active && t !in done && Plain(u, t)
               && u.types[t] == TStruct(fields)
      requires n < |fields| && SeenIs(fields, n, seen)
      requires h.Some? ==> Unrolls(u, t, keywords, h.value)
      requires h.Some? ==> forall a :: a in active
                             ==> a in trees && Unrolls(u, a, false, trees[a]) && Size(h.value) <= Size(trees[a])
      modifies this
      ensures Valid() && Grown(old(nodes), old(shapes), old(done), old(active)) && t !in done
      ensures r.Some? ==>
        && r.value.node < |shapes| && made == ShapeField(r.value.name, r.value.omitempty, shapes[r.value.node])
        && FieldAllowed(u, fields[n], keywords) && made.name == fields[n].name.value
        && made.omitempty == fields[n].omitempty
        && made.name !in seen && Unrolls(u, fields[n].typ, false, made.shape)
      ensures r.None? ==> h.None?
      decreases |u.types| - |active|, 1
    {
      made := ShapeField([], false, SString);
      var field := fields[n];
      if !FieldAllowed(u, field, keywords) { return None, made; }
      if field.name.value in seen {
        RepeatedName(u, t, fields, n, keywords, seen, h);
        return None, made;
      }
      ghost var child := None;
      if h.Some? {
        child := Some(h.value.fields[n].shape);
        FieldIsSmaller(h.value.fields, n, |fields|);
      }
      var index := Compile(field.typ, false, child, trees);
      if index.None? { return None, made; }
      made := ShapeField(field.name.value, field.omitempty, shapes[index.value]);
      r := Some(StructField(field.name.value, index.value, field.omitempty));
    }
  }

  /** seen holds the names of the first n fields, which are distinct. */
  ghost predicate SeenIs(fields: seq<GoField>, n: nat, seen: set<Bytes>)
    requires n <= |fields|
  {
    && (forall i :: 0 <= i < n ==> fields[i].name.Some? && fields[i].name.value in seen)
    && (forall name :: name in seen ==> exists i :: 0 <= i < n && fields[i].name == Some(name))
    && DistinctNames(fields[..n])
  }

  /** A struct with a repeated name has no shape. */
  lemma RepeatedName(u: Universe, t: nat, fields: seq<GoField>, n: nat, keywords: bool, seen: set<Bytes>,
                     h: Option<Shape>)
    requires Plain(u, t) && u.types[t] == TStruct(fields) && n < |fields| && SeenIs(fields, n, seen)
    requires fields[n].name.Some? && fields[n].name.value in seen
    requires h.Some? ==> Unrolls(u, t, keywords, h.value)
    ensures h.None?
  {
    var i :| 0 <= i < n && fields[i].name == Some(fields[n].name.value);
    assert !DistinctNames(fields);
  }

  lemma FieldSeen(fields: seq<GoField>, n: nat, seen: set<Bytes>)
    requires n < |fields| && SeenIs(fields, n, seen) && fields[n].name.Some? && fields[n].name.value !in seen
    ensures SeenIs(fields, n + 1, seen + {fields[n].name.value})
  {
    var more := seen + {fields[n].name.value};
    forall name | name in more ensures exists i :: 0 <= i < n + 1 && fields[i].name == Some(name) {
      if name in seen {
        var i :| 0 <= i < n && fields[i].name == Some(name);
      } else {
        assert fields[n].name == Some(name);
      }
    }
  }

  /** What compileType returns: a post-order arena, its root, and ghostly its shapes. */
  datatype Arena = Arena(root: nat, nodes: seq<TypeNode>)

  /** Types are compiled at most once, children come before parents, and node i has the one
      shape of its type. */
  ghost predicate ArenaOf(u: Universe, t: nat, keywords: bool, arena: Arena, shapes: seq<Shape>) {
    && |shapes| == |arena.nodes| && arena.root < |arena.nodes|
    && arena.nodes[arena.root].typ == t && Unrolls(u, t, keywords, shapes[arena.root])
    && (forall i :: 0 <= i < |arena.nodes|
          ==> Describes(arena.nodes[i], shapes, i, shapes[i]) && Unrolls(u, arena.nodes[i].typ, false, shapes[i]))
    && (forall i, j :: 0 <= i < j < |arena.nodes| ==> arena.nodes[i].typ != arena.nodes[j].typ)
  }

  lemma ArenaIs(u: Universe, t: nat, keywords: bool, nodes: seq<TypeNode>, shapes: seq<Shape>, done: map<nat, nat>)
    requires ArenaGood(u, nodes, shapes, done) && t in done && done[t] < |nodes|
             && Unrolls(u, t, keywords, shapes[done[t]])
    ensures ArenaOf(u, t, keywords, Arena(done[t], nodes), shapes)
  {
    assert TypeGood(u, nodes, shapes, done, t);
    forall i | 0 <= i < |nodes|
      ensures Describes(nodes[i], shapes, i, shapes[i]) && Unrolls(u, nodes[i].typ, false, shapes[i]) {
      assert NodeGood(nodes, shapes, done, i) && TypeGood(u, nodes, shapes, done, nodes[i].typ);
    }
    forall i, j | 0 <= i < j < |nodes| ensures nodes[i].typ != nodes[j].typ {
      assert NodeGood(nodes, shapes, done, i) && NodeGood(nodes, shapes, done, j);
    }
  }

  /** compileType on a root struct. It always terminates, and succeeds exactly when the root
      unrolls to a finite shape: everything it reaches is supported and nothing is cyclic. */
  method CompileType(u: Universe, root: nat) returns (r: Option<Arena>, ghost shapes: seq<Shape>)
    requires KnowsDigits(u.names) && root < |u.types| && u.types[root].TStruct?
    ensures r.Some? <==> exists s :: Unrolls(u, root, u.dir.InputDirection?, s)
    ensures r.Some? ==> ArenaOf(u, root, u.dir.InputDirection?, r.value, shapes)
  {
    var compiler := new TypeCompiler(u);
    ghost var h := None;
    if s :| Unrolls(u, root, u.dir.InputDirection?, s) { h := Some(s); }
    var index := compiler.Compile(root, u.dir.InputDirection?, h, map[]);
    if index.None? { return None, []; }
    ArenaIs(u, root, u.dir.InputDirection?, compiler.nodes, compiler.shapes, compiler.done);
    return Some(Arena(index.value, compiler.nodes)), compiler.shapes;
  }

  // ----- the input projection -----

  /** The supported integer widths. */
  ghost predicate KnownWidths(u: Universe) {
    forall t :: 0 <= t < |u.types| && (u.types[t].TInt? || u.types[t].TUint?) ==>
      var b := u.types[t].bits; b == 8 || b == 16 || b == 32 || b == 64
  }

  function Pow2(n: nat): (p: nat)
    ensures p >= 1
  {
    if n == 0 then 1 else 2 * Pow2(n - 1)
  }

  function IntBound(bits: nat): int {
    match bits
    case 8 => 0x80
    case 16 => 0x8000
    case 32 => 0x8000_0000
    case _ => 0x8000_0000_0000_0000
  }

  function UintMax(bits: nat): Int64 {
    match bits
    case 8 => 0xFF
    case 16 => 0xFFFF
    case 32 => 0xFFFF_FFFF
    case _ => 0x7FFF_FFFF_FFFF_FFFF
  }

  /** projectInputNode. */
  function ProjectNode(node: TypeNode): InputNode {
    match node.kind
    case NodeString => InputNode(InputString, 0, None, 0, 0, false)
    case NodeBool => InputNode(InputBool, 0, None, 0, 0, false)
    case NodeInt => InputNode(InputInt, 0, None, -IntBound(node.bits), IntBound(node.bits) - 1, false)
    case NodeUint =>
      InputNode(InputInt, 0, None, 0, UintMax(node.bits), false)
    case NodeFloat => InputNode(InputFloat, 0, None, 0, 0, node.bits == 32)
    case NodeList => InputNode(InputList, node.elem, None, 0, 0, false)
    case NodeMap => InputNode(InputMap, node.elem, None, 0, 0, false)
    case NodePointer => InputNode(InputOptional, node.elem, None, 0, 0, false)
    case NodeStruct => InputNode(InputStruct, 0, Some(ProjectFields(node.fields)), 0, 0, false)
    case NodeBytes => InputNode(UnknownKind, 0, None, 0, 0, false)
  }

  function ProjectFields(fields: seq<StructField>): (r: seq<InputField>)
    ensures |r| == |fields| && forall i :: 0 <= i < |r| ==> r[i] == InputField(fields[i].name, fields[i].node)
  {
    seq(|fields|, i requires 0 <= i < |fields| => InputField(fields[i].name, fields[i].node))
  }

  /** projectInputSchema. */
  method ProjectSchema(arena: Arena) returns (schema: InputSchema)
    ensures schema == Projection(arena)
  {
    var nodes: seq<InputNode> := [];
    for n := 0 to |arena.nodes|
      invariant |nodes| == n && forall i :: 0 <= i < n ==> nodes[i] == ProjectNode(arena.nodes[i])
    {
      nodes := nodes + [ProjectNode(arena.nodes[n])];
    }
    schema := InputSchema(arena.root, nodes);
  }

  ghost function Projection(arena: Arena): (s: InputSchema)
    ensures s.root == arena.root && |s.nodes| == |arena.nodes|
            && forall i :: 0 <= i < |s.nodes| ==> s.nodes[i] == ProjectNode(arena.nodes[i])
  {
    InputSchema(arena.root, seq(|arena.nodes|, i requires 0 <= i < |arena.nodes| => ProjectNode(arena.nodes[i])))
  }

  /** The bounds of a projected integer are what its Go type holds and an int64 can carry. */
  lemma ProjectedRange(node: TypeNode, i: int)
    requires (node.kind == NodeInt || node.kind == NodeUint)
             && (node.bits == 8 || node.bits == 16 || node.bits == 32 || node.bits == 64)
    requires -0x8000_0000_0000_0000 <= i < 0x8000_0000_0000_0000
    ensures ProjectNode(node).intMin <= i <= ProjectNode(node).intMax <==>
            if node.kind == NodeInt then 0 - Pow2(node.bits - 1) <= i < Pow2(node.bits - 1)
            else 0 <= i < Pow2(node.bits)
  {
    PowersOfTwo();
  }

  lemma Doubled(n: nat)
    ensures Pow2(n + 1) == 2 * Pow2(n) && Pow2(n + 2) == 4 * Pow2(n) && Pow2(n + 4) == 16 * Pow2(n)
            && Pow2(n + 8) == 256 * Pow2(n)
  {
    assert Pow2(n + 2) == 2 * Pow2(n + 1) && Pow2(n + 3) == 2 * Pow2(n + 2) && Pow2(n + 4) == 2 * Pow2(n + 3);
    assert Pow2(n + 5) == 2 * Pow2(n + 4) && Pow2(n + 6) == 2 * Pow2(n + 5) && Pow2(n + 7) == 2 * Pow2(n + 6)
           && Pow2(n + 8) == 2 * Pow2(n + 7);
  }

  lemma PowersOfTwo()
    ensures Pow2(7) == 0x80 && Pow2(8) == 0x100 && Pow2(15) == 0x8000 && Pow2(16) == 0x1_0000
    ensures Pow2(31) == 0x8000_0000 && Pow2(32) == 0x1_0000_0000 && Pow2(63) == 0x8000_0000_0000_0000
            && Pow2(64) == 0x1_0000_0000_0000_0000
  {
    assert Pow2(0) == 1;
    Doubled(0);
    Doubled(8);
    Doubled(16);
    Doubled(24);
    Doubled(32);
    Doubled(40);
    Doubled(48);
    Doubled(56);
    assert Pow2(8) == 2 * Pow2(7) && Pow2(16) == 2 * Pow2(15) && Pow2(32) == 2 * Pow2(31) && Pow2(64) == 2 * Pow2(63);
  }

  lemma KindOfNode(u: Universe, root: nat, arena: Arena, shapes: seq<Shape>, i: nat)
    requires ArenaOf(u, root, true, arena, shapes) && u.dir.InputDirection? && i < |arena.nodes|
    ensures var node := arena.nodes[i];
            && node.typ < |u.types| && PointsBack(ProjectNode(node), i)
            && (node.kind == NodePointer <==> u.types[node.typ].TPointer?)
            && (node.kind == NodePointer ==> node.elem < i && !IsPointer(u, arena.nodes[node.elem].typ))
            && (node.kind == NodeInt ==> u.types[node.typ] == TInt(node.bits))
            && (node.kind == NodeUint ==> u.types[node.typ] == TUint(node.bits))
            && node.kind != NodeBytes
  {
    var node := arena.nodes[i];
    assert Describes(node, shapes, i, shapes[i]) && Unrolls(u, node.typ, false, shapes[i]);
    if node.kind == NodePointer {
      assert Unrolls(u, arena.nodes[node.elem].typ, false, shapes[node.elem]);
      PointerShape(u, u.types[node.typ].elem, arena.nodes[node.elem].typ, shapes[node.elem]);
    }
  }

  /** Whether a type is a pointer shows in its shape. */
  lemma PointerShape(u: Universe, t: nat, other: nat, s: Shape)
    requires Unrolls(u, t, false, s) && Unrolls(u, other, false, s)
    ensures IsPointer(u, t) == IsPointer(u, other)
  {}

  lemma StructNodeOk(u: Universe, root: nat, arena: Arena, shapes: seq<Shape>, i: nat, keywords: bool)
    requires KnowsDigits(u.names) && ArenaOf(u, root, true, arena, shapes) && i < |arena.nodes|
             && arena.nodes[i].kind == NodeStruct
    requires Unrolls(u, arena.nodes[i].typ, keywords, shapes[i])
    ensures var fields := ProjectFields(arena.nodes[i].fields);
            && DistinctFields(fields)
            && forall n :: 0 <= n < |fields| ==>
                 && ValidJsonName(u.names, fields[n].name) && ValidUtf8(fields[n].name)
                 && (keywords ==> ValidIdentifier(u.names, fields[n].name))
  {
    var node := arena.nodes[i];
    assert Describes(node, shapes, i, shapes[i]);
    var declared := u.types[node.typ].fields;
    forall n | 0 <= n < |node.fields|
      ensures ValidJsonName(u.names, node.fields[n].name) && ValidUtf8(node.fields[n].name)
      ensures keywords ==> ValidIdentifier(u.names, node.fields[n].name)
      ensures declared[n].name == Some(node.fields[n].name)
    {
      assert FieldAllowed(u, declared[n], keywords);
      if keywords { IdentifierIsJsonName(u.names, declared[n].name.value); }
      JsonNameIsUtf8(u.names, declared[n].name.value);
    }
  }

  /** The projection of any compiled input type passes InputSchema.Validate. */
  lemma ProjectionValid(u: Universe, root: nat, arena: Arena, shapes: seq<Shape>)
    requires KnowsDigits(u.names) && KnownWidths(u) && u.dir.InputDirection?
    requires ArenaOf(u, root, true, arena, shapes) && u.types[root].TStruct?
    ensures SchemaOk(u.names, Projection(arena))
  {
    var schema := Projection(arena);
    assert Describes(arena.nodes[arena.root], shapes, arena.root, shapes[arena.root]);
    StructNodeOk(u, root, arena, shapes, arena.root, true);
    forall i | 0 <= i < |schema.nodes| ensures NodeOk(u.names, schema.nodes, i) {
      ProjectedNodeOk(u, root, arena, shapes, i);
    }
  }

  lemma ProjectedNodeOk(u: Universe, root: nat, arena: Arena, shapes: seq<Shape>, i: nat)
    requires KnowsDigits(u.names) && KnownWidths(u) && u.dir.InputDirection?
    requires ArenaOf(u, root, true, arena, shapes) && i < |arena.nodes|
    ensures NodeOk(u.names, Projection(arena).nodes, i)
  {
    var node := arena.nodes[i];
    assert Projection(arena).nodes[i] == ProjectNode(node);
    KindOfNode(u, root, arena, shapes, i);
    if node.kind == NodeStruct {
      assert Unrolls(u, node.typ, false, shapes[i]);
      StructNodeOk(u, root, arena, shapes, i, false);
    } else if node.kind == NodePointer {
      KindOfNode(u, root, arena, shapes, node.elem);
      assert Projection(arena).nodes[node.elem] == ProjectNode(arena.nodes[node.elem]);
    }
  }
}
