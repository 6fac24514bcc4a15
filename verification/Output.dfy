/** internal/binding/output.go: a handler's typed output becomes a process-neutral value under
    the converter's budget. */
module Output {
  import opened Text
  import opened Values
  import opened Wire
  import opened Codec
  import opened Unfolding
  import opened Converter
  import opened Encoder
  import opened Shapes
  import opened Compiler

  /** A Go value of an output type. Its type has no cycle, so neither has the value; what two
      pointers share is converted twice. None is a nil pointer, slice or map. */
  datatype Out =
    | OutString(s: Bytes)
    | OutInt(i: Int64)
    | OutUint(u: nat)
    | OutBool(b: bool)
    | OutFloat(x: Float64)
    | OutBytes(bytes: Option<Bytes>)
    | OutList(items: Option<seq<Out>>)
    | OutMap(entries: Option<map<Bytes, Out>>)
    | OutStruct(fields: seq<Out>)
    | OutPointer(target: Option<Out>)

  /** A value where the plan expects it: at a node, or one byte of a byte sequence. */
  datatype Place = At(node: nat, value: Out) | ByteOf(b: Byte)

  /** omitOutputField. */
  predicate Omitted(field: StructField, v: Out) { field.omitempty && v == OutPointer(None) }

  /** The members of a struct that are not omitted, first n fields. */
  function Included(fields: seq<StructField>, values: seq<Out>, n: nat): map<Bytes, Place>
    requires n <= |fields| && n <= |values|
  {
    if n == 0 then map[]
    else if Omitted(fields[n - 1], values[n - 1]) then Included(fields, values, n - 1)
    else Included(fields, values, n - 1)[fields[n - 1].name := At(fields[n - 1].node, values[n - 1])]
  }

  function ScalarOf(kind: NodeKind, v: Out): Option<Value> {
    if kind.NodeString? && v.OutString? then Some(Str(v.s))
    else if kind.NodeInt? && v.OutInt? then Some(Int(v.i))
    else if kind.NodeUint? && v.OutUint? && v.u < 0x8000_0000_0000_0000 then Some(Int(v.u))
    else if kind.NodeBool? && v.OutBool? then Some(Bool(v.b))
    else if kind.NodeFloat? && v.OutFloat? && v.x.Finite? then Some(Real(v.x))
    else None
  }

  function Leaf(v: Option<Value>): View<Place> { if v.Some? then Scalar(v.value) else Rejected }

  /** What a placed value means: pointers are followed, nil is null, omitted fields are absent. */
  function Seen(nodes: seq<TypeNode>, p: Place): View<Place>
    decreases if p.At? then p.node else 0
  {
    match p
    case ByteOf(b) => Scalar(Int(b))
    case At(index, v) =>
      if index >= |nodes| then Rejected
      else
        var node := nodes[index];
        match node.kind
        case NodePointer =>
          if !v.OutPointer? then Rejected
          else if v.target.None? then Scalar(Null)
          else if node.elem < index then Seen(nodes, At(node.elem, v.target.value))
          else Rejected
        case NodeBytes =>
          if !v.OutBytes? then Rejected
          else if v.bytes.None? then Scalar(Null)
          else Sequence(ByteItems(v.bytes.value), None)
        case NodeList =>
          if !v.OutList? then Rejected
          else if v.items.None? then Scalar(Null)
          else Sequence(Items(node.elem, v.items.value), None)
        case NodeMap =>
          if !v.OutMap? then Rejected
          else if v.entries.None? then Scalar(Null)
          else Mapping(Entries(node.elem, v.entries.value), None)
        case NodeStruct =>
          if v.OutStruct? && |v.fields| == |node.fields|
            then Mapping(Included(node.fields, v.fields, |node.fields|), None) else Rejected
        case _ => Leaf(ScalarOf(node.kind, v))
  }

  function ByteItems(bytes: Bytes): (r: seq<Place>)
    ensures |r| == |bytes|
  {
    seq(|bytes|, i requires 0 <= i < |bytes| => ByteOf(bytes[i]))
  }

  function Items(elem: nat, items: seq<Out>): (r: seq<Place>)
    ensures |r| == |items|
  {
    seq(|items|, i requires 0 <= i < |items| => At(elem, items[i]))
  }

  function Entries(elem: nat, entries: map<Bytes, Out>): map<Bytes, Place> {
    map k | k in entries :: At(elem, entries[k])
  }

  function Views(nodes: seq<TypeNode>): Place -> View<Place> { p => Seen(nodes, p) }

  lemma {:induction false} SeenLawful(nodes: seq<TypeNode>, p: Place)
    ensures Seen(nodes, p).Scalar?
            ==> Supported(Seen(nodes, p).value) && !Seen(nodes, p).value.List? && !Seen(nodes, p).value.Obj?
    ensures IdentityOf(Seen(nodes, p)).None?
    decreases if p.At? then p.node else 0
  {
    match p
    case ByteOf(_) =>
    case At(index, v) =>
      if index < |nodes| && nodes[index].kind.NodePointer? && v.OutPointer? && v.target.Some?
        && nodes[index].elem < index {
        SeenLawful(nodes, At(nodes[index].elem, v.target.value));
      }
  }

  lemma ViewsLawful(nodes: seq<TypeNode>)
    ensures LawfulView(Views(nodes))
  {
    forall p ensures Views(nodes)(p).Scalar?
      ==> Supported(Views(nodes)(p).value) && !Views(nodes)(p).value.List? && !Views(nodes)(p).value.Obj? {
      SeenLawful(nodes, p);
    }
    forall p ensures IdentityOf(Views(nodes)(p)).None? { SeenLawful(nodes, p); }
  }

  // ----- the arena -----

  ghost predicate DistinctFieldNames(fields: seq<StructField>) {
    forall i, j :: 0 <= i < j < |fields| ==> fields[i].name != fields[j].name
  }

  /** References point backwards and a struct names no member twice. */
  ghost predicate NodeSound(nodes: seq<TypeNode>, i: nat)
    requires i < |nodes|
  {
    && (nodes[i].kind.NodePointer? || nodes[i].kind.NodeList? || nodes[i].kind.NodeMap? ==> nodes[i].elem < i)
    && (nodes[i].kind.NodeStruct? ==> DistinctFieldNames(nodes[i].fields)
                                      && forall n :: 0 <= n < |nodes[i].fields| ==> nodes[i].fields[n].node < i)
  }

  ghost predicate ArenaSound(nodes: seq<TypeNode>) {
    forall i {:trigger NodeSound(nodes, i)} :: 0 <= i < |nodes| ==> NodeSound(nodes, i)
  }

  // ----- struct members -----

  lemma {:induction false} IncludedFrom(fields: seq<StructField>, values: seq<Out>, n: nat, k: Bytes) returns (i: nat)
    requires n <= |fields| && n <= |values| && k in Included(fields, values, n)
    ensures i < n && !Omitted(fields[i], values[i]) && fields[i].name == k
  {
    i := n - 1;
    if Omitted(fields[i], values[i]) || fields[i].name != k { i := IncludedFrom(fields, values, n - 1, k); }
  }

  lemma {:induction false} IncludedHas(fields: seq<StructField>, values: seq<Out>, n: nat, i: nat)
    requires DistinctFieldNames(fields) && i < n <= |fields| && n <= |values| && !Omitted(fields[i], values[i])
    ensures fields[i].name in Included(fields, values, n)
            && Included(fields, values, n)[fields[i].name] == At(fields[i].node, values[i])
  {
    if i < n - 1 { IncludedHas(fields, values, n - 1, i); }
  }

  /** The keys still to convert once the first n fields are done. */
  ghost function Rest(fields: seq<StructField>, values: seq<Out>, n: nat): set<Bytes>
    requires n <= |fields| <= |values|
  {
    Included(fields, values, |fields|).Keys - Included(fields, values, n).Keys
  }

  /** One more field: left out, or a member of its own. */
  lemma IncludedMore(fields: seq<StructField>, values: seq<Out>, n: nat)
    requires DistinctFieldNames(fields) && n < |fields| <= |values|
    ensures var before, after := Included(fields, values, n), Included(fields, values, n + 1);
            if Omitted(fields[n], values[n]) then after == before
            else fields[n].name !in before && after.Keys == before.Keys + {fields[n].name} && |after| == |before| + 1
  {
    if !Omitted(fields[n], values[n]) {
      if fields[n].name in Included(fields, values, n) { var i := IncludedFrom(fields, values, n, fields[n].name); }
      var before, after := Included(fields, values, n), Included(fields, values, n + 1);
      assert after.Keys == before.Keys + {fields[n].name} && |after.Keys| == |after| && |before.Keys| == |before|;
    }
  }

  lemma RestMore(fields: seq<StructField>, values: seq<Out>, n: nat)
    requires DistinctFieldNames(fields) && n < |fields| <= |values|
    ensures if Omitted(fields[n], values[n]) then Rest(fields, values, n + 1) == Rest(fields, values, n)
            else fields[n].name in Rest(fields, values, n)
                 && Rest(fields, values, n + 1) == Rest(fields, values, n) - {fields[n].name}
                 && Included(fields, values, |fields|)[fields[n].name] == At(fields[n].node, values[n])
  {
    IncludedMore(fields, values, n);
    if !Omitted(fields[n], values[n]) { IncludedHas(fields, values, |fields|, n); }
  }

  /** The first loop of convertStruct. */
  method CountIncluded(fields: seq<StructField>, values: seq<Out>) returns (included: nat)
    requires DistinctFieldNames(fields) && |fields| == |values|
    ensures included == |Included(fields, values, |fields|)|
  {
    included := 0;
    for n := 0 to |fields|
      invariant included == |Included(fields, values, n)|
    {
      IncludedMore(fields, values, n);
      if Omitted(fields[n], values[n]) {
        continue;
      }
      included := included + 1;
    }
  }

  // ----- converting -----

  /** The graph shows every place as the plan does; opened one place at a time. */
  ghost predicate Shows(nodes: seq<TypeNode>, g: Graph<Place>) {
    forall p {:trigger Seen(nodes, p)} :: g.view(p) == Seen(nodes, p)
  }

  /** What a conversion may rely on. */
  ghost predicate Ready(nodes: seq<TypeNode>, converter: ValueConverter, g: Graph<Place>, p: Place, t: Option<Value>)
    reads converter
  {
    && converter.active == {} && ArenaSound(nodes) && Shows(nodes, g) && Lawful(g) && (t.Some? ==> g.tree(p, t.value))
  }

  lemma SameView(g: Graph<Place>, p: Place, q: Place, t: Value)
    requires Lawful(g) && g.view(p) == g.view(q)
    ensures g.tree(p, t) <==> g.tree(q, t)
  {
    assert Unfolds(g.view, p, t) <==> Unfolds(g.view, q, t);
  }

  /** A scalar costs one node. */
  method ConvertScalar(nodes: seq<TypeNode>, p: Place, v: Option<Value>, depth: nat, converter: ValueConverter,
                       ghost g: Graph<Place>, ghost t: Option<Value>)
    returns (r: Outcome<Value>)
    requires depth >= 1 && Ready(nodes, converter, g, p, t) && g.view(p) == Leaf(v)
    modifies converter
    ensures converter.active == {}
    ensures Exact(g, p, t, old(converter.Left(depth)), r, converter.remainingNodes)
  {
    if t.Some? { TreeParts(g, p, t.value); }
    var err := converter.ConsumeNode(depth);
    if err.Some? {
      return Err(err.value);
    }
    if v.None? {
      return Err(UnsupportedValue);
    }
    TreeOfScalar(g, p);
    return Ok(v.value);
  }

  /** convertNode. */
  method ConvertNode(nodes: seq<TypeNode>, index: nat, value: Out, depth: nat, converter: ValueConverter,
                     ghost g: Graph<Place>, ghost t: Option<Value>)
    returns (r: Outcome<Value>)
    requires depth >= 1 && Ready(nodes, converter, g, At(index, value), t)
    modifies converter
    ensures converter.active == {}
    ensures Exact(g, At(index, value), t, old(converter.Left(depth)), r, converter.remainingNodes)
    decreases index, 2, 0
  {
    ghost var p := At(index, value);
    assert g.view(p) == Seen(nodes, p);
    if t.Some? { TreeParts(g, p, t.value); }
    if index >= |nodes| {
      return Err(UnsupportedValue);
    }
    var node := nodes[index];
    match node.kind {
      case NodePointer => r := ConvertPointer(nodes, index, value, depth, converter, g, t);
      case NodeBytes =>
        if !value.OutBytes? { return Err(UnsupportedValue); }
        if value.bytes.None? {
          r := ConvertScalar(nodes, At(index, value), Some(Null), depth, converter, g, t);
          return;
        }
        r := ConvertBytes(nodes, p, value.bytes.value, depth, converter, g, t);
      case NodeList =>
        if !value.OutList? { return Err(UnsupportedValue); }
        if value.items.None? {
          r := ConvertScalar(nodes, At(index, value), Some(Null), depth, converter, g, t);
          return;
        }
        assert NodeSound(nodes, index);
        r := ConvertList(nodes, index, p, node.elem, value.items.value, depth, converter, g, t);
      case NodeMap =>
        if !value.OutMap? { return Err(UnsupportedValue); }
        if value.entries.None? {
          r := ConvertScalar(nodes, At(index, value), Some(Null), depth, converter, g, t);
          return;
        }
        assert NodeSound(nodes, index);
        r := ConvertMap(nodes, index, p, node.elem, value.entries.value, depth, converter, g, t);
      case NodeStruct =>
        if !value.OutStruct? || |value.fields| != |node.fields| { return Err(UnsupportedValue); }
        r := ConvertStruct(nodes, index, value, depth, converter, g, t);
      case _ => r := ConvertScalar(nodes, At(index, value), ScalarOf(node.kind, value), depth, converter, g, t);
    }
  }

  /** convertPointer. */
  method ConvertPointer(nodes: seq<TypeNode>, index: nat, value: Out, depth: nat, converter: ValueConverter,
                        ghost g: Graph<Place>, ghost t: Option<Value>)
    returns (r: Outcome<Value>)
    requires depth >= 1 && Ready(nodes, converter, g, At(index, value), t) && index < |nodes|
             && nodes[index].kind.NodePointer?
    modifies converter
    ensures converter.active == {}
    ensures Exact(g, At(index, value), t, old(converter.Left(depth)), r, converter.remainingNodes)
    decreases index, 1, 0
  {
    ghost var p := At(index, value);
    assert g.view(p) == Seen(nodes, p);
    if t.Some? { TreeParts(g, p, t.value); }
    if !value.OutPointer? { return Err(UnsupportedValue); }
    if value.target.None? {
      r := ConvertScalar(nodes, At(index, value), Some(Null), depth, converter, g, t);
      return;
    }
    var elem := nodes[index].elem;
    assert NodeSound(nodes, index);
    assert g.view(At(elem, value.target.value)) == Seen(nodes, At(elem, value.target.value));
    if t.Some? { SameView(g, p, At(elem, value.target.value), t.value); }
    r := ConvertNode(nodes, elem, value.target.value, depth, converter, g, t);
    if r.Ok? { SameView(g, p, At(elem, value.target.value), r.value); }
  }

  lemma ItemsExact(g: Graph<Place>, p: Place, items: seq<Value>, b: Budget, t: Option<Value>, left: int)
    requires Lawful(g) && ItemsDone(g, p, items, b, t) && |items| == |g.view(p).items|
    requires b.nodes == left + 1 + NodesOf(items) && left >= 0 && b.depth <= b.maxDepth
    ensures Exact(g, p, t, b, Ok(List(items)), left)
  {
    ItemsEnd(g, p, items, b, t);
  }

  /** A sequence costs one node, and must have room for its items before any is read. */
  method EnterItems(length: nat, depth: nat, converter: ValueConverter, ghost g: Graph<Place>, ghost p: Place,
                    ghost t: Option<Value>) returns (err: Option<ConvertError>)
    requires depth >= 1 && converter.active == {} && Lawful(g) && (t.Some? ==> g.tree(p, t.value))
    requires g.view(p).Sequence? && |g.view(p).items| == length
    modifies converter
    ensures converter.active == {} && (t.Some? ==> t.value.List?)
    ensures err.None? ==> depth <= converter.maxDepth && length <= converter.remainingNodes
                          && converter.remainingNodes == old(converter.remainingNodes) - 1
    ensures err.Some? && t.Some? ==> err.value.ValueLimit? && !Fits(t.value, old(converter.Left(depth)))
  {
    ghost var b := converter.Left(depth);
    if t.Some? { TreeParts(g, p, t.value); }
    err := converter.ConsumeNode(depth);
    if err.None? && !converter.ContainerFits(length) {
      if t.Some? { TooManyItems(t.value.items, b); }
      return Some(ValueLimit);
    }
  }

  /** convertList, for a slice that is not nil or an array. */
  method ConvertList(nodes: seq<TypeNode>, ghost index: nat, ghost p: Place, elem: nat, items: seq<Out>, depth: nat,
                     converter: ValueConverter,
                     ghost g: Graph<Place>, ghost t: Option<Value>)
    returns (r: Outcome<Value>)
    requires depth >= 1 && Ready(nodes, converter, g, p, t) && elem < index
             && g.view(p) == Sequence(Items(elem, items), None)
    modifies converter
    ensures converter.active == {}
    ensures Exact(g, p, t, old(converter.Left(depth)), r, converter.remainingNodes)
    decreases index, 1, 0
  {
    ghost var b := converter.Left(depth);
    var err := EnterItems(|items|, depth, converter, g, p, t);
    if err.Some? { return Err(err.value); }
    var converted: seq<Value> := [];
    for n := 0 to |items|
      invariant converter.active == {} && |converted| == n && ItemsDone(g, p, converted, b, t)
      invariant converter.remainingNodes == b.nodes - 1 - NodesOf(converted)
    {
      ghost var child: Option<Value> := None;
      if t.Some? {
        NextItem(g, {}, map[], p, converted, b, t.value);
        child := Some(t.value.items[n]);
      }
      var item := ConvertNode(nodes, elem, items[n], depth + 1, converter, g, child);
      if item.Err? { return Err(item.error); }
      ItemsStep(g, p, converted, item.value, b, t);
      converted := converted + [item.value];
    }
    ItemsExact(g, p, converted, b, t, converter.remainingNodes);
    return Ok(List(converted));
  }

  /** convertOutputBytes: every byte is a node of its own. */
  method ConvertBytes(nodes: seq<TypeNode>, ghost p: Place, bytes: Bytes, depth: nat, converter: ValueConverter,
                      ghost g: Graph<Place>, ghost t: Option<Value>)
    returns (r: Outcome<Value>)
    requires depth >= 1 && Ready(nodes, converter, g, p, t) && g.view(p) == Sequence(ByteItems(bytes), None)
    modifies converter
    ensures converter.active == {}
    ensures Exact(g, p, t, old(converter.Left(depth)), r, converter.remainingNodes)
  {
    ghost var b := converter.Left(depth);
    var err := EnterItems(|bytes|, depth, converter, g, p, t);
    if err.Some? { return Err(err.value); }
    var converted: seq<Value> := [];
    for n := 0 to |bytes|
      invariant converter.active == {} && |converted| == n && ItemsDone(g, p, converted, b, t)
      invariant converter.remainingNodes == b.nodes - 1 - NodesOf(converted)
    {
      ghost var child: Option<Value> := None;
      if t.Some? {
        NextItem(g, {}, map[], p, converted, b, t.value);
        child := Some(t.value.items[n]);
      }
      assert g.view(ByteOf(bytes[n])) == Seen(nodes, ByteOf(bytes[n]));
      var item := ConvertScalar(nodes, ByteOf(bytes[n]), Some(Int(bytes[n])), depth + 1, converter, g, child);
      if item.Err? { return Err(item.error); }
      ItemsStep(g, p, converted, item.value, b, t);
      converted := converted + [item.value];
    }
    ItemsExact(g, p, converted, b, t, converter.remainingNodes);
    return Ok(List(converted));
  }

  /** One member of a map or struct: the walk moves past key k. */
  method ConvertMember(nodes: seq<TypeNode>, ghost index: nat, ghost p: Place, k: Bytes, node: nat, value: Out,
                       depth: nat, converter: ValueConverter,
                       ghost left: set<Bytes>, done: map<Bytes, Value>, ghost b: Budget, ghost g: Graph<Place>,
                         ghost t: Option<Value>)
    returns (r: Outcome<map<Bytes, Value>>)
    requires depth >= 1 && Ready(nodes, converter, g, p, t) && node < index && Walked(g, p, left, done, b, t)
             && k in left
    requires g.view(p).entries[k] == At(node, value)
    requires b == Budget(converter.maxDepth, depth, converter.remainingNodes + 1 + NodesIn(done))
    modifies converter
    ensures converter.active == {}
    ensures r.Ok? ==> Walked(g, p, left - {k}, r.value, b, t)
                      && b == Budget(converter.maxDepth, depth, converter.remainingNodes + 1 + NodesIn(r.value))
    ensures r.Err? && t.Some? ==> r.error.ValueLimit? && !Fits(t.value, b)
    decreases index, 0, 0
  {
    ghost var child: Option<Value> := None;
    if t.Some? {
      WalkNext(g, {}, map[], p, left, done, k, b, t.value);
      child := Some(t.value.fields[k]);
    }
    var item := ConvertNode(nodes, node, value, depth + 1, converter, g, child);
    if item.Err? { return Err(item.error); }
    WalkStep(g, p, left, done, k, item.value, b, t);
    return Ok(done[k := item.value]);
  }

  /** convertMap, for a map that is not nil: members in sorted key order. */
  method ConvertMap(nodes: seq<TypeNode>, ghost index: nat, ghost p: Place, elem: nat, entries: map<Bytes, Out>,
                    depth: nat, converter: ValueConverter,
                    ghost g: Graph<Place>, ghost t: Option<Value>)
    returns (r: Outcome<Value>)
    requires depth >= 1 && Ready(nodes, converter, g, p, t) && elem < index
             && g.view(p) == Mapping(Entries(elem, entries), None)
    modifies converter
    ensures converter.active == {}
    ensures Exact(g, p, t, old(converter.Left(depth)), r, converter.remainingNodes)
    decreases index, 1, 0
  {
    ghost var b := converter.Left(depth);
    if t.Some? { TreeParts(g, p, t.value); }
    var err := converter.ConsumeNode(depth);
    if err.Some? { return Err(err.value); }
    assert Entries(elem, entries).Keys == entries.Keys;
    if !converter.ContainerFits(|entries|) {
      if t.Some? { TooManyEntries(t.value.fields, entries, b); }
      return Err(ValueLimit);
    }
    r := ConvertEntries(nodes, index, p, elem, entries, depth, converter, g, t, b);
  }

  lemma WalkExact(g: Graph<Place>, p: Place, members: map<Bytes, Value>, b: Budget, t: Option<Value>, left: int)
    requires Lawful(g) && Walked(g, p, {}, members, b, t)
    requires b.nodes == left + 1 + NodesIn(members) && left >= 0 && b.depth <= b.maxDepth
    ensures Exact(g, p, t, b, Ok(Obj(members)), left)
  {
    WalkEnd(g, p, members, b, t);
  }

  method ConvertEntries(nodes: seq<TypeNode>, ghost index: nat, ghost p: Place, elem: nat, entries: map<Bytes, Out>,
                        depth: nat, converter: ValueConverter,
                        ghost g: Graph<Place>, ghost t: Option<Value>, ghost b: Budget)
    returns (r: Outcome<Value>)
    requires 1 <= depth <= converter.maxDepth && Ready(nodes, converter, g, p, t) && elem < index
             && g.view(p) == Mapping(Entries(elem, entries), None)
    requires b == Budget(converter.maxDepth, depth, converter.remainingNodes + 1) && (t.Some? ==> t.value.Obj?)
    modifies converter
    ensures converter.active == {}
    ensures Exact(g, p, t, b, r, converter.remainingNodes)
    decreases index, 0, 1
  {
    ghost var left := entries.Keys;
    assert Entries(elem, entries).Keys == left;
    var keys := SortedWalk(entries.Keys);
    var members: map<Bytes, Value> := map[];
    for n := 0 to |keys|
      invariant converter.active == {} && Lists(keys, n, left) && Walked(g, p, left, members, b, t)
      invariant b == Budget(converter.maxDepth, depth, converter.remainingNodes + 1 + NodesIn(members))
    {
      var member := ConvertMember(nodes, index, p, keys[n], elem, entries[keys[n]], depth, converter, left, members,
                                  b, g, t);
      if member.Err? { return Err(member.error); }
      left, members := left - {keys[n]}, member.value;
    }
    assert left == {} && g.view(p).Mapping?;
    WalkExact(g, p, members, b, t, converter.remainingNodes);
    return Ok(Obj(members));
  }

  /** convertStruct: members in field order, the omitted ones left out. */
  method ConvertStruct(nodes: seq<TypeNode>, index: nat, value: Out, depth: nat, converter: ValueConverter,
                       ghost g: Graph<Place>, ghost t: Option<Value>)
    returns (r: Outcome<Value>)
    requires depth >= 1 && Ready(nodes, converter, g, At(index, value), t) && index < |nodes|
             && nodes[index].kind.NodeStruct?
    requires value.OutStruct? && |value.fields| == |nodes[index].fields|
    modifies converter
    ensures converter.active == {}
    ensures Exact(g, At(index, value), t, old(converter.Left(depth)), r, converter.remainingNodes)
    decreases index, 1, 0
  {
    ghost var p, b := At(index, value), converter.Left(depth);
    var fields, values := nodes[index].fields, value.fields;
    assert NodeSound(nodes, index) && g.view(p) == Seen(nodes, p);
    if t.Some? { TreeParts(g, p, t.value); }
    var err := converter.ConsumeNode(depth);
    if err.Some? { return Err(err.value); }
    var included := CountIncluded(fields, values);
    if !converter.ContainerFits(included) {
      if t.Some? { TooManyEntries(t.value.fields, Included(fields, values, |fields|), b); }
      return Err(ValueLimit);
    }
    r := ConvertFields(nodes, index, value, depth, converter, g, t, b);
  }

  /** One field of a struct, unless it is omitted. */
  method ConvertField(nodes: seq<TypeNode>, ghost index: nat, ghost p: Place, fields: seq<StructField>,
                      values: seq<Out>, n: nat, depth: nat,
                      converter: ValueConverter, members: map<Bytes, Value>, ghost b: Budget, ghost g: Graph<Place>,
                      ghost t: Option<Value>)
    returns (r: Outcome<map<Bytes, Value>>)
    requires depth >= 1 && Ready(nodes, converter, g, p, t) && n < |fields| == |values| && DistinctFieldNames(fields)
             && fields[n].node < index
    requires g.view(p) == Mapping(Included(fields, values, |fields|), None)
             && Walked(g, p, Rest(fields, values, n), members, b, t)
    requires b == Budget(converter.maxDepth, depth, converter.remainingNodes + 1 + NodesIn(members))
    modifies converter
    ensures converter.active == {}
    ensures r.Ok? ==> Walked(g, p, Rest(fields, values, n + 1), r.value, b, t)
                      && b == Budget(converter.maxDepth, depth, converter.remainingNodes + 1 + NodesIn(r.value))
    ensures r.Err? && t.Some? ==> r.error.ValueLimit? && !Fits(t.value, b)
    decreases index, 0, 1
  {
    RestMore(fields, values, n);
    if Omitted(fields[n], values[n]) {
      return Ok(members);
    }
    r := ConvertMember(nodes, index, p, fields[n].name, fields[n].node, values[n], depth, converter,
                       Rest(fields, values, n), members, b, g, t);
  }

  method ConvertFields(nodes: seq<TypeNode>, index: nat, value: Out, depth: nat, converter: ValueConverter,
                       ghost g: Graph<Place>, ghost t: Option<Value>, ghost b: Budget)
    returns (r: Outcome<Value>)
    requires index < |nodes| && NodeSound(nodes, index) && nodes[index].kind.NodeStruct? && value.OutStruct?
             && |value.fields| == |nodes[index].fields|
    requires 1 <= depth <= converter.maxDepth && Ready(nodes, converter, g, At(index, value), t)
    requires g.view(At(index, value))
             == Mapping(Included(nodes[index].fields, value.fields, |nodes[index].fields|), None)
    requires b == Budget(converter.maxDepth, depth, converter.remainingNodes + 1) && (t.Some? ==> t.value.Obj?)
    modifies converter
    ensures converter.active == {}
    ensures Exact(g, At(index, value), t, b, r, converter.remainingNodes)
    decreases index, 0, 2
  {
    ghost var p := At(index, value);
    var fields, values := nodes[index].fields, value.fields;
    var members: map<Bytes, Value> := map[];
    for n := 0 to |fields|
      invariant converter.active == {} && Walked(g, p, Rest(fields, values, n), members, b, t)
      invariant b == Budget(converter.maxDepth, depth, converter.remainingNodes + 1 + NodesIn(members))
    {
      var more := ConvertField(nodes, index, p, fields, values, n, depth, converter, members, b, g, t);
      if more.Err? { return Err(more.error); }
      members := more.value;
    }
    WalkEnd(g, p, members, b, t);
    return Ok(Obj(members));
  }

  // ----- the whole conversion -----

  /** The output, as the plan reads it, is the value t. */
  ghost predicate Means(nodes: seq<TypeNode>, root: nat, output: Out, t: Value) {
    Unfolds(Views(nodes), At(root, output), t)
  }

  lemma MeansOnce(nodes: seq<TypeNode>, root: nat, output: Out, t: Value, u: Value)
    requires Means(nodes, root, output, t) && Means(nodes, root, output, u)
    ensures t == u
  {
    UnfoldsUnique(Views(nodes), At(root, output), t, u);
  }

  lemma GraphShows(nodes: seq<TypeNode>, g: Graph<Place>)
    requires g.view == Views(nodes)
    ensures Shows(nodes, g)
  {}

  /** An exact conversion of the root succeeds exactly when the output means a value that fits. */
  lemma ExactMeans(nodes: seq<TypeNode>, root: nat, output: Out, t: Option<Value>, maxDepth: int, maxNodes: int,
                   r: Outcome<Value>, left: int)
    requires Exact(GraphOf(Views(nodes)), At(root, output), t, Budget(maxDepth, 1, maxNodes), r, left)
    requires if t.Some? then Means(nodes, root, output, t.value) else !exists u :: Means(nodes, root, output, u)
    ensures r.Ok? <==>
            exists u :: Means(nodes, root, output, u) && WithinDepth(u, maxDepth) && Nodes(u) <= maxNodes
    ensures r.Ok? ==> Means(nodes, root, output, r.value) && Supported(r.value)
    ensures r == Err(UnsupportedValue) ==> !exists u :: Means(nodes, root, output, u)
  {
    if r.Ok? {
      ViewsLawful(nodes);
      TreeSupported(GraphOf(Views(nodes)), At(root, output), r.value);
      assert Means(nodes, root, output, r.value);
    } else if t.Some? {
      forall u | Means(nodes, root, output, u) ensures u == t.value { MeansOnce(nodes, root, output, u, t.value); }
    }
  }

  /** ConvertOutput: it succeeds exactly when the output means a value within both limits, and
      yields that value. */
  method ConvertOutput(nodes: seq<TypeNode>, root: nat, output: Out, maxDepth: int,
                       maxNodes: int) returns (r: Outcome<Value>)
    requires ArenaSound(nodes)
    ensures r.Ok? <==> maxDepth > 0 && maxNodes > 0
                       && exists t :: Means(nodes, root, output, t) && WithinDepth(t, maxDepth) && Nodes(t) <= maxNodes
    ensures r.Ok? ==> Means(nodes, root, output, r.value) && Supported(r.value)
    ensures r == Err(UnsupportedValue) ==> !exists t :: Means(nodes, root, output, t)
  {
    if maxDepth <= 0 || maxNodes <= 0 { return Err(ValueLimit); }
    var converter := new ValueConverter(maxDepth, maxNodes);
    ViewsLawful(nodes);
    ghost var g := GraphOf(Views(nodes));
    ghost var t: Option<Value> := None;
    if tree :| Means(nodes, root, output, tree) { t := Some(tree); }
    GraphShows(nodes, g);
    r := ConvertNode(nodes, root, output, 1, converter, g, t);
    ExactMeans(nodes, root, output, t, maxDepth, maxNodes, r, converter.remainingNodes);
  }

  /** dispatch's conversion, whose node budget is the smaller of two byte budgets, followed by the
      checks of writeNativeResult. The node budget rejects nothing the byte checks would accept: a
      result is delivered exactly when it is within the depth and both byte limits. */
  method ConvertAndEncode(lib: FloatLib, nodes: seq<TypeNode>, root: nat, output: Out, maxDepth: nat, maxBytes: nat,
                          remaining: nat) returns (r: Result<Bytes>)
    requires Faithful(lib) && ArenaSound(nodes) && maxDepth > 0
    ensures r.Success? <==> exists t :: Means(nodes, root, output, t) && WithinDepth(t, maxDepth)
                                        && |Body(lib, t)| <= maxBytes && |Body(lib, t)| <= remaining
    ensures r.Success? ==> exists t :: Means(nodes, root, output, t) && r.value == Body(lib, t)
    ensures r == Failure(FrameTooLarge) <==> exists t :: Means(nodes, root, output, t) && WithinDepth(t, maxDepth)
                                                         && Nodes(t) <= maxBytes && Nodes(t) <= remaining
                                                         && (|Body(lib, t)| > maxBytes || |Body(lib, t)| > remaining)
    ensures r.Success? || r == Failure(FrameTooLarge) || r == Failure(InvalidValue)
  {
    forall t | Means(nodes, root, output, t) ensures Supported(t) && 1 <= Nodes(t) <= |Body(lib, t)| {
      MeaningCosts(lib, nodes, root, output, t);
    }
    var budget := if maxBytes <= remaining then maxBytes else remaining;
    var converted := ConvertOutput(nodes, root, output, maxDepth, budget);
    if converted.Err? { return Failure(InvalidValue); }
    forall t | Means(nodes, root, output, t) ensures t == converted.value {
      MeansOnce(nodes, root, output, t, converted.value);
    }
    r := EncodeBounded(lib, converted.value, maxDepth, maxBytes);
    if r.Success? && |r.value| > remaining { return Failure(FrameTooLarge); }
  }

  lemma MeaningCosts(lib: FloatLib, nodes: seq<TypeNode>, root: nat, output: Out, t: Value)
    requires Faithful(lib) && Means(nodes, root, output, t)
    ensures Supported(t) && 1 <= Nodes(t) <= |Body(lib, t)|
  {
    ViewsLawful(nodes);
    TreeSupported(GraphOf(Views(nodes)), At(root, output), t);
    NodesWithinBody(lib, t);
  }

  /** The arena of every compiled output type is sound. */
  lemma CompiledArenaSound(u: Universe, root: nat, arena: Arena, shapes: seq<Shape>)
    requires ArenaOf(u, root, u.dir.InputDirection?, arena, shapes)
    ensures ArenaSound(arena.nodes)
  {
    forall i | 0 <= i < |arena.nodes| ensures NodeSound(arena.nodes, i) {
      CompiledNodeSound(u, root, arena, shapes, i);
    }
  }

  lemma CompiledNodeSound(u: Universe, root: nat, arena: Arena, shapes: seq<Shape>, i: nat)
    requires ArenaOf(u, root, u.dir.InputDirection?, arena, shapes) && i < |arena.nodes|
    ensures NodeSound(arena.nodes, i)
  {
    var node := arena.nodes[i];
    assert Describes(node, shapes, i, shapes[i]) && Unrolls(u, node.typ, false, shapes[i]);
    if node.kind.NodeStruct? {
      var declared := u.types[node.typ].fields;
      forall n | 0 <= n < |node.fields| ensures declared[n].name == Some(node.fields[n].name) {
        assert FieldAllowed(u, declared[n], false);
      }
    }
  }
}
