/** Go `any` values: slices and maps by reference into a heap, so that they can be shared,
    can overlap, and can contain themselves. */
module GoHeap {
  import opened Text
  import opened Values
  import opened Unfolding

  datatype GoAny =
    | GoNil
    | GoBool(b: bool)
    | GoString(s: Bytes)
    | GoInt64(i: Int64)
    | GoFloat64(x: Float64)
    | GoSlice(start: nat, length: nat)
    | GoMap(r: nat)
    | GoNilMap
    | GoOther

  /** Backing arrays laid out in one memory, and maps. */
  datatype Heap = Heap(memory: seq<GoAny>, maps: seq<map<Bytes, GoAny>>)

  function GoView(heap: Heap, v: GoAny): View<GoAny> {
    match v
    case GoNil => Scalar(Null)
    case GoBool(b) => Scalar(Bool(b))
    case GoString(s) => Scalar(Str(s))
    case GoInt64(i) => Scalar(Int(i))
    case GoFloat64(x) => if x.Finite? then Scalar(Real(x)) else Rejected
    case GoSlice(start, length) =>
      if length == 0 then Sequence([], None)
      else if start + length <= |heap.memory|
      then Sequence(heap.memory[start..start + length], Some(VisitKey('s', start, length)))
      else Rejected
    case GoMap(r) =>
      if r < |heap.maps| then Mapping(heap.maps[r], Some(VisitKey('m', r, 0))) else Rejected
    case GoNilMap => Mapping(map[], None)
    case GoOther => Rejected
  }

  function GoViews(heap: Heap): GoAny -> View<GoAny> { v => GoView(heap, v) }

  lemma GoViewsLawful(heap: Heap)
    ensures LawfulView(GoViews(heap))
  {}

  /** A tree that shares nothing, such as a decoded frame body, seen as a heap value. */
  function TreeView(v: Value): View<Value> {
    match v
    case List(items) => Sequence(items, None)
    case Obj(fields) => Mapping(fields, None)
    case Real(x) => if x.Finite? then Scalar(v) else Rejected
    case Unsupported => Rejected
    case _ => Scalar(v)
  }

  function TreeViews(): Value -> View<Value> { v => TreeView(v) }

  lemma TreeViewsLawful()
    ensures LawfulView(TreeViews())
  {}

  /** A tree unfolds to itself exactly when it is supported. */
  lemma {:induction false} TreeUnfolds(v: Value, t: Value)
    ensures Unfolds(TreeViews(), v, t) <==> Supported(v) && t == v
    decreases v
  {
    match v
    case List(items) =>
      forall i, u | 0 <= i < |items|
        ensures Unfolds(TreeViews(), items[i], u) <==> Supported(items[i]) && u == items[i] {
        TreeUnfolds(items[i], u);
      }
      assert TreeViews()(v) == Sequence(items, None);
      if Unfolds(TreeViews(), v, t) {
        assert forall i :: 0 <= i < |items| ==> Unfolds(TreeViews(), items[i], t.items[i]);
        assert t.items == items;
      }
    case Obj(fields) =>
      forall k, u | k in fields ensures Unfolds(TreeViews(), fields[k], u) <==> Supported(fields[k]) && u == fields[k] {
        TreeUnfolds(fields[k], u);
      }
      assert TreeViews()(v) == Mapping(fields, None);
      if Unfolds(TreeViews(), v, t) {
        assert forall k :: k in fields ==> Unfolds(TreeViews(), fields[k], t.fields[k]);
        assert t.fields == fields;
      }
    case _ =>
  }

  // ----- what a Go value holds, said from the value it stands for -----

  /** The Go value v, read through the heap, is the tree t. Nil slices and maps are empty. */
  ghost predicate Holds(heap: Heap, v: GoAny, t: Value)
    decreases t
  {
    match t
    case Null => v == GoNil
    case Bool(b) => v == GoBool(b)
    case Str(s) => v == GoString(s)
    case Int(i) => v == GoInt64(i)
    case Real(x) => x.Finite? && v == GoFloat64(x)
    case List(items) =>
      && v.GoSlice? && v.length == |items| && (items != [] ==> v.start + v.length <= |heap.memory|)
      && forall i :: 0 <= i < |items| ==> Holds(heap, heap.memory[v.start + i], items[i])
    case Obj(fields) =>
      || (v == GoNilMap && fields == map[])
      || (v.GoMap? && v.r < |heap.maps| && fields.Keys == heap.maps[v.r].Keys
          && forall k :: k in fields ==> Holds(heap, heap.maps[v.r][k], fields[k]))
    case Unsupported => false
  }

  lemma {:induction false} HoldsIff(heap: Heap, v: GoAny, t: Value)
    ensures Unfolds(GoViews(heap), v, t) <==> Holds(heap, v, t)
    decreases t
  {
    match t
    case List(items) =>
      if v.GoSlice? && v.length == |items| && v.start + v.length <= |heap.memory| {
        forall i | 0 <= i < |items|
          ensures Unfolds(GoViews(heap), heap.memory[v.start + i], items[i])
                  <==> Holds(heap, heap.memory[v.start + i], items[i]) {
          HoldsIff(heap, heap.memory[v.start + i], items[i]);
        }
        SliceUnfolds(heap, v, items);
      }
    case Obj(fields) =>
      if v.GoMap? && v.r < |heap.maps| {
        forall k | k in fields && k in heap.maps[v.r]
          ensures Unfolds(GoViews(heap), heap.maps[v.r][k], fields[k]) <==> Holds(heap, heap.maps[v.r][k], fields[k]) {
          HoldsIff(heap, heap.maps[v.r][k], fields[k]);
        }
      }
    case _ =>
  }

  lemma SliceUnfolds(heap: Heap, v: GoAny, items: seq<Value>)
    requires v.GoSlice? && v.length == |items| && v.start + v.length <= |heap.memory|
    ensures Unfolds(GoViews(heap), v, List(items))
            <==> forall i :: 0 <= i < |items| ==> Unfolds(GoViews(heap), heap.memory[v.start + i], items[i])
  {
    if items != [] {
      var parts := heap.memory[v.start..v.start + v.length];
      assert forall i :: 0 <= i < |items| ==> parts[i] == heap.memory[v.start + i];
    }
  }
}
