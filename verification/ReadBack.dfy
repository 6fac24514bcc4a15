/** A handler's output given back as an argument of the same Go type: the type reads it as the
    same value. */
module ReadBack {
  import opened Text
  import opened Values
  import opened Rebinder
  import opened Binder
  import opened Shapes
  import opened Compiler
  import opened Output
  import opened CallAgreement
  import InputMeaning
  import OutputMeaning

  /** A nil slice or map. */
  predicate NilContainer(out: Out) { out == OutBytes(None) || out == OutList(None) || out == OutMap(None) }

  predicate MirrorsBytes(out: Out, x: GoInput) {
    && out.OutBytes? && out.bytes.Some? && x.GoSlice? && |x.items| == |out.bytes.value|
    && forall n :: 0 <= n < |x.items| ==> x.items[n] == GoUint(out.bytes.value[n])
  }

  /** The input x is the output out, part by part: two values of Go type t. A pointer to a nil
      container is a nil pointer, and a nil container is no input. */
  ghost predicate Mirrors(ops: FloatOps, u: Universe, t: nat, out: Out, x: GoInput)
    decreases x
  {
    t < |u.types| &&
    match u.types[t]
    case TString => out.OutString? && x == GoString(out.s)
    case TBool => out.OutBool? && x == GoBool(out.b)
    case TInt(width) => out.OutInt? && 0 - Pow2(width) <= 2 * out.i < Pow2(width) && x == GoInt(out.i)
    case TUint(width) => out.OutUint? && out.u < Pow2(width) && x == GoUint(out.u)
    case TFloat(width) =>
      out.OutFloat? && out.x.Finite? && x.GoFloat? && InputMeaning.Stores(ops, width, out.x.bits, x.bits)
    case TPointer(elem) =>
      && out.OutPointer?
      && if out.target.None? || NilContainer(out.target.value) then x == GoNilPointer
         else x.GoPointer? && Mirrors(ops, u, elem, out.target.value, x.target)
    case TSlice(elem) =>
      x.GoSlice? &&
      (MirrorsBytes(out, x)
       || (out.OutList? && out.items.Some? && |x.items| == |out.items.value|
           && forall n :: 0 <= n < |x.items| ==> Mirrors(ops, u, elem, out.items.value[n], x.items[n])))
    case TMap(_, elem) =>
      && out.OutMap? && out.entries.Some? && x.GoMap? && x.entries.Keys == out.entries.value.Keys
      && forall k :: k in x.entries ==> Mirrors(ops, u, elem, out.entries.value[k], x.entries[k])
    case TStruct(fields) =>
      && out.OutStruct? && x.GoStruct? && |x.fields| == |out.fields| == |fields|
      && forall n :: 0 <= n < |x.fields| ==> Mirrors(ops, u, fields[n].typ, out.fields[n], x.fields[n])
    case _ => false
  }

  /** One set of Go types, seen in each direction. */
  predicate BothWays(ui: Universe, uo: Universe) {
    ui.types == uo.types && ui.dir.InputDirection? && uo.dir.OutputDirection?
  }

  /** What v is read as is what out is. */
  ghost predicate Back(ops: FloatOps, u: Universe, t: nat, out: Out, v: Value) {
    forall x :: InputMeaning.Reads(ops, u, t, v, x) <==> Mirrors(ops, u, t, out, x)
  }

  lemma {:induction false} ReadsBack(ops: FloatOps, ui: Universe, uo: Universe, t: nat, k: bool, s: Shape, l: bool,
                                     r: Shape, out: Out, v: Value)
    requires BothWays(ui, uo) && Unrolls(uo, t, k, s) && Unrolls(ui, t, l, r) && OutputMeaning.Says(uo, t, out, v)
    ensures Back(ops, ui, t, out, v)
    decreases s, 1
  {
    match uo.types[t]
    case TPointer(elem) => PointerBack(ops, ui, uo, t, k, s, l, r, out, v);
    case TSlice(elem) =>
      if ByteSequence(uo, elem) {
        BytesBack(ops, ui, t, out, v);
      } else {
        ListBack(ops, ui, uo, t, k, s, l, r, out, v);
      }
    case TMap(_, elem) => MapBack(ops, ui, uo, t, k, s, l, r, out, v);
    case TStruct(fields) => StructBack(ops, ui, uo, t, k, s, l, r, out, v);
    case _ => ScalarBack(ops, ui, uo, t, out, v);
  }

  lemma ScalarBack(ops: FloatOps, ui: Universe, uo: Universe, t: nat, out: Out, v: Value)
    requires BothWays(ui, uo) && t < |uo.types| && OutputMeaning.Says(uo, t, out, v)
    requires var typ := uo.types[t]; typ.TString? || typ.TBool? || typ.TInt? || typ.TUint? || typ.TFloat?
    ensures Back(ops, ui, t, out, v)
  {}

  lemma {:induction false} PointerBack(ops: FloatOps, ui: Universe, uo: Universe, t: nat, k: bool, s: Shape, l: bool,
                                       r: Shape, out: Out, v: Value)
    requires BothWays(ui, uo) && Unrolls(uo, t, k, s) && Unrolls(ui, t, l, r) && OutputMeaning.Says(uo, t, out, v)
    requires uo.types[t].TPointer?
    ensures Back(ops, ui, t, out, v)
    decreases s, 0
  {
    var elem := uo.types[t].elem;
    if out.target.Some? {
      ReadsBack(ops, ui, uo, elem, k, s.elem, l, r.elem, out.target.value, v);
      NullSaysNil(uo, elem, out.target.value, v);
    }
  }

  lemma NullSaysNil(u: Universe, t: nat, out: Out, v: Value)
    requires OutputMeaning.Says(u, t, out, v) && !u.types[t].TPointer?
    ensures v.Null? <==> NilContainer(out)
  {}

  lemma ByteBack(ops: FloatOps, u: Universe, t: nat, b: Byte, y: GoInput)
    requires t < |u.types| && u.types[t] == TUint(8)
    ensures InputMeaning.Reads(ops, u, t, Int(b), y) <==> y == GoUint(b)
  {
    PowersOfTwo();
  }

  lemma BytesBack(ops: FloatOps, u: Universe, t: nat, out: Out, v: Value)
    requires t < |u.types| && u.types[t].TSlice? && u.types[t].elem < |u.types| && u.types[u.types[t].elem] == TUint(8)
    requires OutputMeaning.SaysBytes(out, v)
    ensures Back(ops, u, t, out, v)
  {
    if out.bytes.Some? {
      var elem, bytes := u.types[t].elem, out.bytes.value;
      forall x ensures InputMeaning.Reads(ops, u, t, v, x) <==> MirrorsBytes(out, x) {
        if x.GoSlice? && |x.items| == |bytes| {
          forall n | 0 <= n < |bytes|
            ensures InputMeaning.Reads(ops, u, elem, v.items[n], x.items[n]) <==> x.items[n] == GoUint(bytes[n]) {
            ByteBack(ops, u, elem, bytes[n], x.items[n]);
          }
        }
      }
    }
  }

  lemma {:induction false} ListBack(ops: FloatOps, ui: Universe, uo: Universe, t: nat, k: bool, s: Shape, l: bool,
                                    r: Shape, out: Out, v: Value)
    requires BothWays(ui, uo) && Unrolls(uo, t, k, s) && Unrolls(ui, t, l, r) && OutputMeaning.Says(uo, t, out, v)
    requires uo.types[t].TSlice? && !ByteSequence(uo, uo.types[t].elem)
    ensures Back(ops, ui, t, out, v)
    decreases s, 0
  {
    var elem := uo.types[t].elem;
    if out.items.Some? {
      var items := out.items.value;
      forall n | 0 <= n < |items| ensures Back(ops, ui, elem, items[n], v.items[n]) {
        ReadsBack(ops, ui, uo, elem, k, s.elem, l, r.elem, items[n], v.items[n]);
      }
      ItemsBack(ops, ui, t, items, v);
    }
  }

  lemma ItemsBack(ops: FloatOps, u: Universe, t: nat, items: seq<Out>, v: Value)
    requires t < |u.types| && u.types[t].TSlice? && v.List? && |v.items| == |items|
    requires forall n :: 0 <= n < |items| ==> Back(ops, u, u.types[t].elem, items[n], v.items[n])
    ensures Back(ops, u, t, OutList(Some(items)), v)
  {
    var elem := u.types[t].elem;
    forall x ensures InputMeaning.Reads(ops, u, t, v, x) <==> Mirrors(ops, u, t, OutList(Some(items)), x) {
      if x.GoSlice? && |x.items| == |items| {
        forall n | 0 <= n < |items|
          ensures InputMeaning.Reads(ops, u, elem, v.items[n], x.items[n])
                  <==> Mirrors(ops, u, elem, items[n], x.items[n]) {
          assert Back(ops, u, elem, items[n], v.items[n]);
        }
      }
    }
  }

  lemma {:induction false} MapBack(ops: FloatOps, ui: Universe, uo: Universe, t: nat, k: bool, s: Shape, l: bool,
                                   r: Shape, out: Out, v: Value)
    requires BothWays(ui, uo) && Unrolls(uo, t, k, s) && Unrolls(ui, t, l, r) && OutputMeaning.Says(uo, t, out, v)
    requires uo.types[t].TMap?
    ensures Back(ops, ui, t, out, v)
    decreases s, 0
  {
    var elem := uo.types[t].elem;
    if out.entries.Some? {
      var entries := out.entries.value;
      forall n | n in entries ensures Back(ops, ui, elem, entries[n], v.fields[n]) {
        ReadsBack(ops, ui, uo, elem, k, s.elem, l, r.elem, entries[n], v.fields[n]);
      }
      EntriesBack(ops, ui, t, entries, v);
    }
  }

  lemma EntriesBack(ops: FloatOps, u: Universe, t: nat, entries: map<Bytes, Out>, v: Value)
    requires t < |u.types| && u.types[t].TMap? && InputMeaning.StringKeyed(u, u.types[t].key)
    requires v.Obj? && v.fields.Keys == entries.Keys
    requires forall n :: n in entries ==> Back(ops, u, u.types[t].elem, entries[n], v.fields[n])
    ensures Back(ops, u, t, OutMap(Some(entries)), v)
  {
    var elem := u.types[t].elem;
    forall x ensures InputMeaning.Reads(ops, u, t, v, x) <==> Mirrors(ops, u, t, OutMap(Some(entries)), x) {
      if x.GoMap? && x.entries.Keys == entries.Keys {
        forall n | n in entries
          ensures InputMeaning.Reads(ops, u, elem, v.fields[n], x.entries[n])
                  <==> Mirrors(ops, u, elem, entries[n], x.entries[n]) {
          assert Back(ops, u, elem, entries[n], v.fields[n]);
        }
      }
    }
  }

  /** Member n of v is read as member n of the output is. */
  ghost predicate MemberBack(ops: FloatOps, u: Universe, field: GoField, out: Out, m: map<Bytes, Value>)
    requires field.name.Some?
  {
    if field.name.value in m then Back(ops, u, field.typ, out, m[field.name.value])
    else IsPointer(u, field.typ) && out == OutPointer(None)
  }

  lemma MembersBack(ops: FloatOps, u: Universe, t: nat, outs: seq<Out>, v: Value)
    requires t < |u.types| && u.types[t].TStruct? && v.Obj? && |outs| == |u.types[t].fields|
    requires forall n :: 0 <= n < |outs| ==>
               u.types[t].fields[n].name.Some? && MemberBack(ops, u, u.types[t].fields[n], outs[n], v.fields)
    requires forall k :: k in v.fields ==> InputMeaning.Declares(u.types[t].fields, k)
    ensures Back(ops, u, t, OutStruct(outs), v)
  {
    var fields := u.types[t].fields;
    forall x ensures InputMeaning.Reads(ops, u, t, v, x) <==> Mirrors(ops, u, t, OutStruct(outs), x) {
      if x.GoStruct? && |x.fields| == |fields| { MembersReadBack(ops, u, t, outs, v, x); }
    }
  }

  lemma MembersReadBack(ops: FloatOps, u: Universe, t: nat, outs: seq<Out>, v: Value, x: GoInput)
    requires t < |u.types| && u.types[t].TStruct? && v.Obj? && |outs| == |u.types[t].fields|
    requires forall n :: 0 <= n < |outs| ==>
               u.types[t].fields[n].name.Some? && MemberBack(ops, u, u.types[t].fields[n], outs[n], v.fields)
    requires forall k :: k in v.fields ==> InputMeaning.Declares(u.types[t].fields, k)
    requires x.GoStruct? && |x.fields| == |outs|
    ensures InputMeaning.Reads(ops, u, t, v, x) <==> Mirrors(ops, u, t, OutStruct(outs), x)
  {
    var fields := u.types[t].fields;
    if InputMeaning.Reads(ops, u, t, v, x) {
      forall n | 0 <= n < |fields| ensures Mirrors(ops, u, fields[n].typ, outs[n], x.fields[n]) {
        assert MemberBack(ops, u, fields[n], outs[n], v.fields);
        assert InputMeaning.Named(fields, n, fields[n].name.value);
      }
    }
    if Mirrors(ops, u, t, OutStruct(outs), x) {
      forall n, k | 0 <= n < |fields| && InputMeaning.Named(fields, n, k)
        ensures if k in v.fields then InputMeaning.Reads(ops, u, fields[n].typ, v.fields[k], x.fields[n])
                else IsPointer(u, fields[n].typ) && x.fields[n] == GoNilPointer {
        assert MemberBack(ops, u, fields[n], outs[n], v.fields);
        assert Mirrors(ops, u, fields[n].typ, outs[n], x.fields[n]);
      }
    }
  }

  lemma {:induction false} StructBack(ops: FloatOps, ui: Universe, uo: Universe, t: nat, k: bool, s: Shape, l: bool,
                                      r: Shape, out: Out, v: Value)
    requires BothWays(ui, uo) && Unrolls(uo, t, k, s) && Unrolls(ui, t, l, r) && OutputMeaning.Says(uo, t, out, v)
    requires uo.types[t].TStruct?
    ensures Back(ops, ui, t, out, v)
    decreases s, 0
  {
    var fields := uo.types[t].fields;
    forall n | 0 <= n < |fields|
      ensures fields[n].name.Some? && MemberBack(ops, ui, fields[n], out.fields[n], v.fields) {
      assert FieldAllowed(uo, fields[n], k);
      MemberPresent(uo, t, out, v, n);
      if fields[n].name.value in v.fields {
        ReadsBack(ops, ui, uo, fields[n].typ, false, s.fields[n].shape, false, r.fields[n].shape, out.fields[n],
                  v.fields[fields[n].name.value]);
      }
    }
    forall m | m in v.fields ensures InputMeaning.Declares(fields, m) {
      assert OutputMeaning.Declares(fields, out.fields, m);
      var n :| 0 <= n < |fields| && OutputMeaning.Keeps(fields, out.fields, n, m);
      assert InputMeaning.Named(fields, n, m);
    }
    MembersBack(ops, ui, t, out.fields, v);
  }

  lemma LeftOutIsAbsent(fields: seq<GoField>, outs: seq<Out>, n: nat)
    requires n < |fields| == |outs| && DistinctNames(fields) && fields[n].name.Some?
    requires OutputMeaning.LeftOut(fields[n], outs[n])
    ensures !OutputMeaning.Declares(fields, outs, fields[n].name.value)
  {
    forall m | 0 <= m < |fields| ensures !OutputMeaning.Keeps(fields, outs, m, fields[n].name.value) {}
  }

  lemma MemberPresent(u: Universe, t: nat, out: Out, v: Value, n: nat)
    requires t < |u.types| && u.types[t].TStruct? && OutputMeaning.Says(u, t, out, v)
             && DistinctNames(u.types[t].fields)
    requires n < |u.types[t].fields| && u.types[t].fields[n].name.Some?
    ensures var k := u.types[t].fields[n].name.value;
            if OutputMeaning.LeftOut(u.types[t].fields[n], out.fields[n]) then k !in v.fields
            else k in v.fields && OutputMeaning.Says(u, u.types[t].fields[n].typ, out.fields[n], v.fields[k])
  {
    var fields := u.types[t].fields;
    var k := fields[n].name.value;
    if OutputMeaning.LeftOut(fields[n], out.fields[n]) {
      LeftOutIsAbsent(fields, out.fields, n);
    } else {
      assert OutputMeaning.Keeps(fields, out.fields, n, k);
    }
  }

  /** An output type that compiles as an input type too: what ConvertOutput makes of a value, bound
      as a call's map, gives exactly that value. */
  lemma OutputReadsBack(ops: FloatOps, ui: Universe, uo: Universe, root: nat, into: Arena, intoShapes: seq<Shape>,
                        from: Arena, fromShapes: seq<Shape>, out: Out, v: Value)
    requires BothWays(ui, uo) && InputMeaning.Compiled(ops, ui, root, into, intoShapes)
    requires ArenaOf(uo, root, false, from, fromShapes) && Means(from.nodes, from.root, out, v)
    ensures v.Obj? && RootOk(PlanOf(into), into.root)
    ensures forall x :: InputMeaning.BindsMap(ops, PlanOf(into), into.root, v.fields, x)
                        <==> Mirrors(ops, ui, root, out, x)
  {
    OutputMeaning.OutputSays(uo, root, from, fromShapes, out, v);
    ReadsBack(ops, ui, uo, root, false, fromShapes[from.root], true, intoShapes[into.root], out, v);
    InputMeaning.InputIsRead(ops, ui, root, into, intoShapes, v.fields);
    forall x
      ensures InputMeaning.BindsMap(ops, PlanOf(into), into.root, v.fields, x) <==> Mirrors(ops, ui, root, out, x) {
      assert InputMeaning.Reads(ops, ui, root, v, x) <==> Mirrors(ops, ui, root, out, x);
    }
  }
}
