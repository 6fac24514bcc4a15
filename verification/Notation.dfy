/** The input notation of internal/binding/compile.go and names.go: the text printed for a
    compiled type determines its shape. */
module Notation {
  import opened Text
  import opened Schema
  import opened Shapes
  import opened Compiler

  const NONE_SUFFIX: string := " | None"

  /** The characters that structure a notation are neither letters nor digits. */
  ghost predicate Separates(lib: NameLib) {
    forall c :: c == '"' || c == ':' || c == '}' || c == ',' ==> !lib.isLetter(c) && !lib.isDigit(c)
  }

  /** notationName. strconv.Quote only adds the quotes: a JSON name has no quote, backslash or
      unprintable character. */
  function NameText(lib: NameLib, name: Bytes): string {
    if IsPlainName(lib, name) then Runes(name) else ['"'] + Runes(name) + ['"']
  }

  function EndsWithNone(s: string): bool { |s| >= |NONE_SUFFIX| && s[|s| - |NONE_SUFFIX|..] == NONE_SUFFIX }

  /** pointerNotation. */
  function PointerText(elem: string): string { if EndsWithNone(elem) then elem else elem + NONE_SUFFIX }

  function Print(lib: NameLib, s: Shape): string
    decreases s, 0
  {
    match s
    case SString => "str"
    case SBool => "bool"
    case SInt(_) => "int"
    case SUint(_) => "int"
    case SFloat(_) => "float"
    case SBytes => "list[int]"
    case SList(elem) => "list[" + Print(lib, elem) + "]"
    case SMap(elem) => "dict[str, " + Print(lib, elem) + "]"
    case SPointer(elem) => PointerText(Print(lib, elem))
    case SStruct(fields) => "{" + PrintFields(lib, fields, 0)
  }

  /** structNotation from field n on, with the closing brace. */
  function PrintFields(lib: NameLib, fields: seq<ShapeField>, n: nat): string
    requires n <= |fields|
    decreases fields, 0, |fields| - n
  {
    if n == |fields| then "}"
    else (if n > 0 then ", " else "")
         + (NameText(lib, fields[n].name) + (": " + (Print(lib, fields[n].shape) + PrintFields(lib, fields, n + 1))))
  }

  /** What an input type can unroll to. */
  ghost predicate InputShape(lib: NameLib, s: Shape)
    decreases s
  {
    match s
    case SBytes => false
    case SList(elem) => InputShape(lib, elem)
    case SMap(elem) => InputShape(lib, elem)
    case SPointer(elem) => !elem.SPointer? && InputShape(lib, elem)
    case SStruct(fields) =>
      forall n :: 0 <= n < |fields| ==> ValidJsonName(lib, fields[n].name) && ValidUtf8(fields[n].name)
                                        && InputShape(lib, fields[n].shape)
    case _ => true
  }

  lemma {:induction false} UnrolledIsInput(u: Universe, t: nat, keywords: bool, s: Shape)
    requires KnowsDigits(u.names) && u.dir.InputDirection? && Unrolls(u, t, keywords, s)
    ensures InputShape(u.names, s)
    decreases s
  {
    match u.types[t]
    case TPointer(elem) =>
      UnrolledIsInput(u, elem, keywords, s.elem);
    case TSlice(elem) => UnrolledIsInput(u, elem, keywords, s.elem);
    case TMap(_, elem) => UnrolledIsInput(u, elem, keywords, s.elem);
    case TStruct(fields) =>
      forall n | 0 <= n < |fields| ensures ValidJsonName(u.names, s.fields[n].name) && ValidUtf8(s.fields[n].name)
        && InputShape(u.names, s.fields[n].shape) {
        assert FieldAllowed(u, fields[n], keywords);
        if keywords { IdentifierIsJsonName(u.names, s.fields[n].name); }
        JsonNameIsUtf8(u.names, s.fields[n].name);
        UnrolledIsInput(u, fields[n].typ, false, s.fields[n].shape);
      }
    case _ =>
  }

  /** The same shape, up to the width and sign of numbers and the omission of nil pointers. */
  ghost predicate Same(a: Shape, b: Shape)
    decreases a
  {
    match a
    case SString => b.SString?
    case SBool => b.SBool?
    case SInt(_) => b.SInt? || b.SUint?
    case SUint(_) => b.SInt? || b.SUint?
    case SFloat(_) => b.SFloat?
    case SBytes => b.SBytes?
    case SList(elem) => b.SList? && Same(elem, b.elem)
    case SMap(elem) => b.SMap? && Same(elem, b.elem)
    case SPointer(elem) => b.SPointer? && Same(elem, b.elem)
    case SStruct(fields) =>
      b.SStruct? && |b.fields| == |fields|
        && forall n :: 0 <= n < |fields|
             ==> fields[n].name == b.fields[n].name && Same(fields[n].shape, b.fields[n].shape)
  }

  // ----- cutting text -----

  lemma FirstCut(p: string, c: char, x: string, q: string, z: string)
    requires p + ([c] + x) == q + z
    ensures |p| < |q| ==> q[|p|] == c
  {
    assert (p + ([c] + x))[|p|] == c;
    assert |p| < |q| ==> (q + z)[|p|] == q[|p|];
  }

  /** Up to its first separator a text has one reading. */
  lemma Cut(p: string, q: string, c: char, x: string, y: string)
    requires c !in p && c !in q && p + ([c] + x) == q + ([c] + y)
    ensures p == q && x == y
  {
    FirstCut(p, c, x, q, [c] + y);
    FirstCut(q, c, y, p, [c] + x);
    var whole := p + ([c] + x);
    assert whole[..|p|] == p && whole[..|q|] == q;
    CutHead(p, [c] + x, [c] + y);
    CutHead([c], x, y);
  }

  lemma CutHead(head: string, x: string, y: string)
    requires head + x == head + y
    ensures x == y
  {
    assert (head + x)[|head|..] == x && (head + y)[|head|..] == y;
  }

  lemma NameChars(lib: NameLib, name: Bytes)
    requires Separates(lib) && ValidJsonName(lib, name)
    ensures '"' !in Runes(name) && Runes(name) != ""
    ensures IsPlainName(lib, name)
            ==> ':' !in Runes(name) && Runes(name)[0] != '"' && Runes(name)[0] != '}' && Runes(name)[0] != ','
  {
    var s := Runes(name);
    forall i | 0 <= i < |s| ensures s[i] != '"' { assert Punctuation(s[i]) || lib.isLetter(s[i]) || lib.isDigit(s[i]); }
    if IsPlainName(lib, name) {
      forall i | 0 <= i < |s| ensures s[i] != ':' { assert PlainChar(lib, s[i], i == 0); }
    }
  }

  lemma SameRunes(a: Bytes, b: Bytes)
    requires ValidUtf8(a) && ValidUtf8(b) && Runes(a) == Runes(b)
    ensures a == b
  {
    Utf8OfRunes(a);
    Utf8OfRunes(b);
  }

  /** A printed name, followed by a colon, has one reading. */
  lemma NameOnce(lib: NameLib, a: Bytes, b: Bytes, x: string, y: string)
    requires Separates(lib) && ValidJsonName(lib, a) && ValidJsonName(lib, b) && ValidUtf8(a) && ValidUtf8(b)
    requires NameText(lib, a) + ([':'] + x) == NameText(lib, b) + ([':'] + y)
    ensures a == b && x == y
  {
    NameChars(lib, a);
    NameChars(lib, b);
    var left, right := NameText(lib, a) + ([':'] + x), NameText(lib, b) + ([':'] + y);
    assert left[0] == NameText(lib, a)[0] && right[0] == NameText(lib, b)[0];
    if IsPlainName(lib, a) && IsPlainName(lib, b) {
      Cut(Runes(a), Runes(b), ':', x, y);
      SameRunes(a, b);
    } else if !IsPlainName(lib, a) && !IsPlainName(lib, b) {
      assert left == ['"'] + (Runes(a) + (['"'] + ([':'] + x))) && right == ['"'] + (Runes(b) + (['"'] + ([':'] + y)));
      CutHead(['"'], Runes(a) + (['"'] + ([':'] + x)), Runes(b) + (['"'] + ([':'] + y)));
      Cut(Runes(a), Runes(b), '"', [':'] + x, [':'] + y);
      CutHead([':'], x, y);
      SameRunes(a, b);
    }
  }

  // ----- reading a notation back -----

  /** What may follow a printed shape, and what may follow one that is not a pointer. */
  predicate Follows(x: string) { x == "" || x[0] == ',' || x[0] == ']' || x[0] == '}' }

  predicate FollowsBase(x: string) { Follows(x) || x[0] == ' ' }

  /** The first character tells the seven forms apart. */
  function Mark(s: Shape): char {
    match s
    case SString => 's'
    case SBool => 'b'
    case SInt(_) => 'i'
    case SUint(_) => 'i'
    case SFloat(_) => 'f'
    case SMap(_) => 'd'
    case SStruct(_) => '{'
    case _ => 'l'
  }

  lemma BaseStarts(lib: NameLib, s: Shape)
    requires !s.SPointer?
    ensures Print(lib, s) != "" && Print(lib, s)[0] == Mark(s)
  {}

  lemma {:induction false} BaseEnds(lib: NameLib, s: Shape)
    requires !s.SPointer?
    ensures Print(lib, s) != "" && Print(lib, s)[|Print(lib, s)| - 1] != 'e'
  {
    if s.SStruct? { FieldsEnd(lib, s.fields, 0); }
  }

  lemma {:induction false} FieldsEnd(lib: NameLib, fields: seq<ShapeField>, n: nat)
    requires n <= |fields|
    ensures PrintFields(lib, fields, n) != "" && PrintFields(lib, fields, n)[|PrintFields(lib, fields, n)| - 1] == '}'
    decreases |fields| - n
  {
    if n < |fields| { FieldsEnd(lib, fields, n + 1); }
  }

  lemma NoneEnds(s: string)
    requires EndsWithNone(s)
    ensures s[|s| - 1] == 'e'
  {
    assert s[|s| - |NONE_SUFFIX|..][6] == NONE_SUFFIX[6];
  }

  /** An input pointer prints as its element with the suffix: optionals do not nest. */
  lemma PointerPrints(lib: NameLib, s: Shape)
    requires s.SPointer? && !s.elem.SPointer?
    ensures Print(lib, s) == Print(lib, s.elem) + NONE_SUFFIX
  {
    var elem := Print(lib, s.elem);
    BaseEnds(lib, s.elem);
    if EndsWithNone(elem) { NoneEnds(elem); }
  }

  lemma Associates(a: string, b: string, c: string)
    ensures a + b + c == a + (b + c)
  {}

  lemma {:induction false} ReadBase(lib: NameLib, a: Shape, b: Shape, x: string, y: string)
    requires Separates(lib) && InputShape(lib, a) && InputShape(lib, b) && !a.SPointer? && !b.SPointer?
             && FollowsBase(x) && FollowsBase(y)
    requires Print(lib, a) + x == Print(lib, b) + y
    ensures Same(a, b) && x == y
    decreases a, 0
  {
    BaseStarts(lib, a);
    BaseStarts(lib, b);
    assert (Print(lib, a) + x)[0] == Mark(a) && (Print(lib, b) + y)[0] == Mark(b);
    match a
    case SList(elem) =>
      ReadInside(lib, "list[", elem, b.elem, x, y);
    case SMap(elem) =>
      ReadInside(lib, "dict[str, ", elem, b.elem, x, y);
    case SStruct(fields) =>
      Associates("{", PrintFields(lib, fields, 0), x);
      Associates("{", PrintFields(lib, b.fields, 0), y);
      CutHead("{", PrintFields(lib, fields, 0) + x, PrintFields(lib, b.fields, 0) + y);
      ReadFields(lib, fields, b.fields, 0, x, y);
      forall n | 0 <= n < |fields|
        ensures fields[n].name == b.fields[n].name && Same(fields[n].shape, b.fields[n].shape) {
        SameAt(fields, b.fields, 0, n);
      }
    case _ =>
      CutHead(Print(lib, a), x, y);
  }

  lemma {:induction false} ReadInside(lib: NameLib, head: string, a: Shape, b: Shape, x: string, y: string)
    requires Separates(lib) && InputShape(lib, a) && InputShape(lib, b)
    requires head + Print(lib, a) + "]" + x == head + Print(lib, b) + "]" + y
    ensures Same(a, b) && x == y
    decreases a, 2
  {
    assert head + Print(lib, a) + "]" + x == head + (Print(lib, a) + ("]" + x));
    assert head + Print(lib, b) + "]" + y == head + (Print(lib, b) + ("]" + y));
    CutHead(head, Print(lib, a) + ("]" + x), Print(lib, b) + ("]" + y));
    ReadShape(lib, a, b, "]" + x, "]" + y);
    CutHead("]", x, y);
  }

  lemma {:induction false} ReadShape(lib: NameLib, a: Shape, b: Shape, x: string, y: string)
    requires Separates(lib) && InputShape(lib, a) && InputShape(lib, b) && Follows(x) && Follows(y)
    requires Print(lib, a) + x == Print(lib, b) + y
    ensures Same(a, b) && x == y
    decreases a, 1
  {
    var p, q := if a.SPointer? then a.elem else a, if b.SPointer? then b.elem else b;
    if a.SPointer? {
      PointerPrints(lib, a);
      Associates(Print(lib, p), NONE_SUFFIX, x);
    }
    if b.SPointer? {
      PointerPrints(lib, b);
      Associates(Print(lib, q), NONE_SUFFIX, y);
    }
    var u, v := if a.SPointer? then NONE_SUFFIX + x else x, if b.SPointer? then NONE_SUFFIX + y else y;
    ReadBase(lib, p, q, u, v);
    if a.SPointer? && b.SPointer? { CutHead(NONE_SUFFIX, x, y); }
  }

  /** One field and what follows it. */
  lemma {:induction false} ReadField(lib: NameLib, f: ShapeField, g: ShapeField, x: string, y: string)
    requires Separates(lib) && InputShape(lib, f.shape) && InputShape(lib, g.shape) && Follows(x) && Follows(y)
    requires ValidJsonName(lib, f.name) && ValidUtf8(f.name) && ValidJsonName(lib, g.name) && ValidUtf8(g.name)
    requires NameText(lib, f.name) + (": " + (Print(lib, f.shape) + x))
             == NameText(lib, g.name) + (": " + (Print(lib, g.shape) + y))
    ensures f.name == g.name && Same(f.shape, g.shape) && x == y
    decreases f.shape, 2
  {
    var u, v := Print(lib, f.shape) + x, Print(lib, g.shape) + y;
    assert ": " + u == [':'] + ([' '] + u) && ": " + v == [':'] + ([' '] + v);
    NameOnce(lib, f.name, g.name, [' '] + u, [' '] + v);
    CutHead([' '], u, v);
    ReadShape(lib, f.shape, g.shape, x, y);
  }

  lemma {:induction false} FieldsStart(lib: NameLib, fields: seq<ShapeField>, n: nat)
    requires Separates(lib) && n <= |fields| && forall i :: 0 <= i < |fields| ==> ValidJsonName(lib, fields[i].name)
    ensures var text := PrintFields(lib, fields, n);
            text != "" && (text[0] == '}' <==> n == |fields|)
              && (n > 0 ==> Follows(text) && (n < |fields| ==> text[0] == ','))
  {
    if n < |fields| { NameChars(lib, fields[n].name); }
  }

  lemma {:induction false} ReadFields(lib: NameLib, f: seq<ShapeField>, g: seq<ShapeField>, n: nat, x: string,
                                      y: string)
    requires Separates(lib) && FieldsFine(lib, f) && FieldsFine(lib, g) && n <= |f| && n <= |g|
    requires PrintFields(lib, f, n) + x == PrintFields(lib, g, n) + y
    ensures |f| == |g| && x == y && SameFrom(f, g, n)
    decreases f, 0, |f| - n
  {
    SameLength(lib, f, g, n, x, y);
    if n < |f| {
      ReadNext(lib, f, g, n, x, y);
      ReadFields(lib, f, g, n + 1, x, y);
    }
  }

  /** The fields agree from n on. */
  ghost predicate SameFrom(f: seq<ShapeField>, g: seq<ShapeField>, n: nat)
    requires n <= |f| == |g|
    decreases |f| - n
  {
    n == |f| || (f[n].name == g[n].name && Same(f[n].shape, g[n].shape) && SameFrom(f, g, n + 1))
  }

  lemma {:induction false} SameAt(f: seq<ShapeField>, g: seq<ShapeField>, n: nat, i: nat)
    requires n <= i < |f| == |g| && SameFrom(f, g, n)
    ensures f[i].name == g[i].name && Same(f[i].shape, g[i].shape)
    decreases i - n
  {
    if n < i { SameAt(f, g, n + 1, i); }
  }

  ghost predicate FieldsFine(lib: NameLib, fields: seq<ShapeField>) {
    forall n :: 0 <= n < |fields| ==> ValidJsonName(lib, fields[n].name) && ValidUtf8(fields[n].name)
                                      && InputShape(lib, fields[n].shape)
  }

  lemma SameLength(lib: NameLib, f: seq<ShapeField>, g: seq<ShapeField>, n: nat, x: string, y: string)
    requires Separates(lib) && FieldsFine(lib, f) && FieldsFine(lib, g) && n <= |f| && n <= |g|
    requires PrintFields(lib, f, n) + x == PrintFields(lib, g, n) + y
    ensures n == |f| <==> n == |g|
    ensures n == |f| ==> x == y
  {
    FieldsStart(lib, f, n);
    FieldsStart(lib, g, n);
    assert (PrintFields(lib, f, n) + x)[0] == PrintFields(lib, f, n)[0]
           && (PrintFields(lib, g, n) + y)[0] == PrintFields(lib, g, n)[0];
    if n == |f| { CutHead("}", x, y); }
  }

  /** Field n of both lists, and that what follows it follows a shape. */
  lemma {:induction false} ReadNext(lib: NameLib, f: seq<ShapeField>, g: seq<ShapeField>, n: nat, x: string, y: string)
    requires Separates(lib) && FieldsFine(lib, f) && FieldsFine(lib, g) && n < |f| && n < |g|
    requires PrintFields(lib, f, n) + x == PrintFields(lib, g, n) + y
    ensures f[n].name == g[n].name && Same(f[n].shape, g[n].shape)
            && PrintFields(lib, f, n + 1) + x == PrintFields(lib, g, n + 1) + y
    decreases f[n].shape, 3
  {
    var more, other := PrintFields(lib, f, n + 1) + x, PrintFields(lib, g, n + 1) + y;
    FieldsFollow(lib, f, n + 1, x);
    FieldsFollow(lib, g, n + 1, y);
    FieldText(lib, f, n, x);
    FieldText(lib, g, n, y);
    CutHead(if n > 0 then ", " else "", NameText(lib, f[n].name) + (": " + (Print(lib, f[n].shape) + more)),
            NameText(lib, g[n].name) + (": " + (Print(lib, g[n].shape) + other)));
    ReadField(lib, f[n], g[n], more, other);
  }

  lemma FieldsFollow(lib: NameLib, fields: seq<ShapeField>, n: nat, x: string)
    requires Separates(lib) && 0 < n <= |fields| && FieldsFine(lib, fields)
    ensures Follows(PrintFields(lib, fields, n) + x)
  {
    FieldsStart(lib, fields, n);
    assert (PrintFields(lib, fields, n) + x)[0] == PrintFields(lib, fields, n)[0];
  }

  lemma FieldText(lib: NameLib, fields: seq<ShapeField>, n: nat, x: string)
    requires n < |fields|
    ensures PrintFields(lib, fields, n) + x
         == (if n > 0 then ", " else "")
           + (NameText(lib, fields[n].name)
              + (": " + (Print(lib, fields[n].shape) + (PrintFields(lib, fields, n + 1) + x))))
  {
    var name, shape, more := NameText(lib, fields[n].name), Print(lib, fields[n].shape),
      PrintFields(lib, fields, n + 1);
    Associates(shape, more, x);
    Associates(": ", shape + more, x);
    Associates(name, ": " + (shape + more), x);
    Associates(if n > 0 then ", " else "", name + (": " + (shape + more)), x);
  }

  // ----- the theorem -----

  lemma {:induction false} SamePrints(lib: NameLib, a: Shape, b: Shape)
    requires Same(a, b)
    ensures Print(lib, a) == Print(lib, b)
    decreases a, 0, 0
  {
    match a
    case SList(elem) => SamePrints(lib, elem, b.elem);
    case SMap(elem) => SamePrints(lib, elem, b.elem);
    case SPointer(elem) => SamePrints(lib, elem, b.elem);
    case SStruct(fields) => SameFieldsPrint(lib, fields, b.fields, 0);
    case _ =>
  }

  lemma {:induction false} SameFieldsPrint(lib: NameLib, f: seq<ShapeField>, g: seq<ShapeField>, n: nat)
    requires n <= |f| == |g| && forall i :: 0 <= i < |f| ==> f[i].name == g[i].name && Same(f[i].shape, g[i].shape)
    ensures PrintFields(lib, f, n) == PrintFields(lib, g, n)
    decreases f, 0, |f| - n
  {
    if n < |f| {
      SamePrints(lib, f[n].shape, g[n].shape);
      SameFieldsPrint(lib, f, g, n + 1);
    }
  }

  /** The notation of input types is unambiguous: two shapes print alike exactly when they are the
      same up to the width and sign of numbers and the omission of nil pointers. */
  lemma NotationUnambiguous(lib: NameLib, a: Shape, b: Shape)
    requires Separates(lib) && InputShape(lib, a) && InputShape(lib, b)
    ensures Print(lib, a) == Print(lib, b) <==> Same(a, b)
  {
    if Same(a, b) { SamePrints(lib, a, b); }
    if Print(lib, a) == Print(lib, b) {
      assert Print(lib, a) + "" == Print(lib, b) + "";
      ReadShape(lib, a, b, "", "");
    }
  }

  // ----- the compiler's notations -----

  /** The notation of a node from those of the nodes before it. */
  function NodeText(lib: NameLib, node: TypeNode, texts: seq<string>): string {
    match node.kind
    case NodeString => "str"
    case NodeBool => "bool"
    case NodeInt => "int"
    case NodeUint => "int"
    case NodeFloat => "float"
    case NodeBytes => "list[int]"
    case NodeList => if node.elem < |texts| then "list[" + texts[node.elem] + "]" else ""
    case NodeMap => if node.elem < |texts| then "dict[str, " + texts[node.elem] + "]" else ""
    case NodePointer => if node.elem < |texts| then PointerText(texts[node.elem]) else ""
    case NodeStruct => "{" + StructText(lib, node.fields, texts, 0)
  }

  function StructText(lib: NameLib, fields: seq<StructField>, texts: seq<string>, n: nat): string
    requires n <= |fields|
    decreases |fields| - n
  {
    if n == |fields| then "}"
    else if fields[n].node >= |texts| then ""
    else (if n > 0 then ", " else "")
         + (NameText(lib, fields[n].name) + (": " + (texts[fields[n].node] + StructText(lib, fields, texts, n + 1))))
  }

  lemma {:induction false} StructTextIs(lib: NameLib, node: TypeNode, shapes: seq<Shape>, texts: seq<string>,
                                        s: Shape, n: nat)
    requires node.kind == NodeStruct && |texts| <= |shapes| && Describes(node, shapes, |texts|, s) && n <= |node.fields|
    requires forall i :: 0 <= i < |texts| ==> texts[i] == Print(lib, shapes[i])
    ensures StructText(lib, node.fields, texts, n) == PrintFields(lib, s.fields, n)
    decreases |node.fields| - n
  {
    if n < |node.fields| { StructTextIs(lib, node, shapes, texts, s, n + 1); }
  }

  lemma NodeTextIs(lib: NameLib, node: TypeNode, shapes: seq<Shape>, texts: seq<string>, s: Shape)
    requires |texts| <= |shapes| && Describes(node, shapes, |texts|, s)
    requires forall i :: 0 <= i < |texts| ==> texts[i] == Print(lib, shapes[i])
    ensures NodeText(lib, node, texts) == Print(lib, s)
  {
    if node.kind == NodeStruct { StructTextIs(lib, node, shapes, texts, s, 0); }
  }

  /** Notations are built once per node, in arena order; each is the print of the node's shape. */
  method Annotate(lib: NameLib, u: Universe, root: nat, arena: Arena,
                  ghost shapes: seq<Shape>) returns (texts: seq<string>)
    requires ArenaOf(u, root, u.dir.InputDirection?, arena, shapes)
    ensures |texts| == |arena.nodes| && forall i :: 0 <= i < |texts| ==> texts[i] == Print(lib, shapes[i])
  {
    texts := [];
    for i := 0 to |arena.nodes|
      invariant |texts| == i && forall k :: 0 <= k < i ==> texts[k] == Print(lib, shapes[k])
    {
      NodeTextIs(lib, arena.nodes[i], shapes, texts, shapes[i]);
      texts := texts + [NodeText(lib, arena.nodes[i], texts)];
    }
  }

  /** Each scalar has a name of its own, and nothing but that scalar prints as it. */
  lemma ScalarNames(lib: NameLib, s: Shape)
    requires Separates(lib) && InputShape(lib, s)
    ensures Print(lib, s) == "str" <==> s.SString?
    ensures Print(lib, s) == "bool" <==> s.SBool?
    ensures Print(lib, s) == "int" <==> s.SInt? || s.SUint?
    ensures Print(lib, s) == "float" <==> s.SFloat?
  {
    NotationUnambiguous(lib, s, SString);
    NotationUnambiguous(lib, s, SBool);
    NotationUnambiguous(lib, s, SInt(64));
    NotationUnambiguous(lib, s, SFloat(64));
  }
}
