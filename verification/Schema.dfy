/** internal/binding/schema.go and the name rules of names.go: the process-neutral input
    schema, a post-order arena in which every reference points backwards. */
module Schema {
  import opened Text
  import opened Values

  // ----- names -----

  /** Unicode categories and the Starlark scanner's reserved words. */
  datatype NameLib = NameLib(isLetter: char -> bool, isDigit: char -> bool, isKeyword: Bytes -> bool)

  /** The laws needed: ASCII digits are decimal digits, and U+FFFD is neither letter nor digit. */
  ghost predicate KnowsDigits(lib: NameLib) {
    && (forall c: char :: '0' <= c <= '9' ==> lib.isDigit(c))
    && !lib.isLetter(REPLACEMENT) && !lib.isDigit(REPLACEMENT)
  }

  predicate PlainChar(lib: NameLib, c: char, first: bool) {
    c == '_' || lib.isLetter(c) || (!first && '0' <= c <= '9')
  }

  /** isPlainName. */
  predicate IsPlainName(lib: NameLib, name: Bytes) {
    var s := Runes(name);
    s != "" && forall i :: 0 <= i < |s| ==> PlainChar(lib, s[i], i == 0)
  }

  predicate ValidIdentifier(lib: NameLib, name: Bytes) { !lib.isKeyword(name) && IsPlainName(lib, name) }

  predicate Punctuation(c: char) {
    c == '!' || c == '#' || c == '$' || c == '%' || c == '&' || c == '(' || c == ')' || c == '*' || c == '+' || c == '-'
    || c == '.' || c == '/' || c == ':' || c == ';' || c == '<' || c == '=' || c == '>' || c == '?' || c == '@'
    || c == '['
    || c == ']' || c == '^' || c == '_' || c == '{' || c == '|' || c == '}' || c == '~' || c == ' '
  }

  /** validJSONName. */
  predicate ValidJsonName(lib: NameLib, name: Bytes) {
    var s := Runes(name);
    s != "" && forall i :: 0 <= i < |s| ==> Punctuation(s[i]) || lib.isLetter(s[i]) || lib.isDigit(s[i])
  }

  /** A keyword argument's name is always a legal JSON name as well. */
  lemma IdentifierIsJsonName(lib: NameLib, name: Bytes)
    requires KnowsDigits(lib) && IsPlainName(lib, name)
    ensures ValidJsonName(lib, name)
  {
    var s := Runes(name);
    forall i | 0 <= i < |s| ensures Punctuation(s[i]) || lib.isLetter(s[i]) || lib.isDigit(s[i]) {
      assert PlainChar(lib, s[i], i == 0);
    }
  }

  lemma {:induction false} InvalidShowsReplacement(b: Bytes)
    ensures !ValidUtf8(b) ==> exists i :: 0 <= i < |Runes(b)| && Runes(b)[i] == REPLACEMENT
  {
    if b != [] {
      match DecodeChar(b)
      case Some(step) =>
        InvalidShowsReplacement(b[step.1..]);
        if !ValidUtf8(b[step.1..]) {
          var i :| 0 <= i < |Runes(b[step.1..])| && Runes(b[step.1..])[i] == REPLACEMENT;
          assert Runes(b)[i + 1] == REPLACEMENT;
        }
      case None => assert Runes(b)[0] == REPLACEMENT;
    }
  }

  /** A legal member name is valid UTF-8, so the wire cannot change it. */
  lemma JsonNameIsUtf8(lib: NameLib, name: Bytes)
    requires KnowsDigits(lib) && ValidJsonName(lib, name)
    ensures ValidUtf8(name)
  {
    InvalidShowsReplacement(name);
  }

  // ----- the schema -----

  datatype InputKind =
    | InputString | InputInt | InputBool | InputFloat | InputList | InputMap | InputStruct | InputOptional | UnknownKind

  datatype InputField = InputField(name: Bytes, node: int)

  /** One node as it travels: every field is present whatever the kind. */
  datatype InputNode = InputNode(kind: InputKind, elem: int, fields: Option<seq<InputField>>, intMin: Int64,
                                 intMax: Int64, float32: bool)

  datatype InputSchema = InputSchema(root: int, nodes: seq<InputNode>)

  function FieldsOf(node: InputNode): seq<InputField> { if node.fields.Some? then node.fields.value else [] }

  ghost predicate DistinctFields(fields: seq<InputField>) {
    forall i, j :: 0 <= i < j < |fields| ==> fields[i].name != fields[j].name
  }

  /** Every reference points to an earlier node. */
  predicate PointsBack(node: InputNode, index: int) {
    match node.kind
    case InputList => 0 <= node.elem < index
    case InputMap => 0 <= node.elem < index
    case InputOptional => 0 <= node.elem < index
    case InputStruct => forall i :: 0 <= i < |FieldsOf(node)| ==> 0 <= FieldsOf(node)[i].node < index
    case _ => true
  }

  ghost predicate NodeOk(lib: NameLib, nodes: seq<InputNode>, index: int)
    requires 0 <= index < |nodes|
  {
    var node := nodes[index];
    && PointsBack(node, index)
    && (node.kind != InputInt ==> node.intMin == 0 && node.intMax == 0)
    && (node.kind != InputFloat ==> !node.float32)
    && match node.kind
       case InputList => node.fields.None?
       case InputMap => node.fields.None?
       case InputOptional => node.fields.None? && nodes[node.elem].kind != InputOptional
       case InputStruct =>
         node.elem == 0 && DistinctFields(FieldsOf(node))
         && forall i :: 0 <= i < |FieldsOf(node)| ==> ValidJsonName(lib, FieldsOf(node)[i].name)
       case InputInt => node.elem == 0 && node.fields.None? && node.intMin <= node.intMax
       case UnknownKind => false
       case _ => node.elem == 0 && node.fields.None?
  }

  ghost predicate SchemaOk(lib: NameLib, schema: InputSchema) {
    && 0 <= schema.root < |schema.nodes| && schema.nodes[schema.root].kind == InputStruct
    && (forall i :: 0 <= i < |FieldsOf(schema.nodes[schema.root])|
          ==> ValidIdentifier(lib, FieldsOf(schema.nodes[schema.root])[i].name))
    && (forall index :: 0 <= index < |schema.nodes| ==> NodeOk(lib, schema.nodes, index))
  }

  /** validateInputStruct. */
  method ValidateInputStruct(lib: NameLib, index: int, node: InputNode) returns (ok: bool)
    requires node.kind == InputStruct
    ensures ok <==> node.elem == 0 && DistinctFields(FieldsOf(node)) && PointsBack(node, index)
                    && forall i :: 0 <= i < |FieldsOf(node)| ==> ValidJsonName(lib, FieldsOf(node)[i].name)
  {
    if node.elem != 0 { return false; }
    var fields := FieldsOf(node);
    var seen: set<Bytes> := {};
    for n := 0 to |fields|
      invariant forall i :: 0 <= i < n
                  ==> ValidJsonName(lib, fields[i].name) && 0 <= fields[i].node < index && fields[i].name in seen
      invariant forall name :: name in seen ==> exists i :: 0 <= i < n && fields[i].name == name
      invariant forall i, j :: 0 <= i < j < n ==> fields[i].name != fields[j].name
    {
      var field := fields[n];
      if !ValidJsonName(lib, field.name) { return false; }
      if field.name in seen { return false; }
      if field.node < 0 || field.node >= index { return false; }
      seen := seen + {field.name};
    }
    return true;
  }

  /** validateInputNode. */
  method ValidateInputNode(lib: NameLib, nodes: seq<InputNode>, index: nat) returns (ok: bool)
    requires index < |nodes|
    ensures ok <==> NodeOk(lib, nodes, index)
  {
    var node := nodes[index];
    if node.kind != InputInt && (node.intMin != 0 || node.intMax != 0) { return false; }
    if node.kind != InputFloat && node.float32 { return false; }
    match node.kind {
      case InputList => return !(node.elem < 0 || node.elem >= index || node.fields.Some?);
      case InputMap => return !(node.elem < 0 || node.elem >= index || node.fields.Some?);
      case InputOptional =>
        if node.elem < 0 || node.elem >= index || node.fields.Some? { return false; }
        return nodes[node.elem].kind != InputOptional;
      case InputStruct => ok := ValidateInputStruct(lib, index, node);
      case UnknownKind => return false;
      case _ =>
        if node.elem != 0 || node.fields.Some? { return false; }
        return !(node.kind == InputInt && node.intMin > node.intMax);
    }
  }

  /** InputSchema.Validate. */
  method Validate(lib: NameLib, schema: InputSchema) returns (ok: bool)
    ensures ok <==> SchemaOk(lib, schema)
  {
    if schema.root < 0 || schema.root >= |schema.nodes| || schema.nodes[schema.root].kind != InputStruct {
      return false;
    }
    var fields := FieldsOf(schema.nodes[schema.root]);
    for n := 0 to |fields|
      invariant forall i :: 0 <= i < n ==> ValidIdentifier(lib, fields[i].name)
    {
      if !ValidIdentifier(lib, fields[n].name) { return false; }
    }
    for index := 0 to |schema.nodes|
      invariant forall i :: 0 <= i < index ==> NodeOk(lib, schema.nodes, i)
    {
      var fine := ValidateInputNode(lib, schema.nodes, index);
      if !fine { return false; }
    }
    return true;
  }
}
