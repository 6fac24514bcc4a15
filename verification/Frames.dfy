/** The frames of internal/worker/frame.go and decode.go: what is written for each frame,
    what a payload decodes to, and the length-prefixed stream that carries payloads. */
module Frames {
  import opened Text
  import opened Values
  import opened Wire
  import opened Json
  import opened Codec

  const PROTOCOL_VERSION := 1
  const MAX_DIAGNOSTIC_BYTES: nat := 4096
  const MAX_AGENT_ERROR_BYTES: nat := 256

  // ----- names on the wire -----

  datatype Kind = ProbeKind | ProbeAckKind | ExecKind | CallKind | ResultKind | AbortKind | FinalKind | FinalErrorKind

  function KindName(k: Kind): string {
    match k
    case ProbeKind => "probe"
    case ProbeAckKind => "probe_ack"
    case ExecKind => "exec"
    case CallKind => "native_call"
    case ResultKind => "native_result"
    case AbortKind => "native_abort"
    case FinalKind => "final"
    case FinalErrorKind => "final_error"
  }

  function KindOf(s: string): Option<Kind> {
    if s == KindName(ProbeKind) then Some(ProbeKind)
    else if s == KindName(ProbeAckKind) then Some(ProbeAckKind)
    else if s == KindName(ExecKind) then Some(ExecKind)
    else if s == KindName(CallKind) then Some(CallKind)
    else if s == KindName(ResultKind) then Some(ResultKind)
    else if s == KindName(AbortKind) then Some(AbortKind)
    else if s == KindName(FinalKind) then Some(FinalKind)
    else if s == KindName(FinalErrorKind) then Some(FinalErrorKind)
    else None
  }

  datatype Code = InvalidProgramCode | InvalidArgumentsCode | ResourceLimitCode | InternalCode

  function CodeName(c: Code): string {
    match c
    case InvalidProgramCode => "invalid_program"
    case InvalidArgumentsCode => "invalid_arguments"
    case ResourceLimitCode => "resource_limit"
    case InternalCode => "internal"
  }

  function CodeOf(s: string): Option<Code> {
    if s == CodeName(InvalidProgramCode) then Some(InvalidProgramCode)
    else if s == CodeName(InvalidArgumentsCode) then Some(InvalidArgumentsCode)
    else if s == CodeName(ResourceLimitCode) then Some(ResourceLimitCode)
    else if s == CodeName(InternalCode) then Some(InternalCode)
    else None
  }

  datatype Key = TypeKey | VersionKey | SourceKey | LimitsKey | ManifestKey | IdKey | ArgumentsKey | ResultKey
    | CodeKey | DetailKey

  function KeyName(k: Key): string {
    match k
    case TypeKey => "type"
    case VersionKey => "version"
    case SourceKey => "source"
    case LimitsKey => "limits"
    case ManifestKey => "manifest"
    case IdKey => "capability_id"
    case ArgumentsKey => "arguments"
    case ResultKey => "result"
    case CodeKey => "code"
    case DetailKey => "detail"
  }

  function KeyOf(s: string): Option<Key> {
    if s == KeyName(TypeKey) then Some(TypeKey)
    else if s == KeyName(VersionKey) then Some(VersionKey)
    else if s == KeyName(SourceKey) then Some(SourceKey)
    else if s == KeyName(LimitsKey) then Some(LimitsKey)
    else if s == KeyName(ManifestKey) then Some(ManifestKey)
    else if s == KeyName(IdKey) then Some(IdKey)
    else if s == KeyName(ArgumentsKey) then Some(ArgumentsKey)
    else if s == KeyName(ResultKey) then Some(ResultKey)
    else if s == KeyName(CodeKey) then Some(CodeKey)
    else if s == KeyName(DetailKey) then Some(DetailKey)
    else None
  }

  lemma KindNamesDistinct(k: Kind)
    ensures KindOf(KindName(k)) == Some(k)
  {
    var s := KindName(k);
    assert k.ProbeKind? || k.ProbeAckKind? || k.ExecKind? || k.CallKind? ==> s[0] != 'f';
    assert k.CallKind? ==> |s| == 11 && s[7] == 'c';
    assert k.FinalErrorKind? ==> |s| == 11 && s[0] == 'f';
    assert k.ProbeKind? ==> s[0] == 'p';
  }

  lemma CodeNamesDistinct(c: Code)
    ensures CodeOf(CodeName(c)) == Some(c)
  {}

  lemma KeyNamesDistinct(k: Key)
    ensures KeyOf(KeyName(k)) == Some(k)
  {
    var s := KeyName(k);
    assert s[0] == match k case TypeKey => 't' case VersionKey => 'v' case SourceKey => 's' case LimitsKey => 'l'
           case ManifestKey => 'm'
                           case IdKey => 'c' case ArgumentsKey => 'a' case ResultKey => 'r' case CodeKey => 'c'
                             case DetailKey => 'd';
  }

  // ----- frames -----

  /** Limits and manifest of an exec frame stay undecoded documents here. */
  datatype Frame =
    | Probe
    | ProbeAck
    | Exec(source: Bytes, limits: Json, manifest: Json)
    | NativeCall(id: Bytes, arguments: Value)
    | NativeResult(result: Value)
    | NativeAbort(detail: Bytes)
    | Final(result: Value)
    | FinalError(code: Code, detail: Bytes)

  predicate AllowsDetail(c: Code) { c.InvalidProgramCode? || c.InvalidArgumentsCode? }

  predicate AllPrint(printable: char -> bool, s: string) { forall i :: 0 <= i < |s| ==> printable(s[i]) }

  predicate ValidAbortDetail(printable: char -> bool, detail: Bytes) {
    detail != [] && |detail| <= MAX_AGENT_ERROR_BYTES && ValidUtf8(detail) && AllPrint(printable, Runes(detail))
  }

  predicate ValidErrorDetail(c: Code, detail: Bytes) {
    detail != [] && |detail| <= MAX_DIAGNOSTIC_BYTES && AllowsDetail(c)
  }

  /** sanitizedAbortDetail. */
  function KeptAbortDetail(printable: char -> bool, detail: Bytes): Bytes {
    if ValidAbortDetail(printable, detail) then detail else []
  }

  /** sanitizedFinalErrorDetail. */
  function KeptErrorDetail(c: Code, detail: Bytes): Bytes {
    if ValidErrorDetail(c, detail) then detail else []
  }

  // ----- decoding -----

  /** How the raw struct of a frame kind declares a field. */
  datatype Shape = StringShape | IntShape | RawShape | NoField

  function ShapeOf(kind: Kind, key: Key): Shape {
    match key
    case TypeKey => StringShape
    case VersionKey => if kind.ProbeKind? || kind.ProbeAckKind? || kind.ExecKind? then IntShape else NoField
    case SourceKey => if kind.ExecKind? then StringShape else NoField
    case LimitsKey => if kind.ExecKind? then RawShape else NoField
    case ManifestKey => if kind.ExecKind? then RawShape else NoField
    case IdKey => if kind.CallKind? then StringShape else NoField
    case ArgumentsKey => if kind.CallKind? then RawShape else NoField
    case ResultKey => if kind.ResultKind? || kind.FinalKind? then RawShape else NoField
    case CodeKey => if kind.FinalErrorKind? then StringShape else NoField
    case DetailKey => if kind.AbortKind? || kind.FinalErrorKind? then RawShape else NoField
  }

  function MemberError(kind: Kind, m: Member): Option<WireError> {
    match KeyOf(m.name)
    case None => Some(UnknownField)
    case Some(key) =>
      match ShapeOf(kind, key)
      case NoField => Some(UnknownField)
      case RawShape => None
      case StringShape => if m.value.JString? || m.value.JNull? then None else Some(MalformedJson)
      case IntShape =>
        if m.value.JNull? || (m.value.JNumber? && !HasFraction(m.value.token) && ParseInt(m.value.token).Some?)
          then None
        else Some(MalformedJson)
  }

  /** decodeStrict: the first member the struct does not admit decides the error. */
  function StrictError(kind: Kind, members: seq<Member>): Option<WireError> {
    if members == [] then None
    else if MemberError(kind, members[0]).Some? then MemberError(kind, members[0])
    else StrictError(kind, members[1..])
  }

  /** decodeType: null leaves the discriminator as it was. */
  function TypeText(members: seq<Member>): Result<string> {
    if members == [] then Success("")
    else
      var m := members[|members| - 1];
      var before := TypeText(members[..|members| - 1]);
      if before.Failure? || KeyOf(m.name) != Some(TypeKey) then before
      else match m.value
        case JString(s) => Success(s)
        case JNull => before
        case _ => Failure(MalformedJson)
  }

  /** The member a struct field ends up with. */
  function Last(members: seq<Member>, key: Key): Option<Json> {
    if members == [] then None
    else if KeyOf(members[|members| - 1].name) == Some(key) then Some(members[|members| - 1].value)
    else Last(members[..|members| - 1], key)
  }

  /** The fields of one decoded raw struct. */
  type Lookup = Key -> Option<Json>

  function LookupOf(members: seq<Member>): Lookup { (key: Key) => Last(members, key) }

  predicate HasVersion(at: Lookup) {
    match at(VersionKey)
    case Some(JNumber(token)) => ParseInt(token) == Some(PROTOCOL_VERSION)
    case _ => false
  }

  function DecodeTree(lib: FloatLib, j: Option<Json>): Result<Value> {
    match j
    case None => Failure(InvalidValue)
    case Some(tree) =>
      match Normalize(lib, tree)
      case None => Failure(InvalidNumber)
      case Some(v) => Success(v)
  }

  /** The text of an optional detail token; None where the token is not a string. */
  function DetailText(j: Option<Json>): Option<Bytes> {
    match j
    case Some(JString(s)) => Some(Utf8(s))
    case _ => None
  }

  function DecodeCall(lib: FloatLib, id: Option<Json>, arguments: Option<Json>): Result<Frame> {
    match (id, arguments)
    case (Some(JString(s)), Some(j)) =>
      if s == "" || j.JNull? then Failure(InvalidValue)
      else (match DecodeTree(lib, Some(j))
            case Failure(e) => Failure(e)
            case Success(v) => if v.Obj? then Success(NativeCall(Utf8(s), v)) else Failure(InvalidValue))
    case _ => Failure(InvalidValue)
  }

  function DecodeExec(source: Option<Json>, limits: Option<Json>, manifest: Option<Json>): Result<Frame> {
    match (source, limits, manifest)
    case (Some(JString(s)), Some(l), Some(m)) =>
      if l.JNull? || m.JNull? then Failure(InvalidValue) else Success(Exec(Utf8(s), l, m))
    case _ => Failure(InvalidValue)
  }

  function DecodeAbort(printable: char -> bool, detail: Option<Json>): Result<Frame> {
    if detail.None? then Success(NativeAbort([]))
    else match DetailText(detail)
      case Some(d) => if ValidAbortDetail(printable, d) then Success(NativeAbort(d)) else Failure(InvalidValue)
      case None => Failure(InvalidValue)
  }

  function DecodeFinalError(code: Option<Json>, detail: Option<Json>): Result<Frame> {
    match code
    case Some(JString(s)) =>
      (match CodeOf(s)
       case None => Failure(InvalidValue)
       case Some(c) =>
         if detail.None? then Success(FinalError(c, []))
         else match DetailText(detail)
           case Some(d) => if ValidErrorDetail(c, d) then Success(FinalError(c, d)) else Failure(InvalidValue)
           case None => Failure(InvalidValue))
    case _ => Failure(InvalidValue)
  }

  function DecodeFields(lib: FloatLib, printable: char -> bool, kind: Kind, at: Lookup): Result<Frame> {
    match kind
    case ProbeKind => if HasVersion(at) then Success(Probe) else Failure(InvalidValue)
    case ProbeAckKind => if HasVersion(at) then Success(ProbeAck) else Failure(InvalidValue)
    case ExecKind =>
      if !HasVersion(at) then Failure(InvalidValue)
      else DecodeExec(at(SourceKey), at(LimitsKey), at(ManifestKey))
    case CallKind => DecodeCall(lib, at(IdKey), at(ArgumentsKey))
    case ResultKind =>
      (match DecodeTree(lib, at(ResultKey))
       case Failure(e) => Failure(e)
       case Success(v) => Success(NativeResult(v)))
    case FinalKind =>
      (match DecodeTree(lib, at(ResultKey))
       case Failure(e) => Failure(e)
       case Success(v) => Success(Final(v)))
    case AbortKind => DecodeAbort(printable, at(DetailKey))
    case FinalErrorKind => DecodeFinalError(at(CodeKey), at(DetailKey))
  }

  function DecodeObject(lib: FloatLib, printable: char -> bool, members: seq<Member>): Result<Frame> {
    match TypeText(members)
    case Failure(e) => Failure(e)
    case Success(text) =>
      if text == "" then Failure(MalformedJson)
      else match KindOf(text)
        case None => Failure(UnknownType)
        case Some(kind) =>
          match StrictError(kind, members)
          case Some(e) => Failure(e)
          case None => DecodeFields(lib, printable, kind, LookupOf(members))
  }

  /** decodePayload on one whole payload. */
  function DecodePayload(lib: FloatLib, printable: char -> bool, payload: Bytes): Result<Frame> {
    if !ValidUtf8(payload) then Failure(InvalidUtf8)
    else match ParseValue(Runes(payload), MAX_NESTING)
      case None => Failure(MalformedJson)
      case Some(p) =>
        if SkipSpace(p.1) != [] then Failure(TrailingJson)
        else match p.0
          case JObject(members) => DecodeObject(lib, printable, members)
          case _ => Failure(MalformedJson)
  }

  // ----- encoding -----

  /** The value of one written field: a fixed word, a Go string, a value tree or a number. */
  datatype Part = Word(s: string) | Quoted(b: Bytes) | Tree(v: Value) | Number(i: Int64)

  datatype Field = Field(key: Key, part: Part)

  ghost function PartText(lib: FloatLib, p: Part): string {
    match p
    case Word(s) => "\"" + s + "\""
    case Quoted(b) => Quote(b)
    case Tree(v) => Print(lib, v)
    case Number(i) => PrintInt(i)
  }

  ghost function PartJson(lib: FloatLib, p: Part): Json {
    match p
    case Word(s) => JString(s)
    case Quoted(b) => JString(Runes(b))
    case Tree(v) => JsonOf(lib, v)
    case Number(i) => JNumber(PrintInt(i))
  }

  ghost function FieldText(lib: FloatLib, f: Field): string {
    "\"" + KeyName(f.key) + "\"" + ":" + PartText(lib, f.part)
  }

  ghost function FieldsText(lib: FloatLib, fields: seq<Field>): string {
    if fields == [] then ""
    else if |fields| == 1 then FieldText(lib, fields[0])
    else FieldText(lib, fields[0]) + "," + FieldsText(lib, fields[1..])
  }

  ghost function FieldJson(lib: FloatLib, f: Field): Member { Member(KeyName(f.key), PartJson(lib, f.part)) }

  ghost function FieldsJson(lib: FloatLib, fields: seq<Field>): (r: seq<Member>)
    ensures |r| == |fields| && forall i :: 0 <= i < |r| ==> r[i] == FieldJson(lib, fields[i])
  {
    if fields == [] then [] else [FieldJson(lib, fields[0])] + FieldsJson(lib, fields[1..])
  }

  function TypeField(k: Kind): Field { Field(TypeKey, Word(KindName(k))) }

  /** The object each encoder writes, field by field. */
  function FrameFields(printable: char -> bool, f: Frame): seq<Field>
    requires !f.Exec?
  {
    match f
    case Probe => [TypeField(ProbeKind), Field(VersionKey, Number(PROTOCOL_VERSION))]
    case ProbeAck => [TypeField(ProbeAckKind), Field(VersionKey, Number(PROTOCOL_VERSION))]
    case NativeCall(id, arguments) =>
      [TypeField(CallKind), Field(IdKey, Quoted(id)), Field(ArgumentsKey, Tree(arguments))]
    case NativeResult(result) => [TypeField(ResultKind), Field(ResultKey, Tree(result))]
    case NativeAbort(detail) =>
      var kept := KeptAbortDetail(printable, detail);
      if kept == [] then [TypeField(AbortKind)] else [TypeField(AbortKind), Field(DetailKey, Quoted(kept))]
    case Final(result) => [TypeField(FinalKind), Field(ResultKey, Tree(result))]
    case FinalError(code, detail) =>
      var kept := KeptErrorDetail(code, detail);
      if kept == [] then [TypeField(FinalErrorKind), Field(CodeKey, Word(CodeName(code)))]
      else [TypeField(FinalErrorKind), Field(CodeKey, Word(CodeName(code))), Field(DetailKey, Quoted(kept))]
  }

  ghost function FrameText(lib: FloatLib, printable: char -> bool, f: Frame): string
    requires !f.Exec?
  {
    "{" + FieldsText(lib, FrameFields(printable, f)) + "}"
  }

  ghost function Payload(lib: FloatLib, printable: char -> bool, f: Frame): Bytes
    requires !f.Exec?
  {
    Utf8(FrameText(lib, printable, f))
  }

  // ----- parsing undoes encoding -----

  /** A word that needs no escape. */
  predicate Plain(s: string) { forall i :: 0 <= i < |s| ==> s[i] >= ' ' && s[i] != '\"' && s[i] != '\\' }

  lemma {:induction false} UnquotePlain(s: string, rest: string)
    requires Plain(s)
    ensures Unquote(s + "\"" + rest) == Some((s, rest))
  {
    if s == [] {
      UnquoteAtQuote(rest);
      assert s + "\"" + rest == "\"" + rest;
    } else {
      UnquotePlain(s[1..], rest);
      var all := s + "\"" + rest;
      assert all[0] == s[0] && all[1..] == s[1..] + "\"" + rest;
      assert s == [s[0]] + s[1..];
    }
  }

  lemma KeyIsPlain(k: Key)
    ensures Plain(KeyName(k))
  {}

  lemma KindIsPlain(k: Kind)
    ensures Plain(KindName(k))
  {}

  lemma CodeIsPlain(c: Code)
    ensures Plain(CodeName(c))
  {}

  /** What an encoder may be handed: plain words and supported trees. */
  ghost predicate PartOk(p: Part, n: int) {
    match p
    case Word(s) => Plain(s)
    case Tree(v) => Supported(v) && Nested(v, n)
    case _ => true
  }

  lemma ParsePart(lib: FloatLib, p: Part, rest: string, room: nat)
    requires Faithful(lib) && PartOk(p, room) && Ends(rest)
    ensures ParseValue(PartText(lib, p) + rest, room) == Some((PartJson(lib, p), rest))
  {
    match p
    case Word(s) =>
      UnquotePlain(s, rest);
      var all := PartText(lib, p) + rest;
      assert all[0] == '\"' && all[1..] == s + "\"" + rest;
      assert SkipSpace(all) == all;
    case Quoted(b) => ParseQuoted(b, rest, room);
    case Tree(v) => ParsePrint(lib, v, rest, room);
    case Number(i) => IntToken(i); ParseToken(PrintInt(i), rest, room);
  }

  lemma RegroupNamed(name: string, value: string, rest: string)
    ensures "\"" + name + "\"" + ":" + value + rest == "\"" + (name + "\"" + (":" + (value + rest)))
  {}

  lemma ParseNamed(name: string, value: string, rest: string, room: nat, j: Json)
    requires Plain(name) && ParseValue(value + rest, room) == Some((j, rest))
    ensures ParseMember("\"" + name + "\"" + ":" + value + rest, room) == Some((Member(name, j), rest))
  {
    var after := ":" + (value + rest);
    UnquotePlain(name, after);
    MemberAfterName(name + "\"" + after, name, value + rest, room, j, rest);
    RegroupNamed(name, value, rest);
  }

  lemma ParseField(lib: FloatLib, f: Field, rest: string, room: nat)
    requires Faithful(lib) && PartOk(f.part, room) && Ends(rest)
    ensures ParseMember(FieldText(lib, f) + rest, room) == Some((FieldJson(lib, f), rest))
  {
    ParsePart(lib, f.part, rest, room);
    KeyIsPlain(f.key);
    ParseNamed(KeyName(f.key), PartText(lib, f.part), rest, room, PartJson(lib, f.part));
  }

  ghost predicate FieldsOk(fields: seq<Field>, n: int) {
    forall i :: 0 <= i < |fields| ==> PartOk(fields[i].part, n)
  }

  lemma {:induction false} ParseFields(lib: FloatLib, fields: seq<Field>, rest: string, room: nat)
    requires Faithful(lib) && fields != [] && FieldsOk(fields, room)
    ensures ParseMembers(FieldsText(lib, fields) + ("}" + rest), room) == Some((FieldsJson(lib, fields), rest))
  {
    var first, m := FieldText(lib, fields[0]), FieldJson(lib, fields[0]);
    if |fields| == 1 {
      ParseField(lib, fields[0], "}" + rest, room);
      MembersEnd(first, rest, room, m);
      assert FieldsJson(lib, fields) == [m];
    } else {
      var others := FieldsText(lib, fields[1..]);
      var tail := others + ("}" + rest);
      ParseField(lib, fields[0], "," + tail, room);
      ParseFields(lib, fields[1..], rest, room);
      MembersMore(first, tail, room, m);
      RegroupTail(first, ",", others, "}" + rest);
    }
  }

  lemma CloseBrace(text: string)
    ensures text + ("}" + "") == text + "}" && "{" + text + "}" == "{" + (text + "}")
  {}

  lemma FieldsTextStarts(lib: FloatLib, fields: seq<Field>, more: string)
    requires fields != []
    ensures FieldsText(lib, fields) + more != [] && (FieldsText(lib, fields) + more)[0] == '\"'
  {
    assert FieldText(lib, fields[0])[0] == '\"';
  }

  lemma ParseObject(lib: FloatLib, fields: seq<Field>, room: nat)
    requires Faithful(lib) && fields != [] && FieldsOk(fields, room)
    ensures ParseValue("{" + FieldsText(lib, fields) + "}", room + 1) == Some((JObject(FieldsJson(lib, fields)), []))
  {
    var text := FieldsText(lib, fields);
    ParseFields(lib, fields, [], room);
    CloseBrace(text);
    FieldsTextStarts(lib, fields, "}");
    ObjectWraps(text + "}", room + 1);
  }

  // ----- what a written frame decodes to -----

  lemma {:induction false} LastIs(members: seq<Member>, key: Key, at: nat)
    requires at < |members| && KeyOf(members[at].name) == Some(key)
    requires forall i :: at < i < |members| ==> KeyOf(members[i].name) != Some(key)
    ensures Last(members, key) == Some(members[at].value)
  {
    if at < |members| - 1 { LastIs(members[..|members| - 1], key, at); }
  }

  lemma {:induction false} LastIsAbsent(members: seq<Member>, key: Key)
    requires forall i :: 0 <= i < |members| ==> KeyOf(members[i].name) != Some(key)
    ensures Last(members, key) == None
  {
    if members != [] { LastIsAbsent(members[..|members| - 1], key); }
  }

  lemma {:induction false} TypeTextIs(members: seq<Member>, word: string)
    requires members != [] && KeyOf(members[0].name) == Some(TypeKey) && members[0].value == JString(word)
    requires forall i :: 1 <= i < |members| ==> KeyOf(members[i].name) != Some(TypeKey)
    ensures TypeText(members) == Success(word)
  {
    if |members| > 1 { TypeTextIs(members[..|members| - 1], word); } else { assert members[..0] == []; }
  }

  lemma {:induction false} NoStrictError(kind: Kind, members: seq<Member>)
    requires forall i :: 0 <= i < |members| ==> MemberError(kind, members[i]).None?
    ensures StrictError(kind, members) == None
  {
    if members != [] { NoStrictError(kind, members[1..]); }
  }

  /** The fields of one frame: the type first, then distinct fields of that kind's struct. */
  ghost predicate WellShaped(lib: FloatLib, kind: Kind, fields: seq<Field>) {
    && fields != [] && fields[0] == TypeField(kind)
    && (forall i, j :: 0 <= i < j < |fields| ==> fields[i].key != fields[j].key)
    && (forall i :: 1 <= i < |fields| ==> MemberError(kind, FieldJson(lib, fields[i])).None?)
  }

  lemma FieldKey(lib: FloatLib, f: Field)
    ensures KeyOf(FieldJson(lib, f).name) == Some(f.key)
  {
    KeyNamesDistinct(f.key);
  }

  lemma DecodeShaped(lib: FloatLib, printable: char -> bool, kind: Kind, fields: seq<Field>)
    requires WellShaped(lib, kind, fields)
    ensures DecodeObject(lib, printable, FieldsJson(lib, fields))
            == DecodeFields(lib, printable, kind, LookupOf(FieldsJson(lib, fields)))
    ensures forall i :: 0 <= i < |fields|
              ==> Last(FieldsJson(lib, fields), fields[i].key) == Some(PartJson(lib, fields[i].part))
  {
    var members := FieldsJson(lib, fields);
    forall i | 0 <= i < |fields| ensures KeyOf(members[i].name) == Some(fields[i].key) { FieldKey(lib, fields[i]); }
    TypeTextIs(members, KindName(kind));
    KindNamesDistinct(kind);
    assert KindName(kind) != "" by { KindNotEmpty(kind); }
    assert MemberError(kind, members[0]).None?;
    NoStrictError(kind, members);
    forall i | 0 <= i < |fields| ensures Last(members, fields[i].key) == Some(PartJson(lib, fields[i].part)) {
      LastIs(members, fields[i].key, i);
    }
  }

  lemma KindNotEmpty(k: Kind)
    ensures KindName(k) != ""
  {}

  /** Room for containers inside a frame's own object. */
  const FRAME_NESTING: nat := MAX_NESTING - 1

  ghost predicate TreesSupported(fields: seq<Field>) {
    forall i :: 0 <= i < |fields| ==> (match fields[i].part case Word(s) => Plain(s) case Tree(v) => Supported(v)
                                       case _ => true)
  }

  ghost predicate TreesNested(fields: seq<Field>, n: int) {
    forall i :: 0 <= i < |fields| && fields[i].part.Tree? ==> Nested(fields[i].part.v, n)
  }

  lemma {:induction false} EnoughRoom(fields: seq<Field>) returns (n: nat)
    ensures n >= FRAME_NESTING && TreesNested(fields, n)
  {
    n := FRAME_NESTING;
    if fields != [] {
      var last := fields[|fields| - 1];
      n := EnoughRoom(fields[..|fields| - 1]);
      var m := n;
      if last.part.Tree? {
        NestedByNodes(last.part.v);
        n := n + Nodes(last.part.v);
        NestedMonotone(last.part.v, Nodes(last.part.v), n);
      }
      forall i | 0 <= i < |fields| && fields[i].part.Tree? ensures Nested(fields[i].part.v, n) {
        if i < |fields| - 1 {
          assert fields[..|fields| - 1][i] == fields[i];
          NestedMonotone(fields[i].part.v, m, n);
        }
      }
    }
  }

  lemma ReadBackIsNested(lib: FloatLib, fields: seq<Field>)
    requires NestedJson(JObject(FieldsJson(lib, fields)), MAX_NESTING)
    ensures TreesNested(fields, FRAME_NESTING)
  {
    forall i | 0 <= i < |fields| && fields[i].part.Tree? ensures Nested(fields[i].part.v, FRAME_NESTING) {
      assert NestedJson(FieldsJson(lib, fields)[i].value, FRAME_NESTING);
      PrintedNesting(lib, fields[i].part.v, FRAME_NESTING);
    }
  }

  lemma ReadWithinRoom(lib: FloatLib, fields: seq<Field>, text: string, room: nat, n: nat)
    requires ParseValue(text, room).Some? && room <= n
    requires ParseValue(text, n) == Some((JObject(FieldsJson(lib, fields)), ""))
    requires room == MAX_NESTING
    ensures TreesNested(fields, FRAME_NESTING)
  {
    RoomMonotone(text, room, n);
    ParsedIsNested(text, room);
    ReadBackIsNested(lib, fields);
  }

  lemma FieldsFit(fields: seq<Field>, n: int)
    requires TreesSupported(fields) && TreesNested(fields, n)
    ensures FieldsOk(fields, n)
  {}

  lemma ParseShallow(lib: FloatLib, fields: seq<Field>, text: string)
    requires Faithful(lib) && fields != [] && text == "{" + FieldsText(lib, fields) + "}"
    requires FieldsOk(fields, FRAME_NESTING)
    ensures ParseValue(text, MAX_NESTING) == Some((JObject(FieldsJson(lib, fields)), ""))
  {
    ParseObject(lib, fields, FRAME_NESTING);
  }

  lemma ParseDeep(lib: FloatLib, fields: seq<Field>, text: string, n: nat)
    requires Faithful(lib) && fields != [] && text == "{" + FieldsText(lib, fields) + "}"
    requires FieldsOk(fields, n) && n >= FRAME_NESTING
    ensures ParseValue(text, MAX_NESTING).Some? ==> TreesNested(fields, FRAME_NESTING)
  {
    ParseObject(lib, fields, n);
    if ParseValue(text, MAX_NESTING).Some? { ReadWithinRoom(lib, fields, text, MAX_NESTING, n + 1); }
  }

  /** A written object is read back whole, or not at all when a tree is nested too deep. */
  lemma ParseWritten(lib: FloatLib, fields: seq<Field>, text: string)
    requires Faithful(lib) && fields != [] && TreesSupported(fields) && text == "{" + FieldsText(lib, fields) + "}"
    ensures TreesNested(fields, FRAME_NESTING)
            ==> ParseValue(text, MAX_NESTING) == Some((JObject(FieldsJson(lib, fields)), ""))
    ensures !TreesNested(fields, FRAME_NESTING) ==> ParseValue(text, MAX_NESTING).None?
  {
    if TreesNested(fields, FRAME_NESTING) {
      FieldsFit(fields, FRAME_NESTING);
      ParseShallow(lib, fields, text);
    } else {
      var n := EnoughRoom(fields);
      FieldsFit(fields, n);
      ParseDeep(lib, fields, text, n);
    }
  }

  /** What a written object decodes to, what a part parses to and what a reader sees of a
      value, carried by name: the lemmas below open them one step at a time. */
  datatype Reader = Reader(read: seq<Field> -> Result<Frame>, json: Part -> Json, scrub: Value -> Value)

  ghost predicate Reads(r: Reader, lib: FloatLib, printable: char -> bool)
    requires Faithful(lib)
  {
    && (forall fields {:trigger FieldsText(lib, fields)} ::
          r.read(fields) == DecodePayload(lib, printable, Utf8("{" + FieldsText(lib, fields) + "}")))
    && (forall p {:trigger PartJson(lib, p)} :: r.json(p) == PartJson(lib, p))
    && (forall v {:trigger Scrubbed(lib, v)} :: Supported(v) ==> r.scrub(v) == Scrubbed(lib, v))
  }

  lemma ReadWritten(r: Reader, lib: FloatLib, printable: char -> bool, fields: seq<Field>)
    requires Faithful(lib) && Reads(r, lib, printable) && fields != [] && TreesSupported(fields)
    ensures TreesNested(fields, FRAME_NESTING)
            ==> r.read(fields) == DecodeObject(lib, printable, FieldsJson(lib, fields))
    ensures !TreesNested(fields, FRAME_NESTING) ==> r.read(fields) == Failure(MalformedJson)
  {
    var text := "{" + FieldsText(lib, fields) + "}";
    RunesOfUtf8(text);
    ParseWritten(lib, fields, text);
  }

  /** What the encoders accept. */
  ghost predicate Writable(f: Frame) {
    match f
    case Exec(_, _, _) => false
    case NativeCall(id, arguments) => id != [] && arguments.Obj? && Supported(arguments)
    case NativeResult(result) => Supported(result)
    case Final(result) => Supported(result)
    case _ => true
  }

  ghost function TreeOf(f: Frame): Value {
    match f
    case NativeCall(_, arguments) => arguments
    case NativeResult(result) => result
    case Final(result) => result
    case _ => Null
  }

  /** A kept detail with invalid bytes grows on the way, and may then be too long to accept. */
  function ReceivedError(code: Code, detail: Bytes): Result<Frame> {
    var kept := Utf8(Runes(KeptErrorDetail(code, detail)));
    if |kept| <= MAX_DIAGNOSTIC_BYTES then Success(FinalError(code, kept)) else Failure(InvalidValue)
  }

  /** What the reader makes of a written frame. */
  ghost function Received(lib: FloatLib, printable: char -> bool, f: Frame): Result<Frame>
    requires Faithful(lib) && Writable(f)
  {
    if !Nested(TreeOf(f), FRAME_NESTING) then Failure(MalformedJson)
    else match f
      case NativeCall(id, arguments) => Success(NativeCall(Utf8(Runes(id)), Scrubbed(lib, arguments)))
      case NativeResult(result) => Success(NativeResult(Scrubbed(lib, result)))
      case Final(result) => Success(Final(Scrubbed(lib, result)))
      case NativeAbort(detail) => Success(NativeAbort(KeptAbortDetail(printable, detail)))
      case FinalError(code, detail) => ReceivedError(code, detail)
      case _ => Success(f)
  }

  lemma RunesEmpty(b: Bytes)
    ensures Runes(b) == "" <==> b == []
    ensures Utf8(Runes(b)) == [] <==> b == []
  {}

  lemma FieldsShaped(lib: FloatLib, printable: char -> bool, f: Frame)
    requires Faithful(lib) && Writable(f)
    ensures var fields := FrameFields(printable, f);
            && TreesSupported(fields) && (TreesNested(fields, FRAME_NESTING) <==> Nested(TreeOf(f), FRAME_NESTING))
  {
    forall kind ensures Plain(KindName(kind)) { KindIsPlain(kind); }
    forall code ensures Plain(CodeName(code)) { CodeIsPlain(code); }
    var fields := FrameFields(printable, f);
    match f
    case NativeCall(id, arguments) => assert fields[2].part == Tree(arguments);
    case NativeResult(result) => assert fields[1].part == Tree(result);
    case Final(result) => assert fields[1].part == Tree(result);
    case _ =>
  }

  lemma FieldAdmitted(lib: FloatLib, kind: Kind, f: Field)
    requires Carried(kind, f)
    ensures MemberError(kind, FieldJson(lib, f)).None?
  {
    KeyNamesDistinct(f.key);
    if f.part.Number? { IntToken(f.part.i); }
  }

  // Objects of one, two and three fields, as the frames are. Each lemma hands out the lookup
  // function of the decoded object, and what it holds.

  lemma DecodeOne(r: Reader, lib: FloatLib, printable: char -> bool, kind: Kind) returns (at: Lookup)
    requires Faithful(lib) && Reads(r, lib, printable)
    ensures r.read([TypeField(kind)]) == DecodeFields(lib, printable, kind, at)
    ensures forall key :: key != TypeKey ==> at(key).None?
  {
    var fields := [TypeField(kind)];
    at := LookupOf(FieldsJson(lib, fields));
    KindIsPlain(kind);
    ReadWritten(r, lib, printable, fields);
    DecodeShaped(lib, printable, kind, fields);
    forall key | key != TypeKey ensures at(key).None? {
      FieldKey(lib, fields[0]);
      LastIsAbsent(FieldsJson(lib, fields), key);
    }
  }

  /** A field that a frame of this kind may carry after its type. */
  ghost predicate Carried(kind: Kind, b: Field) {
    && b.key != TypeKey && PartOk(b.part, FRAME_NESTING)
    && match ShapeOf(kind, b.key)
       case RawShape => true
       case StringShape => b.part.Word? || b.part.Quoted?
       case IntShape => b.part.Number?
       case NoField => false
  }

  lemma ShapedTwo(lib: FloatLib, kind: Kind, b: Field)
    requires Carried(kind, b)
    ensures var fields := [TypeField(kind), b];
            WellShaped(lib, kind, fields) && TreesSupported(fields) && TreesNested(fields, FRAME_NESTING)
  {
    KindIsPlain(kind);
    FieldAdmitted(lib, kind, b);
  }

  lemma ShapedThree(lib: FloatLib, kind: Kind, b: Field, c: Field)
    requires Carried(kind, b) && Carried(kind, c) && b.key != c.key
    ensures var fields := [TypeField(kind), b, c];
            WellShaped(lib, kind, fields) && TreesSupported(fields) && TreesNested(fields, FRAME_NESTING)
  {
    KindIsPlain(kind);
    FieldAdmitted(lib, kind, b);
    FieldAdmitted(lib, kind, c);
  }

  lemma ReadShaped(r: Reader, lib: FloatLib, printable: char -> bool, kind: Kind, fields: seq<Field>)
    requires Faithful(lib) && Reads(r, lib, printable)
    requires WellShaped(lib, kind, fields) && TreesSupported(fields) && TreesNested(fields, FRAME_NESTING)
    ensures r.read(fields) == DecodeFields(lib, printable, kind, LookupOf(FieldsJson(lib, fields)))
    ensures forall i :: 0 <= i < |fields|
              ==> Last(FieldsJson(lib, fields), fields[i].key) == Some(PartJson(lib, fields[i].part))
  {
    ReadWritten(r, lib, printable, fields);
    DecodeShaped(lib, printable, kind, fields);
  }

  lemma AbsentKey(lib: FloatLib, fields: seq<Field>, key: Key)
    requires forall i :: 0 <= i < |fields| ==> fields[i].key != key
    ensures Last(FieldsJson(lib, fields), key).None?
  {
    forall i | 0 <= i < |fields| ensures KeyOf(FieldJson(lib, fields[i]).name) != Some(key) {
      FieldKey(lib, fields[i]);
    }
    LastIsAbsent(FieldsJson(lib, fields), key);
  }

  lemma DecodeTwo(r: Reader, lib: FloatLib, printable: char -> bool, kind: Kind, b: Field) returns (at: Lookup)
    requires Faithful(lib) && Reads(r, lib, printable) && Carried(kind, b)
    ensures r.read([TypeField(kind), b]) == DecodeFields(lib, printable, kind, at)
    ensures at(b.key) == Some(r.json(b.part))
    ensures forall key :: key != TypeKey && key != b.key ==> at(key).None?
  {
    var fields := [TypeField(kind), b];
    at := LookupOf(FieldsJson(lib, fields));
    ShapedTwo(lib, kind, b);
    ReadShaped(r, lib, printable, kind, fields);
    assert fields[1] == b && r.json(b.part) == PartJson(lib, b.part);
    forall key | key != TypeKey && key != b.key ensures at(key).None? {
      AbsentKey(lib, fields, key);
    }
  }

  lemma DecodeThree(r: Reader, lib: FloatLib, printable: char -> bool, kind: Kind, b: Field,
                    c: Field) returns (at: Lookup)
    requires Faithful(lib) && Reads(r, lib, printable)
    requires Carried(kind, b) && Carried(kind, c) && b.key != c.key
    ensures r.read([TypeField(kind), b, c]) == DecodeFields(lib, printable, kind, at)
    ensures at(b.key) == Some(r.json(b.part)) && at(c.key) == Some(r.json(c.part))
  {
    var fields := [TypeField(kind), b, c];
    at := LookupOf(FieldsJson(lib, fields));
    ShapedThree(lib, kind, b, c);
    ReadShaped(r, lib, printable, kind, fields);
    assert fields[1] == b && r.json(b.part) == PartJson(lib, b.part);
    assert fields[2] == c && r.json(c.part) == PartJson(lib, c.part);
  }

  lemma TreeRead(r: Reader, lib: FloatLib, printable: char -> bool, v: Value)
    requires Faithful(lib) && Reads(r, lib, printable) && Supported(v)
    ensures DecodeTree(lib, Some(r.json(Tree(v)))) == Success(r.scrub(v))
    ensures v.Obj? ==> r.scrub(v).Obj? && !r.json(Tree(v)).JNull?
  {
    NormalizeTotal(lib, v);
    assert r.json(Tree(v)) == PartJson(lib, Tree(v)) && r.scrub(v) == Scrubbed(lib, v);
  }

  lemma WordRead(r: Reader, lib: FloatLib, printable: char -> bool, word: string, b: Bytes)
    requires Faithful(lib) && Reads(r, lib, printable)
    ensures r.json(Word(word)) == JString(word) && r.json(Quoted(b)) == JString(Runes(b))
    ensures r.json(Number(PROTOCOL_VERSION)) == JNumber(PrintInt(PROTOCOL_VERSION))
  {
    assert r.json(Word(word)) == PartJson(lib, Word(word));
    assert r.json(Quoted(b)) == PartJson(lib, Quoted(b));
    assert r.json(Number(PROTOCOL_VERSION)) == PartJson(lib, Number(PROTOCOL_VERSION));
  }

  lemma DecodeOfCall(r: Reader, lib: FloatLib, printable: char -> bool, id: Bytes, arguments: Value)
    requires Faithful(lib) && Reads(r, lib, printable)
    requires id != [] && arguments.Obj? && Supported(arguments) && Nested(arguments, FRAME_NESTING)
    ensures r.read(FrameFields(printable, NativeCall(id, arguments)))
            == Success(NativeCall(Utf8(Runes(id)), r.scrub(arguments)))
  {
    TreeRead(r, lib, printable, arguments);
    WordRead(r, lib, printable, "", id);
    RunesEmpty(id);
    var at := DecodeThree(r, lib, printable, CallKind, Field(IdKey, Quoted(id)), Field(ArgumentsKey, Tree(arguments)));
  }

  lemma DecodeOfResult(r: Reader, lib: FloatLib, printable: char -> bool, v: Value)
    requires Faithful(lib) && Reads(r, lib, printable) && Supported(v) && Nested(v, FRAME_NESTING)
    ensures r.read(FrameFields(printable, NativeResult(v))) == Success(NativeResult(r.scrub(v)))
  {
    TreeRead(r, lib, printable, v);
    var at := DecodeTwo(r, lib, printable, ResultKind, Field(ResultKey, Tree(v)));
  }

  lemma DecodeOfFinal(r: Reader, lib: FloatLib, printable: char -> bool, v: Value)
    requires Faithful(lib) && Reads(r, lib, printable) && Supported(v) && Nested(v, FRAME_NESTING)
    ensures r.read(FrameFields(printable, Final(v))) == Success(Final(r.scrub(v)))
  {
    TreeRead(r, lib, printable, v);
    var at := DecodeTwo(r, lib, printable, FinalKind, Field(ResultKey, Tree(v)));
  }

  lemma DecodeOfAbort(r: Reader, lib: FloatLib, printable: char -> bool, detail: Bytes)
    requires Faithful(lib) && Reads(r, lib, printable)
    ensures r.read(FrameFields(printable, NativeAbort(detail))) ==
            Success(NativeAbort(KeptAbortDetail(printable, detail)))
  {
    var kept := KeptAbortDetail(printable, detail);
    if kept == [] {
      var at := DecodeOne(r, lib, printable, AbortKind);
    } else {
      var b := Field(DetailKey, Quoted(kept));
      WordRead(r, lib, printable, "", kept);
      var at := DecodeTwo(r, lib, printable, AbortKind, b);
      Utf8OfRunes(kept);
    }
  }

  lemma BareErrorFields(r: Reader, lib: FloatLib, printable: char -> bool, code: Code, detail: Bytes)
    requires Faithful(lib) && Reads(r, lib, printable) && KeptErrorDetail(code, detail) == []
    ensures r.read(FrameFields(printable, FinalError(code, detail))) ==
            DecodeFinalError(Some(JString(CodeName(code))), None)
  {
    var b := Field(CodeKey, Word(CodeName(code)));
    CodeIsPlain(code);
    WordRead(r, lib, printable, CodeName(code), []);
    var at := DecodeTwo(r, lib, printable, FinalErrorKind, b);
  }

  lemma DetailedErrorFields(r: Reader, lib: FloatLib, printable: char -> bool, code: Code, detail: Bytes)
    requires Faithful(lib) && Reads(r, lib, printable) && KeptErrorDetail(code, detail) == detail && detail != []
    ensures r.read(FrameFields(printable, FinalError(code, detail))) ==
            DecodeFinalError(Some(JString(CodeName(code))), Some(JString(Runes(detail))))
  {
    var b, c := Field(CodeKey, Word(CodeName(code))), Field(DetailKey, Quoted(detail));
    CodeIsPlain(code);
    WordRead(r, lib, printable, CodeName(code), detail);
    var at := DecodeThree(r, lib, printable, FinalErrorKind, b, c);
  }

  lemma DecodeOfFinalError(r: Reader, lib: FloatLib, printable: char -> bool, code: Code, detail: Bytes)
    requires Faithful(lib) && Reads(r, lib, printable)
    ensures r.read(FrameFields(printable, FinalError(code, detail))) ==
            ReceivedError(code, detail)
  {
    RunesEmpty(KeptErrorDetail(code, detail));
    CodeNamesDistinct(code);
    if KeptErrorDetail(code, detail) == [] {
      BareErrorFields(r, lib, printable, code, detail);
    } else {
      DetailedErrorFields(r, lib, printable, code, detail);
    }
  }

  lemma DecodeOfProbe(r: Reader, lib: FloatLib, printable: char -> bool, f: Frame)
    requires Faithful(lib) && Reads(r, lib, printable) && (f.Probe? || f.ProbeAck?)
    ensures r.read(FrameFields(printable, f)) == Success(f)
  {
    var kind := if f.Probe? then ProbeKind else ProbeAckKind;
    var b := Field(VersionKey, Number(PROTOCOL_VERSION));
    var at := DecodeTwo(r, lib, printable, kind, b);
    WordRead(r, lib, printable, "", []);
    IntToken(PROTOCOL_VERSION);
  }

  /** Received, in the reader's terms. */
  ghost function ReceivedBy(r: Reader, printable: char -> bool, f: Frame): Result<Frame> {
    if !Nested(TreeOf(f), FRAME_NESTING) then Failure(MalformedJson)
    else match f
      case NativeCall(id, arguments) => Success(NativeCall(Utf8(Runes(id)), r.scrub(arguments)))
      case NativeResult(result) => Success(NativeResult(r.scrub(result)))
      case Final(result) => Success(Final(r.scrub(result)))
      case NativeAbort(detail) => Success(NativeAbort(KeptAbortDetail(printable, detail)))
      case FinalError(code, detail) => ReceivedError(code, detail)
      case _ => Success(f)
  }

  lemma ReadFrameFields(r: Reader, lib: FloatLib, printable: char -> bool, f: Frame)
    requires Faithful(lib) && Reads(r, lib, printable) && Writable(f)
    ensures r.read(FrameFields(printable, f)) == ReceivedBy(r, printable, f)
  {
    if !Nested(TreeOf(f), FRAME_NESTING) {
      FieldsShaped(lib, printable, f);
      ReadWritten(r, lib, printable, FrameFields(printable, f));
    } else {
      match f
      case NativeCall(id, arguments) => DecodeOfCall(r, lib, printable, id, arguments);
      case NativeAbort(detail) => DecodeOfAbort(r, lib, printable, detail);
      case FinalError(code, detail) => DecodeOfFinalError(r, lib, printable, code, detail);
      case NativeResult(v) => DecodeOfResult(r, lib, printable, v);
      case Final(v) => DecodeOfFinal(r, lib, printable, v);
      case _ => DecodeOfProbe(r, lib, printable, f);
    }
  }

  /** Every payload an encoder writes, decoded: exactly what the other side receives. */
  lemma DecodeOfPayload(lib: FloatLib, printable: char -> bool, f: Frame)
    requires Faithful(lib) && Writable(f)
    ensures DecodePayload(lib, printable, Payload(lib, printable, f)) == Received(lib, printable, f)
  {
    var r := Reader((fields: seq<Field>) => DecodePayload(lib, printable, Utf8("{" + FieldsText(lib, fields) + "}")),
                    (p: Part) => PartJson(lib, p), (v: Value) => if Supported(v) then Scrubbed(lib, v) else v);
    ReadFrameFields(r, lib, printable, f);
  }

  /** What the encoder keeps of a frame: illegal details are dropped before any write. */
  function AsKept(printable: char -> bool, f: Frame): Frame {
    match f
    case NativeAbort(detail) => NativeAbort(KeptAbortDetail(printable, detail))
    case FinalError(code, detail) => FinalError(code, KeptErrorDetail(code, detail))
    case _ => f
  }

  ghost predicate FrameUtf8(f: Frame) {
    match f
    case NativeCall(id, arguments) => ValidUtf8(id) && AllUtf8(arguments)
    case NativeResult(result) => AllUtf8(result)
    case Final(result) => AllUtf8(result)
    case FinalError(_, detail) => ValidUtf8(detail)
    case _ => true
  }

  /** The frame round trip: a frame arrives as it was written exactly when all its text is
      valid UTF-8 and its value leaves room for the frame's own object. */
  lemma FrameRoundTrip(lib: FloatLib, printable: char -> bool, f: Frame)
    requires Faithful(lib) && Writable(f)
    ensures DecodePayload(lib, printable, Payload(lib, printable, f)) == Success(AsKept(printable, f)) <==>
            FrameUtf8(AsKept(printable, f)) && Nested(TreeOf(f), FRAME_NESTING)
  {
    DecodeOfPayload(lib, printable, f);
    match f
    case NativeCall(id, arguments) => ScrubbedIsSame(lib, arguments); Utf8OfRunes(id);
    case NativeResult(result) => ScrubbedIsSame(lib, result);
    case Final(result) => ScrubbedIsSame(lib, result);
    case FinalError(code, detail) => Utf8OfRunes(KeptErrorDetail(code, detail));
    case _ =>
  }
}
