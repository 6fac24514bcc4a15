/** The canonical value codec of internal/worker/value.go: sorted keys, int64 and
    float64 kept apart by spelling, and the exact condition under which decoding
    undoes encoding. */
module Codec {
  import opened Text
  import opened Values
  import opened Wire
  import opened Json

  // ----- numbers -----

  /** strconv's float formatting ('g', shortest) and parsing, on bit patterns.
      parse is None where ParseFloat errs or the result is not finite. */
  datatype FloatLib = FloatLib(format: nat -> string, parse: string -> Option<nat>)

  /** What strconv promises: the shortest spelling is a number token that parses
      back to the same bits, and a trailing ".0" does not change a value. */
  ghost predicate Faithful(lib: FloatLib) {
    && (forall b: nat :: IsNumber(lib.format(b)) && lib.parse(lib.format(b)) == Some(b))
    && (forall t: string :: IsNumber(t) && !HasFraction(t) ==> lib.parse(t + ".0") == lib.parse(t))
  }

  /** writeFloat on a finite float. */
  function Spelling(lib: FloatLib, b: nat): string {
    var t := lib.format(b);
    if HasFraction(t) then t else t + ".0"
  }

  function DigitChar(d: nat): char
    requires d < 10
  {
    ('0' as int + d) as char
  }

  function Digits(n: nat): string {
    if n < 10 then [DigitChar(n)] else Digits(n / 10) + [DigitChar(n % 10)]
  }

  function PrintInt(i: int): string { if i < 0 then "-" + Digits(-i) else Digits(i) }

  ghost predicate AllDigits(s: string) { forall i :: 0 <= i < |s| ==> IsDigit(s[i]) }

  function ParseNat(s: string): nat {
    if s == [] || !IsDigit(s[|s| - 1]) then 0
    else ParseNat(s[..|s| - 1]) * 10 + (s[|s| - 1] as int - '0' as int)
  }

  /** strconv.ParseInt(token, 10, 64) on a number token without fraction. */
  function ParseInt(token: string): Option<Int64> {
    var n: int := if token != [] && token[0] == '-' then 0 - ParseNat(token[1..]) else ParseNat(token);
    if -0x8000_0000_0000_0000 <= n < 0x8000_0000_0000_0000 then Some(n) else None
  }

  /** decodeNumber: the spelling alone decides between int64 and float64. */
  function DecodeNumber(lib: FloatLib, token: string): Option<Value> {
    if HasFraction(token) then
      match lib.parse(token)
      case Some(b) => Some(Real(Finite(b)))
      case None => None
    else
      match ParseInt(token)
      case Some(i) => Some(Int(i))
      case None => None
  }

  lemma {:induction false} DigitsRead(n: nat)
    ensures ParseNat(Digits(n)) == n && AllDigits(Digits(n)) && Digits(n) != []
    ensures n > 0 ==> Digits(n)[0] != '0'
  {
    var s := Digits(n);
    if n >= 10 {
      DigitsRead(n / 10);
      assert s[..|s| - 1] == Digits(n / 10) && s[|s| - 1] == DigitChar(n % 10);
      assert s[0] == Digits(n / 10)[0];
    } else {
      assert s[..0] == [];
    }
  }

  lemma {:induction false} SkipAllDigits(s: string)
    requires AllDigits(s)
    ensures SkipDigits(s) == []
  {
    if s != [] { SkipAllDigits(s[1..]); }
  }

  lemma DigitsHaveNoFraction(s: string)
    requires forall i :: 0 <= i < |s| ==> s[i] == '-' || IsDigit(s[i])
    ensures !HasFraction(s)
  {}

  lemma DigitsNumber(d: string)
    requires AllDigits(d) && d != [] && (d[0] != '0' || |d| == 1)
    ensures NumberRest(d) == Some([]) && NumberRest("-" + d) == Some([])
  {
    SkipAllDigits(d);
    assert ("-" + d)[1..] == d;
    if d[0] == '0' { assert d[1..] == []; }
  }

  lemma IntToken(i: int)
    ensures IsNumber(PrintInt(i)) && !HasFraction(PrintInt(i))
    ensures -0x8000_0000_0000_0000 <= i < 0x8000_0000_0000_0000 ==> ParseInt(PrintInt(i)) == Some(i)
  {
    var n := if i < 0 then -i else i;
    var d := Digits(n);
    DigitsRead(n);
    DigitsNumber(d);
    if i < 0 { assert PrintInt(i)[1..] == d; }
    DigitsHaveNoFraction(PrintInt(i));
  }

  lemma {:induction false} SkipDigitsSuffix(s: string)
    ensures SkipDigits(s) == s[|s| - |SkipDigits(s)|..]
  {
    if s != [] && IsDigit(s[0]) { SkipDigitsSuffix(s[1..]); }
  }

  lemma AfterDigitsIsFraction(rest: string)
    requires FractionRest(rest) == Some([]) && rest != []
    ensures HasFraction(rest)
  {
    assert rest[0] in rest;
  }

  lemma FractionAppend(t: string)
    requires IsNumber(t) && !HasFraction(t)
    ensures IsNumber(t + ".0") && HasFraction(t + ".0")
  {
    var neg := t[0] == '-';
    var u := if neg then t[1..] else t;
    SkipDigitsSuffix(u);
    var rest := if u[0] == '0' then u[1..] else SkipDigits(u);
    assert !HasFraction(rest) by { assert forall c :: c in rest ==> c in u; }
    if rest != [] { AfterDigitsIsFraction(rest); }
    assert (t + ".0")[|t|] == '.';
    assert neg ==> (t + ".0")[1..] == u + ".0";
    if u[0] == '0' { assert (u + ".0")[1..] == ".0"; } else { SkipBefore(u); }
    SkipAllDigits("0");
    assert FractionRest(".0") == Some([]) by { assert ".0"[1..] == "0"; }
  }

  lemma {:induction false} SkipBefore(u: string)
    requires SkipDigits(u) == []
    ensures SkipDigits(u + ".0") == ".0"
  {
    if u == [] {
      assert u + ".0" == ".0";
    } else {
      assert (u + ".0")[1..] == u[1..] + ".0";
      SkipBefore(u[1..]);
    }
  }

  lemma FloatToken(lib: FloatLib, b: nat)
    requires Faithful(lib)
    ensures IsNumber(Spelling(lib, b)) && HasFraction(Spelling(lib, b))
    ensures lib.parse(Spelling(lib, b)) == Some(b)
  {
    var t := lib.format(b);
    if !HasFraction(t) { FractionAppend(t); }
  }

  // ----- writing -----

  /** The canonical text of a value: encodeNormalizedValue on a supported value. */
  ghost function Print(lib: FloatLib, v: Value): string
    decreases v, 1, 0
  {
    match v
    case Null => "null"
    case Bool(b) => if b then "true" else "false"
    case Str(s) => Quote(s)
    case Int(i) => PrintInt(i)
    case Real(x) => if x.Finite? then Spelling(lib, x.bits) else ""
    case List(items) => "[" + PrintElems(lib, items) + "]"
    case Obj(fields) => "{" + PrintMembers(lib, v, SortedKeys(fields.Keys)) + "}"
    case Unsupported => ""
  }

  ghost function PrintElems(lib: FloatLib, items: seq<Value>): string
    decreases items, 0, |items|
  {
    if items == [] then ""
    else if |items| == 1 then Print(lib, items[0])
    else Print(lib, items[0]) + "," + PrintElems(lib, items[1..])
  }

  ghost predicate KeysOf(owner: Value, keys: seq<Bytes>) {
    owner.Obj? && forall i :: 0 <= i < |keys| ==> keys[i] in owner.fields
  }

  ghost function PrintMember(lib: FloatLib, owner: Value, key: Bytes): string
    requires owner.Obj? && key in owner.fields
    decreases owner, 0, 0
  {
    Quote(key) + ":" + Print(lib, owner.fields[key])
  }

  ghost function PrintMembers(lib: FloatLib, owner: Value, keys: seq<Bytes>): string
    requires KeysOf(owner, keys)
    decreases owner, 0, 1 + |keys|
  {
    if keys == [] then ""
    else if |keys| == 1 then PrintMember(lib, owner, keys[0])
    else PrintMember(lib, owner, keys[0]) + "," + PrintMembers(lib, owner, keys[1..])
  }

  // ----- reading -----

  /** Decoding members into a Go map: which member each key keeps. A later member
      replaces an earlier one of the same name. */
  function Survivors(members: seq<Member>): (r: map<Bytes, nat>)
    ensures forall k :: k in r ==> r[k] < |members|
  {
    if members == [] then map[]
    else
      var n := |members| - 1;
      Survivors(members[..n])[Utf8(members[n].name) := n]
  }

  /** normalizeValue: None stands for errInvalidNumber, its only failure on decoded JSON. */
  function Normalize(lib: FloatLib, j: Json): Option<Value> {
    match j
    case JNull => Some(Null)
    case JBool(b) => Some(Bool(b))
    case JString(s) => Some(Str(Utf8(s)))
    case JNumber(token) => DecodeNumber(lib, token)
    case JArray(elems) =>
      if forall i :: 0 <= i < |elems| ==> Normalize(lib, elems[i]).Some?
      then Some(List(seq(|elems|, i requires 0 <= i < |elems|
                         && Normalize(lib, elems[i]).Some? => Normalize(lib, elems[i]).value)))
      else None
    case JObject(members) =>
      var kept := Survivors(members);
      if forall k | k in kept :: Normalize(lib, members[kept[k]].value).Some?
      then Some(Obj(map k | k in kept :: Normalize(lib, members[kept[k]].value).value))
      else None
  }

  /** decodeNormalizedValue on a raw token, which an enclosing parse has left room for. */
  function Decode(lib: FloatLib, raw: Bytes): Result<Value> {
    if raw == [] then Failure(MalformedJson)
    else if !ValidUtf8(raw) then Failure(InvalidUtf8)
    else match ParseValue(Runes(raw), MAX_NESTING)
      case None => Failure(MalformedJson)
      case Some(p) =>
        if SkipSpace(p.1) != [] then Failure(TrailingJson)
        else match Normalize(lib, p.0)
          case None => Failure(InvalidNumber)
          case Some(v) => Success(v)
  }

  /** The encoded body of a value. */
  ghost function Body(lib: FloatLib, v: Value): Bytes { Utf8(Print(lib, v)) }

  // ----- parsing undoes printing -----

  /** The document a printed value is read as. */
  ghost function JsonOf(lib: FloatLib, v: Value): Json
    decreases v, 1, 0
  {
    match v
    case Null => JNull
    case Bool(b) => JBool(b)
    case Str(s) => JString(Runes(s))
    case Int(i) => JNumber(PrintInt(i))
    case Real(x) => JNumber(if x.Finite? then Spelling(lib, x.bits) else "")
    case List(items) => JArray(JsonElems(lib, items))
    case Obj(fields) => JObject(JsonMembers(lib, v, SortedKeys(fields.Keys)))
    case Unsupported => JNull
  }

  ghost function JsonElems(lib: FloatLib, items: seq<Value>): (r: seq<Json>)
    ensures |r| == |items| && forall i :: 0 <= i < |r| ==> r[i] == JsonOf(lib, items[i])
    decreases items, 0, |items|
  {
    if items == [] then [] else [JsonOf(lib, items[0])] + JsonElems(lib, items[1..])
  }

  ghost function JsonMembers(lib: FloatLib, owner: Value, keys: seq<Bytes>): (r: seq<Member>)
    requires KeysOf(owner, keys)
    ensures |r| == |keys|
    ensures forall i :: 0 <= i < |r| ==> r[i] == Member(Runes(keys[i]), JsonOf(lib, owner.fields[keys[i]]))
    decreases owner, 0, |keys|
  {
    if keys == [] then []
    else [Member(Runes(keys[0]), JsonOf(lib, owner.fields[keys[0]]))] + JsonMembers(lib, owner, keys[1..])
  }

  lemma ParseToken(token: string, rest: string, room: nat)
    requires IsNumber(token) && Ends(rest)
    ensures ParseValue(token + rest, room) == Some((JNumber(token), rest))
  {
    NumberRestAppend(token, rest);
    var s := token + rest;
    assert s[0] == token[0] && (s[0] == '-' || IsDigit(s[0]));
    assert "null"[0] == 'n' && "true"[0] == 't' && "false"[0] == 'f';
    assert s[..|s| - |rest|] == token;
  }

  lemma ParseLiteral(rest: string, room: nat)
    ensures ParseValue("null" + rest, room) == Some((JNull, rest))
    ensures ParseValue("true" + rest, room) == Some((JBool(true), rest))
    ensures ParseValue("false" + rest, room) == Some((JBool(false), rest))
  {
    assert ("null" + rest)[4..] == rest && ("true" + rest)[4..] == rest && ("false" + rest)[5..] == rest;
    assert ("null" + rest)[0] == 'n' && ("true" + rest)[0] == 't' && ("false" + rest)[0] == 'f';
    assert "null"[0] == 'n' && "true"[0] == 't';
    assert "null" <= "null" + rest && "true" <= "true" + rest && "false" <= "false" + rest;
  }

  lemma ParseQuoted(s: Bytes, rest: string, room: nat)
    ensures ParseValue(Quote(s) + rest, room) == Some((JString(Runes(s)), rest))
  {
    QuoteSplits(s, rest);
    UnquoteOfEscape(s, rest);
    assert ("\"" + (Escape(s) + "\"" + rest))[1..] == Escape(s) + "\"" + rest;
  }

  /** A printed value starts with a character that opens a value. */
  lemma PrintStarts(lib: FloatLib, v: Value)
    requires Faithful(lib) && Supported(v)
    ensures Print(lib, v) != [] && !IsSpace(Print(lib, v)[0]) && Print(lib, v)[0] != ']'
  {
    match v
    case Int(i) => IntToken(i);
    case Real(x) => FloatToken(lib, x.bits);
    case _ =>
  }

  lemma {:induction false} ParsePrint(lib: FloatLib, v: Value, rest: string, room: nat)
    requires Faithful(lib) && Supported(v) && Nested(v, room) && Ends(rest)
    ensures ParseValue(Print(lib, v) + rest, room) == Some((JsonOf(lib, v), rest))
    decreases v, 3, 0
  {
    match v
    case Null => ParseLiteral(rest, room);
    case Bool(b) => ParseLiteral(rest, room);
    case Str(s) => ParseQuoted(s, rest, room);
    case Int(i) =>
      IntToken(i);
      ParseToken(PrintInt(i), rest, room);
    case Real(x) =>
      FloatToken(lib, x.bits);
      ParseToken(Spelling(lib, x.bits), rest, room);
    case List(items) =>
      ParsePrintList(lib, items, rest, room);
    case Obj(fields) =>
      ParsePrintObject(lib, v, rest, room);
    case Unsupported =>
  }

  lemma {:induction false} ParsePrintList(lib: FloatLib, items: seq<Value>, rest: string, room: nat)
    requires Faithful(lib) && Supported(List(items)) && Nested(List(items), room)
    ensures ParseValue("[" + PrintElems(lib, items) + "]" + rest, room) == Some((JArray(JsonElems(lib, items)), rest))
    decreases items, 2, 0
  {
    var elems := PrintElems(lib, items);
    if items == [] {
      assert "[" + elems + "]" + rest == "[]" + rest;
      EmptyWraps(rest, room);
    } else {
      ParsePrintElems(lib, items, rest, room - 1);
      ElemsStart(lib, items, "]" + rest);
      ArrayWraps(elems + ("]" + rest), room);
      assert "[" + elems + "]" + rest == "[" + (elems + ("]" + rest)) by { RegroupTail("[", elems, "]", rest); }
    }
  }

  lemma RegroupTail(a: string, b: string, c: string, d: string)
    ensures a + b + c + d == a + (b + (c + d))
  {}

  lemma ElemsStart(lib: FloatLib, items: seq<Value>, more: string)
    requires Faithful(lib) && items != [] && Supported(items[0])
    ensures var s := PrintElems(lib, items) + more; s != [] && !IsSpace(s[0]) && s[0] != ']'
  {
    PrintStarts(lib, items[0]);
  }

  lemma {:induction false} ParsePrintElems(lib: FloatLib, items: seq<Value>, rest: string, room: nat)
    requires Faithful(lib) && items != []
    requires forall i :: 0 <= i < |items| ==> Supported(items[i]) && Nested(items[i], room)
    ensures ParseElems(PrintElems(lib, items) + ("]" + rest), room) == Some((JsonElems(lib, items), rest))
    decreases items, 1, 0
  {
    var first := Print(lib, items[0]);
    if |items| == 1 {
      ParsePrint(lib, items[0], "]" + rest, room);
      ElemsEnd(first, rest, room, JsonOf(lib, items[0]));
      assert JsonElems(lib, items) == [JsonOf(lib, items[0])];
    } else {
      var others := PrintElems(lib, items[1..]);
      var tail := others + ("]" + rest);
      ParsePrint(lib, items[0], "," + tail, room);
      ParsePrintElems(lib, items[1..], rest, room);
      ElemsMore(first, tail, room, JsonOf(lib, items[0]));
      RegroupTail(first, ",", others, "]" + rest);
    }
  }

  lemma KeysFromSet(v: Value, keys: seq<Bytes>)
    requires v.Obj? && KeySet(keys) == v.fields.Keys
    ensures KeysOf(v, keys)
  {
    forall i | 0 <= i < |keys| ensures keys[i] in v.fields { assert keys[i] in KeySet(keys); }
  }

  lemma {:induction false} ParsePrintObject(lib: FloatLib, v: Value, rest: string, room: nat)
    requires Faithful(lib) && v.Obj? && Supported(v) && Nested(v, room)
    ensures ParseValue(Print(lib, v) + rest, room) == Some((JsonOf(lib, v), rest))
    decreases v, 2, 0
  {
    var keys := SortedKeys(v.fields.Keys);
    KeysFromSet(v, keys);
    var members := PrintMembers(lib, v, keys);
    if keys == [] {
      assert Print(lib, v) + rest == "{}" + rest;
      EmptyWraps(rest, room);
    } else {
      ParsePrintMembers(lib, v, keys, rest, room - 1);
      MembersStart(lib, v, keys, "}" + rest);
      ObjectWraps(members + ("}" + rest), room);
      RegroupTail("{", members, "}", rest);
    }
  }

  lemma MembersStart(lib: FloatLib, v: Value, keys: seq<Bytes>, more: string)
    requires KeysOf(v, keys) && keys != []
    ensures var s := PrintMembers(lib, v, keys) + more; s != [] && s[0] == '\"'
  {
    assert PrintMember(lib, v, keys[0])[0] == '\"';
  }

  lemma {:induction false} ParsePrintMember(lib: FloatLib, v: Value, key: Bytes, more: string, room: nat)
    requires Faithful(lib) && v.Obj? && key in v.fields && Ends(more)
    requires Supported(v.fields[key]) && Nested(v.fields[key], room)
    ensures ParseMember(PrintMember(lib, v, key) + more, room) ==
            Some((Member(Runes(key), JsonOf(lib, v.fields[key])), more))
    decreases v, 0, 0
  {
    ParsePrint(lib, v.fields[key], more, room);
    MemberStep(key, Print(lib, v.fields[key]), more, room, JsonOf(lib, v.fields[key]));
  }

  lemma {:induction false} ParsePrintMembers(lib: FloatLib, v: Value, keys: seq<Bytes>, rest: string, room: nat)
    requires Faithful(lib) && KeysOf(v, keys) && keys != []
    requires forall k :: k in v.fields ==> Supported(v.fields[k]) && Nested(v.fields[k], room)
    ensures ParseMembers(PrintMembers(lib, v, keys) + ("}" + rest), room) == Some((JsonMembers(lib, v, keys), rest))
    decreases v, 1, |keys|
  {
    var first := PrintMember(lib, v, keys[0]);
    var m := Member(Runes(keys[0]), JsonOf(lib, v.fields[keys[0]]));
    if |keys| == 1 {
      ParsePrintMember(lib, v, keys[0], "}" + rest, room);
      MembersEnd(first, rest, room, m);
      assert JsonMembers(lib, v, keys) == [m];
    } else {
      var others := PrintMembers(lib, v, keys[1..]);
      var tail := others + ("}" + rest);
      ParsePrintMember(lib, v, keys[0], "," + tail, room);
      ParsePrintMembers(lib, v, keys[1..], rest, room);
      MembersMore(first, tail, room, m);
      RegroupTail(first, ",", others, "}" + rest);
    }
  }

  // ----- decoding undoes encoding -----

  ghost predicate Kept(members: seq<Member>, keys: seq<Bytes>) {
    && (forall k :: k in Survivors(members) ==> k in keys)
    && forall i :: 0 <= i < |keys| ==> keys[i] in Survivors(members) && Survivors(members)[keys[i]] == i
  }

  lemma KeptAppend(members: seq<Member>, m: Member, keys: seq<Bytes>, key: Bytes)
    requires |members| == |keys| && Kept(members, keys) && Utf8(m.name) == key && key !in keys
    ensures Kept(members + [m], keys + [key])
  {
    assert (members + [m])[..|members|] == members;
    assert Survivors(members + [m]) == Survivors(members)[key := |members|];
  }

  lemma {:induction false} SurvivorsDistinct(members: seq<Member>, keys: seq<Bytes>)
    requires |members| == |keys| && forall i :: 0 <= i < |keys| ==> Utf8(members[i].name) == keys[i]
    requires forall i, j :: 0 <= i < j < |keys| ==> keys[i] != keys[j]
    ensures Kept(members, keys)
  {
    if keys != [] {
      var n := |keys| - 1;
      SurvivorsDistinct(members[..n], keys[..n]);
      KeptAppend(members[..n], members[n], keys[..n], keys[n]);
      assert members[..n] + [members[n]] == members && keys[..n] + [keys[n]] == keys;
    }
  }

  lemma SurvivingMembers(lib: FloatLib, v: Value, keys: seq<Bytes>)
    requires KeysOf(v, keys) && Sorted(keys)
    requires forall i :: 0 <= i < |keys| ==> ValidUtf8(keys[i])
    ensures var members := JsonMembers(lib, v, keys);
            && Survivors(members).Keys == KeySet(keys)
            && forall k :: k in KeySet(keys) ==> members[Survivors(members)[k]].value == JsonOf(lib, v.fields[k])
  {
    var members := JsonMembers(lib, v, keys);
    forall i | 0 <= i < |keys| ensures Utf8(members[i].name) == keys[i] { Utf8OfRunes(keys[i]); }
    SurvivorsDistinct(members, keys);
    assert Survivors(members).Keys == KeySet(keys);
    forall k | k in KeySet(keys) ensures members[Survivors(members)[k]].value == JsonOf(lib, v.fields[k]) {
      var i :| 0 <= i < |keys| && keys[i] == k;
    }
  }

  lemma {:induction false} NormalizeOf(lib: FloatLib, v: Value)
    requires Faithful(lib) && Supported(v) && AllUtf8(v)
    ensures Normalize(lib, JsonOf(lib, v)) == Some(v)
  {
    match v
    case Str(s) => Utf8OfRunes(s);
    case Int(i) => IntToken(i);
    case Real(x) => FloatToken(lib, x.bits);
    case List(items) =>
      forall i | 0 <= i < |items| ensures Normalize(lib, JsonOf(lib, items[i])) == Some(items[i]) {
        NormalizeOf(lib, items[i]);
      }
      NormalizeArray(lib, JsonElems(lib, items), items);
    case Obj(fields) =>
      var keys := SortedKeys(fields.Keys);
      KeysFromSet(v, keys);
      SurvivingMembers(lib, v, keys);
      forall k | k in fields ensures Normalize(lib, JsonOf(lib, fields[k])) == Some(fields[k]) {
        NormalizeOf(lib, fields[k]);
      }
      NormalizeObject(lib, JsonMembers(lib, v, keys), fields);
    case _ =>
  }

  lemma NormalizeArray(lib: FloatLib, elems: seq<Json>, items: seq<Value>)
    requires |elems| == |items| && forall i :: 0 <= i < |items| ==> Normalize(lib, elems[i]) == Some(items[i])
    ensures Normalize(lib, JArray(elems)) == Some(List(items))
  {
    var r := Normalize(lib, JArray(elems)).value.items;
    assert r == items;
  }

  lemma NormalizeObject(lib: FloatLib, members: seq<Member>, fields: map<Bytes, Value>)
    requires Survivors(members).Keys == fields.Keys
    requires forall k :: k in fields ==> Normalize(lib, members[Survivors(members)[k]].value) == Some(fields[k])
    ensures Normalize(lib, JObject(members)) == Some(Obj(fields))
  {
    var r := Normalize(lib, JObject(members)).value.fields;
    assert r == fields;
  }

  ghost predicate Clean(v: Value, n: int) { Supported(v) && AllUtf8(v) && Nested(v, n) }

  lemma {:induction false} SurvivorsAreUtf8(members: seq<Member>)
    ensures forall k :: k in Survivors(members) ==> ValidUtf8(k)
  {
    if members != [] {
      SurvivorsAreUtf8(members[..|members| - 1]);
      RunesOfUtf8(members[|members| - 1].name);
    }
  }

  /** Whatever is decoded is supported, valid UTF-8 and nested no deeper than the text. */
  lemma {:induction false} NormalizedIsClean(lib: FloatLib, j: Json, n: int)
    requires NestedJson(j, n) && Normalize(lib, j).Some?
    ensures Clean(Normalize(lib, j).value, n)
    decreases j
  {
    match j
    case JString(s) => RunesOfUtf8(s);
    case JArray(elems) =>
      forall i | 0 <= i < |elems| ensures Clean(Normalize(lib, elems[i]).value, n - 1) {
        NormalizedIsClean(lib, elems[i], n - 1);
      }
    case JObject(members) =>
      var kept := Survivors(members);
      SurvivorsAreUtf8(members);
      forall k | k in kept ensures Clean(Normalize(lib, members[kept[k]].value).value, n - 1) {
        NormalizedIsClean(lib, members[kept[k]].value, n - 1);
      }
    case _ =>
  }

  lemma DecodedIsClean(lib: FloatLib, raw: Bytes)
    requires Decode(lib, raw).Success?
    ensures Clean(Decode(lib, raw).value, MAX_NESTING)
  {
    ParsedIsNested(Runes(raw), MAX_NESTING);
    NormalizedIsClean(lib, ParseValue(Runes(raw), MAX_NESTING).value.0, MAX_NESTING);
  }

  lemma MembersTotal(lib: FloatLib, v: Value, keys: seq<Bytes>)
    requires KeysOf(v, keys) && forall k :: k in v.fields ==> Normalize(lib, JsonOf(lib, v.fields[k])).Some?
    ensures Normalize(lib, JObject(JsonMembers(lib, v, keys))).Some?
    ensures Normalize(lib, JObject(JsonMembers(lib, v, keys))).value.Obj?
  {
    var members := JsonMembers(lib, v, keys);
    var kept := Survivors(members);
    forall k | k in kept ensures Normalize(lib, members[kept[k]].value).Some? {
      assert keys[kept[k]] in v.fields;
    }
  }

  /** Every printed value is read as some value. */
  lemma {:induction false} NormalizeTotal(lib: FloatLib, v: Value)
    requires Faithful(lib) && Supported(v)
    ensures Normalize(lib, JsonOf(lib, v)).Some?
    ensures v.Obj? ==> Normalize(lib, JsonOf(lib, v)).value.Obj?
  {
    match v
    case Int(i) => IntToken(i);
    case Real(x) => FloatToken(lib, x.bits);
    case List(items) =>
      forall i | 0 <= i < |items| ensures Normalize(lib, JsonOf(lib, items[i])).Some? { NormalizeTotal(lib, items[i]); }
    case Obj(fields) =>
      var keys := SortedKeys(fields.Keys);
      KeysFromSet(v, keys);
      forall k | k in fields ensures Normalize(lib, JsonOf(lib, fields[k])).Some? { NormalizeTotal(lib, fields[k]); }
      MembersTotal(lib, v, keys);
    case _ =>
  }

  /** A value as its reader sees it: invalid bytes have become U+FFFD. */
  ghost function Scrubbed(lib: FloatLib, v: Value): (r: Value)
    requires Faithful(lib) && Supported(v)
    ensures v.Obj? ==> r.Obj?
  {
    NormalizeTotal(lib, v);
    Normalize(lib, JsonOf(lib, v)).value
  }

  lemma NestedElems(lib: FloatLib, items: seq<Value>, n: int)
    requires forall i :: 0 <= i < |items| ==> (NestedJson(JsonOf(lib, items[i]), n - 1) <==> Nested(items[i], n - 1))
    ensures NestedJson(JArray(JsonElems(lib, items)), n) <==> Nested(List(items), n)
  {
    var elems := JsonElems(lib, items);
    assert forall i :: 0 <= i < |items| ==> elems[i] == JsonOf(lib, items[i]);
  }

  lemma NestedMembers(lib: FloatLib, v: Value, keys: seq<Bytes>, n: int)
    requires KeysOf(v, keys) && KeySet(keys) == v.fields.Keys
    requires forall k :: k in v.fields ==> (NestedJson(JsonOf(lib, v.fields[k]), n - 1) <==> Nested(v.fields[k], n - 1))
    ensures NestedJson(JObject(JsonMembers(lib, v, keys)), n) <==> Nested(v, n)
  {
    var members := JsonMembers(lib, v, keys);
    if NestedJson(JObject(members), n) {
      forall k | k in v.fields ensures Nested(v.fields[k], n - 1) {
        assert k in KeySet(keys);
        var i :| 0 <= i < |keys| && keys[i] == k;
        assert NestedJson(members[i].value, n - 1);
      }
    }
  }

  lemma {:induction false} PrintedNesting(lib: FloatLib, v: Value, n: int)
    ensures NestedJson(JsonOf(lib, v), n) <==> Nested(v, n)
    decreases v
  {
    match v
    case List(items) =>
      forall i | 0 <= i < |items| ensures NestedJson(JsonOf(lib, items[i]), n - 1) <==> Nested(items[i], n - 1) {
        PrintedNesting(lib, items[i], n - 1);
      }
      NestedElems(lib, items, n);
    case Obj(fields) => PrintedMembersNesting(lib, v, n);
    case _ =>
  }

  lemma {:induction false} PrintedMembersNesting(lib: FloatLib, v: Value, n: int)
    requires v.Obj?
    ensures NestedJson(JsonOf(lib, v), n) <==> Nested(v, n)
    decreases v, 0
  {
    var keys := SortedKeys(v.fields.Keys);
    KeysFromSet(v, keys);
    forall k | k in v.fields ensures NestedJson(JsonOf(lib, v.fields[k]), n - 1) <==> Nested(v.fields[k], n - 1) {
      PrintedNesting(lib, v.fields[k], n - 1);
    }
    NestedMembers(lib, v, keys, n);
  }

  /** A reader sees the value itself exactly when all its strings are valid UTF-8. */
  lemma ScrubbedIsSame(lib: FloatLib, v: Value)
    requires Faithful(lib) && Supported(v)
    ensures Scrubbed(lib, v) == v <==> AllUtf8(v)
    ensures Supported(Scrubbed(lib, v)) && AllUtf8(Scrubbed(lib, v))
  {
    if AllUtf8(v) { NormalizeOf(lib, v); }
    NormalizeTotal(lib, v);
    NestedByNodes(v);
    PrintedNesting(lib, v, Nodes(v));
    NormalizedIsClean(lib, JsonOf(lib, v), Nodes(v));
  }

  /** The round trip: a supported value is decoded from its own encoding exactly when its
      strings and keys are valid UTF-8 and it stays within the decoder's nesting limit. */
  lemma RoundTrip(lib: FloatLib, v: Value)
    requires Faithful(lib) && Supported(v)
    ensures Decode(lib, Body(lib, v)) == Success(v) <==> AllUtf8(v) && Nested(v, MAX_NESTING)
  {
    if AllUtf8(v) && Nested(v, MAX_NESTING) {
      PrintStarts(lib, v);
      RunesOfUtf8(Print(lib, v));
      ParsePrint(lib, v, [], MAX_NESTING);
      assert Print(lib, v) + [] == Print(lib, v);
      NormalizeOf(lib, v);
      assert Body(lib, v) != [];
    } else if Decode(lib, Body(lib, v)) == Success(v) {
      DecodedIsClean(lib, Body(lib, v));
    }
  }

  lemma {:induction false} NestedMonotone(v: Value, m: int, n: int)
    requires Nested(v, m) && m <= n
    ensures Nested(v, n)
    decreases v
  {
    match v
    case List(items) =>
      forall i | 0 <= i < |items| ensures Nested(items[i], n - 1) { NestedMonotone(items[i], m - 1, n - 1); }
    case Obj(fields) =>
      forall k | k in fields ensures Nested(fields[k], n - 1) { NestedMonotone(fields[k], m - 1, n - 1); }
    case _ =>
  }

  /** A finite tree nests no deeper than it has nodes. */
  lemma {:induction false} NestedByNodes(v: Value)
    ensures Nested(v, Nodes(v))
  {
    match v
    case List(items) =>
      forall i | 0 <= i < |items| ensures Nested(items[i], Nodes(v) - 1) {
        NestedByNodes(items[i]);
        PartSmaller(items, i);
        NestedMonotone(items[i], Nodes(items[i]), Nodes(v) - 1);
      }
    case Obj(fields) =>
      forall k | k in fields ensures Nested(fields[k], Nodes(v) - 1) {
        NestedByNodes(fields[k]);
        FieldSmaller(fields, k);
        NestedMonotone(fields[k], Nodes(fields[k]), Nodes(v) - 1);
      }
    case _ =>
  }

  function DropPointZero(t: string): string {
    if |t| >= 2 && t[|t| - 2] == '.' && t[|t| - 1] == '0' then t[..|t| - 2] else t
  }

  lemma DropsOnce(t: string)
    requires !HasFraction(t)
    ensures DropPointZero(t) == t && DropPointZero(t + ".0") == t
  {
    var u := t + ".0";
    assert u[|u| - 2] == '.' && u[|u| - 1] == '0' && u[..|u| - 2] == t;
  }

  /** Faithful formatting exists: here, decimal spellings of the bit pattern itself. */
  lemma FaithfulExists() returns (lib: FloatLib)
    ensures Faithful(lib)
  {
    lib := FloatLib(Digits, (t: string) => Some(ParseNat(DropPointZero(t))));
    forall b: nat ensures IsNumber(lib.format(b)) && lib.parse(lib.format(b)) == Some(b) {
      IntToken(b);
      DigitsRead(b);
      DropsOnce(Digits(b));
    }
    forall t: string | IsNumber(t) && !HasFraction(t) ensures lib.parse(t + ".0") == lib.parse(t) {
      DropsOnce(t);
    }
  }

  /** The encoding is injective on valid UTF-8 values of any depth; in particular an
      int64 and a float64 never share a spelling. */
  lemma EncodingInjective(lib: FloatLib, v: Value, w: Value)
    requires Faithful(lib) && Supported(v) && Supported(w) && AllUtf8(v) && AllUtf8(w)
    requires Body(lib, v) == Body(lib, w)
    ensures v == w
  {
    RunesOfUtf8(Print(lib, v));
    RunesOfUtf8(Print(lib, w));
    var room := Nodes(v) + Nodes(w);
    NestedByNodes(v);
    NestedByNodes(w);
    NestedMonotone(v, Nodes(v), room);
    NestedMonotone(w, Nodes(w), room);
    ParsePrint(lib, v, [], room);
    ParsePrint(lib, w, [], room);
    assert Print(lib, v) + [] == Print(lib, v) && Print(lib, w) + [] == Print(lib, w);
    NormalizeOf(lib, v);
    NormalizeOf(lib, w);
  }

  lemma {:induction false} DepthBoundsNesting(v: Value, d: int)
    requires WithinDepth(v, d)
    ensures Nested(v, d)
    decreases v
  {
    match v
    case List(items) =>
      forall i | 0 <= i < |items| ensures Nested(items[i], d - 1) { DepthBoundsNesting(items[i], d - 1); }
    case Obj(fields) =>
      forall k | k in fields ensures Nested(fields[k], d - 1) { DepthBoundsNesting(fields[k], d - 1); }
    case _ =>
  }

  // ----- the byte-derived node budget -----

  lemma {:induction false} Utf8Length(s: string)
    ensures |Utf8(s)| >= |s|
  {
    if s != [] { Utf8Length(s[1..]); }
  }

  lemma {:induction false} NodesWithinText(lib: FloatLib, v: Value)
    requires Faithful(lib) && Supported(v)
    ensures Nodes(v) <= |Print(lib, v)|
    decreases v, 2, 0
  {
    match v
    case List(items) => ElemNodesWithinText(lib, items);
    case Obj(fields) =>
      var keys := SortedKeys(fields.Keys);
      KeysFromSet(v, keys);
      MemberNodesWithinText(lib, v, keys);
    case _ => PrintStarts(lib, v);
  }

  lemma {:induction false} ElemNodesWithinText(lib: FloatLib, items: seq<Value>)
    requires Faithful(lib) && forall i :: 0 <= i < |items| ==> Supported(items[i])
    ensures NodesOf(items) <= |PrintElems(lib, items)|
    decreases items, 1, 0
  {
    if items != [] {
      NodesWithinText(lib, items[0]);
      ElemNodesWithinText(lib, items[1..]);
      if |items| == 1 { assert items[1..] == []; }
    }
  }

  lemma {:induction false} MemberNodesWithinText(lib: FloatLib, v: Value, keys: seq<Bytes>)
    requires Faithful(lib) && KeysOf(v, keys) && Sorted(keys) && Supported(v)
    ensures KeySet(keys) <= v.fields.Keys && NodesAt(v, KeySet(keys)) <= |PrintMembers(lib, v, keys)|
    decreases v, 1, |keys|
  {
    assert KeySet(keys) <= v.fields.Keys;
    if keys == [] {
      assert KeySet(keys) == {};
    } else {
      assert keys[0] in KeySet(keys);
      TailKeys(keys);
      NodesAtRemove(v, KeySet(keys), keys[0]);
      NodesWithinText(lib, v.fields[keys[0]]);
      MemberNodesWithinText(lib, v, keys[1..]);
      if |keys| == 1 { assert keys[1..] == [] && KeySet(keys[1..]) == {}; }
    }
  }

  /** No value has more nodes than its encoding has bytes, so MaxValueBytes used as a
      node budget never rejects a value the byte limit admits. */
  lemma NodesWithinBody(lib: FloatLib, v: Value)
    requires Faithful(lib) && Supported(v)
    ensures Nodes(v) <= |Body(lib, v)|
  {
    NodesWithinText(lib, v);
    Utf8Length(Print(lib, v));
  }
}
