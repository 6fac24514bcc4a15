/** The writers and readers of internal/worker/value.go as they run: text appended to a
    shared buffer, keys sorted in place, decoded containers filled in loops. */
module Encoder {
  import opened Text
  import opened Values
  import opened Wire
  import opened Json
  import opened Codec
  import opened Converter

  class Buffer {
    var text: string

    constructor ()
      ensures text == []
    {
      text := [];
    }

    method Write(s: string)
      modifies this
      ensures text == old(text) + s
    {
      text := text + s;
    }

    /** Succeeds exactly on supported values, and then appends the canonical text. */
    method WriteValue(lib: FloatLib, v: Value) returns (err: Option<WireError>)
      modifies this
      ensures err.None? <==> Supported(v)
      ensures err.None? ==> text == old(text) + Print(lib, v)
      decreases v, 1, 0
    {
      match v
      case Null => Write("null"); return None;
      case Bool(b) => Write(if b then "true" else "false"); return None;
      case Str(s) => Write(Quote(s)); return None;
      case Int(i) => Write(PrintInt(i)); return None;
      case Real(x) =>
        if !x.Finite? { return Some(InvalidNumber); }
        var encoded := lib.format(x.bits);
        if !HasFraction(encoded) { encoded := encoded + ".0"; }
        Write(encoded);
        return None;
      case List(items) => err := WriteList(lib, items);
      case Obj(fields) => err := WriteObject(lib, v);
      case Unsupported => return Some(InvalidValue);
    }

    /** What a list writer still has to append from item n on. */
    ghost function ElemsFrom(lib: FloatLib, items: seq<Value>, n: nat): string
      requires n <= |items|
    {
      if n == 0 then PrintElems(lib, items)
      else if n == |items| then ""
      else "," + PrintElems(lib, items[n..])
    }

    lemma ElemsFromStep(lib: FloatLib, items: seq<Value>, n: nat)
      requires n < |items|
      ensures ElemsFrom(lib, items, n)
              == (if n > 0 then "," else "") + Print(lib, items[n]) + ElemsFrom(lib, items, n + 1)
    {
      var rest := items[n..];
      assert rest[0] == items[n] && rest[1..] == items[n + 1..];
      if n == 0 { assert rest == items; }
    }

    method WriteElem(lib: FloatLib, items: seq<Value>, n: nat) returns (err: Option<WireError>)
      requires n < |items|
      modifies this
      ensures err.None? <==> Supported(items[n])
      ensures err.None? ==> text + ElemsFrom(lib, items, n + 1) == old(text) + ElemsFrom(lib, items, n)
      decreases items, 0, 0
    {
      ghost var more := ElemsFrom(lib, items, n + 1);
      ElemsFromStep(lib, items, n);
      Regroup(text, if n > 0 then "," else "", Print(lib, items[n]), more);
      if n > 0 { Write(","); }
      assert text == old(text) + if n > 0 then "," else "";
      err := WriteValue(lib, items[n]);
    }

    method WriteList(lib: FloatLib, items: seq<Value>) returns (err: Option<WireError>)
      modifies this
      ensures err.None? <==> forall i :: 0 <= i < |items| ==> Supported(items[i])
      ensures err.None? ==> text == old(text) + ("[" + PrintElems(lib, items) + "]")
      decreases items, 0, 1
    {
      Write("[");
      ghost var whole := text + ElemsFrom(lib, items, 0);
      for n := 0 to |items|
        invariant forall i :: 0 <= i < n ==> Supported(items[i])
        invariant text + ElemsFrom(lib, items, n) == whole
      {
        err := WriteElem(lib, items, n);
        if err.Some? { return; }
      }
      assert text == whole;
      Write("]");
      Regroup(old(text), "[", PrintElems(lib, items), "]");
      return None;
    }

    ghost function MembersFrom(lib: FloatLib, v: Value, keys: seq<Bytes>, n: nat): string
      requires KeysOf(v, keys) && n <= |keys|
    {
      if n == 0 then PrintMembers(lib, v, keys)
      else if n == |keys| then ""
      else "," + PrintMembers(lib, v, keys[n..])
    }

    lemma MembersFromStep(lib: FloatLib, v: Value, keys: seq<Bytes>, n: nat)
      requires KeysOf(v, keys) && n < |keys|
      ensures MembersFrom(lib, v, keys, n) ==
              (if n > 0 then "," else "") + PrintMember(lib, v, keys[n]) + MembersFrom(lib, v, keys, n + 1)
    {
      var rest := keys[n..];
      assert rest[0] == keys[n] && rest[1..] == keys[n + 1..];
      if n == 0 { assert rest == keys; }
    }

    method WriteMember(lib: FloatLib, v: Value, keys: seq<Bytes>, n: nat) returns (err: Option<WireError>)
      requires KeysOf(v, keys) && n < |keys|
      modifies this
      ensures err.None? <==> Supported(v.fields[keys[n]])
      ensures err.None? ==> text + MembersFrom(lib, v, keys, n + 1) == old(text) + MembersFrom(lib, v, keys, n)
      decreases v, 0, 0
    {
      ghost var more := MembersFrom(lib, v, keys, n + 1);
      MembersFromStep(lib, v, keys, n);
      if n > 0 { Write(","); }
      assert text == old(text) + if n > 0 then "," else "";
      Write(Quote(keys[n]));
      Write(":");
      err := WriteValue(lib, v.fields[keys[n]]);
      RegroupMember(old(text), if n > 0 then "," else "", Quote(keys[n]), Print(lib, v.fields[keys[n]]), more);
    }

    method WriteMembers(lib: FloatLib, v: Value, keys: seq<Bytes>) returns (err: Option<WireError>)
      requires KeysOf(v, keys)
      modifies this
      ensures err.None? <==> forall i :: 0 <= i < |keys| ==> Supported(v.fields[keys[i]])
      ensures err.None? ==> text == old(text) + PrintMembers(lib, v, keys)
      decreases v, 0, 1
    {
      for n := 0 to |keys|
        invariant forall i :: 0 <= i < n ==> Supported(v.fields[keys[i]])
        invariant text + MembersFrom(lib, v, keys, n) == old(text) + PrintMembers(lib, v, keys)
      {
        err := WriteMember(lib, v, keys, n);
        if err.Some? { return; }
      }
      assert text + "" == text;
      return None;
    }

    method WriteObject(lib: FloatLib, v: Value) returns (err: Option<WireError>)
      requires v.Obj?
      modifies this
      ensures err.None? <==> Supported(v)
      ensures err.None? ==> text == old(text) + Print(lib, v)
      decreases v, 0, 2
    {
      var keys := SortedListing(v.fields.Keys);
      KeysFromSet(v, keys);
      Write("{");
      err := WriteMembers(lib, v, keys);
      if err.Some? { return; }
      Write("}");
      Regroup(old(text), "{", PrintMembers(lib, v, keys), "}");
      AllMembers(v, keys);
    }
  }

  lemma AllMembers(v: Value, keys: seq<Bytes>)
    requires KeysOf(v, keys) && KeySet(keys) == v.fields.Keys
             && forall i :: 0 <= i < |keys| ==> Supported(v.fields[keys[i]])
    ensures Supported(v)
  {
    forall k | k in v.fields ensures Supported(v.fields[k]) { assert k in KeySet(keys); }
  }

  lemma RegroupMember(before: string, comma: string, name: string, value: string, more: string)
    ensures before + comma + name + ":" + value + more == before + (comma + (name + ":" + value) + more)
  {}

  /** encodeNormalizedValue. */
  method EncodeNormalized(lib: FloatLib, v: Value) returns (r: Result<Bytes>)
    ensures r.Success? <==> Supported(v)
    ensures r.Success? ==> r.value == Body(lib, v)
  {
    var buf := new Buffer();
    var err := buf.WriteValue(lib, v);
    if err.Some? { return Failure(err.value); }
    assert [] + Print(lib, v) == Print(lib, v);
    return Success(Utf8(buf.text));
  }

  /** encodeBoundedValue. The node budget it derives from the byte limit costs nothing:
      a supported value is accepted exactly when its depth and its encoded size fit. */
  method EncodeBounded(lib: FloatLib, v: Value, maxDepth: int, maxBytes: int) returns (r: Result<Bytes>)
    requires Faithful(lib)
    ensures r.Success? <==> Supported(v) && WithinDepth(v, maxDepth) && |Body(lib, v)| <= maxBytes
    ensures r.Success? ==> r.value == Body(lib, v)
    ensures r.Failure? ==> r.error == if Accepted(v, maxDepth, maxBytes) then FrameTooLarge else InvalidValue
  {
    if Supported(v) { NodesWithinBody(lib, v); }
    var err := ValidateTree(v, maxDepth, maxBytes);
    if err.Some? { return Failure(InvalidValue); }
    r := EncodeNormalized(lib, v);
    if |r.value| > maxBytes { return Failure(FrameTooLarge); }
  }

  /** normalizeValue: lists and maps are filled one element at a time. */
  method NormalizeValue(lib: FloatLib, j: Json) returns (r: Option<Value>)
    ensures r == Normalize(lib, j)
    decreases j, 1
  {
    match j
    case JNull => return Some(Null);
    case JBool(b) => return Some(Bool(b));
    case JString(s) => return Some(Str(Utf8(s)));
    case JNumber(token) => return DecodeNumber(lib, token);
    case JArray(elems) =>
      var normalized: seq<Value> := [];
      for n := 0 to |elems|
        invariant |normalized| == n
        invariant forall i :: 0 <= i < n ==> Normalize(lib, elems[i]) == Some(normalized[i])
      {
        var item := NormalizeValue(lib, elems[n]);
        if item.None? { return None; }
        normalized := normalized + [item.value];
      }
      NormalizeArray(lib, elems, normalized);
      return Some(List(normalized));
    case JObject(members) => r := NormalizeMembers(lib, members);
  }

  method NormalizeMembers(lib: FloatLib, members: seq<Member>) returns (r: Option<Value>)
    ensures r == Normalize(lib, JObject(members))
    decreases members, 0
  {
    var kept := Survivors(members);
    var keys := kept.Keys;
    var normalized: map<Bytes, Value> := map[];
    while keys != {}
      invariant keys <= kept.Keys && normalized.Keys == kept.Keys - keys
      invariant forall k :: k in normalized ==> Normalize(lib, members[kept[k]].value) == Some(normalized[k])
      decreases |keys|
    {
      var k :| k in keys;
      var item := NormalizeValue(lib, members[kept[k]].value);
      if item.None? {
        MemberFailure(lib, members, k);
        return None;
      }
      keys, normalized := keys - {k}, normalized[k := item.value];
    }
    NormalizeObject(lib, members, normalized);
    return Some(Obj(normalized));
  }

  lemma MemberFailure(lib: FloatLib, members: seq<Member>, k: Bytes)
    requires k in Survivors(members) && Normalize(lib, members[Survivors(members)[k]].value).None?
    ensures Normalize(lib, JObject(members)).None?
  {}
}
