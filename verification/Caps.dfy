/** The payload bounds of internal/worker/limits.go: how they are computed without 32-bit
    wrap-around, and that every legal frame fits the bound computed for its side. */
module Caps {
  import opened Text
  import opened Values
  import opened Wire
  import opened Json
  import opened Codec
  import opened Frames
  import opened Streams

  const NATIVE_CALL_PREFIX := "{\"type\":\"native_call\"," + "\"capability_id\":"
  const NATIVE_CALL_MID := ",\"arguments\":"
  const FINAL_PREFIX := "{\"type\":\"final\",\"result\":"
  const FINAL_ERROR_PREFIX := "{\"type\":\"final_error\",\"code\":\"invalid_arguments\""
  const NATIVE_RESULT_PREFIX := "{\"type\":\"native_result\",\"result\":"
  const NATIVE_ABORT_PREFIX := "{\"type\":\"native_abort\""
  const DETAIL_PREFIX := ",\"detail\":"
  const EMPTY_STRING := "\"\""
  const JSON_STRING_ESCAPE_MAX: nat := 6

  lemma WordLengths()
    ensures |NATIVE_CALL_PREFIX| == 38
    ensures |NATIVE_CALL_MID| == 13
    ensures |FINAL_PREFIX| == 25
    ensures |FINAL_ERROR_PREFIX| == 48
    ensures |NATIVE_RESULT_PREFIX| == 33
    ensures |NATIVE_ABORT_PREFIX| == 22
    ensures |DETAIL_PREFIX| == 10
    ensures |EMPTY_STRING| == 2
  {}

  // ----- arithmetic on uint32 -----

  ghost function Total(values: seq<Cap>): nat {
    if values == [] then 0 else Total(values[..|values| - 1]) + values[|values| - 1]
  }

  lemma {:induction false} TotalMonotone(values: seq<Cap>, n: nat)
    requires n <= |values|
    ensures Total(values[..n]) <= Total(values)
  {
    if n == |values| {
      assert values[..n] == values;
    } else {
      TotalMonotone(values[..|values| - 1], n);
      assert values[..|values| - 1][..n] == values[..n];
    }
  }

  /** addConfigUint32: fails exactly when the true sum needs more than 32 bits; the
      uint64 accumulator never wraps on the way. */
  method AddUint32(values: seq<Cap>) returns (r: Result<Cap>)
    ensures r == if Total(values) <= MAX_UINT32 then Success(Total(values)) else Failure(InvalidLimits)
  {
    var sum: nat := 0;
    for n := 0 to |values|
      invariant sum == Total(values[..n]) && sum <= MAX_UINT32
    {
      assert values[..n + 1][..n] == values[..n];
      assert sum + values[n] < 0x1_0000_0000_0000_0000;
      sum := sum + values[n];
      if sum > MAX_UINT32 {
        TotalMonotone(values, n + 1);
        return Failure(InvalidLimits);
      }
    }
    assert values[..|values|] == values;
    return Success(sum);
  }

  /** mulConfigUint32. */
  method MulUint32(left: Cap, right: Cap) returns (r: Result<Cap>)
    ensures r == if left * right <= MAX_UINT32 then Success(left * right) else Failure(InvalidLimits)
  {
    var product: nat := left * right;
    if product > MAX_UINT32 { return Failure(InvalidLimits); }
    return Success(product);
  }

  /** maxUint32. */
  method MaxUint32(values: seq<Cap>) returns (largest: Cap)
    ensures forall i :: 0 <= i < |values| ==> values[i] <= largest
    ensures largest == 0 || largest in values
  {
    largest := 0;
    for n := 0 to |values|
      invariant forall i :: 0 <= i < n ==> values[i] <= largest
      invariant largest == 0 || largest in values
    {
      if values[n] > largest { largest := values[n]; }
    }
  }

  function IdBytes(id: Bytes): nat { |Utf8(Quote(id))| }

  /** The longest encoded ID, at least the empty string's two quotes. */
  ghost function LongestId(ids: seq<Bytes>): nat {
    if ids == [] then 2
    else
      var before := LongestId(ids[..|ids| - 1]);
      if IdBytes(ids[|ids| - 1]) > before then IdBytes(ids[|ids| - 1]) else before
  }

  lemma {:induction false} LongestIdLeast(ids: seq<Bytes>)
    ensures LongestId(ids) >= 2
  {
    if ids != [] { LongestIdLeast(ids[..|ids| - 1]); }
  }

  lemma {:induction false} LongestIdBounds(ids: seq<Bytes>, n: nat)
    requires n < |ids|
    ensures IdBytes(ids[n]) <= LongestId(ids)
  {
    if n < |ids| - 1 { LongestIdBounds(ids[..|ids| - 1], n); }
  }

  /** longestEncodedID. */
  method LongestEncodedId(ids: seq<Bytes>) returns (r: Result<Cap>)
    ensures r == if LongestId(ids) <= MAX_UINT32 then Success(LongestId(ids)) else Failure(InvalidLimits)
  {
    var longest: Cap := |EMPTY_STRING|;
    for n := 0 to |ids|
      invariant longest == LongestId(ids[..n])
    {
      assert ids[..n + 1][..n] == ids[..n];
      var length := IdBytes(ids[n]);
      if length > MAX_UINT32 {
        LongestIdBounds(ids, n);
        return Failure(InvalidLimits);
      }
      if length > longest { longest := length; }
    }
    assert ids[..|ids|] == ids;
    return Success(longest);
  }

  // ----- the bounds -----

  ghost function CallBound(longestId: nat, valueBytes: nat): nat {
    |NATIVE_CALL_PREFIX| + longestId + |NATIVE_CALL_MID| + valueBytes + 1
  }

  ghost function FinalBound(valueBytes: nat): nat { |FINAL_PREFIX| + valueBytes + 1 }

  ghost function ResultBound(valueBytes: nat): nat { |NATIVE_RESULT_PREFIX| + valueBytes + 1 }

  const FINAL_ERROR_BOUND: nat :=
    |FINAL_ERROR_PREFIX| + |DETAIL_PREFIX| + |EMPTY_STRING| + JSON_STRING_ESCAPE_MAX * MAX_DIAGNOSTIC_BYTES + 1

  const NATIVE_ABORT_BOUND: nat :=
    |NATIVE_ABORT_PREFIX| + |DETAIL_PREFIX| + |EMPTY_STRING| + JSON_STRING_ESCAPE_MAX * MAX_AGENT_ERROR_BYTES + 1

  ghost function Larger(a: nat, b: nat): nat { if a >= b then a else b }

  ghost function ChildBound(maxValueBytes: nat, ids: seq<Bytes>): nat {
    Larger(CallBound(LongestId(ids), maxValueBytes), FINAL_ERROR_BOUND)
  }

  ghost function ParentBound(maxValueBytes: nat): nat { Larger(ResultBound(maxValueBytes), NATIVE_ABORT_BOUND) }

  /** configUint32. */
  function ConfigUint32(value: int): Result<Cap> {
    if 0 <= value <= MAX_UINT32 then Success(value) else Failure(InvalidLimits)
  }

  method FinalErrorPayloadCap() returns (r: Result<Cap>)
    ensures r == Success(FINAL_ERROR_BOUND)
  {
    WordLengths();
    var escaped := MulUint32(JSON_STRING_ESCAPE_MAX, MAX_DIAGNOSTIC_BYTES);
    if escaped.Failure? { return escaped; }
    r := AddUint32([|FINAL_ERROR_PREFIX|, |DETAIL_PREFIX|, |EMPTY_STRING|, escaped.value, 1]);
    TotalOfFive(|FINAL_ERROR_PREFIX|, |DETAIL_PREFIX|, |EMPTY_STRING|, escaped.value, 1);
  }

  method NativeAbortPayloadCap() returns (r: Result<Cap>)
    ensures r == Success(NATIVE_ABORT_BOUND)
  {
    WordLengths();
    var escaped := MulUint32(JSON_STRING_ESCAPE_MAX, MAX_AGENT_ERROR_BYTES);
    if escaped.Failure? { return escaped; }
    r := AddUint32([|NATIVE_ABORT_PREFIX|, |DETAIL_PREFIX|, |EMPTY_STRING|, escaped.value, 1]);
    TotalOfFive(|NATIVE_ABORT_PREFIX|, |DETAIL_PREFIX|, |EMPTY_STRING|, escaped.value, 1);
  }

  lemma TotalOfThree(a: Cap, b: Cap, c: Cap)
    ensures Total([a, b, c]) == a + b + c
  {
    assert [a][..0] == [] && Total([a]) == a;
    assert [a, b][..1] == [a] && Total([a, b]) == a + b;
    assert [a, b, c][..2] == [a, b];
  }

  lemma TotalOfFive(a: Cap, b: Cap, c: Cap, d: Cap, e: Cap)
    ensures Total([a, b, c, d, e]) == a + b + c + d + e
  {
    TotalOfThree(a, b, c);
    assert [a, b, c, d][..3] == [a, b, c];
    assert Total([a, b, c, d]) == a + b + c + d;
    assert [a, b, c, d, e][..4] == [a, b, c, d];
  }

  /** childPayloadCap: fails exactly when the largest native_call needs a longer prefix. */
  method ChildPayloadCap(maxValueBytes: int, ids: seq<Bytes>) returns (r: Result<Cap>)
    ensures r.Success? <==> 0 <= maxValueBytes && CallBound(LongestId(ids), maxValueBytes) <= MAX_UINT32
    ensures r.Success? ==> r.value == ChildBound(maxValueBytes, ids)
    ensures r.Failure? ==> r.error == InvalidLimits
  {
    WordLengths();
    LongestIdLeast(ids);
    var valueBytes := ConfigUint32(maxValueBytes);
    if valueBytes.Failure? { return valueBytes; }
    var longestId := LongestEncodedId(ids);
    if longestId.Failure? { return longestId; }
    var nativeCall := AddUint32([|NATIVE_CALL_PREFIX|, longestId.value, |NATIVE_CALL_MID|, valueBytes.value, 1]);
    TotalOfFive(|NATIVE_CALL_PREFIX|, longestId.value, |NATIVE_CALL_MID|, valueBytes.value, 1);
    if nativeCall.Failure? { return nativeCall; }
    var final := AddUint32([|FINAL_PREFIX|, valueBytes.value, 1]);
    TotalOfThree(|FINAL_PREFIX|, valueBytes.value, 1);
    if final.Failure? { return final; }
    var finalError := FinalErrorPayloadCap();
    if finalError.Failure? { return finalError; }
    var sizes := [nativeCall.value, final.value, finalError.value];
    var largest := MaxUint32(sizes);
    assert sizes[0] <= largest && sizes[2] <= largest;
    r := Success(largest);
  }

  /** parentPayloadCap. */
  method ParentPayloadCap(maxValueBytes: int) returns (r: Result<Cap>)
    ensures r.Success? <==> 0 <= maxValueBytes && ResultBound(maxValueBytes) <= MAX_UINT32
    ensures r.Success? ==> r.value == ParentBound(maxValueBytes)
    ensures r.Failure? ==> r.error == InvalidLimits
  {
    var valueBytes := ConfigUint32(maxValueBytes);
    if valueBytes.Failure? { return valueBytes; }
    var nativeResult := AddUint32([|NATIVE_RESULT_PREFIX|, valueBytes.value, 1]);
    TotalOfThree(|NATIVE_RESULT_PREFIX|, valueBytes.value, 1);
    if nativeResult.Failure? { return nativeResult; }
    var abort := NativeAbortPayloadCap();
    if abort.Failure? { return abort; }
    var sizes := [nativeResult.value, abort.value];
    var largest := MaxUint32(sizes);
    assert sizes[0] <= largest && sizes[1] <= largest;
    r := Success(largest);
  }

  // ----- how long written text can get -----

  ghost predicate Ascii(s: string) { forall i :: 0 <= i < |s| ==> s[i] as int < 0x80 }

  lemma {:induction false} AsciiLength(s: string)
    requires Ascii(s)
    ensures |Utf8(s)| == |s|
  {
    if s != [] { AsciiLength(s[1..]); }
  }

  lemma HexEscapeLength(n: nat)
    requires n < 0x1_0000
    ensures |Utf8(HexEscape(n))| == 6
  {
    AsciiLength(HexEscape(n));
  }

  lemma EscapeCharLength(c: char)
    ensures |Utf8(EscapeChar(c))| <= JSON_STRING_ESCAPE_MAX * |EncodeChar(c)|
  {
    if |EscapeChar(c)| == 6 {
      HexEscapeLength(c as int);
    } else if |EscapeChar(c)| == 2 {
      AsciiLength(EscapeChar(c));
    } else {
      assert EscapeChar(c) == [c] && Utf8([c]) == EncodeChar(c) + Utf8([]);
    }
  }

  /** Escaping a Go string grows it at most sixfold, byte for byte. */
  lemma {:induction false} EscapeLength(b: Bytes)
    ensures |Utf8(Escape(b))| <= JSON_STRING_ESCAPE_MAX * |b|
  {
    if b != [] {
      var step := DecodeChar(b);
      var width := if step.Some? then step.value.1 else 1;
      var front := if step.Some? then EscapeChar(step.value.0) else HexEscape(0xFFFD);
      EscapeLength(b[width..]);
      Utf8Concat(front, Escape(b[width..]));
      if step.Some? {
        EncodeOfDecodeChar(b);
        EscapeCharLength(step.value.0);
      } else {
        HexEscapeLength(0xFFFD);
      }
    }
  }

  lemma QuoteLength(b: Bytes)
    ensures |Utf8(Quote(b))| == 2 + |Utf8(Escape(b))|
    ensures |Utf8(Quote(b))| <= 2 + JSON_STRING_ESCAPE_MAX * |b|
  {
    EscapeLength(b);
    Utf8Concat("\"" + Escape(b), "\"");
    Utf8Concat("\"", Escape(b));
    AsciiLength("\"");
  }

  lemma TextLength3(a: string, b: string, c: string)
    ensures |Utf8(a + b + c)| == |Utf8(a)| + |Utf8(b)| + |Utf8(c)|
  {
    Utf8Concat(a + b, c);
    Utf8Concat(a, b);
  }

  lemma WordsAscii()
    ensures Ascii(NATIVE_CALL_PREFIX) && Ascii(NATIVE_CALL_MID) && Ascii(FINAL_PREFIX) && Ascii(NATIVE_RESULT_PREFIX)
  {
    CallWordsAscii();
    ResultWordsAscii();
  }

  lemma CallWordsAscii()
    ensures Ascii(NATIVE_CALL_PREFIX) && Ascii(NATIVE_CALL_MID)
  {}

  lemma ResultWordsAscii()
    ensures Ascii(FINAL_PREFIX) && Ascii(NATIVE_RESULT_PREFIX)
  {}

  // ----- the frames as the encoders write them -----

  lemma RegroupTwo(first: string, name: string, value: string)
    ensures "{" + (first + "," + (name + value)) + "}" == ("{" + first + "," + name) + value + "}"
  {}

  lemma RegroupThree(first: string, name: string, value: string, name2: string, value2: string)
    ensures "{" + (first + "," + ((name + value) + "," + (name2 + value2))) + "}" ==
            ("{" + first + "," + name) + value + ("," + name2) + value2 + "}"
  {}

  function KeyText(k: Key): string { "\"" + KeyName(k) + "\"" + ":" }

  function TypeWord(k: Kind): string { KeyText(TypeKey) + ("\"" + KindName(k) + "\"") }

  lemma CallWords()
    ensures "{" + TypeWord(CallKind) + "," + KeyText(IdKey) == NATIVE_CALL_PREFIX
    ensures "," + KeyText(ArgumentsKey) == NATIVE_CALL_MID
  {
    CallPrefixWords();
    ArgumentWords();
  }

  lemma CallPrefixWords()
    ensures "{" + TypeWord(CallKind) + "," + KeyText(IdKey) == NATIVE_CALL_PREFIX
  {
    CallTypeWord();
    IdWord();
  }

  lemma CallTypeWord()
    ensures "{" + TypeWord(CallKind) + "," == "{\"type\":\"native_call\","
  {}

  lemma IdWord()
    ensures KeyText(IdKey) == "\"capability_id\":"
  {}

  lemma ArgumentWords()
    ensures "," + KeyText(ArgumentsKey) == NATIVE_CALL_MID
  {}

  lemma ResultWords(kind: Kind)
    requires kind == FinalKind || kind == ResultKind
    ensures "{" + TypeWord(kind) + "," + KeyText(ResultKey) == if kind == FinalKind then FINAL_PREFIX
                                                               else NATIVE_RESULT_PREFIX
  {
    if kind == FinalKind { FinalWords(); } else { NativeResultWords(); }
  }

  lemma FinalWords()
    ensures "{" + TypeWord(FinalKind) + "," + KeyText(ResultKey) == FINAL_PREFIX
  {}

  lemma NativeResultWords()
    ensures "{" + TypeWord(ResultKind) + "," + KeyText(ResultKey) == NATIVE_RESULT_PREFIX
  {}

  lemma TwoFieldsText(lib: FloatLib, kind: Kind, b: Field)
    ensures FieldsText(lib, [TypeField(kind), b]) == TypeWord(kind) + "," + (KeyText(b.key) + PartText(lib, b.part))
  {
    assert [TypeField(kind), b][1..] == [b];
  }

  lemma ThreeFieldsText(lib: FloatLib, kind: Kind, b: Field, c: Field)
    ensures FieldsText(lib, [TypeField(kind), b, c]) ==
            TypeWord(kind) + "," + ((KeyText(b.key) + PartText(lib, b.part)) + ","
                                    + (KeyText(c.key) + PartText(lib, c.part)))
  {
    assert [b, c][1..] == [c];
    assert FieldsText(lib, [b, c]) == FieldText(lib, b) + "," + FieldText(lib, c);
    assert [TypeField(kind), b, c][1..] == [b, c];
  }

  /** native_call is its fixed words around the encoded ID and the encoded arguments. */
  lemma CallText(lib: FloatLib, printable: char -> bool, id: Bytes, arguments: Value)
    ensures FrameText(lib, printable, NativeCall(id, arguments)) ==
            NATIVE_CALL_PREFIX + Quote(id) + NATIVE_CALL_MID + Print(lib, arguments) + "}"
  {
    ThreeFieldsText(lib, CallKind, Field(IdKey, Quoted(id)), Field(ArgumentsKey, Tree(arguments)));
    RegroupThree(TypeWord(CallKind), KeyText(IdKey), Quote(id), KeyText(ArgumentsKey), Print(lib, arguments));
    CallWords();
  }

  /** final and native_result are their fixed words around one encoded value. */
  lemma ResultText(lib: FloatLib, printable: char -> bool, f: Frame)
    requires f.NativeResult? || f.Final?
    ensures FrameText(lib, printable, f) ==
            (if f.Final? then FINAL_PREFIX else NATIVE_RESULT_PREFIX) + Print(lib, f.result) + "}"
  {
    var kind := if f.Final? then FinalKind else ResultKind;
    TwoFieldsText(lib, kind, Field(ResultKey, Tree(f.result)));
    RegroupTwo(TypeWord(kind), KeyText(ResultKey), Print(lib, f.result));
    ResultWords(kind);
  }

  /** A Word, a key or a type is written in as many bytes as it has characters. */
  lemma WordLengthsOnWire(key: Key, kind: Kind, code: Code)
    ensures |Utf8(KeyText(key))| == |KeyName(key)| + 3
    ensures |Utf8(TypeWord(kind))| == |KindName(kind)| + 9
    ensures |Utf8("\"" + CodeName(code) + "\"")| == |CodeName(code)| + 2
  {
    KeyAscii(key);
    KindAscii(kind);
    CodeAscii(code);
    AsciiLength(KeyText(key));
    AsciiLength(TypeWord(kind));
    AsciiLength("\"" + CodeName(code) + "\"");
  }

  lemma KeyAscii(key: Key)
    ensures Ascii(KeyText(key))
  {}

  lemma KindAscii(kind: Kind)
    ensures Ascii(TypeWord(kind))
  {}

  lemma CodeAscii(code: Code)
    ensures Ascii("\"" + CodeName(code) + "\"")
  {}

  /** The bytes of one, two and three fields. */
  lemma FrameLengths(first: string, b: string, c: string)
    ensures |Utf8("{" + first + "}")| == |Utf8(first)| + 2
    ensures |Utf8("{" + (first + "," + b) + "}")| == |Utf8(first)| + |Utf8(b)| + 3
    ensures |Utf8("{" + (first + "," + (b + "," + c)) + "}")| == |Utf8(first)| + |Utf8(b)| + |Utf8(c)| + 4
  {
    AsciiLength("{");
    AsciiLength("}");
    AsciiLength(",");
    TextLength3("{", first, "}");
    TextLength3("{", first + "," + b, "}");
    TextLength3(first, ",", b);
    TextLength3("{", first + "," + (b + "," + c), "}");
    TextLength3(first, ",", b + "," + c);
    TextLength3(b, ",", c);
  }

  lemma FiveTextSize(prefix: string, a: string, mid: string, b: string)
    requires Ascii(prefix) && Ascii(mid)
    ensures |Utf8(prefix + a + mid + b + "}")| == |prefix| + |Utf8(a)| + |mid| + |Utf8(b)| + 1
  {
    AsciiLength(prefix);
    AsciiLength(mid);
    AsciiLength("}");
    TextLength3(prefix + a + mid, b, "}");
    TextLength3(prefix, a, mid);
  }

  lemma ThreeTextSize(prefix: string, a: string)
    requires Ascii(prefix)
    ensures |Utf8(prefix + a + "}")| == |prefix| + |Utf8(a)| + 1
  {
    AsciiLength(prefix);
    AsciiLength("}");
    TextLength3(prefix, a, "}");
  }

  lemma CallPayloadSize(lib: FloatLib, printable: char -> bool, id: Bytes, arguments: Value)
    ensures |Payload(lib, printable, NativeCall(id, arguments))| == CallBound(IdBytes(id), |Body(lib, arguments)|)
  {
    CallText(lib, printable, id, arguments);
    WordsAscii();
    FiveTextSize(NATIVE_CALL_PREFIX, Quote(id), NATIVE_CALL_MID, Print(lib, arguments));
  }

  lemma ResultPayloadSize(lib: FloatLib, printable: char -> bool, f: Frame)
    requires f.NativeResult? || f.Final?
    ensures |Payload(lib, printable, f)| == if f.Final? then FinalBound(|Body(lib, f.result)|)
                                            else ResultBound(|Body(lib, f.result)|)
  {
    ResultText(lib, printable, f);
    WordsAscii();
    ThreeTextSize(if f.Final? then FINAL_PREFIX else NATIVE_RESULT_PREFIX, Print(lib, f.result));
  }

  lemma OneFieldSize(lib: FloatLib, kind: Kind)
    ensures |Utf8("{" + FieldsText(lib, [TypeField(kind)]) + "}")| == |KindName(kind)| + 11
  {
    var first := TypeWord(kind);
    WordLengthsOnWire(TypeKey, kind, InternalCode);
    FrameLengths(first, "", "");
    assert FieldsText(lib, [TypeField(kind)]) == first;
  }

  lemma TwoFieldSize(lib: FloatLib, kind: Kind, b: Field)
    ensures |Utf8("{" + FieldsText(lib, [TypeField(kind), b]) + "}")|
            == |KindName(kind)| + |KeyName(b.key)| + 15 + |Utf8(PartText(lib, b.part))|
  {
    var first, key, value := TypeWord(kind), KeyText(b.key), PartText(lib, b.part);
    WordLengthsOnWire(b.key, kind, InternalCode);
    FrameLengths(first, key + value, "");
    Utf8Concat(key, value);
    TwoFieldsText(lib, kind, b);
  }

  lemma ThreeFieldSize(lib: FloatLib, kind: Kind, b: Field, c: Field)
    ensures |Utf8("{" + FieldsText(lib, [TypeField(kind), b, c]) + "}")| ==
            |KindName(kind)| + |KeyName(b.key)| + |KeyName(c.key)| + 19 + |Utf8(PartText(lib, b.part))|
              + |Utf8(PartText(lib, c.part))|
  {
    var first, key, value := TypeWord(kind), KeyText(b.key), PartText(lib, b.part);
    var key2, value2 := KeyText(c.key), PartText(lib, c.part);
    WordLengthsOnWire(b.key, kind, InternalCode);
    WordLengthsOnWire(c.key, kind, InternalCode);
    FrameLengths(first, key + value, key2 + value2);
    Utf8Concat(key, value);
    Utf8Concat(key2, value2);
    ThreeFieldsText(lib, kind, b, c);
  }

  lemma WordSize(code: Code)
    ensures |KindName(AbortKind)| == 12 && |KindName(FinalErrorKind)| == 11 && |KeyName(CodeKey)| == 4
            && |KeyName(DetailKey)| == 6
    ensures |CodeName(code)| <= 17
  {}

  lemma AbortPayloadSize(lib: FloatLib, printable: char -> bool, detail: Bytes)
    ensures 1 <= |Payload(lib, printable, NativeAbort(detail))| <= NATIVE_ABORT_BOUND
  {
    var kept := KeptAbortDetail(printable, detail);
    WordLengths();
    WordSize(InternalCode);
    if kept == [] {
      OneFieldSize(lib, AbortKind);
    } else {
      TwoFieldSize(lib, AbortKind, Field(DetailKey, Quoted(kept)));
      QuoteLength(kept);
    }
  }

  lemma FinalErrorPayloadSize(lib: FloatLib, printable: char -> bool, code: Code, detail: Bytes)
    ensures 1 <= |Payload(lib, printable, FinalError(code, detail))| <= FINAL_ERROR_BOUND
  {
    var kept := KeptErrorDetail(code, detail);
    var b := Field(CodeKey, Word(CodeName(code)));
    WordLengths();
    WordSize(code);
    WordLengthsOnWire(CodeKey, FinalErrorKind, code);
    if kept == [] {
      TwoFieldSize(lib, FinalErrorKind, b);
    } else {
      ThreeFieldSize(lib, FinalErrorKind, b, Field(DetailKey, Quoted(kept)));
      QuoteLength(kept);
    }
  }

  /** Every frame a child may write fits the child's bound: writeFrame never refuses it. */
  lemma ChildFrameFits(lib: FloatLib, printable: char -> bool, f: Frame, maxValueBytes: nat, ids: seq<Bytes>)
    requires f.NativeCall? || f.Final? || f.FinalError?
    requires |Body(lib, TreeOf(f))| <= maxValueBytes || f.FinalError?
    requires f.NativeCall? ==> f.id in ids
    ensures 1 <= |Payload(lib, printable, f)| <= ChildBound(maxValueBytes, ids)
  {
    WordLengths();
    LongestIdLeast(ids);
    match f
    case NativeCall(id, arguments) =>
      CallPayloadSize(lib, printable, id, arguments);
      var n :| 0 <= n < |ids| && ids[n] == id;
      LongestIdBounds(ids, n);
    case Final(_) => ResultPayloadSize(lib, printable, f);
    case FinalError(code, detail) => FinalErrorPayloadSize(lib, printable, code, detail);
  }

  /** Every frame a parent may write after exec fits the parent's bound. */
  lemma ParentFrameFits(lib: FloatLib, printable: char -> bool, f: Frame, maxValueBytes: nat)
    requires f.NativeResult? || f.NativeAbort?
    requires |Body(lib, TreeOf(f))| <= maxValueBytes || f.NativeAbort?
    ensures 1 <= |Payload(lib, printable, f)| <= ParentBound(maxValueBytes)
  {
    match f
    case NativeResult(_) => ResultPayloadSize(lib, printable, f);
    case NativeAbort(detail) => AbortPayloadSize(lib, printable, detail);
  }

  // ----- the exec frame -----

  const MAX_INT: nat := 0x7FFF_FFFF_FFFF_FFFF
  const MAX_UINT64: nat := 0xFFFF_FFFF_FFFF_FFFF

  /** The child-visible budgets. */
  datatype ChildLimits = ChildLimits(maxSourceBytes: int, maxExecutionSteps: nat, maxNativeCalls: nat,
                                     maxValueDepth: int, maxValueBytes: int)

  /** validateChildLimits, on values of the source's machine widths. */
  predicate ValidLimits(l: ChildLimits) {
    && 0 < l.maxSourceBytes <= MAX_INT && 0 < l.maxExecutionSteps <= MAX_UINT64 && 0 < l.maxNativeCalls <= MAX_UINT64
    && 0 < l.maxValueDepth <= MAX_INT && 0 < l.maxValueBytes <= MAX_INT
  }

  const WORST_LIMITS := ChildLimits(MAX_INT, MAX_UINT64, MAX_UINT64, MAX_INT, MAX_INT)

  const EXEC_PREFIX := "{\"type\":\"exec\",\"version\":1,\"source\":"

  /** Each word followed by its number. */
  function Numbered(words: seq<string>, numbers: seq<int>): string
    requires |words| == |numbers|
  {
    if words == [] then "" else words[0] + PrintInt(numbers[0]) + Numbered(words[1..], numbers[1..])
  }

  const LIMIT_WORDS: seq<string> := [
    ",\"limits\":{\"max_source_bytes\":", ",\"max_execution_steps\":", ",\"max_native_calls\":",
    ",\"max_value_depth\":", ",\"max_value_bytes\":"]

  function Budgets(l: ChildLimits): (r: seq<int>)
    ensures |r| == 5
  {
    [l.maxSourceBytes, l.maxExecutionSteps, l.maxNativeCalls, l.maxValueDepth, l.maxValueBytes]
  }

  function LimitsText(l: ChildLimits): string { Numbered(LIMIT_WORDS, Budgets(l)) + "},\"manifest\":" }

  /** encodeExec, around the JSON text of the manifest. */
  function ExecText(source: Bytes, l: ChildLimits, manifest: string): string {
    EXEC_PREFIX + Quote(source) + LimitsText(l) + manifest + "}"
  }

  function ExecBound(maxSourceBytes: nat, manifest: string): nat {
    |Utf8(ExecText([], WORST_LIMITS, manifest))| + JSON_STRING_ESCAPE_MAX * maxSourceBytes
  }

  /** execPayloadCap: fails exactly when the bound needs more than 32 bits. */
  method ExecPayloadCap(maxSourceBytes: int, manifest: string) returns (r: Result<Cap>)
    ensures r.Success? <==> 0 <= maxSourceBytes && ExecBound(maxSourceBytes, manifest) <= MAX_UINT32
    ensures r.Success? ==> r.value == ExecBound(maxSourceBytes, manifest)
    ensures r.Failure? ==> r.error == InvalidLimits
  {
    if maxSourceBytes < 0 { return Failure(InvalidLimits); }
    var base := |Utf8(ExecText([], WORST_LIMITS, manifest))|;
    assert ExecBound(maxSourceBytes, manifest) == base + JSON_STRING_ESCAPE_MAX * maxSourceBytes;
    var sourceBytes := ConfigUint32(maxSourceBytes);
    if sourceBytes.Failure? { return sourceBytes; }
    var expanded := MulUint32(JSON_STRING_ESCAPE_MAX, sourceBytes.value);
    if expanded.Failure? { return expanded; }
    var baseLen := ConfigUint32(base);
    if baseLen.Failure? { return baseLen; }
    r := AddUint32([baseLen.value, expanded.value]);
    assert [baseLen.value, expanded.value][..1] == [baseLen.value] && Total([baseLen.value]) == baseLen.value;
  }

  lemma {:induction false} DigitsMonotone(m: nat, n: nat)
    requires m <= n
    ensures |Digits(m)| <= |Digits(n)|
  {
    if m >= 10 { DigitsMonotone(m / 10, n / 10); }
  }

  lemma {:induction false} DigitsAscii(n: nat)
    ensures Ascii(Digits(n))
  {
    if n >= 10 { DigitsAscii(n / 10); }
  }

  lemma {:induction false} NumberedAscii(words: seq<string>, numbers: seq<int>, worst: seq<int>)
    requires |words| == |numbers| == |worst|
    requires forall i :: 0 <= i < |words| ==> Ascii(words[i])
    requires forall i :: 0 <= i < |words| ==> 0 <= numbers[i] <= worst[i]
    ensures Ascii(Numbered(words, numbers)) && |Numbered(words, numbers)| <= |Numbered(words, worst)|
  {
    if words != [] {
      DigitsAscii(numbers[0]);
      DigitsMonotone(numbers[0], worst[0]);
      NumberedAscii(words[1..], numbers[1..], worst[1..]);
    }
  }

  lemma LimitWordsAscii()
    ensures forall i :: 0 <= i < |LIMIT_WORDS| ==> Ascii(LIMIT_WORDS[i])
  {}

  lemma TailAscii(s: string)
    requires Ascii(s)
    ensures Ascii(s + "},\"manifest\":")
  {}

  lemma LimitsAscii(l: ChildLimits)
    requires ValidLimits(l)
    ensures Ascii(LimitsText(l)) && |LimitsText(l)| <= |LimitsText(WORST_LIMITS)|
  {
    LimitWordsAscii();
    NumberedAscii(LIMIT_WORDS, Budgets(l), Budgets(WORST_LIMITS));
    TailAscii(Numbered(LIMIT_WORDS, Budgets(l)));
  }

  lemma ExecAscii()
    ensures Ascii(EXEC_PREFIX)
  {}

  lemma ExecTextSize(source: Bytes, l: ChildLimits, manifest: string)
    requires ValidLimits(l)
    ensures |Utf8(ExecText(source, l, manifest))|
            == |EXEC_PREFIX| + |Utf8(Quote(source))| + |LimitsText(l)| + |Utf8(manifest)| + 1
  {
    LimitsAscii(l);
    assert Ascii(EXEC_PREFIX) by { ExecAscii(); }
    FiveTextSize(EXEC_PREFIX, Quote(source), LimitsText(l), manifest);
  }

  /** Any source within MaxSourceBytes, under any legal limits, fits the exec bound,
      however badly its bytes escape. */
  lemma ExecFrameFits(source: Bytes, l: ChildLimits, manifest: string)
    requires ValidLimits(l) && |source| <= l.maxSourceBytes
    ensures 1 <= |Utf8(ExecText(source, l, manifest))| <= ExecBound(l.maxSourceBytes, manifest)
  {
    ExecTextSize(source, l, manifest);
    ExecTextSize([], WORST_LIMITS, manifest);
    QuoteLength(source);
    QuoteLength([]);
    LimitsAscii(l);
  }
}
