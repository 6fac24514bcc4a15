/** The JSON grammar as encoding/json reads and writes it (RFC 8259 sections 2 to 7):
    string escapes, number tokens, and a parser with the decoder's nesting limit. */
module Json {
  import opened Text

  /** Containers encoding/json lets a document keep open at once. */
  const MAX_NESTING: nat := 10000

  datatype Json =
    | JNull
    | JBool(b: bool)
    | JNumber(token: string)
    | JString(text: string)
    | JArray(elems: seq<Json>)
    | JObject(members: seq<Member>)

  datatype Member = Member(name: string, value: Json)

  // ----- strings -----

  function HexDigit(n: nat): (c: char)
    requires n < 16
  {
    (if n < 10 then '0' as int + n else 'a' as int + n - 10) as char
  }

  function HexValue(c: char): Option<nat> {
    if '0' <= c <= '9' then Some(c as int - '0' as int)
    else if 'a' <= c <= 'f' then Some(c as int - 'a' as int + 10)
    else if 'A' <= c <= 'F' then Some(c as int - 'A' as int + 10)
    else None
  }

  function HexEscape(n: nat): string
    requires n < 0x1_0000
  {
    ['\\', 'u', HexDigit(n / 16 / 16 / 16), HexDigit(n / 16 / 16 % 16), HexDigit(n / 16 % 16), HexDigit(n % 16)]
  }

  /** One scalar value inside a string literal, HTML-safe as json.Marshal writes it. */
  function EscapeChar(c: char): string {
    if c == '\"' then "\\\""
    else if c == '\\' then "\\\\"
    else if c == '\U{8}' then "\\b"
    else if c == '\U{C}' then "\\f"
    else if c == '\n' then "\\n"
    else if c == '\r' then "\\r"
    else if c == '\t' then "\\t"
    else if c < ' ' || c == '<' || c == '>' || c == '&' || c == '\U{2028}' || c == '\U{2029}' then HexEscape(c as int)
    else [c]
  }

  /** The inside of a string literal for a Go string; an invalid byte is written as U+FFFD. */
  function Escape(b: Bytes): string {
    if b == [] then []
    else match DecodeChar(b)
      case Some(step) => EscapeChar(step.0) + Escape(b[step.1..])
      case None => HexEscape(0xFFFD) + Escape(b[1..])
  }

  function Quote(b: Bytes): string { "\"" + Escape(b) + "\"" }

  /** Four hexadecimal digits at the front of s. */
  function Hex4(s: string): Option<nat> {
    if |s| < 4 then None
    else match (HexValue(s[0]), HexValue(s[1]), HexValue(s[2]), HexValue(s[3]))
      case (Some(a), Some(b), Some(c), Some(d)) => Some(((a * 16 + b) * 16 + c) * 16 + d)
      case _ => None
  }

  predicate IsSurrogate(n: nat) { 0xD800 <= n < 0xE000 }

  /** The scalar value after "\u" and how many characters it takes; a lone surrogate
      is replaced, a surrogate pair is combined. */
  function UnescapeHex(s: string): (r: Option<(char, nat)>)
    ensures r.Some? ==> 4 <= r.value.1 <= |s|
  {
    match Hex4(s)
    case None => None
    case Some(n) =>
      if !(n < 0x1_0000) then None
      else if !IsSurrogate(n) then Some((n as char, 4))
      else if n < 0xDC00 && |s| >= 10 && s[4] == '\\' && s[5] == 'u' then
        match Hex4(s[6..])
        case Some(low) =>
          if 0xDC00 <= low < 0xE000
          then Some(((0x1_0000 + (n - 0xD800) * 0x400 + (low - 0xDC00)) as char, 10))
          else Some((REPLACEMENT, 4))
        case None => Some((REPLACEMENT, 4))
      else Some((REPLACEMENT, 4))
  }

  /** The text of a string literal and what follows its closing quote; s starts after
      the opening quote. */
  function Unquote(s: string): (r: Option<(string, string)>)
    ensures r.Some? ==> |r.value.1| < |s|
  {
    if s == [] || s[0] < ' ' then None
    else if s[0] == '\"' then Some(([], s[1..]))
    else if s[0] != '\\' then Prepend(s[0], Unquote(s[1..]))
    else if |s| < 2 then None
    else if s[1] == 'u' then
      match UnescapeHex(s[2..])
      case Some(step) => Prepend(step.0, Unquote(s[2 + step.1..]))
      case None => None
    else match ShortEscape(s[1])
      case Some(c) => Prepend(c, Unquote(s[2..]))
      case None => None
  }

  function ShortEscape(c: char): Option<char> {
    match c
    case '\"' => Some('\"')
    case '\\' => Some('\\')
    case '/' => Some('/')
    case 'b' => Some('\U{8}')
    case 'f' => Some('\U{C}')
    case 'n' => Some('\n')
    case 'r' => Some('\r')
    case 't' => Some('\t')
    case _ => None
  }

  function Prepend(c: char, r: Option<(string, string)>): Option<(string, string)> {
    match r
    case Some(p) => Some(([c] + p.0, p.1))
    case None => None
  }

  lemma HexOfDigit(n: nat)
    requires n < 16
    ensures HexValue(HexDigit(n)) == Some(n)
  {}

  lemma Hex4OfEscape(n: nat, rest: string)
    requires n < 0x1_0000
    ensures Hex4(HexEscape(n)[2..] + rest) == Some(n)
  {
    HexOfDigit(n / 16 / 16 / 16);
    HexOfDigit(n / 16 / 16 % 16);
    HexOfDigit(n / 16 % 16);
    HexOfDigit(n % 16);
    var e := HexEscape(n)[2..];
    assert e == [HexDigit(n / 16 / 16 / 16), HexDigit(n / 16 / 16 % 16), HexDigit(n / 16 % 16), HexDigit(n % 16)];
    assert (e + rest)[0] == e[0] && (e + rest)[1] == e[1] && (e + rest)[2] == e[2] && (e + rest)[3] == e[3];
  }

  lemma UnquoteOfHexEscape(n: nat, rest: string)
    requires n < 0x1_0000 && !IsSurrogate(n)
    ensures Unquote(HexEscape(n) + rest) == Prepend(n as char, Unquote(rest))
  {
    var s := HexEscape(n) + rest;
    Hex4OfEscape(n, rest);
    assert s[2..] == HexEscape(n)[2..] + rest;
    assert s[6..] == rest;
  }

  lemma UnquoteOfEscapeChar(c: char, rest: string)
    ensures Unquote(EscapeChar(c) + rest) == Prepend(c, Unquote(rest))
  {
    var s := EscapeChar(c) + rest;
    if |EscapeChar(c)| == 2 {
      assert s[0] == '\\' && s[1] == EscapeChar(c)[1] && s[2..] == rest;
    } else if |EscapeChar(c)| == 1 {
      assert s[0] == c && s[1..] == rest;
    } else {
      UnquoteOfHexEscape(c as int, rest);
    }
  }

  lemma Regroup(a: string, b: string, c: string, d: string)
    ensures a + b + c + d == a + (b + c + d)
  {}

  /** Reading back a written string literal yields its scalar values. */
  lemma {:induction false} UnquoteOfEscape(b: Bytes, rest: string)
    ensures Unquote(Escape(b) + "\"" + rest) == Some((Runes(b), rest))
  {
    if b == [] {
      UnquoteAtQuote(rest);
      assert Escape(b) + "\"" + rest == "\"" + rest;
    } else {
      var step := DecodeChar(b);
      var width := if step.Some? then step.value.1 else 1;
      var front := if step.Some? then EscapeChar(step.value.0) else HexEscape(0xFFFD);
      var tail := Escape(b[width..]) + "\"" + rest;
      Regroup(front, Escape(b[width..]), "\"", rest);
      if step.Some? { UnquoteOfEscapeChar(step.value.0, tail); } else { UnquoteOfHexEscape(0xFFFD, tail); }
      UnquoteOfEscape(b[width..], rest);
    }
  }

  lemma UnquoteAtQuote(rest: string)
    ensures Unquote("\"" + rest) == Some(([], rest))
  {
    assert ("\"" + rest)[1..] == rest;
  }

  // ----- numbers -----

  predicate IsDigit(c: char) { '0' <= c <= '9' }

  function SkipDigits(s: string): (r: string)
    ensures |r| <= |s|
    ensures r == [] || !IsDigit(r[0])
  {
    if s != [] && IsDigit(s[0]) then SkipDigits(s[1..]) else s
  }

  /** What follows the number token at the front of s. */
  function NumberRest(s: string): (r: Option<string>)
    ensures r.Some? ==> |r.value| < |s|
  {
    var u := if s != [] && s[0] == '-' then s[1..] else s;
    if u == [] || !IsDigit(u[0]) then None
    else FractionRest(if u[0] == '0' then u[1..] else SkipDigits(u))
  }

  function FractionRest(s: string): (r: Option<string>)
    ensures r.Some? ==> |r.value| <= |s|
  {
    if s == [] || s[0] != '.' then ExponentRest(s)
    else if |s| < 2 || !IsDigit(s[1]) then None
    else ExponentRest(SkipDigits(s[1..]))
  }

  function ExponentRest(s: string): (r: Option<string>)
    ensures r.Some? ==> |r.value| <= |s|
  {
    if s == [] || (s[0] != 'e' && s[0] != 'E') then Some(s)
    else
      var w := if |s| >= 2 && (s[1] == '+' || s[1] == '-') then s[2..] else s[1..];
      if w == [] || !IsDigit(w[0]) then None else Some(SkipDigits(w))
  }

  /** A complete number token. */
  predicate IsNumber(token: string) { NumberRest(token) == Some([]) }

  /** The spelling that decodes to a float rather than an integer. */
  predicate HasFraction(token: string) { '.' in token || 'e' in token || 'E' in token }

  predicate IsSpace(c: char) { c == ' ' || c == '\t' || c == '\r' || c == '\n' }

  /** rest is empty or starts with a character that ends a number token. */
  predicate Ends(rest: string) {
    rest == [] || rest[0] == ',' || rest[0] == ']' || rest[0] == '}' || IsSpace(rest[0])
  }

  lemma {:induction false} SkipDigitsAppend(s: string, rest: string)
    requires Ends(rest) || SkipDigits(s) != []
    ensures SkipDigits(s + rest) == SkipDigits(s) + rest
  {
    if s == [] {
      assert s + rest == rest && SkipDigits(s) + rest == rest;
    } else if IsDigit(s[0]) {
      assert (s + rest)[1..] == s[1..] + rest;
      SkipDigitsAppend(s[1..], rest);
    }
  }

  lemma ExponentRestAppend(s: string, rest: string)
    requires ExponentRest(s) == Some([]) && Ends(rest)
    ensures ExponentRest(s + rest) == Some(rest)
  {
    if s == [] {
      assert s + rest == rest;
    } else {
      var k := if |s| >= 2 && (s[1] == '+' || s[1] == '-') then 2 else 1;
      assert (s + rest)[0] == s[0] && (s + rest)[1] == s[1];
      assert (s + rest)[k..] == s[k..] + rest;
      SkipDigitsAppend(s[k..], rest);
      assert [] + rest == rest;
    }
  }

  lemma FractionRestAppend(s: string, rest: string)
    requires FractionRest(s) == Some([]) && Ends(rest)
    ensures FractionRest(s + rest) == Some(rest)
  {
    if s == [] || s[0] != '.' {
      ExponentRestAppend(s, rest);
      if s == [] { assert s + rest == rest; }
    } else {
      assert (s + rest)[1..] == s[1..] + rest;
      SkipDigitsAppend(s[1..], rest);
      ExponentRestAppend(SkipDigits(s[1..]), rest);
    }
  }

  /** A complete token is read whole when a delimiter follows it. */
  lemma NumberRestAppend(token: string, rest: string)
    requires IsNumber(token) && Ends(rest)
    ensures NumberRest(token + rest) == Some(rest)
  {
    var neg := token[0] == '-';
    var u := if neg then token[1..] else token;
    var all := token + rest;
    var w := if neg then all[1..] else all;
    assert w == u + rest;
    if u[0] == '0' {
      assert w[1..] == u[1..] + rest;
      FractionRestAppend(u[1..], rest);
    } else {
      SkipDigitsAppend(u, rest);
      FractionRestAppend(SkipDigits(u), rest);
    }
  }

  // ----- documents -----

  function SkipSpace(s: string): (r: string)
    ensures |r| <= |s|
  {
    if s != [] && IsSpace(s[0]) then SkipSpace(s[1..]) else s
  }

  /** One value and what follows it, with room for that many more open containers. */
  function ParseValue(s: string, room: nat): (r: Option<(Json, string)>)
    ensures r.Some? ==> |r.value.1| < |s|
    decreases |s|, 1
  {
    var t := SkipSpace(s);
    if t == [] then None
    else if t[0] == '\"' then
      match Unquote(t[1..])
      case Some(p) => Some((JString(p.0), p.1))
      case None => None
    else if t[0] == '[' then
      if room == 0 then None
      else
        var u := SkipSpace(t[1..]);
        if u != [] && u[0] == ']' then Some((JArray([]), u[1..]))
        else match ParseElems(t[1..], room - 1)
          case Some(p) => Some((JArray(p.0), p.1))
          case None => None
    else if t[0] == '{' then
      if room == 0 then None
      else
        var u := SkipSpace(t[1..]);
        if u != [] && u[0] == '}' then Some((JObject([]), u[1..]))
        else match ParseMembers(t[1..], room - 1)
          case Some(p) => Some((JObject(p.0), p.1))
          case None => None
    else if "null" <= t then Some((JNull, t[4..]))
    else if "true" <= t then Some((JBool(true), t[4..]))
    else if "false" <= t then Some((JBool(false), t[5..]))
    else match NumberRest(t)
      case Some(rest) => Some((JNumber(t[..|t| - |rest|]), rest))
      case None => None
  }

  /** The elements of a non-empty array up to and including its bracket. */
  function ParseElems(s: string, room: nat): (r: Option<(seq<Json>, string)>)
    ensures r.Some? ==> |r.value.1| < |s|
    decreases |s|, 2
  {
    match ParseValue(s, room)
    case None => None
    case Some(p) =>
      var u := SkipSpace(p.1);
      if u != [] && u[0] == ']' then Some(([p.0], u[1..]))
      else if u != [] && u[0] == ',' then
        match ParseElems(u[1..], room)
        case Some(q) => Some(([p.0] + q.0, q.1))
        case None => None
      else None
  }

  /** One member of an object and what follows it. */
  function ParseMember(s: string, room: nat): (r: Option<(Member, string)>)
    ensures r.Some? ==> |r.value.1| < |s|
    decreases |s|, 0
  {
    var t := SkipSpace(s);
    if t == [] || t[0] != '\"' then None
    else match Unquote(t[1..])
      case None => None
      case Some(name) =>
        var c := SkipSpace(name.1);
        if c == [] || c[0] != ':' then None
        else match ParseValue(c[1..], room)
          case None => None
          case Some(p) => Some((Member(name.0, p.0), p.1))
  }

  /** The members of a non-empty object up to and including its brace. */
  function ParseMembers(s: string, room: nat): (r: Option<(seq<Member>, string)>)
    ensures r.Some? ==> |r.value.1| < |s|
    decreases |s|, 2
  {
    match ParseMember(s, room)
    case None => None
    case Some(p) =>
      var u := SkipSpace(p.1);
      if u != [] && u[0] == '}' then Some(([p.0], u[1..]))
      else if u != [] && u[0] == ',' then
        match ParseMembers(u[1..], room)
        case Some(q) => Some(([p.0] + q.0, q.1))
        case None => None
      else None
  }

  lemma QuoteSplits(name: Bytes, after: string)
    ensures Quote(name) + after == "\"" + (Escape(name) + "\"" + after)
  {}

  lemma MemberAfterName(s: string, name: string, value: string, room: nat, j: Json, more: string)
    requires Unquote(s) == Some((name, ":" + value))
    requires ParseValue(value, room) == Some((j, more))
    ensures ParseMember("\"" + s, room) == Some((Member(name, j), more))
  {
    assert ("\"" + s)[1..] == s && SkipSpace("\"" + s) == "\"" + s;
    assert (":" + value)[1..] == value && SkipSpace(":" + value) == ":" + value;
  }

  /** Reading back one written member, whatever follows. */
  lemma MemberStep(name: Bytes, value: string, more: string, room: nat, j: Json)
    requires ParseValue(value + more, room) == Some((j, more))
    ensures ParseMember(Quote(name) + ":" + value + more, room) == Some((Member(Runes(name), j), more))
  {
    var after := ":" + (value + more);
    Regroup(Quote(name), ":", value, more);
    assert ":" + value + more == after;
    QuoteSplits(name, after);
    UnquoteOfEscape(name, after);
    MemberAfterName(Escape(name) + "\"" + after, Runes(name), value + more, room, j, more);
  }

  // How each piece of a printed document is read back.

  lemma ElemsEnd(first: string, rest: string, room: nat, j: Json)
    requires ParseValue(first + ("]" + rest), room) == Some((j, "]" + rest))
    ensures ParseElems(first + ("]" + rest), room) == Some(([j], rest))
  {
    assert SkipSpace("]" + rest) == "]" + rest && ("]" + rest)[1..] == rest;
  }

  lemma ElemsMore(first: string, tail: string, room: nat, j: Json)
    requires ParseValue(first + ("," + tail), room) == Some((j, "," + tail))
    requires ParseElems(tail, room).Some?
    ensures var q := ParseElems(tail, room).value;
            ParseElems(first + ("," + tail), room) == Some(([j] + q.0, q.1))
  {
    assert SkipSpace("," + tail) == "," + tail && ("," + tail)[1..] == tail;
  }

  lemma MembersEnd(first: string, rest: string, room: nat, m: Member)
    requires ParseMember(first + ("}" + rest), room) == Some((m, "}" + rest))
    ensures ParseMembers(first + ("}" + rest), room) == Some(([m], rest))
  {
    assert SkipSpace("}" + rest) == "}" + rest && ("}" + rest)[1..] == rest;
  }

  lemma MembersMore(first: string, tail: string, room: nat, m: Member)
    requires ParseMember(first + ("," + tail), room) == Some((m, "," + tail))
    requires ParseMembers(tail, room).Some?
    ensures var q := ParseMembers(tail, room).value;
            ParseMembers(first + ("," + tail), room) == Some(([m] + q.0, q.1))
  {
    assert SkipSpace("," + tail) == "," + tail && ("," + tail)[1..] == tail;
  }

  lemma ArrayWraps(inner: string, room: nat)
    requires room > 0 && ParseElems(inner, room - 1).Some?
    requires inner != [] && !IsSpace(inner[0]) && inner[0] != ']'
    ensures var q := ParseElems(inner, room - 1).value;
            ParseValue("[" + inner, room) == Some((JArray(q.0), q.1))
  {
    assert ("[" + inner)[1..] == inner;
  }

  lemma ObjectWraps(inner: string, room: nat)
    requires room > 0 && ParseMembers(inner, room - 1).Some?
    requires inner != [] && inner[0] == '\"'
    ensures var q := ParseMembers(inner, room - 1).value;
            ParseValue("{" + inner, room) == Some((JObject(q.0), q.1))
  {
    assert ("{" + inner)[1..] == inner;
  }

  lemma EmptyWraps(rest: string, room: nat)
    requires room > 0
    ensures ParseValue("[]" + rest, room) == Some((JArray([]), rest))
    ensures ParseValue("{}" + rest, room) == Some((JObject([]), rest))
  {
    assert ("[]" + rest)[1..] == "]" + rest && ("{}" + rest)[1..] == "}" + rest;
    assert ("]" + rest)[1..] == rest && ("}" + rest)[1..] == rest;
  }

  /** At most n containers of j lie inside one another. */
  ghost predicate NestedJson(j: Json, n: int) {
    match j
    case JArray(elems) => 1 <= n && forall i :: 0 <= i < |elems| ==> NestedJson(elems[i], n - 1)
    case JObject(members) => 1 <= n && forall i :: 0 <= i < |members| ==> NestedJson(members[i].value, n - 1)
    case _ => 0 <= n
  }

  /** The parser never returns a document nested deeper than its limit. */
  lemma {:induction false} ParsedIsNested(s: string, room: nat)
    ensures ParseValue(s, room).Some? ==> NestedJson(ParseValue(s, room).value.0, room)
    decreases |s|, 1
  {
    var t := SkipSpace(s);
    if t != [] && room > 0 && t[0] == '[' {
      ElemsAreNested(t[1..], room - 1);
    } else if t != [] && room > 0 && t[0] == '{' {
      MembersAreNested(t[1..], room - 1);
    }
  }

  lemma {:induction false} ElemsAreNested(s: string, room: nat)
    ensures ParseElems(s, room).Some? ==>
      forall i :: 0 <= i < |ParseElems(s, room).value.0| ==> NestedJson(ParseElems(s, room).value.0[i], room)
    decreases |s|, 2
  {
    ParsedIsNested(s, room);
    var p := ParseValue(s, room);
    if p.Some? {
      var u := SkipSpace(p.value.1);
      if u != [] && u[0] == ',' { ElemsAreNested(u[1..], room); }
    }
  }

  lemma {:induction false} MembersAreNested(s: string, room: nat)
    ensures ParseMembers(s, room).Some? ==>
      forall i :: 0 <= i < |ParseMembers(s, room).value.0| ==>
        NestedJson(ParseMembers(s, room).value.0[i].value, room)
    decreases |s|, 2
  {
    MemberIsNested(s, room);
    var p := ParseMember(s, room);
    if p.Some? {
      var u := SkipSpace(p.value.1);
      if u != [] && u[0] == ',' { MembersAreNested(u[1..], room); }
    }
  }

  lemma {:induction false} MemberIsNested(s: string, room: nat)
    ensures ParseMember(s, room).Some? ==> NestedJson(ParseMember(s, room).value.0.value, room)
    decreases |s|, 0
  {
    var t := SkipSpace(s);
    if t != [] && t[0] == '\"' && Unquote(t[1..]).Some? {
      var c := SkipSpace(Unquote(t[1..]).value.1);
      if c != [] && c[0] == ':' { ParsedIsNested(c[1..], room); }
    }
  }

  /** More room never changes what is parsed. */
  lemma {:induction false} RoomMonotone(s: string, room: nat, more: nat)
    requires room <= more && ParseValue(s, room).Some?
    ensures ParseValue(s, more) == ParseValue(s, room)
    decreases |s|, 1
  {
    var t := SkipSpace(s);
    if t[0] == '[' {
      var u := SkipSpace(t[1..]);
      if !(u != [] && u[0] == ']') { ElemsRoomMonotone(t[1..], room - 1, more - 1); }
    } else if t[0] == '{' {
      var u := SkipSpace(t[1..]);
      if !(u != [] && u[0] == '}') { MembersRoomMonotone(t[1..], room - 1, more - 1); }
    }
  }

  lemma {:induction false} ElemsRoomMonotone(s: string, room: nat, more: nat)
    requires room <= more && ParseElems(s, room).Some?
    ensures ParseElems(s, more) == ParseElems(s, room)
    decreases |s|, 2
  {
    RoomMonotone(s, room, more);
    var u := SkipSpace(ParseValue(s, room).value.1);
    if u != [] && u[0] == ',' { ElemsRoomMonotone(u[1..], room, more); }
  }

  lemma {:induction false} MembersRoomMonotone(s: string, room: nat, more: nat)
    requires room <= more && ParseMembers(s, room).Some?
    ensures ParseMembers(s, more) == ParseMembers(s, room)
    decreases |s|, 2
  {
    MemberRoomMonotone(s, room, more);
    var u := SkipSpace(ParseMember(s, room).value.1);
    if u != [] && u[0] == ',' { MembersRoomMonotone(u[1..], room, more); }
  }

  lemma {:induction false} MemberRoomMonotone(s: string, room: nat, more: nat)
    requires room <= more && ParseMember(s, room).Some?
    ensures ParseMember(s, more) == ParseMember(s, room)
    decreases |s|, 0
  {
    var t := SkipSpace(s);
    var c := SkipSpace(Unquote(t[1..]).value.1);
    RoomMonotone(c[1..], room, more);
  }
}
