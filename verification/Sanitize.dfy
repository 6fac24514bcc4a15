/** sanitizeAgentMessage of errors.go: any handler message becomes a short printable detail
    that the abort frame carries unchanged. */
module Sanitize {
  import opened Text
  import opened Wire
  import opened Codec
  import opened Frames

  /** "..." */
  const ELLIPSIS: Bytes := [0x2E, 0x2E, 0x2E]

  function Shown(printable: char -> bool, c: char): char { if printable(c) then c else ' ' }

  function Mapped(printable: char -> bool, s: string): (r: string)
    ensures |r| == |s|
  {
    seq(|s|, i requires 0 <= i < |s| => Shown(printable, s[i]))
  }

  /** utf8.RuneStart. */
  predicate RuneStart(b: Byte) { !Continuation(b) }

  /** What the message must become: all of it where it fits in 256 bytes, otherwise its longest
      prefix of whole runes within 253 bytes, followed by three dots. */
  ghost predicate IsSanitized(printable: char -> bool, message: Bytes, r: Bytes) {
    var shown := Mapped(printable, Runes(message));
    if |Utf8(shown)| <= MAX_AGENT_ERROR_BYTES then r == Utf8(shown)
    else exists n: nat :: LongestWithin(shown, n, MAX_AGENT_ERROR_BYTES - |ELLIPSIS|)
           && r == Utf8(shown[..n]) + ELLIPSIS
  }

  ghost predicate LongestWithin(s: string, n: nat, bound: nat) {
    n <= |s| && |Utf8(s[..n])| <= bound && forall k :: n < k <= |s| ==> |Utf8(s[..k])| > bound
  }

  lemma Utf8More(s: string, n: nat)
    requires n < |s|
    ensures Utf8(s[..n + 1]) == Utf8(s[..n]) + EncodeChar(s[n])
  {
    Utf8Concat(s[..n], [s[n]]);
    assert s[..n + 1] == s[..n] + [s[n]];
    assert EncodeChar(s[n]) + [] == EncodeChar(s[n]);
  }

  lemma {:induction false} Utf8Grows(s: string, n: nat, k: nat)
    requires n <= k <= |s|
    ensures Utf8(s[..n]) <= Utf8(s[..k]) && |Utf8(s[..n])| + (k - n) <= |Utf8(s[..k])|
    decreases k
  {
    if n < k {
      Utf8Grows(s, n, k - 1);
      Utf8More(s, k - 1);
    }
  }

  ghost predicate Boundary(s: string, at: nat) { exists n: nat :: n <= |s| && |Utf8(s[..n])| == at }

  /** The bytes of one rune: a start, then continuations. */
  lemma EncodedStart(c: char, i: nat)
    requires i < |EncodeChar(c)|
    ensures RuneStart(EncodeChar(c)[i]) <==> i == 0
  {
    var n := c as int;
    assert n / 64 / 64 / 64 <= 4;
  }

  /** A position in encoded text is a rune boundary exactly at the end or at a start byte. */
  lemma {:induction false} BoundaryMeans(s: string, at: nat)
    requires at <= |Utf8(s)|
    ensures Boundary(s, at) <==> at == |Utf8(s)| || RuneStart(Utf8(s)[at])
  {
    assert s[..|s|] == s;
    if s == "" {
      assert Boundary(s, 0);
    } else {
      var m := |s| - 1;
      var front, last := s[..m], EncodeChar(s[m]);
      Utf8More(s, m);
      if at < |Utf8(front)| {
        BoundaryMeans(front, at);
        PrefixBoundary(s, m, at);
        assert Utf8(s)[at] == Utf8(front)[at];
      } else {
        var i := at - |Utf8(front)|;
        if i < |last| {
          EncodedStart(s[m], i);
          assert Utf8(s)[at] == last[i];
        }
        LastBoundary(s, at);
      }
    }
  }

  lemma PrefixBoundary(s: string, m: nat, at: nat)
    requires m <= |s| && at < |Utf8(s[..m])|
    ensures Boundary(s, at) <==> Boundary(s[..m], at)
  {
    if Boundary(s, at) {
      var n: nat :| n <= |s| && |Utf8(s[..n])| == at;
      if n > m { Utf8Grows(s, m, n); }
      assert s[..m][..n] == s[..n];
    }
    if Boundary(s[..m], at) {
      var n: nat :| n <= m && |Utf8(s[..m][..n])| == at;
      assert s[..m][..n] == s[..n];
    }
  }

  lemma LastBoundary(s: string, at: nat)
    requires s != "" && |Utf8(s[..|s| - 1])| <= at <= |Utf8(s)|
    ensures Boundary(s, at) <==> at == |Utf8(s[..|s| - 1])| || at == |Utf8(s)|
  {
    assert s[..|s|] == s;
    if Boundary(s, at) {
      var n: nat :| n <= |s| && |Utf8(s[..n])| == at;
      if n < |s| - 1 { Utf8Grows(s, n, |s| - 1); }
    }
  }

  /** The walk back: the last rune boundary within the bound. */
  method LastStart(ghost s: string, output: Bytes, bound: nat) returns (end: nat)
    requires output == Utf8(s) && bound <= |output|
    ensures end <= bound && Boundary(s, end) && forall e :: end < e <= bound ==> !Boundary(s, e)
  {
    end := bound;
    while end < |output| && !RuneStart(output[end])
      invariant end <= bound && forall e :: end < e <= bound ==> !Boundary(s, e)
      decreases end
    {
      BoundaryMeans(s, end);
      StartsWithStart(s, end);
      end := end - 1;
    }
    BoundaryMeans(s, end);
  }

  lemma StartsWithStart(s: string, at: nat)
    requires at < |Utf8(s)| && !RuneStart(Utf8(s)[at])
    ensures at > 0
  {
    if at == 0 { EncodedStart(s[0], 0); }
  }

  /** What stops at an overflow is the longest prefix that leaves room for the dots. */
  lemma Longest(s: string, n: nat, end: nat)
    requires n < |s| && |Utf8(s[..n])| <= MAX_AGENT_ERROR_BYTES < |Utf8(s[..n + 1])|
    requires end <= MAX_AGENT_ERROR_BYTES - |ELLIPSIS| && Boundary(s[..n], end)
    requires forall e :: end < e <= MAX_AGENT_ERROR_BYTES - |ELLIPSIS| ==> !Boundary(s[..n], e)
    ensures end <= |Utf8(s[..n])|
    ensures exists k: nat :: LongestWithin(s, k, MAX_AGENT_ERROR_BYTES - |ELLIPSIS|)
              && Utf8(s[..n])[..end] == Utf8(s[..k])
  {
    var k: nat :| k <= n && |Utf8(s[..n][..k])| == end;
    assert s[..n][..k] == s[..k];
    Utf8Grows(s, k, n);
    forall j | k < j <= |s| ensures |Utf8(s[..j])| > MAX_AGENT_ERROR_BYTES - |ELLIPSIS| {
      Utf8Grows(s, k, j);
      if j <= n {
        assert s[..n][..j] == s[..j];
        assert Boundary(s[..n], |Utf8(s[..j])|);
      } else {
        Utf8Grows(s, n + 1, j);
      }
    }
  }

  /** sanitizeAgentMessage. */
  method SanitizeAgentMessage(printable: char -> bool, message: Bytes) returns (r: Bytes)
    ensures IsSanitized(printable, message, r)
  {
    var runes := Runes(message);
    ghost var shown := Mapped(printable, runes);
    var output: Bytes := [];
    for n := 0 to |runes|
      invariant output == Utf8(shown[..n]) && |output| <= MAX_AGENT_ERROR_BYTES
    {
      var shownRune := if printable(runes[n]) then runes[n] else ' ';
      Utf8More(shown, n);
      if |output| + |EncodeChar(shownRune)| > MAX_AGENT_ERROR_BYTES {
        var end := LastStart(shown[..n], output, MAX_AGENT_ERROR_BYTES - |ELLIPSIS|);
        Longest(shown, n, end);
        Utf8Grows(shown, n + 1, |runes|);
        assert shown[..|runes|] == shown;
        return output[..end] + ELLIPSIS;
      }
      output := output + EncodeChar(shownRune);
    }
    assert shown[..|runes|] == shown;
    return output;
  }

  // ----- what a sanitized message guarantees -----

  lemma SanitizedUnique(printable: char -> bool, message: Bytes, a: Bytes, b: Bytes)
    requires IsSanitized(printable, message, a) && IsSanitized(printable, message, b)
    ensures a == b
  {
    var shown := Mapped(printable, Runes(message));
    if |Utf8(shown)| > MAX_AGENT_ERROR_BYTES {
      var room := MAX_AGENT_ERROR_BYTES - |ELLIPSIS|;
      var n: nat :| LongestWithin(shown, n, room) && a == Utf8(shown[..n]) + ELLIPSIS;
      var m: nat :| LongestWithin(shown, m, room) && b == Utf8(shown[..m]) + ELLIPSIS;
      assert n == m;
    }
  }

  lemma Dots()
    ensures Utf8(['.', '.', '.']) == ELLIPSIS
  {
    var dots := ['.', '.', '.'];
    assert EncodeChar('.') == [0x2E];
    assert dots[1..] == ['.', '.'] && dots[1..][1..] == ['.'] && dots[1..][1..][1..] == [];
  }

  /** The result as text: printable runes, whole ones only. */
  lemma SanitizedText(printable: char -> bool, message: Bytes, r: Bytes) returns (s: string)
    requires printable(' ') && printable('.') && IsSanitized(printable, message, r)
    ensures r == Utf8(s) && |r| <= MAX_AGENT_ERROR_BYTES && AllPrint(printable, s)
  {
    var shown := Mapped(printable, Runes(message));
    s := shown;
    if |Utf8(shown)| > MAX_AGENT_ERROR_BYTES {
      var n: nat :| LongestWithin(shown, n, MAX_AGENT_ERROR_BYTES - |ELLIPSIS|) && r == Utf8(shown[..n]) + ELLIPSIS;
      s := shown[..n] + ['.', '.', '.'];
      Utf8Concat(shown[..n], ['.', '.', '.']);
      Dots();
    }
  }

  /** At most 256 bytes of valid, printable UTF-8. */
  lemma SanitizedIsPrintable(printable: char -> bool, message: Bytes, r: Bytes)
    requires printable(' ') && printable('.') && IsSanitized(printable, message, r)
    ensures |r| <= MAX_AGENT_ERROR_BYTES && ValidUtf8(r) && AllPrint(printable, Runes(r))
  {
    var s := SanitizedText(printable, message, r);
    RunesOfUtf8(s);
  }

  /** Sanitizing twice is sanitizing once. */
  lemma SanitizeIdempotent(printable: char -> bool, message: Bytes, r: Bytes, again: Bytes)
    requires printable(' ') && printable('.') && IsSanitized(printable, message, r) && IsSanitized(printable, r, again)
    ensures again == r
  {
    SanitizedIsPrintable(printable, message, r);
    assert Mapped(printable, Runes(r)) == Runes(r);
    Utf8OfRunes(r);
  }

  /** A message that is already short, valid and printable is not changed, and no other is. */
  lemma UnchangedIff(printable: char -> bool, message: Bytes, r: Bytes)
    requires printable(' ') && printable('.') && IsSanitized(printable, message, r)
    ensures r == message <==> |message| <= MAX_AGENT_ERROR_BYTES && ValidUtf8(message)
                              && AllPrint(printable, Runes(message))
  {
    SanitizedIsPrintable(printable, message, r);
    if |message| <= MAX_AGENT_ERROR_BYTES && ValidUtf8(message) && AllPrint(printable, Runes(message)) {
      assert Mapped(printable, Runes(message)) == Runes(message);
      Utf8OfRunes(message);
    }
  }

  /** The parent keeps every sanitized message in its abort frame, and the child decodes exactly
      that message. */
  lemma AbortCarriesMessage(lib: FloatLib, printable: char -> bool, message: Bytes, r: Bytes)
    requires Faithful(lib) && printable(' ') && printable('.') && IsSanitized(printable, message, r)
    ensures KeptAbortDetail(printable, r) == r
    ensures DecodePayload(lib, printable, Payload(lib, printable, NativeAbort(r))) == Success(NativeAbort(r))
  {
    SanitizedIsPrintable(printable, message, r);
    FrameRoundTrip(lib, printable, NativeAbort(r));
  }
}
