/** The length-prefixed byte stream of internal/worker/frame.go. */
module Streams {
  import opened Text
  import opened Wire

  const MAX_UINT32: nat := 0xFFFF_FFFF

  /** A uint32 bound. */
  type Cap = n: nat | n <= MAX_UINT32

  /** binary.BigEndian.PutUint32. */
  function Prefix(n: Cap): (r: Bytes)
    ensures |r| == 4
  {
    [n / 0x100_0000, n / 0x1_0000 % 0x100, n / 0x100 % 0x100, n % 0x100]
  }

  function BigEndian(a: int, b: int, c: int, d: int): int { ((a * 0x100 + b) * 0x100 + c) * 0x100 + d }

  /** binary.BigEndian.Uint32. */
  function PrefixValue(b: Bytes): Cap
    requires |b| == 4
  {
    BigEndian(b[0], b[1], b[2], b[3])
  }

  lemma PrefixRoundTrip(n: Cap)
    ensures PrefixValue(Prefix(n)) == n
  {
    var hi := n / 0x1_0000;
    assert n / 0x100_0000 == hi / 0x100 && n / 0x100 / 0x100 == hi;
  }

  function Framed(payload: Bytes): Bytes
    requires |payload| <= MAX_UINT32
  {
    Prefix(|payload|) + payload
  }

  /** Why writeFrame refuses a payload before touching the stream. */
  function Oversized(payload: Bytes, bound: Cap): Option<WireError> {
    if payload == [] then Some(EmptyPayload)
    else if |payload| > bound then Some(FrameTooLarge)
    else None
  }

  /** readFrame on the bytes that will ever arrive: the payload and the rest of the stream. */
  function ReadFrame(stream: Bytes, bound: Cap): Result<(Bytes, Bytes)> {
    if |stream| < 4 then Failure(TruncatedFrame)
    else
      var length := PrefixValue(stream[..4]);
      if length == 0 then Failure(EmptyPayload)
      else if length > bound then Failure(FrameTooLarge)
      else if |stream| < 4 + length then Failure(TruncatedFrame)
      else Success((stream[4..4 + length], stream[4 + length..]))
  }

  /** A frame is read exactly under the bounds it may be written under. */
  lemma FrameReadBack(payload: Bytes, rest: Bytes, bound: Cap)
    requires payload != [] && |payload| <= MAX_UINT32
    ensures ReadFrame(Framed(payload) + rest, bound) ==
            if |payload| <= bound then Success((payload, rest)) else Failure(FrameTooLarge)
  {
    var stream := Framed(payload) + rest;
    assert stream[..4] == Prefix(|payload|);
    PrefixRoundTrip(|payload|);
    assert stream[4..4 + |payload|] == payload && stream[4 + |payload|..] == rest;
  }

  /** A stream cut short inside a frame reads as truncated, never as another frame. */
  lemma CutFrame(payload: Bytes, n: nat, bound: Cap)
    requires payload != [] && |payload| <= bound && n < 4 + |payload|
    ensures ReadFrame(Framed(payload)[..n], bound) == Failure(TruncatedFrame)
  {
    PrefixRoundTrip(|payload|);
    var cut := Framed(payload)[..n];
    if n >= 4 { assert cut[..4] == Prefix(|payload|); }
  }

  // ----- whole streams -----

  ghost predicate Sendable(payloads: seq<Bytes>, bounds: seq<Cap>) {
    |payloads| == |bounds| && forall i :: 0 <= i < |payloads| ==> Oversized(payloads[i], bounds[i]).None?
  }

  ghost function Sent(payloads: seq<Bytes>): Bytes
    requires forall i :: 0 <= i < |payloads| ==> |payloads[i]| <= MAX_UINT32
  {
    if payloads == [] then [] else Framed(payloads[0]) + Sent(payloads[1..])
  }

  /** Reading one frame per bound; the unread rest comes last. */
  ghost function ReadAll(stream: Bytes, bounds: seq<Cap>): Result<(seq<Bytes>, Bytes)> {
    if bounds == [] then Success(([], stream))
    else match ReadFrame(stream, bounds[0])
      case Failure(e) => Failure(e)
      case Success(first) =>
        match ReadAll(first.1, bounds[1..])
        case Failure(e) => Failure(e)
        case Success(others) => Success(([first.0] + others.0, others.1))
  }

  lemma SendableTail(payloads: seq<Bytes>, bounds: seq<Cap>)
    requires Sendable(payloads, bounds) && payloads != []
    ensures Sendable(payloads[1..], bounds[1..]) && Oversized(payloads[0], bounds[0]).None?
    ensures forall i :: 0 <= i < |payloads| ==> |payloads[i]| <= MAX_UINT32
  {}

  lemma SentSplits(payloads: seq<Bytes>, rest: Bytes)
    requires payloads != [] && forall i :: 0 <= i < |payloads| ==> |payloads[i]| <= MAX_UINT32
    ensures Sent(payloads) + rest == Framed(payloads[0]) + (Sent(payloads[1..]) + rest)
  {}

  lemma ReadAllMore(stream: Bytes, bounds: seq<Cap>, first: Bytes, rest: Bytes, others: seq<Bytes>, end: Bytes)
    requires bounds != [] && ReadFrame(stream, bounds[0]) == Success((first, rest))
    requires ReadAll(rest, bounds[1..]) == Success((others, end))
    ensures ReadAll(stream, bounds) == Success(([first] + others, end))
  {}

  /** Any sequence of written frames reads back identically, whatever follows it. */
  lemma {:induction false} StreamReadBack(payloads: seq<Bytes>, bounds: seq<Cap>, rest: Bytes)
    requires Sendable(payloads, bounds)
    ensures ReadAll(Sent(payloads) + rest, bounds) == Success((payloads, rest))
  {
    if payloads == [] {
      assert Sent(payloads) + rest == rest;
    } else {
      SendableTail(payloads, bounds);
      var others := Sent(payloads[1..]) + rest;
      SentSplits(payloads, rest);
      FrameReadBack(payloads[0], others, bounds[0]);
      StreamReadBack(payloads[1..], bounds[1..], rest);
      ReadAllMore(Sent(payloads) + rest, bounds, payloads[0], others, payloads[1..], rest);
      assert payloads == [payloads[0]] + payloads[1..];
    }
  }

  /** One direction of a pipe: bytes written and not yet read, and whether the writer is gone. */
  class Pipe {
    var bytes: Bytes
    var broken: bool

    constructor ()
      ensures bytes == [] && !broken
    {
      bytes, broken := [], false;
    }

    /** writeFrame. */
    method WriteFrame(payload: Bytes, bound: Cap) returns (err: Option<WireError>)
      modifies this
      ensures broken == old(broken)
      ensures Oversized(payload, bound).Some? ==> err == Oversized(payload, bound)
      ensures Oversized(payload, bound).None? ==> err == if broken then Some(BrokenPipe) else None
      ensures err.Some? ==> bytes == old(bytes)
      ensures err.None? ==> bytes == old(bytes) + Framed(payload)
    {
      if |payload| == 0 { return Some(EmptyPayload); }
      if |payload| > bound { return Some(FrameTooLarge); }
      if broken { return Some(BrokenPipe); }
      bytes := bytes + Prefix(|payload|);
      bytes := bytes + payload;
      assert bytes == old(bytes) + Framed(payload);
      return None;
    }

    /** readFrame, once the whole frame or the end of the stream has arrived. A failed read
        leaves the stream at an unspecified place; nothing reads it again. */
    method ReadNext(bound: Cap) returns (r: Result<Bytes>)
      modifies this
      ensures broken == old(broken)
      ensures match ReadFrame(old(bytes), bound)
              case Failure(e) => r == Failure(e)
              case Success(p) => r == Success(p.0) && bytes == p.1
    {
      if |bytes| < 4 { return Failure(TruncatedFrame); }
      var length := PrefixValue(bytes[..4]);
      if length == 0 { return Failure(EmptyPayload); }
      if length > bound { return Failure(FrameTooLarge); }
      if |bytes| < 4 + length { return Failure(TruncatedFrame); }
      var payload := bytes[4..4 + length];
      bytes := bytes[4 + length..];
      return Success(payload);
    }
  }
}
