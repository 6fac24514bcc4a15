/** The two connection state machines of internal/worker/frame.go. Each method is proved
    against a transition function on the connection's abstract state; the protocol proofs
    build on the functions. */
module Conn {
  import opened Text
  import opened Values
  import opened Wire
  import opened Json
  import opened Codec
  import opened Converter
  import opened Encoder
  import opened Frames
  import opened Streams
  import opened Caps

  datatype ConnKind = ProbeConn | ExecConn

  datatype ConnState = Init | AwaitPeer | Ready | AwaitNative | Finished

  /** parentConn without its streams; limits is None until exec was written. */
  datatype Parent = Parent(kind: ConnKind, state: ConnState, nativeCalls: nat, maxNativeCalls: nat,
                           limits: Option<ChildLimits>, remainingIntermediate: int)

  /** childConn without its streams. */
  datatype Child = Child(kind: ConnKind, state: ConnState, nativeCalls: nat, limits: Option<ChildLimits>)

  /** What a write method does before the stream is touched: it refuses, or it sends one
      frame and moves on to `next` if the stream takes the frame. */
  datatype Attempt<+S> = Refuse(error: WireError) | Send(frame: Frame, next: S)

  // ----- bounded values -----

  ghost predicate Bounded(lib: FloatLib, v: Value, l: ChildLimits) {
    Supported(v) && WithinDepth(v, l.maxValueDepth) && |Body(lib, v)| <= l.maxValueBytes
  }

  /** What encodeBoundedValue reports on a value that is not bounded. */
  ghost function BoundError(v: Value, l: ChildLimits): WireError {
    if Accepted(v, l.maxValueDepth, l.maxValueBytes) then FrameTooLarge else InvalidValue
  }

  /** encodeBoundedValue as the transitions see it: the size of the body, or the error. */
  ghost function EncodedSize(lib: FloatLib, v: Value, l: ChildLimits): Result<nat> {
    if Bounded(lib, v, l) then Success(|Body(lib, v)|) else Failure(BoundError(v, l))
  }

  type Sizes = (Value, ChildLimits) -> Result<nat>

  ghost function SizesOf(lib: FloatLib): Sizes { (v: Value, l: ChildLimits) => EncodedSize(lib, v, l) }

  // ----- the parent's transitions -----

  function ParentWriteResult(sizes: Sizes, p: Parent, v: Value): Attempt<Parent> {
    if p.kind != ExecConn || p.state != AwaitNative || p.limits.None? then Refuse(IllegalState)
    else match sizes(v, p.limits.value)
      case Failure(e) => Refuse(e)
      case Success(n) =>
        if n > p.remainingIntermediate then Refuse(FrameTooLarge)
        else Send(NativeResult(v), p.(state := Ready, remainingIntermediate := p.remainingIntermediate - n))
  }

  function ParentWriteAbort(p: Parent, detail: Bytes): Attempt<Parent> {
    if p.kind != ExecConn || p.state != AwaitNative then Refuse(IllegalState)
    else Send(NativeAbort(detail), p.(state := Finished))
  }

  function ParentAccept(sizes: Sizes, p: Parent, f: Frame): Result<Parent> {
    match f
    case ProbeAck =>
      if p.kind != ProbeConn || p.state != AwaitPeer then Failure(IllegalState) else Success(p.(state := Finished))
    case NativeCall(_, arguments) =>
      if p.kind != ExecConn || p.state != Ready || p.limits.None? then Failure(IllegalState)
      else if p.nativeCalls >= p.maxNativeCalls then Failure(IllegalState)
      else if sizes(arguments, p.limits.value).Failure? then Failure(sizes(arguments, p.limits.value).error)
      else Success(p.(nativeCalls := p.nativeCalls + 1, state := AwaitNative))
    case Final(result) =>
      if p.kind != ExecConn || p.state != Ready || p.limits.None? then Failure(IllegalState)
      else if sizes(result, p.limits.value).Failure? then Failure(sizes(result, p.limits.value).error)
      else Success(p.(state := Finished))
    case FinalError(_, _) =>
      if p.kind != ExecConn || p.state != Ready then Failure(IllegalState) else Success(p.(state := Finished))
    case _ => Failure(IllegalState)
  }

  // ----- the child's transitions -----

  function ChildWriteCall(sizes: Sizes, c: Child, id: Bytes, arguments: Option<map<Bytes, Value>>): Attempt<Child> {
    if c.kind != ExecConn || c.state != Ready || c.limits.None? then Refuse(IllegalState)
    else if c.nativeCalls >= c.limits.value.maxNativeCalls then Refuse(IllegalState)
    else if arguments.None? then Refuse(InvalidValue)
    else if sizes(Obj(arguments.value), c.limits.value).Failure?
           then Refuse(sizes(Obj(arguments.value), c.limits.value).error)
    else if id == [] then Refuse(InvalidValue)
    else Send(NativeCall(id, Obj(arguments.value)), c.(nativeCalls := c.nativeCalls + 1, state := AwaitNative))
  }

  function ChildWriteFinal(sizes: Sizes, c: Child, v: Value): Attempt<Child> {
    if c.kind != ExecConn || c.state != Ready || c.limits.None? then Refuse(IllegalState)
    else if sizes(v, c.limits.value).Failure? then Refuse(sizes(v, c.limits.value).error)
    else Send(Final(v), c.(state := Finished))
  }

  function ChildWriteFinalError(c: Child, code: Code, detail: Bytes): Attempt<Child> {
    if c.kind != ExecConn || c.state != Ready then Refuse(IllegalState)
    else Send(FinalError(code, detail), c.(state := Finished))
  }

  function ChildAccept(sizes: Sizes, c: Child, f: Frame): Result<Child> {
    match f
    case Probe =>
      if c.kind != ProbeConn || c.state != Init then Failure(IllegalState) else Success(c.(state := Ready))
    case NativeResult(result) =>
      if c.kind != ExecConn || c.state != AwaitNative || c.limits.None? then Failure(IllegalState)
      else if sizes(result, c.limits.value).Failure? then Failure(sizes(result, c.limits.value).error)
      else Success(c.(state := Ready))
    case NativeAbort(_) =>
      if c.kind != ExecConn || c.state != AwaitNative then Failure(IllegalState) else Success(c.(state := Finished))
    case _ => Failure(IllegalState)
  }

  predicate ParentReads(p: Parent) { p.state == AwaitPeer || p.state == Ready }

  // ----- payload bytes -----

  /** encodeNativeCallBytes. */
  function CallBytes(id: Bytes, encoded: Bytes): Bytes {
    Utf8(NATIVE_CALL_PREFIX) + Utf8(Quote(id)) + Utf8(NATIVE_CALL_MID) + encoded + Utf8("}")
  }

  /** encodeNativeResultBytes and encodeFinalBytes. */
  function ResultBytes(prefix: string, encoded: Bytes): Bytes { Utf8(prefix) + encoded + Utf8("}") }

  lemma CallBytesAre(lib: FloatLib, printable: char -> bool, id: Bytes, arguments: Value)
    ensures CallBytes(id, Body(lib, arguments)) == Payload(lib, printable, NativeCall(id, arguments))
  {
    CallText(lib, printable, id, arguments);
    FiveTexts(NATIVE_CALL_PREFIX, Quote(id), NATIVE_CALL_MID, Print(lib, arguments), "}");
  }

  lemma ResultBytesAre(lib: FloatLib, printable: char -> bool, f: Frame)
    requires f.NativeResult? || f.Final?
    ensures ResultBytes(if f.Final? then FINAL_PREFIX else NATIVE_RESULT_PREFIX, Body(lib, f.result))
            == Payload(lib, printable, f)
  {
    ResultText(lib, printable, f);
    ThreeTexts(if f.Final? then FINAL_PREFIX else NATIVE_RESULT_PREFIX, Print(lib, f.result), "}");
  }

  method EncodeCall(ghost lib: FloatLib, ghost printable: char -> bool, id: Bytes, ghost arguments: Value,
                    encoded: Bytes)
    returns (payload: Bytes)
    requires encoded == Body(lib, arguments)
    ensures payload == Payload(lib, printable, NativeCall(id, arguments))
  {
    payload := CallBytes(id, encoded);
    CallBytesAre(lib, printable, id, arguments);
  }

  method EncodeResult(ghost lib: FloatLib, ghost printable: char -> bool, ghost f: Frame, final: bool, encoded: Bytes)
    returns (payload: Bytes)
    requires (if final then f.Final? else f.NativeResult?) && encoded == Body(lib, f.result)
    ensures payload == Payload(lib, printable, f)
  {
    payload := ResultBytes(if final then FINAL_PREFIX else NATIVE_RESULT_PREFIX, encoded);
    ResultBytesAre(lib, printable, f);
  }

  lemma ThreeTexts(a: string, b: string, c: string)
    ensures Utf8(a + b + c) == Utf8(a) + Utf8(b) + Utf8(c)
  {
    Utf8Concat(a + b, c);
    Utf8Concat(a, b);
  }

  lemma FiveTexts(a: string, b: string, c: string, d: string, e: string)
    ensures Utf8(a + b + c + d + e) == Utf8(a) + Utf8(b) + Utf8(c) + Utf8(d) + Utf8(e)
  {
    ThreeTexts(a + b + c, d, e);
    ThreeTexts(a, b, c);
  }

  /** marshalFrame on native_abort and final_error. */
  function AbortBytes(kept: Bytes): Bytes {
    Utf8("{" + (if kept == [] then TypeWord(AbortKind)
                                   else TypeWord(AbortKind) + "," + (KeyText(DetailKey) + Quote(kept))) + "}")
  }

  function FinalErrorBytes(code: Code, kept: Bytes): Bytes {
    var word := KeyText(CodeKey) + ("\"" + CodeName(code) + "\"");
    Utf8("{" + (if kept == [] then TypeWord(FinalErrorKind) + "," + word
                else TypeWord(FinalErrorKind) + "," + (word + "," + (KeyText(DetailKey) + Quote(kept)))) + "}")
  }

  lemma AbortBytesAre(lib: FloatLib, printable: char -> bool, detail: Bytes)
    ensures AbortBytes(KeptAbortDetail(printable, detail)) == Payload(lib, printable, NativeAbort(detail))
  {
    TwoFieldsText(lib, AbortKind, Field(DetailKey, Quoted(KeptAbortDetail(printable, detail))));
    assert FieldsText(lib, [TypeField(AbortKind)]) == TypeWord(AbortKind);
  }

  lemma FinalErrorBytesAre(lib: FloatLib, printable: char -> bool, code: Code, detail: Bytes)
    ensures FinalErrorBytes(code, KeptErrorDetail(code, detail)) == Payload(lib, printable, FinalError(code, detail))
  {
    var b := Field(CodeKey, Word(CodeName(code)));
    TwoFieldsText(lib, FinalErrorKind, b);
    ThreeFieldsText(lib, FinalErrorKind, b, Field(DetailKey, Quoted(KeptErrorDetail(code, detail))));
  }

  // ----- the connections -----

  /** How a write method ends: the error, the abstract state and the bytes of the stream
      afterwards, given what the method attempts and the stream's bound. */
  ghost predicate Wrote<S>(lib: FloatLib, printable: char -> bool, attempt: Attempt<S>, before: S, after: S,
                           bound: Cap, broken: bool, bytesBefore: Bytes, bytesAfter: Bytes, err: Option<WireError>)
    requires attempt.Send? ==> !attempt.frame.Exec?
  {
    match attempt
    case Refuse(e) => err == Some(e) && after == before && bytesAfter == bytesBefore
    case Send(frame, next) =>
      var payload := Payload(lib, printable, frame);
      if Oversized(payload, bound).Some?
        then err == Oversized(payload, bound) && after == before && bytesAfter == bytesBefore
      else if broken then err == Some(BrokenPipe) && after == before && bytesAfter == bytesBefore
      else err == None && after == next && bytesAfter == bytesBefore + Framed(payload)
  }

  /** How a read method ends: the result, the abstract state and the bytes of the stream
      afterwards. Only acceptance changes the state. */
  ghost predicate Took<S>(lib: FloatLib, printable: char -> bool, accept: Frame -> Result<S>, before: S, after: S,
                          bound: Cap, bytesBefore: Bytes, bytesAfter: Bytes, r: Result<Frame>)
  {
    match ReadFrame(bytesBefore, bound)
    case Failure(e) => r == Failure(e) && after == before
    case Success(p) =>
      && bytesAfter == p.1
      && match DecodePayload(lib, printable, p.0)
         case Failure(e) => r == Failure(e) && after == before
         case Success(f) =>
           match accept(f)
           case Failure(e) => r == Failure(e) && after == before
           case Success(next) => r == Success(f) && after == next
  }

  ghost function ParentAccepts(lib: FloatLib, p: Parent): Frame -> Result<Parent> {
    (f: Frame) => ParentAccept(SizesOf(lib), p, f)
  }

  ghost function ChildAccepts(lib: FloatLib, c: Child): Frame -> Result<Child> {
    (f: Frame) => ChildAccept(SizesOf(lib), c, f)
  }

  /** When writeExec has nothing to refuse. */
  ghost predicate ExecFits(p: Parent, source: Bytes, l: ChildLimits, manifest: string) {
    && p.state == Init && p.kind == ExecConn && ValidLimits(l) && |source| <= l.maxSourceBytes
    && ExecBound(l.maxSourceBytes, manifest) <= MAX_UINT32
  }

  class ParentConn {
    const w: Pipe
    const r: Pipe
    const writeCap: Cap
    const readCap: Cap
    const kind: ConnKind
    var state: ConnState
    var nativeCalls: nat
    var maxNativeCalls: nat
    var limits: Option<ChildLimits>
    var remainingIntermediate: int

    /** newParentExecConn. */
    constructor (w: Pipe, r: Pipe, writeCap: Cap, readCap: Cap, intermediateBudget: int)
      requires w != r
      ensures this.w == w && this.r == r && this.writeCap == writeCap && this.readCap == readCap
      ensures State() == Parent(ExecConn, Init, 0, 0, None, intermediateBudget)
    {
      this.w, this.r, this.writeCap, this.readCap, kind := w, r, writeCap, readCap, ExecConn;
      state, nativeCalls, maxNativeCalls, limits, remainingIntermediate := Init, 0, 0, None, intermediateBudget;
    }

    function State(): Parent
      reads this
    {
      Parent(kind, state, nativeCalls, maxNativeCalls, limits, remainingIntermediate)
    }

    /** The first exec frame; the manifest arrives as its JSON text. */
    method WriteExec(source: Bytes, l: ChildLimits, manifest: string) returns (err: Option<WireError>)
      modifies this, w
      ensures w.broken == old(w.broken)
      ensures old(state) != Init || kind != ExecConn ==> err == Some(IllegalState)
      ensures old(state) == Init && kind == ExecConn && !ValidLimits(l) ==> err == Some(InvalidLimits)
      ensures err.Some? ==> State() == old(State()) && w.bytes == old(w.bytes)
      ensures err.None? ==> |Utf8(ExecText(source, l, manifest))| <= MAX_UINT32
      ensures err.None? ==> w.bytes == old(w.bytes) + Framed(Utf8(ExecText(source, l, manifest)))
      ensures err.None? ==> State() == old(State()).(state := Ready, maxNativeCalls := l.maxNativeCalls,
                                                     limits := Some(l))
      ensures ExecFits(old(State()), source, l, manifest) && !w.broken ==> err.None?
    {
      if kind != ExecConn || state != Init { return Some(IllegalState); }
      if !ValidLimits(l) { return Some(InvalidLimits); }
      var payload := Utf8(ExecText(source, l, manifest));
      var maxPayload := ExecPayloadCap(l.maxSourceBytes, manifest);
      if maxPayload.Failure? { return Some(maxPayload.error); }
      if |source| <= l.maxSourceBytes { ExecFrameFits(source, l, manifest); }
      err := w.WriteFrame(payload, maxPayload.value);
      if err.Some? { return; }
      limits, maxNativeCalls, state := Some(l), l.maxNativeCalls, Ready;
    }

    method WriteNativeResult(lib: FloatLib, ghost printable: char -> bool,
                             result: Value) returns (err: Option<WireError>)
      requires Faithful(lib)
      modifies this, w
      ensures w.broken == old(w.broken)
      ensures Wrote(lib, printable, ParentWriteResult(SizesOf(lib), old(State()), result), old(State()), State(),
                    writeCap, w.broken, old(w.bytes), w.bytes, err)
      ensures err.None? ==> |Payload(lib, printable, NativeResult(result))| <= MAX_UINT32
                            && w.bytes == old(w.bytes) + Framed(Payload(lib, printable, NativeResult(result)))
    {
      if kind != ExecConn || state != AwaitNative || limits.None? { return Some(IllegalState); }
      var encoded := EncodeBounded(lib, result, limits.value.maxValueDepth, limits.value.maxValueBytes);
      if encoded.Failure? { return Some(encoded.error); }
      if |encoded.value| > remainingIntermediate { return Some(FrameTooLarge); }
      var payload := EncodeResult(lib, printable, NativeResult(result), false, encoded.value);
      err := w.WriteFrame(payload, writeCap);
      if err.Some? { return; }
      remainingIntermediate := remainingIntermediate - |encoded.value|;
      state := Ready;
    }

    method WriteNativeAbort(ghost lib: FloatLib, printable: char -> bool,
                            detail: Bytes) returns (err: Option<WireError>)
      modifies this, w
      ensures w.broken == old(w.broken)
      ensures Wrote(lib, printable, ParentWriteAbort(old(State()), detail), old(State()), State(),
                    writeCap, w.broken, old(w.bytes), w.bytes, err)
      ensures err.None? ==> |Payload(lib, printable, NativeAbort(detail))| <= MAX_UINT32
                            && w.bytes == old(w.bytes) + Framed(Payload(lib, printable, NativeAbort(detail)))
    {
      if kind != ExecConn || state != AwaitNative { return Some(IllegalState); }
      AbortBytesAre(lib, printable, detail);
      err := w.WriteFrame(AbortBytes(KeptAbortDetail(printable, detail)), writeCap);
      if err.Some? { return; }
      state := Finished;
    }

    /** Reads, decodes and accepts the next child frame; only acceptance changes the state. */
    method Read(lib: FloatLib, printable: char -> bool) returns (r: Result<Frame>)
      requires Faithful(lib)
      modifies this, this.r
      ensures this.r.broken == old(this.r.broken)
      ensures !ParentReads(old(State())) ==> r == Failure(IllegalState) && this.r.bytes == old(this.r.bytes)
      ensures ParentReads(old(State())) ==>
        Took(lib, printable, ParentAccepts(lib, old(State())), old(State()), State(),
             readCap, old(this.r.bytes), this.r.bytes, r)
      ensures r.Failure? ==> State() == old(State())
    {
      if state != AwaitPeer && state != Ready { return Failure(IllegalState); }
      var payload := this.r.ReadNext(readCap);
      if payload.Failure? { return Failure(payload.error); }
      var frame := DecodePayload(lib, printable, payload.value);
      if frame.Failure? { return Failure(frame.error); }
      r := Accept(lib, frame.value);
    }

    /** acceptProbeAck, acceptNativeCall, acceptFinal and acceptFinalError. */
    method Accept(lib: FloatLib, f: Frame) returns (r: Result<Frame>)
      requires Faithful(lib)
      modifies this
      ensures match ParentAccept(SizesOf(lib), old(State()), f)
              case Failure(e) => r == Failure(e) && State() == old(State())
              case Success(next) => r == Success(f) && State() == next
    {
      match f
      case ProbeAck =>
        if kind != ProbeConn || state != AwaitPeer { return Failure(IllegalState); }
        state := Finished;
        return Success(f);
      case NativeCall(_, arguments) =>
        if kind != ExecConn || state != Ready || limits.None? { return Failure(IllegalState); }
        if nativeCalls >= maxNativeCalls { return Failure(IllegalState); }
        var bounded := EncodeBounded(lib, arguments, limits.value.maxValueDepth, limits.value.maxValueBytes);
        if bounded.Failure? { return Failure(bounded.error); }
        nativeCalls, state := nativeCalls + 1, AwaitNative;
        return Success(f);
      case Final(result) =>
        if kind != ExecConn || state != Ready || limits.None? { return Failure(IllegalState); }
        var bounded := EncodeBounded(lib, result, limits.value.maxValueDepth, limits.value.maxValueBytes);
        if bounded.Failure? { return Failure(bounded.error); }
        state := Finished;
        return Success(f);
      case FinalError(_, _) =>
        if kind != ExecConn || state != Ready { return Failure(IllegalState); }
        state := Finished;
        return Success(f);
      case _ => return Failure(IllegalState);
    }
  }

  class ChildConn {
    const r: Pipe
    const w: Pipe
    const parentReadCap: Cap
    const writeCap: Cap
    const limits: ChildLimits
    var state: ConnState
    var nativeCalls: nat

    /** The connection serveExec builds once the exec frame is decoded. */
    constructor (r: Pipe, w: Pipe, parentReadCap: Cap, writeCap: Cap, l: ChildLimits)
      requires w != r
      ensures this.w == w && this.r == r && this.parentReadCap == parentReadCap && this.writeCap == writeCap
      ensures State() == Child(ExecConn, Ready, 0, Some(l))
    {
      this.r, this.w, this.parentReadCap, this.writeCap, limits := r, w, parentReadCap, writeCap, l;
      state, nativeCalls := Ready, 0;
    }

    function State(): Child
      reads this
    {
      Child(ExecConn, state, nativeCalls, Some(limits))
    }

    method WriteNativeCall(lib: FloatLib, ghost printable: char -> bool, id: Bytes, arguments: Option<map<Bytes,
                           Value>>)
      returns (err: Option<WireError>)
      requires Faithful(lib)
      modifies this, w
      ensures w.broken == old(w.broken)
      ensures Wrote(lib, printable, ChildWriteCall(SizesOf(lib), old(State()), id, arguments), old(State()), State(),
                    writeCap, w.broken, old(w.bytes), w.bytes, err)
      ensures err.None? ==> arguments.Some?
                            && |Payload(lib, printable, NativeCall(id, Obj(arguments.value)))| <= MAX_UINT32
                            && w.bytes == old(w.bytes)
                                          + Framed(Payload(lib, printable, NativeCall(id, Obj(arguments.value))))
    {
      if state != Ready { return Some(IllegalState); }
      if nativeCalls >= limits.maxNativeCalls { return Some(IllegalState); }
      if arguments.None? { return Some(InvalidValue); }
      var encoded := EncodeBounded(lib, Obj(arguments.value), limits.maxValueDepth, limits.maxValueBytes);
      if encoded.Failure? { return Some(encoded.error); }
      if id == [] { return Some(InvalidValue); }
      var payload := EncodeCall(lib, printable, id, Obj(arguments.value), encoded.value);
      err := w.WriteFrame(payload, writeCap);
      if err.Some? { return; }
      nativeCalls, state := nativeCalls + 1, AwaitNative;
    }

    method WriteFinal(lib: FloatLib, ghost printable: char -> bool, result: Value) returns (err: Option<WireError>)
      requires Faithful(lib)
      modifies this, w
      ensures w.broken == old(w.broken)
      ensures Wrote(lib, printable, ChildWriteFinal(SizesOf(lib), old(State()), result), old(State()), State(),
                    writeCap, w.broken, old(w.bytes), w.bytes, err)
      ensures err.None? ==> |Payload(lib, printable, Final(result))| <= MAX_UINT32
                            && w.bytes == old(w.bytes) + Framed(Payload(lib, printable, Final(result)))
    {
      if state != Ready { return Some(IllegalState); }
      var encoded := EncodeBounded(lib, result, limits.maxValueDepth, limits.maxValueBytes);
      if encoded.Failure? { return Some(encoded.error); }
      var payload := EncodeResult(lib, printable, Final(result), true, encoded.value);
      err := w.WriteFrame(payload, writeCap);
      if err.Some? { return; }
      state := Finished;
    }

    method WriteFinalError(ghost lib: FloatLib, ghost printable: char -> bool, code: Code,
                           detail: Bytes) returns (err: Option<WireError>)
      modifies this, w
      ensures w.broken == old(w.broken)
      ensures Wrote(lib, printable, ChildWriteFinalError(old(State()), code, detail), old(State()), State(),
                    writeCap, w.broken, old(w.bytes), w.bytes, err)
      ensures err.None? ==> |Payload(lib, printable, FinalError(code, detail))| <= MAX_UINT32
                            && w.bytes == old(w.bytes) + Framed(Payload(lib, printable, FinalError(code, detail)))
    {
      if state != Ready { return Some(IllegalState); }
      FinalErrorBytesAre(lib, printable, code, detail);
      err := w.WriteFrame(FinalErrorBytes(code, KeptErrorDetail(code, detail)), writeCap);
      if err.Some? { return; }
      state := Finished;
    }

    /** Reads, decodes and accepts the next parent frame; a failed read changes no state. */
    method Read(lib: FloatLib, printable: char -> bool) returns (r: Result<Frame>)
      requires Faithful(lib)
      modifies this, this.r
      ensures this.r.broken == old(this.r.broken)
      ensures old(state) != AwaitNative ==> r == Failure(IllegalState) && this.r.bytes == old(this.r.bytes)
      ensures old(state) == AwaitNative ==>
        Took(lib, printable, ChildAccepts(lib, old(State())), old(State()), State(),
             parentReadCap, old(this.r.bytes), this.r.bytes, r)
      ensures r.Failure? ==> State() == old(State())
    {
      if state != AwaitNative { return Failure(IllegalState); }
      var payload := this.r.ReadNext(parentReadCap);
      if payload.Failure? { return Failure(payload.error); }
      var frame := DecodePayload(lib, printable, payload.value);
      if frame.Failure? { return Failure(frame.error); }
      match frame.value
      case NativeResult(result) =>
        var bounded := EncodeBounded(lib, result, limits.maxValueDepth, limits.maxValueBytes);
        if bounded.Failure? { return Failure(bounded.error); }
        state := Ready;
        return frame;
      case NativeAbort(_) =>
        state := Finished;
        return frame;
      case _ => return Failure(IllegalState);
    }
  }
}
