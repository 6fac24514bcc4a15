/** One execution as a step system: an honest parent (runExecExchange, handleNative), an
    honest child (serveExec, nativeForwarder, callCapability), two FIFO streams, and a host
    that may cancel or a child that may die at any time. */
module Protocol {
  import opened Text
  import opened Values
  import opened Wire
  import opened Codec
  import opened Converter
  import opened Frames
  import opened Streams
  import opened Caps
  import opened Conn
  import opened Moves

  /** What binding one call's Starlark arguments yields. */
  datatype Binding = BindFails | Bound(arguments: map<Bytes, Value>)

  datatype DispatchResult = DispatchOk(value: Value) | DispatchErr(error: ExecError, detail: Bytes) | DispatchProtocol

  datatype ProgramEnd = EndValue(value: Value) | EndError(code: Code, detail: Bytes)

  datatype Event =
    | BeginMain
    | Call(id: Bytes, binding: Binding)
    | ChildReceive(convertible: bool)
    | ChildReadEof
    | ProgramEnds(end: ProgramEnd)
    | ChildDies
    | ParentReceive
    | ParentReadEof
    | DispatchDone(result: DispatchResult)
    | ParentEof
    | CancelWhileDispatching(error: ExecError)
    | Cancel
    | FinishSession

  /** A write method on a stream: the state afterwards, the frame that entered the stream,
      and the error, as the connection classes' contracts have it. */
  datatype Written<+S> = Written(next: S, frame: Option<Frame>, err: Option<WireError>)

  ghost function Write<S>(s: Setup, attempt: Attempt<S>, before: S, bound: nat, broken: bool): Written<S>
  {
    match attempt
    case Refuse(e) => Written(before, None, Some(e))
    case Send(frame, next) =>
      if s.refuse(frame, bound).Some? then Written(before, None, s.refuse(frame, bound))
      else if broken then Written(before, None, Some(BrokenPipe))
      else Written(next, Some(frame), None)
  }

  function Queue(f: Option<Frame>): seq<Frame> { if f.Some? then [f.value] else [] }

  function IsIllegal(e: Option<WireError>): bool { e == Some(IllegalState) }

  // ----- the child's steps -----

  /** nativeForwarder's write. */
  ghost function ForwardCall(s: Setup, y: System, id: Bytes, arguments: map<Bytes, Value>): System
    requires Accepts(s)
  {
    var w := Write(s, ChildWriteCall(s.sizes, y.child, id, Some(arguments)), y.child,
                   s.childCap, y.outputClosed);
    y.(child := w.next, childPhase := if w.err.None? then AwaitReply else Unwinding,
       toParent := y.toParent + Queue(w.frame), fromChild := y.fromChild + Queue(w.frame),
       illegal := y.illegal || IsIllegal(w.err))
  }

  /** callCapability. */
  ghost function StepCall(s: Setup, y: System, id: Bytes, binding: Binding): System
    requires Accepts(s)
  {
    if y.phase != Main || y.counter >= s.limits.maxNativeCalls then y.(childPhase := Unwinding)
    else match binding
      case BindFails => y.(counter := y.counter + 1, childPhase := Unwinding)
      case Bound(arguments) => ForwardCall(s, y.(counter := y.counter + 1), id, arguments)
  }

  /** A read that failed while awaiting a reply; the connection keeps its state. */
  function FailReply(y: System, e: WireError): System {
    y.(childPhase := Unwinding, lostReply := true, illegal := y.illegal || e == IllegalState)
  }

  ghost function StepChildReceive(s: Setup, y: System, convertible: bool): System
    requires Accepts(s) && y.toChild != []
  {
    var rest := y.(toChild := y.toChild[1..]);
    match s.receive(y.toChild[0])
    case Failure(e) => FailReply(rest, e)
    case Success(f) =>
      match ChildAccept(s.sizes, y.child, f)
      case Failure(e) => FailReply(rest, e)
      case Success(next) =>
        if f.NativeResult? then
          rest.(child := next, childPhase := if convertible then Running else Unwinding, seen := y.seen + [f.result])
        else rest.(child := next, childPhase := Unwinding)
  }

  /** finalWriteCode. */
  function FinalWriteCode(e: WireError): Option<Code> {
    match e
    case FrameTooLarge => Some(ResourceLimitCode)
    case InvalidValue => Some(InvalidProgramCode)
    case InvalidNumber => Some(InvalidProgramCode)
    case _ => None
  }

  ghost function WriteError(s: Setup, y: System, code: Code, detail: Bytes): System
    requires Accepts(s)
  {
    var w := Write(s, ChildWriteFinalError(y.child, code, detail), y.child, s.childCap, y.outputClosed);
    y.(child := w.next, childPhase := Exited, toParent := y.toParent + Queue(w.frame),
       fromChild := y.fromChild + Queue(w.frame),
       illegal := y.illegal || IsIllegal(w.err))
  }

  /** writeFinalResult. */
  ghost function WriteValue(s: Setup, y: System, v: Value): System
    requires Accepts(s)
  {
    var w := Write(s, ChildWriteFinal(s.sizes, y.child, v), y.child, s.childCap, y.outputClosed);
    if w.err.None? then
      y.(child := w.next, childPhase := Exited, toParent := y.toParent + Queue(w.frame),
         fromChild := y.fromChild + Queue(w.frame))
    else if FinalWriteCode(w.err.value).Some? then WriteError(s, y, FinalWriteCode(w.err.value).value, [])
    else y.(childPhase := Exited, illegal := y.illegal || IsIllegal(w.err))
  }

  /** The end of serveExec. */
  ghost function StepProgramEnds(s: Setup, y: System, end: ProgramEnd): System
    requires Accepts(s)
  {
    if y.child.state == Finished then y.(childPhase := Exited)
    else match end
      case EndError(code, detail) => WriteError(s, y, code, detail)
      case EndValue(v) => WriteValue(s, y, v)
  }

  // ----- the parent's steps -----

  function ErrorOf(code: Code): ExecError {
    match code
    case InvalidProgramCode => InvalidProgram
    case InvalidArgumentsCode => InvalidArguments
    case ResourceLimitCode => ResourceLimit
    case InternalCode => Internal
  }

  function ParentFails(y: System, e: WireError): System {
    y.(parentPhase := Returned(Killed(Internal)), illegal := y.illegal || e == IllegalState)
  }

  ghost function StepParentReceive(s: Setup, y: System): System
    requires Accepts(s) && y.toParent != []
  {
    var rest := y.(toParent := y.toParent[1..]);
    match s.receive(y.toParent[0])
    case Failure(e) => ParentFails(rest, e)
    case Success(f) =>
      match ParentAccept(s.sizes, y.parent, f)
      case Failure(e) => ParentFails(rest, e)
      case Success(next) =>
        if f.NativeCall? then rest.(parent := next, parentPhase := Dispatching, dispatched := y.dispatched + [f])
        else if f.Final? then rest.(parent := next, parentPhase := AwaitEof(Outcome(Some(f.result), None, None, false)))
        else if f.FinalError? then rest.(parent := next,
                                         parentPhase := AwaitEof(Outcome(None, Some(ErrorOf(f.code)), None, false)))
        else rest.(parent := next, parentPhase := Returned(Killed(Internal)))
  }

  /** writeAbort: the write's own error is dropped. */
  ghost function WriteAbort(s: Setup, y: System, e: ExecError, detail: Bytes): System
    requires Accepts(s)
  {
    var w := Write(s, ParentWriteAbort(y.parent, detail), y.parent, s.parentCap, InputBroken(y));
    y.(parent := w.next, parentPhase := AbortEof(Outcome(None, None, Some(e), false)),
       toChild := y.toChild + Queue(w.frame),
       aborted := y.aborted || w.frame.Some?, illegal := y.illegal || IsIllegal(w.err))
  }

  /** approvedAbortDetail: only a capability failure carries its detail. */
  function AbortDetail(e: ExecError, detail: Bytes): Bytes { if e.CapabilityFailure? then detail else [] }

  /** handleNative, once dispatch has answered. */
  ghost function StepDispatchDone(s: Setup, y: System, result: DispatchResult): System
    requires Accepts(s)
  {
    match result
    case DispatchProtocol => y.(parentPhase := Returned(Killed(Internal)))
    case DispatchErr(e, detail) => WriteAbort(s, y, e, AbortDetail(e, detail))
    case DispatchOk(v) =>
      var w := Write(s, ParentWriteResult(s.sizes, y.parent, v), y.parent, s.parentCap, InputBroken(y));
      if w.err.None? then
        y.(parent := w.next, parentPhase := Reading, toChild := y.toChild + Queue(w.frame),
           delivered := y.delivered + [v])
      else if w.err == Some(InvalidValue) || w.err == Some(FrameTooLarge) then WriteAbort(s, y, ResourceLimit, [])
      else y.(parentPhase := Returned(Killed(Internal)), illegal := y.illegal || IsIllegal(w.err))
  }

  /** readExecEOF: trailing data or a closed stream fails a terminal read, and is ignored after an abort. */
  function StepParentEof(y: System): System
    requires y.parentPhase.AwaitEof? || y.parentPhase.AbortEof?
  {
    if y.parentPhase.AbortEof? || (y.toParent == [] && !y.outputClosed)
      then y.(parentPhase := Returned(y.parentPhase.outcome))
    else y.(parentPhase := Returned(Killed(Internal)))
  }

  // ----- runs -----

  /** An event the two processes and the host can produce in this state. */
  ghost predicate Enabled(s: Setup, y: System, e: Event) {
    match e
    case BeginMain => y.childPhase.Running? && y.phase.Loading?
    case Call(id, _) => y.childPhase.Running? && id in s.ids && id != []
    case ChildReceive(_) => y.childPhase.AwaitReply? && y.toChild != []
    case ChildReadEof => y.childPhase.AwaitReply? && y.toChild == [] && y.inputClosed
    case ProgramEnds(end) =>
      || (y.childPhase.Unwinding? && end.EndError?)
      || (y.childPhase.Running? && (end.EndValue?
                                    ==> Accepted(end.value, s.limits.maxValueDepth, s.limits.maxValueBytes)))
    case ChildDies => !y.childPhase.Exited?
    case ParentReceive => y.parentPhase.Reading? && !y.outputClosed && y.toParent != []
    case ParentReadEof => y.parentPhase.Reading? && (y.outputClosed || (y.toParent == [] && y.childPhase.Exited?))
    case DispatchDone(_) => y.parentPhase.Dispatching?
    case ParentEof =>
      (y.parentPhase.AwaitEof? || y.parentPhase.AbortEof?)
        && (y.outputClosed || y.toParent != [] || y.childPhase.Exited?)
    case CancelWhileDispatching(_) => y.parentPhase.Dispatching?
    case Cancel => true
    case FinishSession => y.parentPhase.Returned?
  }

  ghost function Next(s: Setup, y: System, e: Event): System
    requires Accepts(s) && Enabled(s, y, e)
  {
    match e
    case BeginMain => y.(phase := Main)
    case Call(id, binding) => StepCall(s, y, id, binding)
    case ChildReceive(convertible) => StepChildReceive(s, y, convertible)
    case ChildReadEof => FailReply(y, TruncatedFrame)
    case ProgramEnds(end) => StepProgramEnds(s, y, end)
    case ChildDies => y.(childPhase := Exited)
    case ParentReceive => StepParentReceive(s, y)
    case ParentReadEof => ParentFails(y, TruncatedFrame)
    case DispatchDone(result) => StepDispatchDone(s, y, result)
    case ParentEof => StepParentEof(y)
    case CancelWhileDispatching(error) => y.(parentPhase := Returned(Killed(error)))
    case Cancel => y.(inputClosed := true, outputClosed := true)
    case FinishSession => y.(inputClosed := true, outputClosed := true)
  }

  /** The state after a run, if each event was enabled when it came. */
  ghost function Run(s: Setup, events: seq<Event>): Option<System>
    requires Accepts(s)
  {
    if events == [] then Some(Start(s))
    else match Run(s, events[..|events| - 1])
      case None => None
      case Some(y) => if Enabled(s, y, events[|events| - 1]) then Some(Next(s, y, events[|events| - 1])) else None
  }

  // ----- every step is a legal move -----

  /** What a refused write must not be: an illegal operation. */
  lemma RefusalLegal(s: Setup, f: Frame, n: nat)
    requires Accepts(s) && !f.Exec? && n <= MAX_UINT32
    ensures s.refuse(f, n) == None || s.refuse(f, n) == Some(EmptyPayload) || s.refuse(f, n) == Some(FrameTooLarge)
  {
    assert s.refuse(f, n) == Oversized(Payload(s.lib, s.printable, f), n);
  }

  /** The caps admit every frame the two sides may write: no write is refused for its size. */
  lemma NeverTooLarge(s: Setup, f: Frame)
    requires Accepts(s) && Encodes(s, f) && (f.NativeCall? ==> f.id in s.ids)
    ensures f.NativeResult? || f.NativeAbort? ==> s.refuse(f, s.parentCap) == None
    ensures f.NativeCall? || f.Final? || f.FinalError? ==> s.refuse(f, s.childCap) == None
  {
    EncodesWritable(s, f);
    if f.NativeResult? || f.NativeAbort? {
      ParentFrameFits(s.lib, s.printable, f, s.limits.maxValueBytes);
      assert s.refuse(f, s.parentCap) == Oversized(Payload(s.lib, s.printable, f), s.parentCap);
    } else {
      ChildFrameFits(s.lib, s.printable, f, s.limits.maxValueBytes, s.ids);
      assert s.refuse(f, s.childCap) == Oversized(Payload(s.lib, s.printable, f), s.childCap);
    }
  }

  /** The only errors encodeBoundedValue reports. */
  lemma SizeErrors(s: Setup, v: Value)
    requires Accepts(s)
    ensures s.sizes(v, s.limits).Failure?
            ==> s.sizes(v, s.limits).error == InvalidValue || s.sizes(v, s.limits).error == FrameTooLarge
  {
    assert s.sizes(v, s.limits) == EncodedSize(s.lib, v, s.limits);
  }

  ghost function CallMove(s: Setup, y: System, id: Bytes, binding: Binding): Move
    requires Accepts(s)
  {
    if y.phase != Main || y.counter >= s.limits.maxNativeCalls then Unwind(false)
    else if binding.BindFails? then Unwind(true)
    else
      var w := Write(s, ChildWriteCall(s.sizes, y.child, id, Some(binding.arguments)), y.child, s.childCap,
                     y.outputClosed);
      if w.frame.Some? then SendCall(w.frame.value) else Unwind(true)
  }

  lemma CallIsMove(s: Setup, y: System, id: Bytes, binding: Binding)
    requires Accepts(s) && Core(s, y) && Enabled(s, y, Call(id, binding))
    ensures Legal(s, y, CallMove(s, y, id, binding))
            && StepCall(s, y, id, binding) == Apply(s, y, CallMove(s, y, id, binding))
  {
    if y.phase == Main && y.counter < s.limits.maxNativeCalls && binding.Bound? {
      ForwardIsMove(s, y, id, binding.arguments);
    }
  }

  lemma ForwardIsMove(s: Setup, y: System, id: Bytes, arguments: map<Bytes, Value>)
    requires Accepts(s) && Core(s, y) && Enabled(s, y, Call(id, Bound(arguments))) && y.phase == Main
             && y.counter < s.limits.maxNativeCalls
    ensures Legal(s, y, CallMove(s, y, id, Bound(arguments)))
    ensures StepCall(s, y, id, Bound(arguments)) == Apply(s, y, CallMove(s, y, id, Bound(arguments)))
  {
    RefusalLegal(s, NativeCall(id, Obj(arguments)), s.childCap);
    SizeErrors(s, Obj(arguments));
  }

  ghost function ChildReceiveMove(s: Setup, y: System, convertible: bool): Move
    requires y.toChild != []
  {
    match s.receive(y.toChild[0])
    case Failure(_) => LoseReply(true)
    case Success(f) =>
      if ChildAccept(s.sizes, y.child, f).Failure? then LoseReply(true)
      else if f.NativeResult? then GetResult(f.result, convertible)
      else GetAbort
  }

  lemma ChildReceiveIsMove(s: Setup, y: System, convertible: bool)
    requires Accepts(s) && Core(s, y) && Enabled(s, y, ChildReceive(convertible))
    ensures Legal(s, y, ChildReceiveMove(s, y, convertible))
    ensures StepChildReceive(s, y, convertible) == Apply(s, y, ChildReceiveMove(s, y, convertible))
  {
    ReceivesKind(s, y.toChild[0]);
    if s.receive(y.toChild[0]).Success? && s.receive(y.toChild[0]).value.NativeResult? {
      SizeErrors(s, s.receive(y.toChild[0]).value.result);
    }
  }

  ghost function ErrorMove(s: Setup, y: System, code: Code, detail: Bytes): Move {
    var w := Write(s, ChildWriteFinalError(y.child, code, detail), y.child, s.childCap, y.outputClosed);
    if w.frame.Some? then SendTerminal(w.frame.value) else if IsIllegal(w.err) then EndIllegally else Exit
  }

  lemma ErrorIsMove(s: Setup, y: System, code: Code, detail: Bytes)
    requires Accepts(s) && Core(s, y) && (y.childPhase.Unwinding? || y.childPhase.Running?) && y.child.state != Finished
    ensures Legal(s, y, ErrorMove(s, y, code, detail))
            && WriteError(s, y, code, detail) == Apply(s, y, ErrorMove(s, y, code, detail))
  {
    RefusalLegal(s, FinalError(code, detail), s.childCap);
  }

  ghost function ValueMove(s: Setup, y: System, v: Value): Move {
    var w := Write(s, ChildWriteFinal(s.sizes, y.child, v), y.child, s.childCap, y.outputClosed);
    if w.frame.Some? then SendTerminal(w.frame.value)
    else if w.err.Some? && FinalWriteCode(w.err.value).Some? then ErrorMove(s, y, FinalWriteCode(w.err.value).value, [])
    else Exit
  }

  lemma ValueIsMove(s: Setup, y: System, v: Value)
    requires Accepts(s) && Core(s, y) && y.childPhase.Running?
    ensures Legal(s, y, ValueMove(s, y, v)) && WriteValue(s, y, v) == Apply(s, y, ValueMove(s, y, v))
  {
    if s.sizes(v, s.limits).Success? { SentValueIsMove(s, y, v); } else { RefusedValueIsMove(s, y, v); }
  }

  lemma SentValueIsMove(s: Setup, y: System, v: Value)
    requires Accepts(s) && Core(s, y) && y.childPhase.Running? && s.sizes(v, s.limits).Success?
    ensures Legal(s, y, ValueMove(s, y, v)) && WriteValue(s, y, v) == Apply(s, y, ValueMove(s, y, v))
  {
    assert ChildWriteFinal(s.sizes, y.child, v) == Send(Final(v), y.child.(state := Finished))
           && y.child.state == Ready;
    NeverTooLarge(s, Final(v));
    WriteGoesOut(s, y, Final(v));
  }

  /** A frame that is not refused goes out, unless the stream is closed. */
  lemma WriteGoesOut(s: Setup, y: System, f: Frame)
    requires s.refuse(f, s.childCap) == None
    ensures Write(s, Send(f, y.child.(state := Finished)), y.child, s.childCap, y.outputClosed)
         == if y.outputClosed then Written(y.child, None, Some(BrokenPipe))
            else Written(y.child.(state := Finished), Some(f), None)
  {}

  /** A value that is too deep or too large is reported as an error instead. */
  lemma RefusedValueIsMove(s: Setup, y: System, v: Value)
    requires Accepts(s) && Core(s, y) && y.childPhase.Running? && s.sizes(v, s.limits).Failure?
    ensures Legal(s, y, ValueMove(s, y, v)) && WriteValue(s, y, v) == Apply(s, y, ValueMove(s, y, v))
  {
    SizeErrors(s, v);
    ErrorIsMove(s, y, FinalWriteCode(s.sizes(v, s.limits).error).value, []);
  }

  ghost function EndMove(s: Setup, y: System, end: ProgramEnd): Move {
    if y.child.state == Finished then Exit
    else match end
      case EndError(code, detail) => ErrorMove(s, y, code, detail)
      case EndValue(v) => ValueMove(s, y, v)
  }

  lemma EndIsMove(s: Setup, y: System, end: ProgramEnd)
    requires Accepts(s) && Core(s, y) && Enabled(s, y, ProgramEnds(end))
    ensures Legal(s, y, EndMove(s, y, end)) && StepProgramEnds(s, y, end) == Apply(s, y, EndMove(s, y, end))
  {
    if y.child.state != Finished {
      match end
      case EndError(code, detail) => ErrorIsMove(s, y, code, detail);
      case EndValue(v) => ValueIsMove(s, y, v);
    }
  }

  ghost function ParentReceiveMove(s: Setup, y: System): Move
    requires y.toParent != []
  {
    match s.receive(y.toParent[0])
    case Failure(_) => Reject
    case Success(f) =>
      if ParentAccept(s.sizes, y.parent, f).Failure? then Reject
      else if f.NativeCall? then AcceptCall(f)
      else if f.Final? then AcceptEnd(Outcome(Some(f.result), None, None, false))
      else if f.FinalError? then AcceptEnd(Outcome(None, Some(ErrorOf(f.code)), None, false))
      else Reject
  }

  lemma ParentReceiveIsMove(s: Setup, y: System)
    requires Accepts(s) && Core(s, y) && Enabled(s, y, ParentReceive)
    ensures Legal(s, y, ParentReceiveMove(s, y)) && StepParentReceive(s, y) == Apply(s, y, ParentReceiveMove(s, y))
  {
    ReceivesKind(s, y.toParent[0]);
    if s.receive(y.toParent[0]).Success? { ParentFrameIsMove(s, y, s.receive(y.toParent[0]).value); }
  }

  lemma ParentFrameIsMove(s: Setup, y: System, f: Frame)
    requires Accepts(s) && Core(s, y) && Enabled(s, y, ParentReceive) && s.receive(y.toParent[0]) == Success(f)
    ensures Legal(s, y, ParentReceiveMove(s, y)) && StepParentReceive(s, y) == Apply(s, y, ParentReceiveMove(s, y))
  {
    if f.NativeCall? { ParentCallIsMove(s, y, f); }
    else if f.Final? { ParentFinalIsMove(s, y, f); }
    else { ReceivesKind(s, y.toParent[0]); }
  }

  lemma ParentCallIsMove(s: Setup, y: System, f: Frame)
    requires Accepts(s) && Core(s, y) && Enabled(s, y, ParentReceive)
    requires s.receive(y.toParent[0]) == Success(f) && f.NativeCall?
    ensures Legal(s, y, ParentReceiveMove(s, y))
    ensures StepParentReceive(s, y) == Apply(s, y, ParentReceiveMove(s, y))
  {
    ReceivesKind(s, y.toParent[0]);
    SizeErrors(s, f.arguments);
  }

  lemma ParentFinalIsMove(s: Setup, y: System, f: Frame)
    requires Accepts(s) && Core(s, y) && Enabled(s, y, ParentReceive)
    requires s.receive(y.toParent[0]) == Success(f) && f.Final?
    ensures Legal(s, y, ParentReceiveMove(s, y))
    ensures StepParentReceive(s, y) == Apply(s, y, ParentReceiveMove(s, y))
  {
    ReceivesKind(s, y.toParent[0]);
    SizeErrors(s, f.result);
  }

  ghost function AbortMove(s: Setup, y: System, e: ExecError, detail: Bytes): Move {
    var w := Write(s, ParentWriteAbort(y.parent, detail), y.parent, s.parentCap, InputBroken(y));
    var out := Outcome(None, None, Some(e), false);
    if w.frame.Some? then SendAbort(detail, out) else DropAbort(out)
  }

  lemma AbortIsMove(s: Setup, y: System, e: ExecError, detail: Bytes)
    requires Accepts(s) && Core(s, y) && y.parentPhase.Dispatching?
    ensures Legal(s, y, AbortMove(s, y, e, detail))
            && WriteAbort(s, y, e, detail) == Apply(s, y, AbortMove(s, y, e, detail))
  {
    NeverTooLarge(s, NativeAbort(detail));
  }

  ghost function DispatchMove(s: Setup, y: System, result: DispatchResult): Move {
    match result
    case DispatchProtocol => Return(Killed(Internal))
    case DispatchErr(e, detail) => AbortMove(s, y, e, AbortDetail(e, detail))
    case DispatchOk(v) =>
      var w := Write(s, ParentWriteResult(s.sizes, y.parent, v), y.parent, s.parentCap, InputBroken(y));
      if w.err.None? then SendResult(v)
      else if w.err == Some(InvalidValue) || w.err == Some(FrameTooLarge) then AbortMove(s, y, ResourceLimit, [])
      else Return(Killed(Internal))
  }

  lemma DispatchIsMove(s: Setup, y: System, result: DispatchResult)
    requires Accepts(s) && Core(s, y) && Enabled(s, y, DispatchDone(result))
    ensures Legal(s, y, DispatchMove(s, y, result))
            && StepDispatchDone(s, y, result) == Apply(s, y, DispatchMove(s, y, result))
  {
    match result
    case DispatchOk(v) =>
      RefusalLegal(s, NativeResult(v), s.parentCap);
      SizeErrors(s, v);
      AbortIsMove(s, y, ResourceLimit, []);
    case DispatchErr(e, detail) => AbortIsMove(s, y, e, AbortDetail(e, detail));
    case DispatchProtocol =>
  }

  ghost function MoveOf(s: Setup, y: System, e: Event): Move
    requires Accepts(s) && Enabled(s, y, e)
  {
    match e
    case BeginMain => EnterMain
    case Call(id, binding) => CallMove(s, y, id, binding)
    case ChildReceive(convertible) => ChildReceiveMove(s, y, convertible)
    case ChildReadEof => LoseReply(false)
    case ProgramEnds(end) => EndMove(s, y, end)
    case ChildDies => Exit
    case ParentReceive => ParentReceiveMove(s, y)
    case ParentReadEof => Return(Killed(Internal))
    case DispatchDone(result) => DispatchMove(s, y, result)
    case ParentEof => Return(StepParentEof(y).parentPhase.outcome)
    case CancelWhileDispatching(error) => Return(Killed(error))
    case Cancel => Close
    case FinishSession => Close
  }

  lemma StepIsMove(s: Setup, y: System, e: Event)
    requires Accepts(s) && Core(s, y) && Enabled(s, y, e)
    ensures Legal(s, y, MoveOf(s, y, e)) && Next(s, y, e) == Apply(s, y, MoveOf(s, y, e))
  {
    match e
    case Call(id, binding) => CallIsMove(s, y, id, binding);
    case ChildReceive(convertible) => ChildReceiveIsMove(s, y, convertible);
    case ProgramEnds(end) => EndIsMove(s, y, end);
    case ParentReceive => ParentReceiveIsMove(s, y);
    case DispatchDone(result) => DispatchIsMove(s, y, result);
    case _ =>
  }

  /** Every state of every run is safe, whatever the program, the dispatcher and the host do. */
  lemma {:induction false} RunsAreSafe(s: Setup, events: seq<Event>)
    requires Accepts(s)
    ensures Run(s, events).Some? ==> Safe(s, Run(s, events).value)
  {
    if events == [] {
      StartIsSafe(s);
    } else {
      var n := |events| - 1;
      RunsAreSafe(s, events[..n]);
      if Run(s, events).Some? {
        var y := Run(s, events[..n]).value;
        StepIsMove(s, y, events[n]);
        SafeMove(s, y, MoveOf(s, y, events[n]));
      }
    }
  }

  // ----- what a reader may conclude about a run -----

  /** At most one frame is in flight, and the three call counters are ordered below the limit. */
  lemma CountersAndFlight(s: Setup, events: seq<Event>)
    requires Accepts(s) && Run(s, events).Some?
    ensures var y := Run(s, events).value;
            && |y.toChild| + |y.toParent| <= 1
            && y.parent.nativeCalls <= y.child.nativeCalls <= y.counter <= s.limits.maxNativeCalls
            && |y.dispatched| == y.parent.nativeCalls
  {
    RunsAreSafe(s, events);
  }

  // ----- operations refused as illegal -----

  /** The error of the terminal write a failing program's child attempts. */
  ghost function FinalErrorOutcome(s: Setup, y: System, code: Code, detail: Bytes): Option<WireError> {
    Write(s, ChildWriteFinalError(y.child, code, detail), y.child, s.childCap, y.outputClosed).err
  }

  /** In every run, a failing program's terminal write is refused as illegal exactly when the
      child lost a reply before. */
  lemma TerminalRefusedIff(s: Setup, events: seq<Event>, code: Code, detail: Bytes)
    requires Accepts(s) && Run(s, events).Some?
    requires var y := Run(s, events).value;
             Enabled(s, y, ProgramEnds(EndError(code, detail))) && y.child.state != Finished
    ensures var y := Run(s, events).value;
            FinalErrorOutcome(s, y, code, detail) == Some(IllegalState) <==> y.lostReply
  {
    RunsAreSafe(s, events);
    RefusalLegal(s, FinalError(code, detail), s.childCap);
  }

  /** The program ends, after event i, in a child that has lost a reply. */
  ghost predicate EndsAfterLoss(s: Setup, events: seq<Event>, i: nat)
    requires Accepts(s) && i < |events|
  {
    events[i].ProgramEnds? && Run(s, events[..i]).Some? && Run(s, events[..i]).value.lostReply
  }

  /** No read, write or accept of either side is ever refused as illegal, but for one: the
      terminal write of a child that lost a reply and whose program then ends. */
  lemma {:induction false} IllegalIff(s: Setup, events: seq<Event>)
    requires Accepts(s) && Run(s, events).Some?
    ensures Run(s, events).value.illegal <==> exists i: nat :: i < |events| && EndsAfterLoss(s, events, i)
  {
    if events != [] {
      var n := |events| - 1;
      var before := events[..n];
      IllegalIff(s, before);
      RunsAreSafe(s, before);
      IllegalStep(s, Run(s, before).value, events[n]);
      LossPrefix(s, events);
    }
  }

  lemma LossPrefix(s: Setup, events: seq<Event>)
    requires Accepts(s) && events != []
    ensures var n := |events| - 1;
            (exists i: nat :: i < |events| && EndsAfterLoss(s, events, i))
            <==> EndsAfterLoss(s, events, n) || exists i: nat :: i < n && EndsAfterLoss(s, events[..n], i)
  {
    var n := |events| - 1;
    forall i: nat | i < n ensures EndsAfterLoss(s, events, i) <==> EndsAfterLoss(s, events[..n], i) {
      assert events[..n][..i] == events[..i];
    }
  }

  lemma IllegalStep(s: Setup, y: System, e: Event)
    requires Accepts(s) && Core(s, y) && Enabled(s, y, e)
    ensures Next(s, y, e).illegal <==> y.illegal || (e.ProgramEnds? && y.lostReply)
  {
    StepIsMove(s, y, e);
    IllegalMove(s, y, e);
  }

  lemma IllegalMove(s: Setup, y: System, e: Event)
    requires Accepts(s) && Core(s, y) && Enabled(s, y, e)
    ensures MoveOf(s, y, e).EndIllegally? <==> e.ProgramEnds? && y.lostReply
  {
    match e
    case ProgramEnds(end) => IllegalEnd(s, y, end);
    case _ =>
  }

  lemma IllegalEnd(s: Setup, y: System, end: ProgramEnd)
    requires Accepts(s) && Core(s, y) && Enabled(s, y, ProgramEnds(end))
    ensures EndMove(s, y, end).EndIllegally? <==> y.lostReply
  {
    match end
    case EndError(code, detail) => RefusalLegal(s, FinalError(code, detail), s.childCap);
    case EndValue(v) =>
      RefusalLegal(s, Final(v), s.childCap);
      RefusalLegal(s, FinalError(ResourceLimitCode, []), s.childCap);
      RefusalLegal(s, FinalError(InvalidProgramCode, []), s.childCap);
  }

  /** The shortest such run: a program calls one function, the host cancels, the read of the
      reply fails, and the program's error is refused by a connection that still waits. */
  function LostReplyRun(id: Bytes): seq<Event> {
    [BeginMain, Call(id, Bound(map[])), Cancel, ChildReadEof]
  }

  lemma IllegalTerminal(s: Setup, id: Bytes)
    requires Accepts(s) && id in s.ids && id != [] && s.limits.maxNativeCalls > 0
    requires s.sizes(Obj(map[]), s.limits).Success?
    ensures Run(s, LostReplyRun(id)).Some?
    ensures var y := Run(s, LostReplyRun(id)).value;
            && Enabled(s, y, ProgramEnds(EndError(InternalCode, []))) && y.lostReply && !y.illegal
            && FinalErrorOutcome(s, y, InternalCode, []) == Some(IllegalState)
            && Next(s, y, ProgramEnds(EndError(InternalCode, []))).illegal
  {
    LostReply(s, id);
    RunsAreSafe(s, LostReplyRun(id));
    IllegalStep(s, Run(s, LostReplyRun(id)).value, ProgramEnds(EndError(InternalCode, [])));
    TerminalRefusedIff(s, LostReplyRun(id), InternalCode, []);
  }

  lemma LostReply(s: Setup, id: Bytes)
    requires Accepts(s) && id in s.ids && id != [] && s.limits.maxNativeCalls > 0
    requires s.sizes(Obj(map[]), s.limits).Success?
    ensures var end := Run(s, LostReplyRun(id));
            && end.Some? && end.value.childPhase.Unwinding? && end.value.lostReply && !end.value.illegal
            && end.value.child.state == AwaitNative
  {
    var c := Call(id, Bound(map[]));
    FirstCall(s, id);
    assert [BeginMain, c] + [Cancel] == [BeginMain, c, Cancel];
    assert [BeginMain, c, Cancel] + [ChildReadEof] == LostReplyRun(id);
    RunStep(s, [BeginMain, c], Cancel);
    RunStep(s, [BeginMain, c, Cancel], ChildReadEof);
  }

  lemma FirstCall(s: Setup, id: Bytes)
    requires Accepts(s) && id in s.ids && id != [] && s.limits.maxNativeCalls > 0
    requires s.sizes(Obj(map[]), s.limits).Success?
    ensures var start := Run(s, [BeginMain, Call(id, Bound(map[]))]);
            start.Some? && start.value.childPhase.AwaitReply? && start.value.toChild == [] && !start.value.illegal
            && start.value.child.state == AwaitNative
  {
    var c := Call(id, Bound(map[]));
    assert [] + [BeginMain] == [BeginMain];
    assert [BeginMain] + [c] == [BeginMain, c];
    RunStep(s, [], BeginMain);
    RunStep(s, [BeginMain], c);
    NeverTooLarge(s, NativeCall(id, Obj(map[])));
  }

  lemma RunStep(s: Setup, before: seq<Event>, e: Event)
    requires Accepts(s)
    ensures Run(s, before + [e])
         == match Run(s, before)
            case None => None
            case Some(y) => if Enabled(s, y, e) then Some(Next(s, y, e)) else None
  {
    assert (before + [e])[..|before|] == before;
  }

  lemma {:induction false} SpentIs(s: Setup, delivered: seq<Value>)
    requires Accepts(s) && forall i :: 0 <= i < |delivered| ==> s.sizes(delivered[i], s.limits).Success?
    ensures Spent(s, delivered) == BodyBytes(s.lib, delivered)
  {
    if delivered != [] {
      SpentIs(s, delivered[..|delivered| - 1]);
      EncodesWritable(s, NativeResult(delivered[|delivered| - 1]));
    }
  }

  ghost function BodyBytes(lib: FloatLib, values: seq<Value>): nat {
    if values == [] then 0 else BodyBytes(lib, values[..|values| - 1]) + |Body(lib, values[|values| - 1])|
  }

  /** The intermediate budget is conserved: what was granted is what is left plus the body
      bytes of the results actually written. */
  lemma BudgetConserved(s: Setup, events: seq<Event>)
    requires Accepts(s) && Run(s, events).Some?
    ensures var y := Run(s, events).value;
            s.budget == y.parent.remainingIntermediate + BodyBytes(s.lib, y.delivered)
              && y.parent.remainingIntermediate >= 0
  {
    RunsAreSafe(s, events);
    SpentIs(s, Run(s, events).value.delivered);
  }

  lemma Prefixes(all: seq<Event>, m: nat, n: nat)
    requires n <= m <= |all|
    ensures all[..m][..n] == all[..n] && all[..|all|] == all && (m < |all| ==> all[..m + 1] == all[..m] + [all[m]])
  {}

  /** A child that lost its reply, and one that was aborted, stays as it is. */
  lemma {:induction false} SilenceLasts(s: Setup, all: seq<Event>, n: nat)
    requires Accepts(s) && Run(s, all).Some? && n <= |all|
    ensures Run(s, all[..n]).Some? && Silenced(Run(s, all[..n]).value, Run(s, all).value)
  {
    if n == |all| {
      Prefixes(all, n, n);
    } else {
      Prefixes(all, |all| - 1, n);
      SilenceStep(s, all);
      SilenceLasts(s, all[..|all| - 1], n);
    }
  }

  predicate Silenced(before: System, after: System) {
    (before.lostReply ==> after.lostReply) && (before.aborted ==> after.aborted)
  }

  lemma SilenceStep(s: Setup, all: seq<Event>)
    requires Accepts(s) && all != [] && Run(s, all).Some?
    ensures Run(s, all[..|all| - 1]).Some? && Silenced(Run(s, all[..|all| - 1]).value, Run(s, all).value)
  {
    var before, e := all[..|all| - 1], all[|all| - 1];
    var y := Run(s, before).value;
    RunsAreSafe(s, before);
    StepIsMove(s, y, e);
    SilenceKept(s, y, MoveOf(s, y, e));
  }

  lemma SilenceKept(s: Setup, y: System, m: Move)
    ensures y.lostReply ==> Apply(s, y, m).lostReply
    ensures y.aborted ==> Apply(s, y, m).aborted
  {}

  /** Once a child has failed to read a reply, or has been sent an abort, no continuation of
      the run contains a terminal frame: whatever it wrote are native calls. */
  lemma SilentAfterLoss(s: Setup, all: seq<Event>, n: nat)
    requires Accepts(s) && Run(s, all).Some? && n <= |all|
    ensures Run(s, all[..n]).Some?
    ensures Run(s, all[..n]).value.lostReply || Run(s, all[..n]).value.aborted ==>
              forall i :: 0 <= i < |Run(s, all).value.fromChild| ==> Run(s, all).value.fromChild[i].NativeCall?
  {
    SilenceLasts(s, all, n);
    RunsAreSafe(s, all);
  }

  /** The parent's value, if it returns one, is its reading of the one final frame the child
      wrote; the calls it dispatched and the results the program saw are what the wire made
      of the frames written, position by position. */
  lemma NothingInvented(s: Setup, events: seq<Event>)
    requires Accepts(s) && Run(s, events).Some?
    ensures var y := Run(s, events).value;
            && (y.parentPhase.Returned? && y.parentPhase.outcome.value.Some? ==>
                  && |y.fromChild| == y.child.nativeCalls + 1
                  && s.receive(y.fromChild[y.child.nativeCalls]) == Success(Final(y.parentPhase.outcome.value.value)))
            && |y.dispatched| <= |y.fromChild| && |y.seen| <= |y.delivered|
            && (forall i :: 0 <= i < |y.dispatched| ==> s.receive(y.fromChild[i]) == Success(y.dispatched[i]))
            && (forall i :: 0 <= i < |y.seen|
                  ==> s.receive(NativeResult(y.delivered[i])) == Success(NativeResult(y.seen[i])))
  {
    RunsAreSafe(s, events);
  }

  /** A program that ends while its connection is ready always gets its terminal frame out,
      unless the parent has already closed the stream; a final value within the limits goes
      out as it is. */
  lemma TerminalIsWritten(s: Setup, events: seq<Event>, end: ProgramEnd)
    requires Accepts(s) && Run(s, events).Some?
    requires var y := Run(s, events).value; Enabled(s, y, ProgramEnds(end)) && y.child.state == Ready && !y.outputClosed
    ensures var y := Next(s, Run(s, events).value, ProgramEnds(end));
            y.childPhase.Exited? && |y.toParent| == 1 && Terminal(y.toParent[0])
            && (end.EndValue? && Bounded(s.lib, end.value, s.limits) ==> y.toParent[0] == Final(end.value))
  {
    RunsAreSafe(s, events);
    var y := Run(s, events).value;
    match end
    case EndError(code, detail) => ErrorIsWritten(s, y, code, detail);
    case EndValue(v) =>
      ValueIsWritten(s, y, v);
      assert s.sizes(v, s.limits) == EncodedSize(s.lib, v, s.limits);
  }

  lemma ErrorIsWritten(s: Setup, y: System, code: Code, detail: Bytes)
    requires Accepts(s) && Core(s, y) && y.child.state == Ready && !y.outputClosed
    ensures WriteError(s, y, code, detail).childPhase.Exited?
            && WriteError(s, y, code, detail).toParent == [FinalError(code, detail)]
  {
    NeverTooLarge(s, FinalError(code, detail));
  }

  lemma ValueIsWritten(s: Setup, y: System, v: Value)
    requires Accepts(s) && Core(s, y) && y.child.state == Ready && !y.outputClosed
    ensures var next := WriteValue(s, y, v);
            next.childPhase.Exited? && |next.toParent| == 1 && Terminal(next.toParent[0])
            && (s.sizes(v, s.limits).Success? ==> next.toParent[0] == Final(v))
  {
    SizeErrors(s, v);
    match s.sizes(v, s.limits)
    case Success(_) => NeverTooLarge(s, Final(v));
    case Failure(e) => ErrorIsWritten(s, y, FinalWriteCode(e).value, []);
  }

  /** An event that only a working process produces, or the parent's own cleanup. */
  predicate Progress(e: Event) { !e.ChildDies? && !e.Cancel? && !e.CancelWhileDispatching? }

  predicate Over(y: System) { y.childPhase.Exited? && y.parentPhase.Returned? }

  /** No deadlock: until the child has exited and the parent has returned, one of them can
      take a step of its own. */
  lemma NoDeadlock(s: Setup, events: seq<Event>) returns (e: Event)
    requires Accepts(s) && Run(s, events).Some? && !Over(Run(s, events).value)
    ensures Progress(e) && Enabled(s, Run(s, events).value, e)
    ensures e.FinishSession? ==> !Run(s, events).value.inputClosed
  {
    RunsAreSafe(s, events);
    var y := Run(s, events).value;
    if y.childPhase.Running? || y.childPhase.Unwinding? {
      e := ProgramEnds(EndError(InternalCode, []));
    } else if y.parentPhase.Dispatching? {
      e := DispatchDone(DispatchProtocol);
    } else if y.childPhase.AwaitReply? && y.toChild != [] {
      e := ChildReceive(true);
    } else if y.childPhase.AwaitReply? && y.inputClosed {
      e := ChildReadEof;
    } else if y.parentPhase.Reading? {
      e := if y.outputClosed || y.toParent == [] then ParentReadEof else ParentReceive;
    } else if y.parentPhase.Returned? {
      e := FinishSession;
    } else {
      e := ParentEof;
    }
  }
}
