/** The two connection objects over two byte pipes, driven through the events of the step
    system: whatever happens, they stay in the state Protocol computes and the pipes hold
    exactly the encoded frames its queues hold. */
module Simulation {
  import opened Text
  import opened Values
  import opened Wire
  import opened Codec
  import opened Frames
  import opened Streams
  import opened Caps
  import opened Conn
  import opened Moves
  import opened Protocol

  // ----- frames in flight as bytes -----

  ghost function PayloadOf(s: Setup, f: Frame): (b: Bytes)
    ensures |b| <= MAX_UINT32
  {
    if f.Exec? || |Payload(s.lib, s.printable, f)| > MAX_UINT32 then [] else Payload(s.lib, s.printable, f)
  }

  ghost function Payloads(s: Setup, queue: seq<Frame>): (r: seq<Bytes>)
    ensures |r| == |queue| && forall i :: 0 <= i < |r| ==> r[i] == PayloadOf(s, queue[i])
  {
    seq(|queue|, i requires 0 <= i < |queue| => PayloadOf(s, queue[i]))
  }

  /** The bytes a pipe holds for these frames. */
  ghost function OnWire(s: Setup, queue: seq<Frame>): Bytes { Sent(Payloads(s, queue)) }

  /** The stream took every frame: none was empty or over its cap. */
  ghost predicate Admitted(s: Setup, queue: seq<Frame>, cap: nat) {
    forall i :: 0 <= i < |queue| ==> !queue[i].Exec? && s.refuse(queue[i], cap) == None
  }

  lemma {:induction false} SentAppend(payloads: seq<Bytes>, last: Bytes)
    requires |last| <= MAX_UINT32 && forall i :: 0 <= i < |payloads| ==> |payloads[i]| <= MAX_UINT32
    ensures Sent(payloads + [last]) == Sent(payloads) + Framed(last)
  {
    if payloads == [] {
      assert Sent([last][1..]) == [];
    } else {
      assert (payloads + [last])[1..] == payloads[1..] + [last];
      SentAppend(payloads[1..], last);
    }
  }

  lemma OnWireAppend(s: Setup, queue: seq<Frame>, f: Frame)
    ensures OnWire(s, queue + [f]) == OnWire(s, queue) + Framed(PayloadOf(s, f))
  {
    assert Payloads(s, queue + [f]) == Payloads(s, queue) + [PayloadOf(s, f)];
    SentAppend(Payloads(s, queue), PayloadOf(s, f));
  }

  /** Reading a pipe takes the first frame of the queue off it. */
  lemma OnWireRead(s: Setup, queue: seq<Frame>, cap: nat)
    requires Accepts(s) && cap <= MAX_UINT32 && queue != [] && Admitted(s, queue, cap)
    ensures ReadFrame(OnWire(s, queue), cap) == Success((Payload(s.lib, s.printable, queue[0]), OnWire(s, queue[1..])))
  {
    var f := queue[0];
    assert s.refuse(f, cap) == Oversized(Payload(s.lib, s.printable, f), cap);
    assert Payloads(s, queue)[1..] == Payloads(s, queue[1..]);
    FrameReadBack(PayloadOf(s, f), OnWire(s, queue[1..]), cap);
  }

  // ----- the connections' own transitions are the setup's -----

  lemma SameSizes(s: Setup, v: Value, l: ChildLimits)
    requires Accepts(s)
    ensures s.sizes(v, l) == SizesOf(s.lib)(v, l)
  {
    assert s.sizes(v, l) == EncodedSize(s.lib, v, l);
  }

  lemma SameCall(s: Setup, c: Child, id: Bytes, arguments: map<Bytes, Value>)
    requires Accepts(s)
    ensures ChildWriteCall(s.sizes, c, id, Some(arguments)) == ChildWriteCall(SizesOf(s.lib), c, id, Some(arguments))
  {
    if c.limits.Some? { SameSizes(s, Obj(arguments), c.limits.value); }
  }

  lemma SameFinal(s: Setup, c: Child, v: Value)
    requires Accepts(s)
    ensures ChildWriteFinal(s.sizes, c, v) == ChildWriteFinal(SizesOf(s.lib), c, v)
  {
    if c.limits.Some? { SameSizes(s, v, c.limits.value); }
  }

  lemma SameResult(s: Setup, p: Parent, v: Value)
    requires Accepts(s)
    ensures ParentWriteResult(s.sizes, p, v) == ParentWriteResult(SizesOf(s.lib), p, v)
  {
    if p.limits.Some? { SameSizes(s, v, p.limits.value); }
  }

  lemma SameAccepts(s: Setup, p: Parent, c: Child, f: Frame)
    requires Accepts(s)
    ensures ChildAccept(s.sizes, c, f) == ChildAccept(SizesOf(s.lib), c, f)
    ensures ParentAccept(s.sizes, p, f) == ParentAccept(SizesOf(s.lib), p, f)
  {
    if f.NativeResult? && c.limits.Some? { SameSizes(s, f.result, c.limits.value); }
    if f.NativeCall? && p.limits.Some? { SameSizes(s, f.arguments, p.limits.value); }
    if f.Final? && p.limits.Some? { SameSizes(s, f.result, p.limits.value); }
  }

  /** What a write method did, as the step system has it; `known` says that the pipe's bytes
      are those of the queue. */
  lemma WroteIsWrite<S>(s: Setup, attempt: Attempt<S>, before: S, after: S, bound: nat, broken: bool, queue: seq<Frame>,
                        was: Bytes, bytes: Bytes, err: Option<WireError>, known: bool)
    requires Accepts(s) && bound <= MAX_UINT32 && (attempt.Send? ==> !attempt.frame.Exec?)
    requires Admitted(s, queue, bound) && (known ==> was == OnWire(s, queue))
    requires Wrote(s.lib, s.printable, attempt, before, after, bound, broken, was, bytes, err)
    ensures var w := Write(s, attempt, before, bound, broken);
            && after == w.next && err == w.err && Admitted(s, queue + Queue(w.frame), bound)
            && (known ==> bytes == OnWire(s, queue + Queue(w.frame)))
  {
    assert queue + [] == queue;
    if attempt.Send? {
      assert s.refuse(attempt.frame, bound) == Oversized(Payload(s.lib, s.printable, attempt.frame), bound);
      OnWireAppend(s, queue, attempt.frame);
    }
  }

  /** The connections and the pipes are where the step system says. A stream is not read again
      after a read has failed, so its bytes are known only until then. */
  ghost predicate Mirrors(s: Setup, y: System, p: Parent, c: Child, down: Bytes, up: Bytes) {
    && p == y.parent && c == y.child
    && Admitted(s, y.toChild, s.parentCap) && Admitted(s, y.toParent, s.childCap)
    && (!y.lostReply ==> down == OnWire(s, y.toChild))
    && (!y.parentPhase.Returned? ==> up == OnWire(s, y.toParent))
  }

  lemma OnWireEmpty(s: Setup, cap: Cap)
    ensures OnWire(s, []) == [] && ReadFrame(OnWire(s, []), cap) == Failure(TruncatedFrame)
  {
    assert Payloads(s, []) == [];
  }

  /** What a read method did, in terms of the queue. */
  lemma TookFrame<S>(s: Setup, accept: Frame -> Result<S>, before: S, after: S, cap: nat, queue: seq<Frame>,
                     bytes: Bytes, r: Result<Frame>)
    requires Accepts(s) && cap <= MAX_UINT32 && queue != [] && Admitted(s, queue, cap)
    requires Took(s.lib, s.printable, accept, before, after, cap, OnWire(s, queue), bytes, r)
    ensures bytes == OnWire(s, queue[1..]) && Admitted(s, queue[1..], cap)
    ensures after == match s.receive(queue[0])
                     case Failure(_) => before
                     case Success(f) => if accept(f).Success? then accept(f).value else before
  {
    OnWireRead(s, queue, cap);
    var f := queue[0];
    assert s.receive(f) == DecodePayload(s.lib, s.printable, Payload(s.lib, s.printable, f));
  }

  // ----- each operation keeps the two in step -----

  /** The next state has the same engine counters and the same open output. */
  predicate SameEngine(y: System, next: System) {
    next.phase == y.phase && next.counter == y.counter && next.outputClosed == y.outputClosed
  }

  predicate Kept(y: System, next: System) { SameEngine(y, next) && InputBroken(next) == InputBroken(y) }

  lemma CallMirrors(s: Setup, y: System, id: Bytes, arguments: map<Bytes, Value>, p: Parent, c: Child, after: Child,
                    down: Bytes, up: Bytes, bytes: Bytes, err: Option<WireError>)
    requires Accepts(s) && y.childPhase.Running? && Mirrors(s, y, p, c, down, up)
    requires Wrote(s.lib, s.printable, ChildWriteCall(SizesOf(s.lib), c, id, Some(arguments)), c, after, s.childCap,
                   y.outputClosed, up, bytes, err)
    ensures Mirrors(s, Protocol.ForwardCall(s, y, id, arguments), p, after, down, bytes)
    ensures Kept(y, Protocol.ForwardCall(s, y, id, arguments))
  {
    SameCall(s, c, id, arguments);
    WroteIsWrite(s, ChildWriteCall(s.sizes, c, id, Some(arguments)), c, after, s.childCap, y.outputClosed, y.toParent,
                 up, bytes, err, !y.parentPhase.Returned?);
  }

  lemma ErrorMirrors(s: Setup, y: System, code: Code, detail: Bytes, p: Parent, c: Child, after: Child,
                     down: Bytes, up: Bytes, bytes: Bytes, err: Option<WireError>)
    requires Accepts(s) && Mirrors(s, y, p, c, down, up)
    requires Wrote(s.lib, s.printable, ChildWriteFinalError(c, code, detail), c, after, s.childCap,
                   y.outputClosed, up, bytes, err)
    ensures Mirrors(s, Protocol.WriteError(s, y, code, detail), p, after, down, bytes)
  {
    WroteIsWrite(s, ChildWriteFinalError(c, code, detail), c, after, s.childCap, y.outputClosed, y.toParent,
                 up, bytes, err, !y.parentPhase.Returned?);
  }

  /** writeFinal: a value that goes out, or one whose refusal leaves everything as it was. */
  lemma ValueMirrors(s: Setup, y: System, v: Value, p: Parent, c: Child, after: Child,
                     down: Bytes, up: Bytes, bytes: Bytes, err: Option<WireError>)
    requires Accepts(s) && Mirrors(s, y, p, c, down, up)
    requires Wrote(s.lib, s.printable, ChildWriteFinal(SizesOf(s.lib), c, v), c, after, s.childCap,
                   y.outputClosed, up, bytes, err)
    ensures err == Write(s, ChildWriteFinal(s.sizes, c, v), c, s.childCap, y.outputClosed).err
    ensures Mirrors(s, if err.None? then Protocol.WriteValue(s, y, v) else y, p, after, down, bytes)
  {
    SameFinal(s, c, v);
    assert y.toParent + [] == y.toParent;
    WroteIsWrite(s, ChildWriteFinal(s.sizes, c, v), c, after, s.childCap, y.outputClosed, y.toParent,
                 up, bytes, err, !y.parentPhase.Returned?);
  }

  /** writeFinalResult after a refusal. */
  lemma RefusedValue(s: Setup, y: System, v: Value, e: WireError, p: Parent, c: Child, down: Bytes, up: Bytes)
    requires Accepts(s) && Mirrors(s, y, p, c, down, up)
    requires Write(s, ChildWriteFinal(s.sizes, y.child, v), y.child, s.childCap, y.outputClosed).err == Some(e)
    ensures var next := Protocol.WriteValue(s, y, v);
            if FinalWriteCode(e).Some? then next == Protocol.WriteError(s, y, FinalWriteCode(e).value, [])
            else Mirrors(s, next, p, c, down, up) && next.childPhase.Exited? && SameEngine(y, next)
  {}

  /** What a receiving step makes of the connection. */
  ghost function ChildAfter(s: Setup, c: Child, f: Frame): Child {
    match s.receive(f)
    case Failure(_) => c
    case Success(g) => if ChildAccept(s.sizes, c, g).Success? then ChildAccept(s.sizes, c, g).value else c
  }

  ghost function ParentAfter(s: Setup, p: Parent, f: Frame): Parent {
    match s.receive(f)
    case Failure(_) => p
    case Success(g) => if ParentAccept(s.sizes, p, g).Success? then ParentAccept(s.sizes, p, g).value else p
  }

  /** A receiving step of the child touches its own connection and stream. */
  ghost predicate ChildTurn(s: Setup, y: System, next: System)
    requires y.toChild != []
  {
    && next.child == ChildAfter(s, y.child, y.toChild[0]) && next.toChild == y.toChild[1..]
    && next.parent == y.parent && next.toParent == y.toParent && next.parentPhase == y.parentPhase
    && Kept(y, next) && (y.lostReply ==> next.lostReply)
  }

  ghost predicate ParentTurn(s: Setup, y: System, next: System)
    requires y.toParent != []
  {
    && next.parent == ParentAfter(s, y.parent, y.toParent[0]) && next.toParent == y.toParent[1..]
    && next.child == y.child && next.toChild == y.toChild && next.lostReply == y.lostReply && Kept(y, next)
  }

  lemma ChildReceives(s: Setup, y: System, convertible: bool)
    requires Accepts(s) && y.childPhase.AwaitReply? && y.toChild != []
    ensures ChildTurn(s, y, StepChildReceive(s, y, convertible))
  {
    match s.receive(y.toChild[0])
    case Failure(_) => LostTurn(s, y, convertible);
    case Success(f) =>
      if ChildAccept(s.sizes, y.child, f).Failure? { LostTurn(s, y, convertible); }
      else if f.NativeResult? { ReplyTurn(s, y, convertible); } else { AbortTurn(s, y, convertible); }
  }

  lemma LostTurn(s: Setup, y: System, convertible: bool)
    requires Accepts(s) && y.childPhase.AwaitReply? && y.toChild != []
    requires s.receive(y.toChild[0]).Success? ==> ChildAccept(s.sizes, y.child, s.receive(y.toChild[0]).value).Failure?
    ensures ChildTurn(s, y, StepChildReceive(s, y, convertible))
  {}

  lemma ReplyTurn(s: Setup, y: System, convertible: bool)
    requires Accepts(s) && y.toChild != [] && y.childPhase.AwaitReply? && s.receive(y.toChild[0]).Success?
    requires ChildAccept(s.sizes, y.child, s.receive(y.toChild[0]).value).Success?
    requires s.receive(y.toChild[0]).value.NativeResult?
    ensures ChildTurn(s, y, StepChildReceive(s, y, convertible))
  {}

  lemma AbortTurn(s: Setup, y: System, convertible: bool)
    requires Accepts(s) && y.toChild != [] && y.childPhase.AwaitReply? && s.receive(y.toChild[0]).Success?
    requires ChildAccept(s.sizes, y.child, s.receive(y.toChild[0]).value).Success?
    requires !s.receive(y.toChild[0]).value.NativeResult?
    ensures ChildTurn(s, y, StepChildReceive(s, y, convertible))
  {}

  lemma ParentReceives(s: Setup, y: System)
    requires Accepts(s) && y.toParent != []
    ensures ParentTurn(s, y, StepParentReceive(s, y))
  {
    match s.receive(y.toParent[0])
    case Failure(_) => RejectTurn(s, y);
    case Success(f) =>
      if ParentAccept(s.sizes, y.parent, f).Failure? { RejectTurn(s, y); } else { AcceptTurn(s, y); }
  }

  lemma RejectTurn(s: Setup, y: System)
    requires Accepts(s) && y.toParent != []
    requires s.receive(y.toParent[0]).Success?
             ==> ParentAccept(s.sizes, y.parent, s.receive(y.toParent[0]).value).Failure?
    ensures ParentTurn(s, y, StepParentReceive(s, y))
  {}

  lemma AcceptTurn(s: Setup, y: System)
    requires Accepts(s) && y.toParent != []
    requires s.receive(y.toParent[0]).Success?
             && ParentAccept(s.sizes, y.parent, s.receive(y.toParent[0]).value).Success?
    ensures ParentTurn(s, y, StepParentReceive(s, y))
  {
    match s.receive(y.toParent[0]).value
    case NativeCall(_, _) => CallTurn(s, y);
    case Final(_) => FinalTurn(s, y);
    case FinalError(_, _) => FinalErrorTurn(s, y);
    case _ => OtherTurn(s, y);
  }

  lemma CallTurn(s: Setup, y: System)
    requires Accepts(s) && y.toParent != [] && s.receive(y.toParent[0]).Success?
    requires ParentAccept(s.sizes, y.parent, s.receive(y.toParent[0]).value).Success?
    requires s.receive(y.toParent[0]).value.NativeCall?
    ensures ParentTurn(s, y, StepParentReceive(s, y))
  {}

  lemma FinalTurn(s: Setup, y: System)
    requires Accepts(s) && y.toParent != [] && s.receive(y.toParent[0]).Success?
    requires ParentAccept(s.sizes, y.parent, s.receive(y.toParent[0]).value).Success?
    requires s.receive(y.toParent[0]).value.Final?
    ensures ParentTurn(s, y, StepParentReceive(s, y))
  {}

  lemma FinalErrorTurn(s: Setup, y: System)
    requires Accepts(s) && y.toParent != [] && s.receive(y.toParent[0]).Success?
    requires ParentAccept(s.sizes, y.parent, s.receive(y.toParent[0]).value).Success?
    requires s.receive(y.toParent[0]).value.FinalError?
    ensures ParentTurn(s, y, StepParentReceive(s, y))
  {}

  lemma OtherTurn(s: Setup, y: System)
    requires Accepts(s) && y.toParent != [] && s.receive(y.toParent[0]).Success?
    requires ParentAccept(s.sizes, y.parent, s.receive(y.toParent[0]).value).Success?
    requires var f := s.receive(y.toParent[0]).value; !f.NativeCall? && !f.Final? && !f.FinalError?
    ensures ParentTurn(s, y, StepParentReceive(s, y))
  {}

  lemma ChildTook(s: Setup, p: Parent, c: Child, after: Child, queue: seq<Frame>, bytes: Bytes, r: Result<Frame>)
    requires Accepts(s) && queue != [] && Admitted(s, queue, s.parentCap)
    requires Took(s.lib, s.printable, ChildAccepts(s.lib, c), c, after, s.parentCap, OnWire(s, queue), bytes, r)
    ensures bytes == OnWire(s, queue[1..]) && after == ChildAfter(s, c, queue[0])
  {
    TookFrame(s, ChildAccepts(s.lib, c), c, after, s.parentCap, queue, bytes, r);
    if s.receive(queue[0]).Success? { SameAccepts(s, p, c, s.receive(queue[0]).value); }
  }

  lemma ParentTook(s: Setup, p: Parent, after: Parent, c: Child, queue: seq<Frame>, bytes: Bytes, r: Result<Frame>)
    requires Accepts(s) && queue != [] && Admitted(s, queue, s.childCap)
    requires Took(s.lib, s.printable, ParentAccepts(s.lib, p), p, after, s.childCap, OnWire(s, queue), bytes, r)
    ensures bytes == OnWire(s, queue[1..]) && after == ParentAfter(s, p, queue[0])
  {
    TookFrame(s, ParentAccepts(s.lib, p), p, after, s.childCap, queue, bytes, r);
    if s.receive(queue[0]).Success? { SameAccepts(s, p, c, s.receive(queue[0]).value); }
  }

  lemma ReplyMirrors(s: Setup, y: System, next: System, p: Parent, c: Child, after: Child, down: Bytes, up: Bytes,
                     bytes: Bytes)
    requires y.toChild != [] && Mirrors(s, y, p, c, down, up)
    requires next.child == after && next.toChild == y.toChild[1..] && bytes == OnWire(s, next.toChild)
    requires next.parent == y.parent && next.toParent == y.toParent && next.parentPhase == y.parentPhase
    ensures Mirrors(s, next, p, after, bytes, up)
  {}

  lemma FrameMirrors(s: Setup, y: System, next: System, p: Parent, after: Parent, c: Child, down: Bytes, up: Bytes,
                     bytes: Bytes)
    requires y.toParent != [] && Mirrors(s, y, p, c, down, up)
    requires next.parent == after && next.toParent == y.toParent[1..] && bytes == OnWire(s, next.toParent)
    requires next.child == y.child && next.toChild == y.toChild && next.lostReply == y.lostReply
    ensures Mirrors(s, next, after, c, down, bytes)
  {}

  lemma AbortMirrors(s: Setup, y: System, e: ExecError, detail: Bytes, p: Parent, after: Parent, c: Child,
                     down: Bytes, up: Bytes, bytes: Bytes, err: Option<WireError>)
    requires Accepts(s) && y.parentPhase.Dispatching? && Mirrors(s, y, p, c, down, up)
    requires Wrote(s.lib, s.printable, ParentWriteAbort(p, detail), p, after, s.parentCap,
                   InputBroken(y), down, bytes, err)
    ensures Mirrors(s, Protocol.WriteAbort(s, y, e, detail), after, c, bytes, up)
    ensures Kept(y, Protocol.WriteAbort(s, y, e, detail))
  {
    WroteIsWrite(s, ParentWriteAbort(p, detail), p, after, s.parentCap, InputBroken(y), y.toChild,
                 down, bytes, err, !y.lostReply);
  }

  /** writeNativeResult: a result that goes out, or one whose refusal leaves everything as it was. */
  lemma ResultMirrors(s: Setup, y: System, v: Value, p: Parent, after: Parent, c: Child,
                      down: Bytes, up: Bytes, bytes: Bytes, err: Option<WireError>)
    requires Accepts(s) && y.parentPhase.Dispatching? && Mirrors(s, y, p, c, down, up)
    requires Wrote(s.lib, s.printable, ParentWriteResult(SizesOf(s.lib), p, v), p, after, s.parentCap,
                   InputBroken(y), down, bytes, err)
    ensures err == Write(s, ParentWriteResult(s.sizes, p, v), p, s.parentCap, InputBroken(y)).err
    ensures err.Some? ==> Mirrors(s, y, after, c, bytes, up)
    ensures err.None? ==> Mirrors(s, StepDispatchDone(s, y, DispatchOk(v)), after, c, bytes, up)
                          && Kept(y, StepDispatchDone(s, y, DispatchOk(v)))
  {
    SameResult(s, p, v);
    assert y.toChild + [] == y.toChild;
    WroteIsWrite(s, ParentWriteResult(s.sizes, p, v), p, after, s.parentCap, InputBroken(y), y.toChild,
                 down, bytes, err, !y.lostReply);
  }

  /** handleNative after a refusal. */
  lemma RefusedResult(s: Setup, y: System, v: Value, e: WireError, p: Parent, c: Child, down: Bytes, up: Bytes)
    requires Accepts(s) && Mirrors(s, y, p, c, down, up)
    requires Write(s, ParentWriteResult(s.sizes, y.parent, v), y.parent, s.parentCap, InputBroken(y)).err == Some(e)
    ensures var next := StepDispatchDone(s, y, DispatchOk(v));
            if e == InvalidValue || e == FrameTooLarge then next == Protocol.WriteAbort(s, y, ResourceLimit, [])
            else Mirrors(s, next, p, c, down, up) && Kept(y, next)
  {}

  /** What the operations need of the two sides; every state of a run has it. */
  ghost predicate Poised(y: System) {
    && (y.childPhase.AwaitReply? ==> y.child.state == AwaitNative && !y.lostReply)
    && (y.parentPhase.Reading? ==> y.parent.state == Ready)
  }

  lemma RunsArePoised(s: Setup, events: seq<Event>)
    requires Accepts(s)
    ensures Run(s, events).Some? ==> Poised(Run(s, events).value)
  {
    RunsAreSafe(s, events);
  }

  lemma PrefixStep(s: Setup, events: seq<Event>, n: nat)
    requires Accepts(s) && Run(s, events).Some? && n < |events|
    ensures Run(s, events[..n]).Some? && Enabled(s, Run(s, events[..n]).value, events[n])
    ensures Run(s, events[..n + 1]) == Some(Next(s, Run(s, events[..n]).value, events[n]))
  {
    SilenceLasts(s, events, n + 1);
    Prefixes(events, n + 1, n);
  }

  /** The parent has returned, and no stream was touched. */
  predicate JustReturned(y: System, next: System) {
    next == y.(parentPhase := next.parentPhase, illegal := next.illegal) && next.parentPhase.Returned?
  }

  lemma ReturnMirrors(s: Setup, y: System, next: System, p: Parent, c: Child, down: Bytes, up: Bytes)
    requires JustReturned(y, next) && Mirrors(s, y, p, c, down, up)
    ensures Mirrors(s, next, p, c, down, up) && Kept(y, next)
  {}

  lemma EofReturns(y: System)
    requires y.parentPhase.AwaitEof? || y.parentPhase.AbortEof?
    ensures JustReturned(y, StepParentEof(y))
  {}

  lemma ReturnIs(s: Setup, y: System, e: Event)
    requires Accepts(s) && Enabled(s, y, e) && (e.ParentReadEof? || e.ParentEof? || e.CancelWhileDispatching?)
    ensures JustReturned(y, Next(s, y, e))
  {
    if e.ParentReadEof? {
      assert JustReturned(y, ParentFails(y, TruncatedFrame));
    } else if e.ParentEof? {
      EofReturns(y);
    } else {
      assert JustReturned(y, y.(parentPhase := Returned(Killed(e.error))));
    }
  }

  predicate OfChild(e: Event) {
    e.BeginMain? || e.Call? || e.ChildReceive? || e.ChildReadEof? || e.ProgramEnds? || e.ChildDies?
  }

  class Link {
    const s: Setup
    const down: Pipe
    const up: Pipe
    const parent: ParentConn
    const child: ChildConn
    var phase: Phase
    var counter: nat

    /** The connections of an execution whose exec frame has been written and read. */
    constructor (s: Setup, down: Pipe, up: Pipe, parent: ParentConn, child: ChildConn)
      requires Accepts(s) && down != up && parent.w == down && parent.r == up && child.r == down && child.w == up
      requires parent.writeCap == child.parentReadCap == s.parentCap && parent.readCap == child.writeCap == s.childCap
      requires parent.State() == Start(s).parent && child.State() == Start(s).child
      requires down.bytes == up.bytes == [] && !down.broken && !up.broken
      ensures this.s == s && this.down == down && this.up == up && this.parent == parent && this.child == child
      ensures Coupled(Start(s))
    {
      this.s, this.down, this.up, this.parent, this.child := s, down, up, parent, child;
      phase, counter := Loading, 0;
      new;
      OnWireEmpty(s, 0);
    }

    ghost predicate Wired() {
      && down != up && parent.w == down && parent.r == up && child.r == down && child.w == up && Accepts(s)
      && parent.writeCap == child.parentReadCap == s.parentCap && parent.readCap == child.writeCap == s.childCap
    }

    /** The objects are where the step system is. */
    ghost predicate Coupled(y: System)
      reads this, down, up, parent, child
    {
      && Wired() && phase == y.phase && counter == y.counter
      && down.broken == InputBroken(y) && up.broken == y.outputClosed
      && Mirrors(s, y, parent.State(), child.State(), down.bytes, up.bytes)
    }

    /** nativeForwarder. */
    method ForwardCall(ghost y: System, id: Bytes, arguments: map<Bytes, Value>)
      requires Coupled(y) && y.childPhase.Running?
      modifies child, up
      ensures Coupled(Protocol.ForwardCall(s, y, id, arguments))
    {
      ghost var before, was := child.State(), up.bytes;
      var err := child.WriteNativeCall(s.lib, s.printable, id, Some(arguments));
      CallMirrors(s, y, id, arguments, y.parent, before, child.State(), down.bytes, was, up.bytes, err);
    }

    /** callCapability. */
    method CallCapability(ghost y: System, id: Bytes, binding: Binding)
      requires Coupled(y) && y.childPhase.Running?
      modifies this`counter, child, up
      ensures Coupled(StepCall(s, y, id, binding))
    {
      if phase != Main || counter >= s.limits.maxNativeCalls {
        return;
      }
      counter := counter + 1;
      if binding.Bound? {
        ForwardCall(y.(counter := counter), id, binding.arguments);
      }
    }

    /** writeExecutionError and the exit. */
    method WriteError(ghost y: System, code: Code, detail: Bytes)
      requires Coupled(y)
      modifies child, up, down
      ensures Coupled(Protocol.WriteError(s, y, code, detail))
    {
      ghost var before, was := child.State(), up.bytes;
      var err := child.WriteFinalError(s.lib, s.printable, code, detail);
      ErrorMirrors(s, y, code, detail, y.parent, before, child.State(), down.bytes, was, up.bytes, err);
      down.broken := true;
    }

    /** writeFinalResult and the exit. */
    method WriteValue(ghost y: System, v: Value)
      requires Coupled(y)
      modifies child, up, down
      ensures Coupled(Protocol.WriteValue(s, y, v))
    {
      ghost var before, was := child.State(), up.bytes;
      var err := child.WriteFinal(s.lib, s.printable, v);
      ValueMirrors(s, y, v, y.parent, before, child.State(), down.bytes, was, up.bytes, err);
      if err.Some? {
        ReportValue(y, v, err.value);
      } else {
        down.broken := true;
      }
    }

    /** finalWriteCode: what becomes of a value that was refused. */
    method ReportValue(ghost y: System, ghost v: Value, e: WireError)
      requires Coupled(y)
      requires Write(s, ChildWriteFinal(s.sizes, y.child, v), y.child, s.childCap, y.outputClosed).err == Some(e)
      modifies child, up, down
      ensures Coupled(Protocol.WriteValue(s, y, v))
    {
      RefusedValue(s, y, v, e, y.parent, y.child, down.bytes, up.bytes);
      if FinalWriteCode(e).Some? {
        WriteError(y, FinalWriteCode(e).value, []);
      } else {
        down.broken := true;
      }
    }

    /** The end of serveExec. */
    method EndProgram(ghost y: System, end: ProgramEnd)
      requires Coupled(y)
      modifies child, up, down
      ensures Coupled(StepProgramEnds(s, y, end))
    {
      if child.state == Finished {
        down.broken := true;
        return;
      }
      match end
      case EndError(code, detail) => WriteError(y, code, detail);
      case EndValue(v) => WriteValue(y, v);
    }

    /** The child reads its reply. */
    method ReceiveReply(ghost y: System, convertible: bool)
      requires Coupled(y) && Poised(y) && y.childPhase.AwaitReply? && y.toChild != []
      modifies child, down
      ensures Coupled(StepChildReceive(s, y, convertible))
    {
      ghost var before, was := child.State(), down.bytes;
      var r := child.Read(s.lib, s.printable);
      ghost var next := StepChildReceive(s, y, convertible);
      ChildTook(s, y.parent, before, child.State(), y.toChild, down.bytes, r);
      ChildReceives(s, y, convertible);
      ReplyMirrors(s, y, next, y.parent, before, child.State(), was, up.bytes, down.bytes);
    }

    /** The child finds its stream closed. */
    method MissReply(ghost y: System)
      requires Coupled(y) && Poised(y) && y.childPhase.AwaitReply? && y.toChild == []
      modifies child, down
      ensures Coupled(FailReply(y, TruncatedFrame))
    {
      OnWireEmpty(s, s.parentCap);
      var r := child.Read(s.lib, s.printable);
    }

    /** The parent reads the child's next frame. */
    method ReceiveFrame(ghost y: System)
      requires Coupled(y) && Poised(y) && y.parentPhase.Reading? && y.toParent != []
      modifies parent, up
      ensures Coupled(StepParentReceive(s, y))
    {
      ghost var before, was := parent.State(), up.bytes;
      var r := parent.Read(s.lib, s.printable);
      ghost var next := StepParentReceive(s, y);
      ParentTook(s, before, parent.State(), y.child, y.toParent, up.bytes, r);
      ParentReceives(s, y);
      FrameMirrors(s, y, next, before, parent.State(), y.child, down.bytes, was, up.bytes);
    }

    /** writeAbort. */
    method WriteAbort(ghost y: System, ghost e: ExecError, detail: Bytes)
      requires Coupled(y) && y.parentPhase.Dispatching?
      modifies parent, down
      ensures Coupled(Protocol.WriteAbort(s, y, e, detail))
    {
      ghost var before, was := parent.State(), down.bytes;
      var err := parent.WriteNativeAbort(s.lib, s.printable, detail);
      AbortMirrors(s, y, e, detail, before, parent.State(), y.child, was, up.bytes, down.bytes, err);
    }

    /** handleNative, once dispatch has answered. */
    method Answer(ghost y: System, result: DispatchResult)
      requires Coupled(y) && y.parentPhase.Dispatching?
      modifies parent, down
      ensures Coupled(StepDispatchDone(s, y, result))
    {
      match result
      case DispatchProtocol =>
      case DispatchErr(e, detail) => WriteAbort(y, e, AbortDetail(e, detail));
      case DispatchOk(v) => AnswerValue(y, v);
    }

    method AnswerValue(ghost y: System, v: Value)
      requires Coupled(y) && y.parentPhase.Dispatching?
      modifies parent, down
      ensures Coupled(StepDispatchDone(s, y, DispatchOk(v)))
    {
      ghost var before, was := parent.State(), down.bytes;
      var err := parent.WriteNativeResult(s.lib, s.printable, v);
      ResultMirrors(s, y, v, before, parent.State(), y.child, was, up.bytes, down.bytes, err);
      if err.Some? {
        RefuseResult(y, v, err.value);
      }
    }

    method RefuseResult(ghost y: System, ghost v: Value, e: WireError)
      requires Coupled(y) && y.parentPhase.Dispatching?
      requires Write(s, ParentWriteResult(s.sizes, y.parent, v), y.parent, s.parentCap, InputBroken(y)).err == Some(e)
      modifies parent, down
      ensures Coupled(StepDispatchDone(s, y, DispatchOk(v)))
    {
      RefusedResult(s, y, v, e, y.parent, y.child, down.bytes, up.bytes);
      if e == InvalidValue || e == FrameTooLarge {
        WriteAbort(y, ResourceLimit, []);
      }
    }

    method StepChild(ghost y: System, e: Event)
      requires Coupled(y) && Poised(y) && Enabled(s, y, e) && OfChild(e)
      modifies this`counter, this`phase, child, down, up
      ensures Coupled(Next(s, y, e))
    {
      match e
      case BeginMain => phase := Main;
      case Call(id, binding) => CallCapability(y, id, binding);
      case ChildReceive(convertible) => ReceiveReply(y, convertible);
      case ChildReadEof => MissReply(y);
      case ProgramEnds(end) => EndProgram(y, end);
      case ChildDies => down.broken := true;
      case _ =>
    }

    method StepParent(ghost y: System, e: Event)
      requires Coupled(y) && Poised(y) && Enabled(s, y, e) && (e.ParentReceive? || e.DispatchDone?)
      modifies parent, down, up
      ensures Coupled(Next(s, y, e))
    {
      if e.ParentReceive? {
        ReceiveFrame(y);
      } else {
        Answer(y, e.result);
      }
    }

    method StepReturn(ghost y: System, ghost e: Event)
      requires Coupled(y) && Enabled(s, y, e) && (e.ParentReadEof? || e.ParentEof? || e.CancelWhileDispatching?)
      ensures Coupled(Next(s, y, e))
    {
      ReturnIs(s, y, e);
      ReturnMirrors(s, y, Next(s, y, e), parent.State(), child.State(), down.bytes, up.bytes);
    }

    /** The host or the parent's cleanup closes both streams. */
    method Close(ghost y: System)
      requires Coupled(y)
      modifies down, up
      ensures Coupled(y.(inputClosed := true, outputClosed := true))
    {
      down.broken, up.broken := true, true;
    }

    /** A whole run: the objects end where the step system ends. */
    method Play(events: seq<Event>)
      requires Coupled(Start(s)) && Run(s, events).Some?
      modifies this`counter, this`phase, parent, child, down, up
      ensures Coupled(Run(s, events).value)
    {
      assert events[..0] == [];
      for n := 0 to |events|
        invariant Run(s, events[..n]).Some? && Coupled(Run(s, events[..n]).value)
      {
        PrefixStep(s, events, n);
        RunsArePoised(s, events[..n]);
        if OfChild(events[n]) {
          StepChild(Run(s, events[..n]).value, events[n]);
        } else if events[n].ParentReceive? || events[n].DispatchDone? {
          StepParent(Run(s, events[..n]).value, events[n]);
        } else if events[n].Cancel? || events[n].FinishSession? {
          Close(Run(s, events[..n]).value);
        } else {
          StepReturn(Run(s, events[..n]).value, events[n]);
        }
      }
      assert events[..|events|] == events;
    }
  }

  lemma ExecFrameRead(source: Bytes, l: ChildLimits, manifest: string)
    requires ValidLimits(l) && |source| <= l.maxSourceBytes && ExecBound(l.maxSourceBytes, manifest) <= MAX_UINT32
    ensures var payload := Utf8(ExecText(source, l, manifest));
            |payload| <= MAX_UINT32 && ReadFrame([] + Framed(payload), MAX_UINT32) == Success((payload, []))
  {
    var payload := Utf8(ExecText(source, l, manifest));
    ExecFrameFits(source, l, manifest);
    assert [] + Framed(payload) == Framed(payload) + [];
    FrameReadBack(payload, [], MAX_UINT32);
  }

  /** The parent writes the exec frame. */
  method Greet(s: Setup, source: Bytes, manifest: string) returns (down: Pipe, up: Pipe, parent: ParentConn)
    requires Accepts(s) && ExecFits(Parent(ExecConn, Init, 0, 0, None, s.budget), source, s.limits, manifest)
    ensures fresh(down) && fresh(up) && fresh(parent) && down != up && parent.w == down && parent.r == up
    ensures parent.writeCap == s.parentCap && parent.readCap == s.childCap && parent.State() == Start(s).parent
    ensures |Utf8(ExecText(source, s.limits, manifest))| <= MAX_UINT32
    ensures down.bytes == [] + Framed(Utf8(ExecText(source, s.limits, manifest)))
    ensures up.bytes == [] && !down.broken && !up.broken
  {
    down := new Pipe();
    up := new Pipe();
    parent := new ParentConn(down, up, s.parentCap, s.childCap, s.budget);
    var err := parent.WriteExec(source, s.limits, manifest);
  }

  /** The child reads it, and the two are where every run starts. */
  method Open(s: Setup, source: Bytes, manifest: string) returns (link: Link)
    requires Accepts(s) && ExecFits(Parent(ExecConn, Init, 0, 0, None, s.budget), source, s.limits, manifest)
    ensures fresh(link) && fresh(link.parent) && fresh(link.child) && fresh(link.down) && fresh(link.up)
    ensures link.s == s && link.Coupled(Start(s))
  {
    var down, up, parent := Greet(s, source, manifest);
    ExecFrameRead(source, s.limits, manifest);
    var exec := down.ReadNext(MAX_UINT32);
    var child := new ChildConn(down, up, s.parentCap, s.childCap, s.limits);
    link := new Link(s, down, up, parent, child);
  }
}
