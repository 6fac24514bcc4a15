/** The protocol of one execution seen from outside: the moves the two processes can make,
    whatever bytes and values are behind them, and what every move keeps. Protocol shows
    that each step of the real code is such a move. */
module Moves {
  import opened Text
  import opened Values
  import opened Wire
  import opened Codec
  import opened Frames
  import opened Streams
  import opened Caps
  import opened Conn

  /** What Execute starts with, after NewRunner computed both caps. `refuse` and `receive`
      name what the encoders, the stream and the decoders do to a frame (Accepts). */
  datatype Setup = Setup(lib: FloatLib, printable: char -> bool, limits: ChildLimits, ids: seq<Bytes>, budget: nat,
                         childCap: nat, parentCap: nat, sizes: Sizes,
                         refuse: (Frame, nat) -> Option<WireError>, receive: Frame -> Result<Frame>)

  /** The limits are legal and both cap functions succeed. */
  ghost predicate CapsComputed(lib: FloatLib, limits: ChildLimits, ids: seq<Bytes>) {
    && Faithful(lib) && ValidLimits(limits)
    && ChildBound(limits.maxValueBytes, ids) <= MAX_UINT32 && ParentBound(limits.maxValueBytes) <= MAX_UINT32
  }

  ghost predicate Accepts(s: Setup) {
    && Faithful(s.lib) && ValidLimits(s.limits) && s.childCap <= MAX_UINT32 && s.parentCap <= MAX_UINT32
    && (forall v: Value, l: ChildLimits {:trigger EncodedSize(s.lib, v, l)} ::
          s.sizes(v, l) == EncodedSize(s.lib, v, l))
    && (forall b: nat {:trigger ChildBound(b, s.ids)} :: b == s.limits.maxValueBytes
          ==> s.childCap == ChildBound(b, s.ids))
    && (forall b: nat {:trigger ParentBound(b)} :: b == s.limits.maxValueBytes ==> s.parentCap == ParentBound(b))
    && (forall f: Frame, n: nat {:trigger Payload(s.lib, s.printable, f), s.refuse(f, n)} ::
          !f.Exec? && n <= MAX_UINT32 ==> s.refuse(f, n) == Oversized(Payload(s.lib, s.printable, f), n))
    && (forall f: Frame {:trigger Payload(s.lib, s.printable, f)} :: !f.Exec? ==>
          s.receive(f) == DecodePayload(s.lib, s.printable, Payload(s.lib, s.printable, f)))
  }

  /** The setup of an execution under these limits. */
  ghost function MakeSetup(lib: FloatLib, printable: char -> bool, limits: ChildLimits, ids: seq<Bytes>,
                           budget: nat): (s: Setup)
    ensures s.lib == lib && s.printable == printable && s.limits == limits && s.ids == ids && s.budget == budget
    ensures CapsComputed(lib, limits, ids) ==> Accepts(s)
  {
    var n := if limits.maxValueBytes >= 0 then limits.maxValueBytes else 0;
    Setup(lib, printable, limits, ids, budget, ChildBound(n, ids), ParentBound(n), SizesOf(lib),
          (f: Frame, n: nat) => if f.Exec? || n > MAX_UINT32 then None else Oversized(Payload(lib, printable, f), n),
          (f: Frame) => if f.Exec? then Failure(IllegalState)
                        else DecodePayload(lib, printable, Payload(lib, printable, f)))
  }

  /** What a reader makes of a frame in flight. */
  lemma Receives(s: Setup, f: Frame)
    requires Accepts(s) && Writable(f)
    ensures s.receive(f) == Received(s.lib, s.printable, f)
  {
    DecodeOfPayload(s.lib, s.printable, f);
    assert s.receive(f) == DecodePayload(s.lib, s.printable, Payload(s.lib, s.printable, f));
  }

  /** The frames the two sides write under these limits. */
  predicate Encodes(s: Setup, f: Frame) {
    match f
    case NativeCall(id, arguments) => id != [] && arguments.Obj? && s.sizes(arguments, s.limits).Success?
    case NativeResult(result) => s.sizes(result, s.limits).Success?
    case Final(result) => s.sizes(result, s.limits).Success?
    case NativeAbort(_) => true
    case FinalError(_, _) => true
    case _ => false
  }

  lemma EncodesWritable(s: Setup, f: Frame)
    requires Accepts(s) && Encodes(s, f)
    ensures Writable(f)
    ensures f.NativeCall? || f.NativeResult? || f.Final?
            ==> Bounded(s.lib, TreeOf(f), s.limits) && SizeOf(s, TreeOf(f)) == |Body(s.lib, TreeOf(f))|
  {
    assert s.sizes(TreeOf(f), s.limits) == EncodedSize(s.lib, TreeOf(f), s.limits);
  }

  /** A frame arrives as a frame of its kind, or fails to decode. */
  lemma ReceivesKind(s: Setup, f: Frame)
    requires Accepts(s) && Encodes(s, f)
    ensures match s.receive(f)
            case Failure(e) => e != IllegalState
            case Success(g) =>
              && (f.NativeCall? <==> g.NativeCall?) && (f.NativeResult? <==> g.NativeResult?)
              && (f.NativeAbort? <==> g.NativeAbort?)
                               && (f.Final? <==> g.Final?) && (f.FinalError? <==> g.FinalError?)
  {
    EncodesWritable(s, f);
    Receives(s, f);
  }

  datatype ExecError =
    | InvalidProgram | InvalidArguments | PermissionDenied | PolicyFailure | CapabilityFailure
    | ResourceLimit | Internal | Canceled

  /** execOutcome. */
  datatype Outcome = Outcome(value: Option<Value>, err: Option<ExecError>, retained: Option<ExecError>, kill: bool)

  function Killed(e: ExecError): Outcome { Outcome(None, Some(e), None, true) }

  datatype ParentPhase =
    | Reading
    | Dispatching
    | AwaitEof(outcome: Outcome)
    | AbortEof(outcome: Outcome)
    | Returned(outcome: Outcome)

  /** Running covers the whole interpreter run; Unwinding is a run that can only fail. */
  datatype ChildPhase = Running | AwaitReply | Unwinding | Exited

  datatype Phase = Loading | Main

  datatype System = System(
    parent: Parent, parentPhase: ParentPhase,
    child: Child, childPhase: ChildPhase,
    phase: Phase, counter: nat,
    toChild: seq<Frame>, toParent: seq<Frame>,
    inputClosed: bool, outputClosed: bool,
    lostReply: bool,
    illegal: bool,
    fromChild: seq<Frame>,
    dispatched: seq<Frame>,
    delivered: seq<Value>,
    seen: seq<Value>,
    aborted: bool)

  /** After writeExec was read and decoded: both sides ready, nothing in flight. */
  function Start(s: Setup): System {
    System(Parent(ExecConn, Ready, 0, s.limits.maxNativeCalls, Some(s.limits), s.budget), Reading,
           Child(ExecConn, Ready, 0, Some(s.limits)), Running, Loading, 0,
           [], [], false, false, false, false, [], [], [], [], false)
  }

  predicate Terminal(f: Frame) { f.Final? || f.FinalError? }

  /** One abstract move and what it carries. EndIllegally is the terminal write of a child that
      lost its reply: its connection still waits for that reply and refuses the write. */
  datatype Move =
    | EnterMain
    | Unwind(counted: bool)
    | SendCall(frame: Frame)
    | GetResult(value: Value, convertible: bool)
    | GetAbort
    | LoseReply(consumed: bool)
    | SendTerminal(frame: Frame)
    | Exit
    | EndIllegally
    | AcceptCall(frame: Frame)
    | AcceptEnd(outcome: Outcome)
    | Reject
    | Return(outcome: Outcome)
    | SendResult(value: Value)
    | SendAbort(detail: Bytes, outcome: Outcome)
    | DropAbort(outcome: Outcome)
    | Close

  /** The body bytes of a value that may be sent. */
  function SizeOf(s: Setup, v: Value): nat { if s.sizes(v, s.limits).Success? then s.sizes(v, s.limits).value else 0 }

  predicate InputBroken(y: System) { y.inputClosed || y.childPhase.Exited? }

  /** When a move may be made. */
  ghost predicate Legal(s: Setup, y: System, m: Move) {
    match m
    case EnterMain => y.childPhase.Running?
    case Unwind(counted) => y.childPhase.Running? && (counted ==> y.counter < s.limits.maxNativeCalls)
    case SendCall(f) => y.childPhase.Running? && y.counter < s.limits.maxNativeCalls && f.NativeCall? && Encodes(s, f)
    case GetResult(v, _) =>
      y.childPhase.AwaitReply? && y.toChild != [] && y.toChild[0].NativeResult?
        && s.receive(y.toChild[0]) == Success(NativeResult(v))
    case GetAbort => y.childPhase.AwaitReply? && y.toChild != [] && y.toChild[0].NativeAbort?
    case LoseReply(consumed) =>
      y.childPhase.AwaitReply? && if consumed then y.toChild != [] else y.toChild == [] && y.inputClosed
    case SendTerminal(f) =>
      (y.childPhase.Running? || y.childPhase.Unwinding?) && y.child.state == Ready && Terminal(f) && Encodes(s, f)
    case Exit => true
    case EndIllegally => y.childPhase.Unwinding? && y.lostReply
    case AcceptCall(f) =>
      y.parentPhase.Reading? && y.toParent != [] && y.toParent[0].NativeCall? && s.receive(y.toParent[0]) == Success(f)
    case AcceptEnd(out) =>
      && y.parentPhase.Reading? && y.toParent != [] && Terminal(y.toParent[0])
      && (out.value.Some? ==> s.receive(y.toParent[0]) == Success(Final(out.value.value)))
    case Reject => y.parentPhase.Reading? && y.toParent != []
    case Return(out) =>
      out.value.None? || ((y.parentPhase.AwaitEof? || y.parentPhase.AbortEof?) && out == y.parentPhase.outcome)
    case SendResult(v) =>
      y.parentPhase.Dispatching? && !InputBroken(y) && s.sizes(v, s.limits).Success?
        && SizeOf(s, v) <= y.parent.remainingIntermediate
    case SendAbort(_, out) => y.parentPhase.Dispatching? && !InputBroken(y) && out.value.None?
    case DropAbort(out) => y.parentPhase.Dispatching? && InputBroken(y) && out.value.None?
    case Close => true
  }

  ghost function Apply(s: Setup, y: System, m: Move): System {
    match m
    case EnterMain => y.(phase := Main)
    case Unwind(counted) => y.(counter := if counted then y.counter + 1 else y.counter, childPhase := Unwinding)
    case SendCall(f) =>
      y.(counter := y.counter + 1, child := y.child.(nativeCalls := y.child.nativeCalls + 1, state := AwaitNative),
         childPhase := AwaitReply,
         toParent := y.toParent + [f], fromChild := y.fromChild + [f])
    case GetResult(v, convertible) =>
      y.(toChild := if y.toChild == [] then [] else y.toChild[1..], child := y.child.(state := Ready),
         childPhase := if convertible then Running else Unwinding, seen := y.seen + [v])
    case GetAbort =>
      y.(toChild := if y.toChild == [] then [] else y.toChild[1..], child := y.child.(state := Finished),
                                                    childPhase := Unwinding)
    case LoseReply(consumed) =>
      y.(toChild := if consumed && y.toChild != [] then y.toChild[1..] else y.toChild, childPhase := Unwinding,
                                                                            lostReply := true)
    case SendTerminal(f) =>
      y.(child := y.child.(state := Finished), childPhase := Exited, toParent := y.toParent + [f],
         fromChild := y.fromChild + [f])
    case Exit => y.(childPhase := Exited)
    case EndIllegally => y.(childPhase := Exited, illegal := true)
    case AcceptCall(f) =>
      y.(toParent := if y.toParent == [] then [] else y.toParent[1..],
         parent := y.parent.(nativeCalls := y.parent.nativeCalls + 1, state := AwaitNative),
         parentPhase := Dispatching, dispatched := y.dispatched + [f])
    case AcceptEnd(out) =>
      y.(toParent := if y.toParent == [] then [] else y.toParent[1..], parent := y.parent.(state := Finished),
                                                      parentPhase := AwaitEof(out))
    case Reject =>
      y.(toParent := if y.toParent == [] then [] else y.toParent[1..], parentPhase := Returned(Killed(Internal)))
    case Return(out) => y.(parentPhase := Returned(out))
    case SendResult(v) =>
      y.(parent := y.parent.(state := Ready, remainingIntermediate := y.parent.remainingIntermediate - SizeOf(s, v)),
         parentPhase := Reading,
         toChild := y.toChild + [NativeResult(v)], delivered := y.delivered + [v])
    case SendAbort(detail, out) =>
      y.(parent := y.parent.(state := Finished), parentPhase := AbortEof(out),
         toChild := y.toChild + [NativeAbort(detail)], aborted := true)
    case DropAbort(out) => y.(parentPhase := AbortEof(out))
    case Close => y.(inputClosed := true, outputClosed := true)
  }

  // ----- what every move keeps -----

  /** The connections keep the setup's limits, the counters are ordered, and no operation was
      refused as illegal before a lost reply ended the child. */
  ghost predicate Counted(s: Setup, y: System) {
    && y.parent.kind == ExecConn && y.parent.limits == Some(s.limits)
    && y.parent.maxNativeCalls == s.limits.maxNativeCalls
    && y.child.kind == ExecConn && y.child.limits == Some(s.limits)
    && y.parent.nativeCalls <= y.child.nativeCalls <= y.counter <= s.limits.maxNativeCalls
    && (y.illegal ==> y.lostReply && y.childPhase.Exited?)
  }

  /** At most one frame is in flight, and the two connection states agree about it. */
  ghost predicate Synchronized(s: Setup, y: System) {
    && |y.toChild| + |y.toParent| <= 1
    && (y.toParent != [] ==> Encodes(s, y.toParent[0]) && SendingUp(y, y.toParent[0]))
    && (y.toChild != [] ==> Encodes(s, y.toChild[0]) && SendingDown(y, y.toChild[0]))
    && (y.parentPhase.Reading? ==> y.parent.state == Ready)
    && (y.parentPhase.Dispatching? ==>
          y.parent.state == AwaitNative && y.toParent == [] && y.toChild == [] && y.child.state == AwaitNative
          && y.child.nativeCalls == y.parent.nativeCalls)
    && ChildConsistent(y)
  }

  ghost predicate SendingUp(y: System, f: Frame) {
    && y.parent.state == Ready
    && (f.NativeCall? ==> y.child.nativeCalls == y.parent.nativeCalls + 1 && y.child.state == AwaitNative)
    && (f.NativeCall? || (Terminal(f) && y.child.state == Finished))
  }

  ghost predicate SendingDown(y: System, f: Frame) {
    && y.child.state == AwaitNative && !y.lostReply && (y.childPhase.AwaitReply? || y.childPhase.Exited?)
    && ((f.NativeResult? && y.parent.state == Ready && y.child.nativeCalls == y.parent.nativeCalls)
        || (f.NativeAbort? && y.parent.state == Finished))
  }

  ghost predicate ChildConsistent(y: System) {
    && (y.child.state == Ready ==>
          y.parent.state == Ready && y.toParent == [] && y.toChild == [] && y.child.nativeCalls == y.parent.nativeCalls)
    && (y.childPhase.Running? ==> y.child.state == Ready)
    && (y.childPhase.AwaitReply? ==> y.child.state == AwaitNative && !y.lostReply)
    && (y.child.state == AwaitNative && y.childPhase.Unwinding? ==> y.lostReply)
    && (y.lostReply ==> y.child.state == AwaitNative && y.toChild == []
                        && (y.inputClosed || (y.toParent == [] && !y.parentPhase.Dispatching?)))
    && (y.child.state == Ready || y.child.state == AwaitNative || y.child.state == Finished)
  }

  ghost predicate Core(s: Setup, y: System) { Counted(s, y) && Synchronized(s, y) }

  /** The moves of the child; the others are the parent's or the host's. */
  predicate ByChild(m: Move) {
    m.EnterMain? || m.Unwind? || m.SendCall? || m.GetResult? || m.GetAbort? || m.LoseReply? || m.SendTerminal?
      || m.Exit?
    || m.EndIllegally?
  }

  lemma CoreChildMove(s: Setup, y: System, m: Move)
    requires Core(s, y) && Legal(s, y, m) && ByChild(m)
    ensures Core(s, Apply(s, y, m))
  {}

  lemma CoreParentMove(s: Setup, y: System, m: Move)
    requires Core(s, y) && Legal(s, y, m) && !ByChild(m)
    ensures Core(s, Apply(s, y, m))
  {}

  // ----- the history of a run -----

  /** The child's frames are one native_call per counted call and at most one terminal frame,
      which ends the child's writing; every dispatched call is what the parent received of
      the call written at that position. */
  ghost predicate Traced(s: Setup, y: System) {
    && (forall i :: 0 <= i < y.child.nativeCalls && i < |y.fromChild| ==> y.fromChild[i].NativeCall?)
    && (|y.fromChild| == y.child.nativeCalls || TerminalSent(y))
    && (y.toParent != [] ==> y.fromChild != [] && y.toParent[0] == y.fromChild[|y.fromChild| - 1])
    && (y.toParent != [] && Terminal(y.toParent[0]) ==> TerminalSent(y))
    && |y.dispatched| == y.parent.nativeCalls
    && (forall i :: 0 <= i < |y.dispatched|
          ==> i < |y.fromChild| && s.receive(y.fromChild[i]) == Success(y.dispatched[i]))
    && (y.aborted ==> y.parent.state == Finished && y.child.state != Ready)
  }

  ghost predicate TerminalSent(y: System) {
    && |y.fromChild| == y.child.nativeCalls + 1 && Terminal(y.fromChild[y.child.nativeCalls])
    && y.child.state == Finished && y.childPhase.Exited? && !y.aborted
  }

  lemma TracedChildMove(s: Setup, y: System, m: Move)
    requires Core(s, y) && Traced(s, y) && Legal(s, y, m) && ByChild(m)
    ensures Traced(s, Apply(s, y, m))
  {}

  lemma TracedParentMove(s: Setup, y: System, m: Move)
    requires Core(s, y) && Traced(s, y) && Legal(s, y, m) && !ByChild(m)
    ensures Traced(s, Apply(s, y, m))
  {}

  /** Results reach the program one for one, in order, as the wire delivers them. */
  ghost predicate Answered(s: Setup, y: System) {
    && |y.seen| <= |y.delivered|
    && (forall i :: 0 <= i < |y.delivered| ==> s.sizes(y.delivered[i], s.limits).Success?)
    && (forall i :: 0 <= i < |y.seen| ==> s.receive(NativeResult(y.delivered[i])) == Success(NativeResult(y.seen[i])))
    && (y.child.state == Ready || y.parentPhase.Dispatching? || y.toParent != [] ==> |y.seen| == |y.delivered|)
    && (y.toChild != [] && y.toChild[0].NativeResult? ==>
          |y.delivered| == |y.seen| + 1 && y.toChild[0].result == y.delivered[|y.seen|])
    && (y.toChild != [] && y.toChild[0].NativeAbort? ==> |y.seen| == |y.delivered|)
  }

  lemma AnsweredChildMove(s: Setup, y: System, m: Move)
    requires Core(s, y) && Answered(s, y) && Legal(s, y, m) && ByChild(m)
    ensures Answered(s, Apply(s, y, m))
  {}

  lemma AnsweredParentMove(s: Setup, y: System, m: Move)
    requires Core(s, y) && Answered(s, y) && Legal(s, y, m) && !ByChild(m)
    ensures Answered(s, Apply(s, y, m))
  {}

  ghost function Spent(s: Setup, delivered: seq<Value>): nat {
    if delivered == [] then 0 else Spent(s, delivered[..|delivered| - 1]) + SizeOf(s, delivered[|delivered| - 1])
  }

  /** The intermediate budget is exactly what delivered bodies have not used, and never
      negative: rejected and aborted results cost nothing. */
  ghost predicate Budgeted(s: Setup, y: System) {
    y.parent.remainingIntermediate == s.budget - Spent(s, y.delivered) && y.parent.remainingIntermediate >= 0
  }

  lemma BudgetedMove(s: Setup, y: System, m: Move)
    requires Budgeted(s, y) && Legal(s, y, m)
    ensures Budgeted(s, Apply(s, y, m))
  {
    if m.SendResult? { assert (y.delivered + [m.value])[..|y.delivered|] == y.delivered; }
  }

  /** A reported value is what the parent received of the child's final frame. */
  ghost predicate Reported(s: Setup, y: System) {
    && (y.parentPhase.AwaitEof? || y.parentPhase.AbortEof? || y.parentPhase.Returned?
        ==> FromFinal(s, y, y.parentPhase.outcome))
    && (y.parentPhase.AwaitEof? ==> TerminalSent(y))
  }

  ghost predicate FromFinal(s: Setup, y: System, out: Outcome) {
    out.value.Some? ==> TerminalSent(y)
                        && s.receive(y.fromChild[y.child.nativeCalls]) == Success(Final(out.value.value))
  }

  lemma ReportedChildMove(s: Setup, y: System, m: Move)
    requires Core(s, y) && Traced(s, y) && Reported(s, y) && Legal(s, y, m) && ByChild(m)
    ensures Reported(s, Apply(s, y, m))
  {}

  lemma ReportedParentMove(s: Setup, y: System, m: Move)
    requires Core(s, y) && Traced(s, y) && Reported(s, y) && Legal(s, y, m) && !ByChild(m)
    ensures Reported(s, Apply(s, y, m))
  {}

  /** Whoever waits, waits for something: a reply is being computed, is on its way, or can
      no longer come; an unread frame has a parent to read it or one that has given up. */
  ghost predicate Waiting(y: System) {
    && (y.childPhase.AwaitReply? ==>
          y.toChild != [] || y.toParent != [] || y.parentPhase.Dispatching? || y.parentPhase.Returned? || y.inputClosed)
    && (y.toParent != [] ==> y.parentPhase.Reading? || y.parentPhase.Returned?)
    && (y.parentPhase.AwaitEof? ==> y.childPhase.Exited?)
    && (y.parentPhase.AwaitEof? || y.parentPhase.AbortEof? ==> y.parent.state != Ready)
  }

  lemma WaitingChildMove(s: Setup, y: System, m: Move)
    requires Core(s, y) && Waiting(y) && Legal(s, y, m) && ByChild(m)
    ensures Waiting(Apply(s, y, m))
  {}

  lemma WaitingParentMove(s: Setup, y: System, m: Move)
    requires Core(s, y) && Traced(s, y) && Waiting(y) && Legal(s, y, m) && !ByChild(m)
    ensures Waiting(Apply(s, y, m))
  {}

  /** Everything proved of a reachable state. */
  ghost predicate Safe(s: Setup, y: System) {
    Core(s, y) && Traced(s, y) && Answered(s, y) && Budgeted(s, y) && Reported(s, y) && Waiting(y)
  }

  lemma StartIsSafe(s: Setup)
    ensures Safe(s, Start(s))
  {}

  lemma SafeMove(s: Setup, y: System, m: Move)
    requires Safe(s, y) && Legal(s, y, m)
    ensures Safe(s, Apply(s, y, m))
  {
    BudgetedMove(s, y, m);
    if ByChild(m) {
      CoreChildMove(s, y, m);
      TracedChildMove(s, y, m);
      AnsweredChildMove(s, y, m);
      ReportedChildMove(s, y, m);
      WaitingChildMove(s, y, m);
    } else {
      CoreParentMove(s, y, m);
      TracedParentMove(s, y, m);
      AnsweredParentMove(s, y, m);
      ReportedParentMove(s, y, m);
      WaitingParentMove(s, y, m);
    }
  }
}
