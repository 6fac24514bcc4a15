/** Runs in which nobody cancels, no process dies and every string is valid UTF-8: then the
    two processes agree exactly on every value, and only the dispatcher can end a run early. */
module Delivery {
  import opened Text
  import opened Values
  import opened Wire
  import opened Codec
  import opened Frames
  import opened Conn
  import opened Moves
  import opened Protocol
  import opened History

  /** An event of an undisturbed run. */
  ghost predicate Undisturbed(e: Event) {
    match e
    case Cancel => false
    case CancelWhileDispatching(_) => false
    case ChildDies => false
    case Call(id, binding) => ValidUtf8(id) && (binding.Bound? ==> AllUtf8(Obj(binding.arguments)))
    case ProgramEnds(EndValue(v)) => AllUtf8(v)
    case ProgramEnds(EndError(_, detail)) => ValidUtf8(detail)
    case DispatchDone(DispatchOk(v)) => AllUtf8(v)
    case DispatchDone(DispatchProtocol) => false
    case _ => true
  }

  /** The frame arrives as the encoder kept it, and its value is within the limits. */
  ghost predicate Travels(s: Setup, f: Frame) {
    s.receive(f) == Success(AsKept(s.printable, f)) && Encodes(s, f)
  }

  lemma BoundedTravels(s: Setup, f: Frame)
    requires Accepts(s) && s.limits.maxValueDepth <= FRAME_NESTING && Encodes(s, f) && FrameUtf8(f)
    ensures Travels(s, f)
  {
    EncodesWritable(s, f);
    if f.NativeCall? || f.NativeResult? || f.Final? {
      DepthBoundsNesting(TreeOf(f), s.limits.maxValueDepth);
      NestedMonotone(TreeOf(f), s.limits.maxValueDepth, FRAME_NESTING);
    }
    FrameRoundTrip(s.lib, s.printable, f);
    assert s.receive(f) == DecodePayload(s.lib, s.printable, Payload(s.lib, s.printable, f));
  }

  /** What undisturbed runs keep beyond Safe. */
  ghost predicate Smooth(s: Setup, y: System) {
    && !y.lostReply
    && (y.inputClosed || y.outputClosed ==> Over(y))
    && (y.parentPhase.Returned? ==> y.childPhase.Exited? && !y.parentPhase.outcome.kill)
    && (y.parentPhase.AwaitEof? || y.parentPhase.AbortEof? ==> !y.parentPhase.outcome.kill)
    && (y.childPhase.Exited? ==> y.child.state == Finished)
    && (y.child.state == Finished ==> y.toParent != [] || y.parent.state == Finished)
    && (y.toParent != [] ==> Travels(s, y.toParent[0]) && !y.parentPhase.Returned?)
    && (y.toChild != [] ==> Travels(s, y.toChild[0]))
  }

  /** The moves an undisturbed run makes. */
  ghost predicate SmoothMove(s: Setup, y: System, m: Move) {
    match m
    case LoseReply(_) => false
    case Reject => false
    case DropAbort(_) => false
    case Exit => y.child.state == Finished
    case EndIllegally => false
    case SendCall(f) => Travels(s, f)
    case SendTerminal(f) => Travels(s, f)
    case SendResult(v) => Travels(s, NativeResult(v))
    case SendAbort(detail, out) => Travels(s, NativeAbort(detail)) && !out.kill
    case AcceptEnd(out) => !out.kill
    case Return(out) =>
      (y.parentPhase.AwaitEof? || y.parentPhase.AbortEof?) && out == y.parentPhase.outcome && y.childPhase.Exited?
    case Close => Over(y)
    case _ => true
  }

  lemma SmoothChildMove(s: Setup, y: System, m: Move)
    requires Core(s, y) && Waiting(y) && Smooth(s, y) && Legal(s, y, m) && SmoothMove(s, y, m) && ByChild(m)
    ensures Smooth(s, Apply(s, y, m))
  {}

  lemma SmoothParentMove(s: Setup, y: System, m: Move)
    requires Core(s, y) && Waiting(y) && Smooth(s, y) && Legal(s, y, m) && SmoothMove(s, y, m) && !ByChild(m)
    ensures Smooth(s, Apply(s, y, m))
  {}

  // Each undisturbed event is a smooth move.

  lemma SmoothCall(s: Setup, y: System, id: Bytes, binding: Binding)
    requires Accepts(s) && s.limits.maxValueDepth <= FRAME_NESTING && Core(s, y) && Smooth(s, y)
    requires Enabled(s, y, Call(id, binding)) && Undisturbed(Call(id, binding))
    ensures SmoothMove(s, y, CallMove(s, y, id, binding))
  {
    if binding.Bound? && s.sizes(Obj(binding.arguments), s.limits).Success? {
      BoundedTravels(s, NativeCall(id, Obj(binding.arguments)));
    }
  }

  lemma SmoothChildReceive(s: Setup, y: System, convertible: bool)
    requires Accepts(s) && Core(s, y) && Smooth(s, y) && Enabled(s, y, ChildReceive(convertible))
    ensures SmoothMove(s, y, ChildReceiveMove(s, y, convertible))
  {}

  lemma SmoothError(s: Setup, y: System, code: Code, detail: Bytes)
    requires Accepts(s) && s.limits.maxValueDepth <= FRAME_NESTING && Core(s, y) && y.child.state == Ready
             && !y.outputClosed && ValidUtf8(detail)
    ensures SmoothMove(s, y, ErrorMove(s, y, code, detail)) && ErrorMove(s, y, code, detail).SendTerminal?
  {
    NeverTooLarge(s, FinalError(code, detail));
    BoundedTravels(s, FinalError(code, detail));
  }

  lemma SmoothValue(s: Setup, y: System, v: Value)
    requires Accepts(s) && s.limits.maxValueDepth <= FRAME_NESTING && Core(s, y) && y.child.state == Ready
             && !y.outputClosed && AllUtf8(v)
    ensures SmoothMove(s, y, ValueMove(s, y, v)) && ValueMove(s, y, v).SendTerminal?
  {
    SmoothError(s, y, ResourceLimitCode, []);
    SmoothError(s, y, InvalidProgramCode, []);
    SizeErrors(s, v);
    if s.sizes(v, s.limits).Success? {
      NeverTooLarge(s, Final(v));
      BoundedTravels(s, Final(v));
    }
  }

  lemma SmoothEnd(s: Setup, y: System, end: ProgramEnd)
    requires Accepts(s) && s.limits.maxValueDepth <= FRAME_NESTING && Core(s, y) && Smooth(s, y)
    requires Enabled(s, y, ProgramEnds(end)) && Undisturbed(ProgramEnds(end))
    ensures SmoothMove(s, y, EndMove(s, y, end))
  {
    if y.child.state != Finished {
      match end
      case EndError(code, detail) => SmoothError(s, y, code, detail);
      case EndValue(v) => SmoothValue(s, y, v);
    }
  }

  lemma SmoothParentReceive(s: Setup, y: System)
    requires Accepts(s) && Core(s, y) && Smooth(s, y) && Enabled(s, y, ParentReceive)
    ensures SmoothMove(s, y, ParentReceiveMove(s, y))
  {}

  lemma SmoothAbort(s: Setup, y: System, e: ExecError, detail: Bytes)
    requires Accepts(s) && s.limits.maxValueDepth <= FRAME_NESTING && Core(s, y) && Smooth(s, y)
             && y.parentPhase.Dispatching?
    ensures SmoothMove(s, y, AbortMove(s, y, e, detail))
  {
    NeverTooLarge(s, NativeAbort(detail));
    BoundedTravels(s, NativeAbort(detail));
  }

  lemma SmoothDispatch(s: Setup, y: System, result: DispatchResult)
    requires Accepts(s) && s.limits.maxValueDepth <= FRAME_NESTING && Core(s, y) && Smooth(s, y)
    requires Enabled(s, y, DispatchDone(result)) && Undisturbed(DispatchDone(result))
    ensures SmoothMove(s, y, DispatchMove(s, y, result))
  {
    match result
    case DispatchErr(e, detail) => SmoothAbort(s, y, e, AbortDetail(e, detail));
    case DispatchOk(v) =>
      SmoothAbort(s, y, ResourceLimit, []);
      SizeErrors(s, v);
      if s.sizes(v, s.limits).Success? {
        NeverTooLarge(s, NativeResult(v));
        BoundedTravels(s, NativeResult(v));
      }
  }

  lemma SmoothStep(s: Setup, y: System, e: Event)
    requires Accepts(s) && s.limits.maxValueDepth <= FRAME_NESTING && Core(s, y) && Waiting(y) && Smooth(s, y)
    requires Enabled(s, y, e) && Undisturbed(e)
    ensures SmoothMove(s, y, MoveOf(s, y, e))
  {
    match e
    case Call(id, binding) => SmoothCall(s, y, id, binding);
    case ChildReceive(convertible) => SmoothChildReceive(s, y, convertible);
    case ProgramEnds(end) => SmoothEnd(s, y, end);
    case ParentReceive => SmoothParentReceive(s, y);
    case DispatchDone(result) => SmoothDispatch(s, y, result);
    case _ =>
  }

  lemma {:induction false} RunsAreSmooth(s: Setup, events: seq<Event>)
    requires Accepts(s) && s.limits.maxValueDepth <= FRAME_NESTING
    requires Run(s, events).Some? && forall i :: 0 <= i < |events| ==> Undisturbed(events[i])
    ensures Smooth(s, Run(s, events).value)
  {
    if events != [] {
      var n := |events| - 1;
      RunsAreSmooth(s, events[..n]);
      RunsAreSafe(s, events[..n]);
      var y := Run(s, events[..n]).value;
      StepIsMove(s, y, events[n]);
      SmoothStep(s, y, events[n]);
      if ByChild(MoveOf(s, y, events[n])) {
        SmoothChildMove(s, y, MoveOf(s, y, events[n]));
      } else {
        SmoothParentMove(s, y, MoveOf(s, y, events[n]));
      }
    }
  }

  /** Every frame and every result so far arrives as it was written. */
  ghost predicate Recorded(s: Setup, y: System) {
    && (forall i :: 0 <= i < |y.fromChild| ==> Travels(s, y.fromChild[i]))
    && (forall i :: 0 <= i < |y.delivered| ==> Travels(s, NativeResult(y.delivered[i])))
  }

  lemma RecordedMove(s: Setup, y: System, m: Move)
    requires Recorded(s, y) && SmoothMove(s, y, m)
    ensures Recorded(s, Apply(s, y, m))
  {}

  lemma {:induction false} RunsAreRecorded(s: Setup, events: seq<Event>)
    requires Accepts(s) && s.limits.maxValueDepth <= FRAME_NESTING
    requires Run(s, events).Some? && forall i :: 0 <= i < |events| ==> Undisturbed(events[i])
    ensures Recorded(s, Run(s, events).value)
  {
    if events != [] {
      var n := |events| - 1;
      RunsAreRecorded(s, events[..n]);
      RunsAreSmooth(s, events[..n]);
      RunsAreSafe(s, events[..n]);
      var y := Run(s, events[..n]).value;
      StepIsMove(s, y, events[n]);
      SmoothStep(s, y, events[n]);
      RecordedMove(s, y, MoveOf(s, y, events[n]));
    }
  }

  lemma StateAgrees(s: Setup, y: System)
    requires Safe(s, y) && Smooth(s, y) && Recorded(s, y)
    ensures Agreed(y)
  {
    forall i | 0 <= i < |y.dispatched| ensures y.dispatched[i] == y.fromChild[i] {
      assert Travels(s, y.fromChild[i]) && s.receive(y.fromChild[i]) == Success(y.dispatched[i]);
      assert y.fromChild[i].NativeCall?;
    }
    forall i | 0 <= i < |y.seen| ensures y.seen[i] == y.delivered[i] {
      assert Travels(s, NativeResult(y.delivered[i]));
    }
    if y.parentPhase.Returned? && y.parentPhase.outcome.value.Some? {
      assert Travels(s, y.fromChild[y.child.nativeCalls]);
      assert FromFinal(s, y, y.parentPhase.outcome);
    }
  }

  /** No read has failed; every dispatched call is the call the program bound, every result
      the program saw is the value the dispatcher returned, and a returned value is the
      program's final value. */
  ghost predicate Agreed(y: System) {
    && !y.lostReply
    && |y.dispatched| <= |y.fromChild| && (forall i :: 0 <= i < |y.dispatched| ==> y.dispatched[i] == y.fromChild[i])
    && |y.seen| <= |y.delivered| && (forall i :: 0 <= i < |y.seen| ==> y.seen[i] == y.delivered[i])
    && (y.parentPhase.Returned? ==> !y.parentPhase.outcome.kill)
    && (y.parentPhase.Returned? && y.parentPhase.outcome.value.Some? ==>
          y.fromChild != [] && y.fromChild[|y.fromChild| - 1] == Final(y.parentPhase.outcome.value.value))
  }

  /** In every state of an undisturbed run the two processes agree on every value, and the values
      are those of the program and of the dispatcher: dispatched call i is the call bound at event
      calls[i], result i that the program saw is the dispatcher's answer at event answers[i], calls
      and answers alternate, and a returned value is the one the program ended with. */
  lemma Agreement(s: Setup, events: seq<Event>) returns (calls: seq<nat>, answers: seq<nat>)
    requires Accepts(s) && s.limits.maxValueDepth <= FRAME_NESTING
    requires Run(s, events).Some? && forall i :: 0 <= i < |events| ==> Undisturbed(events[i])
    ensures Agreed(Run(s, events).value) && Faithfully(events, Run(s, events).value, calls, answers)
  {
    RunsAreSafe(s, events);
    RunsAreSmooth(s, events);
    RunsAreRecorded(s, events);
    StateAgrees(s, Run(s, events).value);
    calls, answers := HistoryOf(s, events);
    AgreedHistory(s, events, Run(s, events).value, calls, answers);
  }

  /** What was dispatched, seen and returned is what the events at these positions say. */
  predicate Faithfully(events: seq<Event>, y: System, calls: seq<nat>, answers: seq<nat>) {
    && Positions(calls, |events|) && Positions(answers, |events|) && Alternate(calls, answers)
    && |y.dispatched| <= |calls| && |y.seen| <= |answers|
    && (forall i :: 0 <= i < |y.dispatched| ==> Calls(events[calls[i]], y.dispatched[i]))
    && (forall i :: 0 <= i < |y.seen| ==> Answers(events[answers[i]], y.seen[i]))
    && (y.parentPhase.Returned? && y.parentPhase.outcome.value.Some? ==>
          ProgramEnds(EndValue(y.parentPhase.outcome.value.value)) in events)
  }

  lemma AgreedHistory(s: Setup, events: seq<Event>, y: System, calls: seq<nat>, answers: seq<nat>)
    requires Agreed(y) && Traced(s, y) && Alternate(calls, answers)
    requires WrittenAt(s, events, y.fromChild, calls) && AnsweredAt(events, y.delivered, answers)
    requires |y.dispatched| <= y.child.nativeCalls
    ensures Faithfully(events, y, calls, answers)
  {
    forall i | 0 <= i < |y.dispatched| ensures Calls(events[calls[i]], y.dispatched[i]) {
      assert Writes(s, events[calls[i]], y.fromChild[i]) && y.fromChild[i].NativeCall?;
    }
    forall i | 0 <= i < |y.seen| ensures Answers(events[answers[i]], y.seen[i]) {
      assert Answers(events[answers[i]], y.delivered[i]);
    }
    if y.parentPhase.Returned? && y.parentPhase.outcome.value.Some? {
      var last := |y.fromChild| - 1;
      assert Writes(s, events[calls[last]], y.fromChild[last]);
    }
  }

  // ----- why an undisturbed run fails -----

  /** The error the caller gets for each code of the child. */
  predicate SameClass(code: Code, e: ExecError) {
    || (code.InvalidProgramCode? && e.InvalidProgram?) || (code.InvalidArgumentsCode? && e.InvalidArguments?)
    || (code.ResourceLimitCode? && e.ResourceLimit?) || (code.InternalCode? && e.Internal?)
  }

  /** Event i is why the run fails with e: the program failed so, its value was over the byte
      limit, the dispatcher failed so, or its result did not fit the limits or what was left of
      the intermediate budget. */
  ghost predicate Explains(s: Setup, events: seq<Event>, i: nat, e: ExecError)
    requires Accepts(s) && i < |events|
  {
    Run(s, events[..i]).Some? &&
    match events[i]
    case ProgramEnds(EndError(code, _)) => SameClass(code, e)
    case ProgramEnds(EndValue(v)) => e.ResourceLimit? && !Bounded(s.lib, v, s.limits)
    case DispatchDone(DispatchErr(error, _)) => e == error
    case DispatchDone(DispatchOk(v)) =>
      e.ResourceLimit?
      && (!Bounded(s.lib, v, s.limits)
          || |Body(s.lib, v)| > Run(s, events[..i]).value.parent.remainingIntermediate)
    case _ => false
  }

  /** The error the parent has decided on, if it has: the child's, or one it retained itself. */
  function Decided(y: System): Option<ExecError> {
    if y.parentPhase.AwaitEof? || y.parentPhase.AbortEof? || y.parentPhase.Returned?
    then if y.parentPhase.outcome.retained.Some? then y.parentPhase.outcome.retained else y.parentPhase.outcome.err
    else None
  }

  lemma ReceivedFailure(s: Setup, y: System)
    requires Accepts(s) && Core(s, y) && Smooth(s, y) && Enabled(s, y, ParentReceive)
    requires Decided(StepParentReceive(s, y)).Some?
    ensures y.toParent[0].FinalError? && SameClass(y.toParent[0].code, Decided(StepParentReceive(s, y)).value)
  {
    SmoothParentReceive(s, y);
    ParentReceiveIsMove(s, y);
  }

  lemma DispatchFailure(s: Setup, y: System, result: DispatchResult)
    requires Accepts(s) && Core(s, y) && Enabled(s, y, DispatchDone(result)) && !result.DispatchProtocol?
    requires Smooth(s, y) && Decided(StepDispatchDone(s, y, result)).Some?
    ensures result.DispatchErr? ==> Decided(StepDispatchDone(s, y, result)) == Some(result.error)
    ensures result.DispatchOk? ==>
      && Decided(StepDispatchDone(s, y, result)) == Some(ResourceLimit)
      && (!Bounded(s.lib, result.value, s.limits)
          || |Body(s.lib, result.value)| > y.parent.remainingIntermediate)
  {
    if result.DispatchOk? {
      assert s.sizes(result.value, s.limits) == EncodedSize(s.lib, result.value, s.limits);
      if s.sizes(result.value, s.limits).Success? { NeverTooLarge(s, NativeResult(result.value)); }
    }
  }

  /** An event that decides nothing leaves what was decided. */
  lemma NothingDecided(s: Setup, y: System, e: Event)
    requires Accepts(s) && Core(s, y) && Smooth(s, y) && Enabled(s, y, e) && Undisturbed(e)
    requires SmoothMove(s, y, MoveOf(s, y, e)) && !e.ParentReceive? && !e.DispatchDone?
    ensures Decided(Next(s, y, e)) == Decided(y)
  {
    StepIsMove(s, y, e);
  }

  /** A terminal error was written by an event that explains it. */
  lemma WrittenIsExplained(s: Setup, events: seq<Event>, frames: seq<Frame>, writes: seq<nat>, e: ExecError)
    requires Accepts(s) && WrittenAt(s, events, frames, writes) && frames != []
    requires frames[|frames| - 1].FinalError? && SameClass(frames[|frames| - 1].code, e)
    requires forall i :: 0 <= i < |events| ==> Run(s, events[..i]).Some?
    ensures exists i :: 0 <= i < |events| && Explains(s, events, i, e)
  {
    var last := |frames| - 1;
    assert Writes(s, events[writes[last]], frames[last]);
    assert Explains(s, events, writes[last], e);
  }

  lemma ReceivedIsExplained(s: Setup, events: seq<Event>, y: System)
    requires Accepts(s) && Run(s, events) == Some(y) && Core(s, y) && Smooth(s, y) && Enabled(s, y, ParentReceive)
    requires Decided(StepParentReceive(s, y)).Some? && y.fromChild != []
             && y.toParent[0] == y.fromChild[|y.fromChild| - 1]
    ensures exists i :: 0 <= i < |events| && Explains(s, events, i, Decided(StepParentReceive(s, y)).value)
  {
    var writes, answers := HistoryOf(s, events);
    PrefixesRun(s, events);
    ReceivedFailure(s, y);
    WrittenIsExplained(s, events, y.fromChild, writes, Decided(StepParentReceive(s, y)).value);
  }

  lemma ExplainsLater(s: Setup, events: seq<Event>, n: nat, e: ExecError)
    requires Accepts(s) && n <= |events| && exists i :: 0 <= i < n && Explains(s, events[..n], i, e)
    ensures exists i :: 0 <= i < |events| && Explains(s, events, i, e)
  {
    var i :| 0 <= i < n && Explains(s, events[..n], i, e);
    assert events[..n][..i] == events[..i];
    assert Explains(s, events, i, e);
  }

  lemma PrefixesRun(s: Setup, events: seq<Event>)
    requires Accepts(s) && Run(s, events).Some?
    ensures forall i :: 0 <= i < |events| ==> Run(s, events[..i]).Some?
  {
    forall i | 0 <= i < |events| ensures Run(s, events[..i]).Some? { SilenceLasts(s, events, i); }
  }

  /** In every undisturbed run the error the parent decides on is explained by one event, class by
      class: no failure is invented, and none changes its class on the way. */
  lemma {:induction false} FailuresAreExplained(s: Setup, events: seq<Event>)
    requires Accepts(s) && s.limits.maxValueDepth <= FRAME_NESTING
    requires Run(s, events).Some? && forall i :: 0 <= i < |events| ==> Undisturbed(events[i])
    ensures Decided(Run(s, events).value).Some? ==>
              exists i :: 0 <= i < |events| && Explains(s, events, i, Decided(Run(s, events).value).value)
  {
    if events != [] {
      var n := |events| - 1;
      FailuresAreExplained(s, events[..n]);
      RunsAreSmooth(s, events[..n]);
      RunsAreSafe(s, events[..n]);
      FailureStep(s, events, Run(s, events[..n]).value);
    }
  }

  lemma FailureStep(s: Setup, events: seq<Event>, y: System)
    requires Accepts(s) && s.limits.maxValueDepth <= FRAME_NESTING && events != []
    requires var n := |events| - 1;
             && Run(s, events[..n]) == Some(y) && Enabled(s, y, events[n]) && Undisturbed(events[n])
             && (Decided(y).Some? ==> exists i :: 0 <= i < n && Explains(s, events[..n], i, Decided(y).value))
    requires Safe(s, y) && Smooth(s, y)
    ensures var next := Next(s, y, events[|events| - 1]);
            Decided(next).Some? ==> exists i :: 0 <= i < |events| && Explains(s, events, i, Decided(next).value)
  {
    var n := |events| - 1;
    var e := events[n];
    if Decided(Next(s, y, e)).Some? {
      if e.ParentReceive? {
        ReceivedIsExplained(s, events[..n], y);
        ExplainsLater(s, events, n, Decided(Next(s, y, e)).value);
      } else if e.DispatchDone? {
        DispatchFailure(s, y, e.result);
        assert Explains(s, events, n, Decided(Next(s, y, e)).value);
      } else {
        SmoothStep(s, y, e);
        NothingDecided(s, y, e);
        ExplainsLater(s, events, n, Decided(y).value);
      }
    }
  }
}
