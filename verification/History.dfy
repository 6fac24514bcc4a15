/** Runs read backwards: every frame on the wire and every result delivered comes from one event
    of the program or of the dispatcher, in order, and a call and its answer belong together. */
module History {
  import opened Text
  import opened Values
  import opened Wire
  import opened Codec
  import opened Converter
  import opened Frames
  import opened Streams
  import opened Caps
  import opened Conn
  import opened Moves
  import opened Protocol

  // ----- what an event may put on the wire -----

  /** The program calls a capability, its arguments bind, and the frame carries just those. */
  predicate Calls(e: Event, f: Frame) {
    e.Call? && e.binding.Bound? && f == NativeCall(e.id, Obj(e.binding.arguments))
  }

  /** The frame a final value becomes; one over the byte limit becomes a resource error. */
  ghost function ValueFrame(s: Setup, v: Value): Frame {
    if Bounded(s.lib, v, s.limits) then Final(v) else FinalError(ResourceLimitCode, [])
  }

  /** The program ends, and the frame says how. */
  ghost predicate Ends(s: Setup, e: Event, f: Frame) {
    e.ProgramEnds? &&
    match e.end
    case EndError(code, detail) => f == FinalError(code, detail)
    case EndValue(v) => f == ValueFrame(s, v)
  }

  ghost predicate Writes(s: Setup, e: Event, f: Frame) { Calls(e, f) || Ends(s, e, f) }

  /** The dispatcher answers a call with v. */
  predicate Answers(e: Event, v: Value) { e == DispatchDone(DispatchOk(v)) }

  // ----- one step -----

  /** The list gained nothing, or x at its end. */
  ghost predicate Gains<T(!new)>(before: seq<T>, after: seq<T>, x: T) { after == before + [x] }

  ghost predicate FramesOf(s: Setup, y: System, e: Event, next: System) {
    next.fromChild == y.fromChild || exists f :: Gains(y.fromChild, next.fromChild, f) && Writes(s, e, f)
  }

  ghost predicate ResultsOf(y: System, e: Event, next: System) {
    next.delivered == y.delivered || exists v :: Gains(y.delivered, next.delivered, v) && Answers(e, v)
  }

  lemma CallFrames(s: Setup, y: System, id: Bytes, binding: Binding)
    requires Accepts(s)
    ensures FramesOf(s, y, Call(id, binding), StepCall(s, y, id, binding))
    ensures StepCall(s, y, id, binding).delivered == y.delivered
  {
    if binding.Bound? {
      var f := NativeCall(id, Obj(binding.arguments));
      assert y.fromChild + [] == y.fromChild;
      assert Writes(s, Call(id, binding), f);
      var next := StepCall(s, y, id, binding);
      if next.fromChild != y.fromChild { assert Gains(y.fromChild, next.fromChild, f); }
    }
  }

  lemma ErrorFrames(s: Setup, y: System, code: Code, detail: Bytes)
    requires Accepts(s)
    ensures var next := WriteError(s, y, code, detail);
            && next.delivered == y.delivered
            && (next.fromChild == y.fromChild || next.fromChild == y.fromChild + [FinalError(code, detail)])
  {
    assert y.fromChild + [] == y.fromChild;
  }

  lemma SentFrame(s: Setup, y: System, v: Value)
    requires Accepts(s) && Bounded(s.lib, v, s.limits) && y.child.limits == Some(s.limits)
    ensures var w := Write(s, ChildWriteFinal(s.sizes, y.child, v), y.child, s.childCap, y.outputClosed);
            if w.err.Some? then FinalWriteCode(w.err.value).None?
            else Queue(w.frame) == [] || Queue(w.frame) == [Final(v)]
  {
    assert s.sizes(v, s.limits) == EncodedSize(s.lib, v, s.limits);
    NeverTooLarge(s, Final(v));
  }

  lemma SentValue(s: Setup, y: System, v: Value)
    requires Accepts(s) && Bounded(s.lib, v, s.limits) && y.child.limits == Some(s.limits)
    ensures var next := WriteValue(s, y, v);
            next.delivered == y.delivered
            && (next.fromChild == y.fromChild || next.fromChild == y.fromChild + [Final(v)])
  {
    SentFrame(s, y, v);
    assert y.fromChild + [] == y.fromChild;
  }

  lemma RefusedValue(s: Setup, y: System, v: Value)
    requires Accepts(s) && !Bounded(s.lib, v, s.limits) && y.child.limits == Some(s.limits)
    requires Accepted(v, s.limits.maxValueDepth, s.limits.maxValueBytes)
    ensures var next := WriteValue(s, y, v);
            next.delivered == y.delivered
            && (next.fromChild == y.fromChild || next.fromChild == y.fromChild + [FinalError(ResourceLimitCode, [])])
  {
    assert s.sizes(v, s.limits) == EncodedSize(s.lib, v, s.limits);
    ErrorFrames(s, y, ResourceLimitCode, []);
  }

  lemma ValueFrames(s: Setup, y: System, v: Value)
    requires Accepts(s) && Accepted(v, s.limits.maxValueDepth, s.limits.maxValueBytes)
    requires y.child.limits == Some(s.limits)
    ensures var next := WriteValue(s, y, v);
            next.delivered == y.delivered
            && (next.fromChild == y.fromChild || next.fromChild == y.fromChild + [ValueFrame(s, v)])
  {
    if Bounded(s.lib, v, s.limits) { SentValue(s, y, v); } else { RefusedValue(s, y, v); }
  }

  lemma EndFrames(s: Setup, y: System, end: ProgramEnd)
    requires Accepts(s) && Core(s, y) && Enabled(s, y, ProgramEnds(end))
    ensures FramesOf(s, y, ProgramEnds(end), StepProgramEnds(s, y, end))
    ensures StepProgramEnds(s, y, end).delivered == y.delivered
  {
    var next := StepProgramEnds(s, y, end);
    if y.child.state != Finished {
      var f := match end
        case EndError(code, detail) => FinalError(code, detail)
        case EndValue(v) => ValueFrame(s, v);
      match end {
        case EndError(code, detail) => ErrorFrames(s, y, code, detail);
        case EndValue(v) => ValueFrames(s, y, v);
      }
      assert Writes(s, ProgramEnds(end), f);
      if next.fromChild != y.fromChild { assert Gains(y.fromChild, next.fromChild, f); }
    }
  }

  lemma AnswerResults(s: Setup, y: System, result: DispatchResult)
    requires Accepts(s)
    ensures ResultsOf(y, DispatchDone(result), StepDispatchDone(s, y, result))
    ensures StepDispatchDone(s, y, result).fromChild == y.fromChild
  {
    var next := StepDispatchDone(s, y, result);
    if next.delivered != y.delivered {
      assert Gains(y.delivered, next.delivered, result.value) && Answers(DispatchDone(result), result.value);
    }
  }

  predicate Wrote(y: System, next: System) { next.fromChild != y.fromChild || next.delivered != y.delivered }

  lemma ChildReceiveWritesNothing(s: Setup, y: System, convertible: bool)
    requires Accepts(s) && y.toChild != []
    ensures !Wrote(y, StepChildReceive(s, y, convertible))
  {
    match s.receive(y.toChild[0])
    case Failure(_) =>
    case Success(f) => if ChildAccept(s.sizes, y.child, f).Success? {}
  }

  lemma ParentReceiveWritesNothing(s: Setup, y: System)
    requires Accepts(s) && y.toParent != []
    ensures !Wrote(y, StepParentReceive(s, y))
  {
    match s.receive(y.toParent[0])
    case Failure(_) =>
    case Success(f) => if ParentAccept(s.sizes, y.parent, f).Success? {}
  }

  lemma OtherWritesNothing(s: Setup, y: System, e: Event)
    requires Accepts(s) && Enabled(s, y, e) && !e.Call? && !e.ProgramEnds? && !e.DispatchDone?
    ensures !Wrote(y, Next(s, y, e))
  {
    match e
    case ChildReceive(convertible) => ChildReceiveWritesNothing(s, y, convertible);
    case ParentReceive => ParentReceiveWritesNothing(s, y);
    case _ =>
  }

  /** What one event adds to what was written, on either side. */
  lemma StepWrites(s: Setup, y: System, e: Event)
    requires Accepts(s) && Core(s, y) && Enabled(s, y, e)
    ensures FramesOf(s, y, e, Next(s, y, e)) && ResultsOf(y, e, Next(s, y, e))
  {
    match e
    case Call(id, binding) => CallFrames(s, y, id, binding);
    case ProgramEnds(end) => EndFrames(s, y, end);
    case DispatchDone(result) => AnswerResults(s, y, result);
    case _ => OtherWritesNothing(s, y, e);
  }

  // ----- whole runs -----

  /** Positions in increasing order, below n. */
  predicate Positions(at: seq<nat>, n: nat) {
    && (forall i :: 0 <= i < |at| ==> at[i] < n)
    && (forall i, j :: 0 <= i < j < |at| ==> at[i] < at[j])
  }

  /** Frame i was written at event at[i], and says what that event says. */
  ghost predicate WrittenAt(s: Setup, events: seq<Event>, frames: seq<Frame>, at: seq<nat>) {
    && |at| == |frames| && Positions(at, |events|)
    && forall i :: 0 <= i < |at| ==> Writes(s, events[at[i]], frames[i])
  }

  /** Value i is what the dispatcher answered at event at[i]. */
  ghost predicate AnsweredAt(events: seq<Event>, values: seq<Value>, at: seq<nat>) {
    && |at| == |values| && Positions(at, |events|)
    && forall i :: 0 <= i < |at| ==> Answers(events[at[i]], values[i])
  }

  /** Call, answer, call, answer: every answer lies between its call and whatever the child
      wrote next. */
  predicate Alternate(calls: seq<nat>, answers: seq<nat>) {
    && |answers| <= |calls|
    && (forall i :: 0 <= i < |answers| ==> calls[i] < answers[i])
    && (forall i, j :: 0 <= i < |answers| && i < j < |calls| ==> answers[i] < calls[j])
  }

  /** The parent has answered every call it counted but the one it is waiting on. */
  predicate Paired(y: System) {
    && |y.delivered| <= y.parent.nativeCalls
    && (y.parent.state == Ready ==> |y.delivered| == y.parent.nativeCalls)
    && (y.parent.state == AwaitNative ==> |y.delivered| + 1 == y.parent.nativeCalls)
  }

  lemma PairedMove(s: Setup, y: System, m: Move)
    requires Core(s, y) && Paired(y) && Legal(s, y, m)
    ensures Paired(Apply(s, y, m))
  {}

  lemma {:induction false} RunsArePaired(s: Setup, events: seq<Event>)
    requires Accepts(s) && Run(s, events).Some?
    ensures Paired(Run(s, events).value)
  {
    if events != [] {
      var n := |events| - 1;
      var y := Run(s, events[..n]).value;
      RunsArePaired(s, events[..n]);
      RunsAreSafe(s, events[..n]);
      StepIsMove(s, y, events[n]);
      PairedMove(s, y, MoveOf(s, y, events[n]));
    }
  }

  /** The moves of the parent's side. */
  predicate ParentMove(m: Move) {
    m.AcceptCall? || m.AcceptEnd? || m.Reject? || m.Return? || m.SendResult? || m.SendAbort? || m.DropAbort? || m.Close?
  }

  lemma ParentWritesNoFrame(s: Setup, y: System, m: Move)
    requires ParentMove(m)
    ensures Apply(s, y, m).fromChild == y.fromChild
  {
    match m
    case AcceptCall(_) =>
    case AcceptEnd(_) =>
    case Reject =>
    case Return(_) =>
    case SendResult(_) =>
    case SendAbort(_, _) =>
    case _ =>
  }

  lemma OnlyResultsAnswer(s: Setup, y: System, m: Move)
    requires ParentMove(m) && !m.SendResult?
    ensures Apply(s, y, m).delivered == y.delivered
  {
    match m
    case AcceptCall(_) =>
    case AcceptEnd(_) =>
    case Reject =>
    case Return(_) =>
    case SendAbort(_, _) =>
    case _ =>
  }

  lemma ChildAnswersNothing(s: Setup, y: System, m: Move)
    requires !ParentMove(m)
    ensures Apply(s, y, m).delivered == y.delivered
  {}

  lemma OtherMovesWriteNothing(s: Setup, y: System, m: Move)
    requires !ParentMove(m) && !m.SendCall? && !m.SendTerminal?
    ensures Apply(s, y, m).fromChild == y.fromChild
  {}

  /** The child writes only when every call was answered. */
  lemma WriteInTurn(s: Setup, y: System, m: Move)
    requires Core(s, y) && Traced(s, y) && Paired(y) && Legal(s, y, m) && (m.SendCall? || m.SendTerminal?)
    ensures |y.delivered| == |y.fromChild|
  {}

  /** The parent answers only a call that was written. */
  lemma AnswerInTurn(s: Setup, y: System, m: Move)
    requires Core(s, y) && Traced(s, y) && Paired(y) && Legal(s, y, m) && m.SendResult?
    ensures |y.delivered| + 1 == |y.fromChild|
  {}

  lemma InTurn(s: Setup, y: System, m: Move)
    requires Core(s, y) && Traced(s, y) && Paired(y) && Legal(s, y, m)
    ensures Apply(s, y, m).fromChild == y.fromChild || |y.delivered| == |y.fromChild|
    ensures Apply(s, y, m).delivered == y.delivered || |y.delivered| + 1 == |y.fromChild|
    ensures Apply(s, y, m).fromChild == y.fromChild || Apply(s, y, m).delivered == y.delivered
  {
    if ParentMove(m) {
      ParentWritesNoFrame(s, y, m);
      if m.SendResult? { AnswerInTurn(s, y, m); } else { OnlyResultsAnswer(s, y, m); }
    } else {
      ChildAnswersNothing(s, y, m);
      if m.SendCall? || m.SendTerminal? { WriteInTurn(s, y, m); } else { OtherMovesWriteNothing(s, y, m); }
    }
  }

  lemma WrittenStays(s: Setup, events: seq<Event>, frames: seq<Frame>, at: seq<nat>)
    requires events != [] && WrittenAt(s, events[..|events| - 1], frames, at)
    ensures WrittenAt(s, events, frames, at)
  {
    forall i | 0 <= i < |at| ensures Writes(s, events[at[i]], frames[i]) {
      assert Writes(s, events[..|events| - 1][at[i]], frames[i]);
    }
  }

  lemma WrittenMore(s: Setup, events: seq<Event>, before: seq<Frame>, after: seq<Frame>, at: seq<nat>)
    returns (more: seq<nat>)
    requires events != [] && WrittenAt(s, events[..|events| - 1], before, at)
    requires after == before || exists f :: Gains(before, after, f) && Writes(s, events[|events| - 1], f)
    ensures WrittenAt(s, events, after, more)
    ensures more == if after == before then at else at + [|events| - 1]
  {
    WrittenStays(s, events, before, at);
    if after == before { return at; }
    var n := |events| - 1;
    var f :| Gains(before, after, f) && Writes(s, events[n], f);
    more := at + [n];
    forall i | 0 <= i < |more| ensures Writes(s, events[more[i]], after[i]) {
      if i < |at| { assert Writes(s, events[at[i]], before[i]); }
    }
  }

  lemma AnsweredStays(events: seq<Event>, values: seq<Value>, at: seq<nat>)
    requires events != [] && AnsweredAt(events[..|events| - 1], values, at)
    ensures AnsweredAt(events, values, at)
  {
    forall i | 0 <= i < |at| ensures Answers(events[at[i]], values[i]) {
      assert Answers(events[..|events| - 1][at[i]], values[i]);
    }
  }

  lemma AnsweredMore(events: seq<Event>, before: seq<Value>, after: seq<Value>, at: seq<nat>)
    returns (more: seq<nat>)
    requires events != [] && AnsweredAt(events[..|events| - 1], before, at)
    requires after == before || exists v :: Gains(before, after, v) && Answers(events[|events| - 1], v)
    ensures AnsweredAt(events, after, more)
    ensures more == if after == before then at else at + [|events| - 1]
  {
    AnsweredStays(events, before, at);
    if after == before { return at; }
    var n := |events| - 1;
    var v :| Gains(before, after, v) && Answers(events[n], v);
    more := at + [n];
    forall i | 0 <= i < |more| ensures Answers(events[more[i]], after[i]) {
      if i < |at| { assert Answers(events[at[i]], before[i]); }
    }
  }

  lemma AlternateMore(calls: seq<nat>, answers: seq<nat>, n: nat, wrote: bool, answered: bool)
    requires Alternate(calls, answers) && Positions(calls, n) && Positions(answers, n) && !(wrote && answered)
    requires (wrote ==> |answers| == |calls|) && (answered ==> |answers| + 1 == |calls|)
    ensures Alternate(if wrote then calls + [n] else calls, if answered then answers + [n] else answers)
  {
    if wrote {
      assert Alternate(calls + [n], answers);
    } else if answered {
      assert Alternate(calls, answers + [n]);
    }
  }

  /** The whole history of a run: frame i of the child was written at event writes[i] and carries
      exactly what the program called or ended with there; result i was answered at event
      answers[i] and is the dispatcher's value there; and calls and answers alternate. */
  lemma {:induction false} HistoryOf(s: Setup, events: seq<Event>) returns (writes: seq<nat>, answers: seq<nat>)
    requires Accepts(s) && Run(s, events).Some?
    ensures WrittenAt(s, events, Run(s, events).value.fromChild, writes)
    ensures AnsweredAt(events, Run(s, events).value.delivered, answers)
    ensures Alternate(writes, answers)
  {
    if events == [] { return [], []; }
    var n := |events| - 1;
    var y, next := Run(s, events[..n]).value, Run(s, events).value;
    var w, a := HistoryOf(s, events[..n]);
    RunsArePaired(s, events[..n]);
    RunsAreSafe(s, events[..n]);
    StepWrites(s, y, events[n]);
    StepIsMove(s, y, events[n]);
    var m := MoveOf(s, y, events[n]);
    InTurn(s, y, m);
    writes := WrittenMore(s, events, y.fromChild, next.fromChild, w);
    answers := AnsweredMore(events, y.delivered, next.delivered, a);
    AlternateMore(w, a, n, next.fromChild != y.fromChild, next.delivered != y.delivered);
  }
}
