/** dispatch.go: one native call as a step system. The dispatcher, the policy goroutine, the
    handler goroutine and the context interleave freely. */
module Dispatch {
  import opened Text
  import opened Values
  import opened Schema
  import opened Binder
  import opened Rebinder

  datatype Context = Live | Canceled | DeadlineExceeded

  datatype Verdict = Allow | Deny | PolicyError | PolicyPanic

  /** How a handler ends. An output is known by number; an agent error carries its sanitized message. */
  datatype Outcome = Output(number: nat) | AgentError(detail: Bytes) | OtherError | InputMismatch | HandlerPanic

  datatype Conversion = Converts(value: Value) | OverLimit | Unconvertible

  datatype Failure =
    | CanceledFailure | DeadlineFailure | ProtocolFailure | PermissionDenied | PolicyFailure
      | CapabilityFailure(detail: Bytes)
    | InternalFailure | ResourceLimit

  datatype Answer = Result(value: Value) | Fails(failure: Failure)

  /** What is fixed for one call: how its arguments bind to an enabled entry, if there is one, and
      how its outputs convert under the remaining budget. */
  datatype Call = Call(bound: Option<Typed>, convert: nat -> Conversion)

  /** The binding of the arguments as dispatch finds it: LookupID, then Plan.BindValue. */
  ghost predicate Binds(c: Call, ops: FloatOps, plan: Plan, root: nat, enabled: bool, arguments: map<Bytes, Value>) {
    && PlanOk(plan) && root < |plan.nodes| && plan.nodes[root].kind == InputStruct
    && c.bound == if enabled then RebindStruct(ops, plan, root, arguments) else None
  }

  function ContextFailure(ctx: Context): Failure { if ctx.Canceled? then CanceledFailure else DeadlineFailure }

  /** authorize. */
  function VerdictFailure(v: Verdict): Failure { if v.Deny? then PermissionDenied else PolicyFailure }

  /** invoke's error classes, then ConvertOutput's. */
  function AnswerOf(c: Call, o: Outcome): Answer {
    match o
    case Output(n) =>
      (match c.convert(n)
       case Converts(v) => Result(v)
       case OverLimit => Fails(ResourceLimit)
       case Unconvertible => Fails(CapabilityFailure([])))
    case AgentError(detail) => Fails(CapabilityFailure(detail))
    case OtherError => Fails(CapabilityFailure([]))
    case InputMismatch => Fails(InternalFailure)
    case HandlerPanic => Fails(InternalFailure)
  }

  // ----- states -----

  /** Where dispatch stands. Between a check and what follows it anything may happen. */
  datatype Pc = Entering | Looking | Checking | Asking | AwaitingPolicy | PolicyPassed | Cleared | AwaitingHandler
    | Finishing | Returned(answer: Answer)

  datatype Event =
    | ContextEnded
    | Asked(arguments: Value)
    | Said(verdict: Verdict)
    | FoundLive
    | Started(input: GoInput)
    | Finished(outcome: Outcome)

  datatype Kind = EndedKind | AskedKind | SaidKind | LiveKind | StartedKind | FinishedKind

  function KindOf(e: Event): Kind {
    match e
    case ContextEnded => EndedKind
    case Asked(_) => AskedKind
    case Said(_) => SaidKind
    case FoundLive => LiveKind
    case Started(_) => StartedKind
    case Finished(_) => FinishedKind
  }

  /** The log is what happened; a mark is the position of the one event of its kind. */
  datatype State = State(pc: Pc, ctx: Context, log: seq<Event>, marks: map<Kind, nat>)

  function Initial(): State { State(Entering, Live, [], map[]) }

  function Happen(s: State, e: Event): State { s.(log := s.log + [e], marks := s.marks[KindOf(e) := |s.log|]) }

  datatype Action =
    | EndContext(kind: Context)
    | PolicyReturns(verdict: Verdict)
    | HandlerReturns(outcome: Outcome)
    | Proceed
    | TakeContext
    | TakeAnswer

  predicate Enabled(s: State, a: Action) {
    match a
    case EndContext(kind) => s.ctx.Live? && !kind.Live?
    case PolicyReturns(_) => AskedKind in s.marks && SaidKind !in s.marks
    case HandlerReturns(_) => StartedKind in s.marks && FinishedKind !in s.marks
    case Proceed => !s.pc.AwaitingPolicy? && !s.pc.AwaitingHandler? && !s.pc.Returned?
    case TakeContext => (s.pc.AwaitingPolicy? || s.pc.AwaitingHandler?) && !s.ctx.Live?
    case TakeAnswer =>
      (s.pc.AwaitingPolicy? && SaidKind in s.marks) || (s.pc.AwaitingHandler? && FinishedKind in s.marks)
  }

  function Return(s: State, answer: Answer): State { s.(pc := Returned(answer)) }

  function Fail(s: State, failure: Failure): State { Return(s, Fails(failure)) }

  /** contextFailure, then the next instruction. */
  function Check(s: State, next: Pc): State { if s.ctx.Live? then s.(pc := next) else Fail(s, ContextFailure(s.ctx)) }

  /** The event of a kind, if it has happened. */
  function EventOf(s: State, k: Kind): Option<Event> {
    if k in s.marks && s.marks[k] < |s.log| then Some(s.log[s.marks[k]]) else None
  }

  function VerdictOf(s: State): Option<Verdict> {
    var e := EventOf(s, SaidKind);
    if e.Some? && e.value.Said? then Some(e.value.verdict) else None
  }

  function OutcomeOf(s: State): Option<Outcome> {
    var e := EventOf(s, FinishedKind);
    if e.Some? && e.value.Finished? then Some(e.value.outcome) else None
  }

  /** dispatch's own next instruction. */
  ghost function Advance(c: Call, s: State): State
  {
    match s.pc
    case Entering => Check(s, Looking)
    case Looking => if c.bound.Some? then s.(pc := Checking) else Fail(s, ProtocolFailure)
    case Checking => Check(s, Asking)
    case Asking =>
      if c.bound.None? then s
      else Happen(s.(pc := AwaitingPolicy), Asked(c.bound.value.canonical))
    case PolicyPassed => if s.ctx.Live? then Happen(s.(pc := Cleared), FoundLive) else Fail(s, ContextFailure(s.ctx))
    case Cleared =>
      if c.bound.None? then s
      else Happen(s.(pc := AwaitingHandler), Started(c.bound.value.input))
    case Finishing =>
      if !s.ctx.Live? then Fail(s, ContextFailure(s.ctx))
      else if OutcomeOf(s).Some? then Return(s, AnswerOf(c, OutcomeOf(s).value))
      else s
    case _ => s
  }

  /** One step of anyone. */
  ghost function Apply(c: Call, s: State, a: Action): State
  {
    match a
    case EndContext(kind) => Happen(s.(ctx := kind), ContextEnded)
    case PolicyReturns(v) => Happen(s, Said(v))
    case HandlerReturns(o) => Happen(s, Finished(o))
    case Proceed => Advance(c, s)
    case TakeContext => Fail(s, ContextFailure(s.ctx))
    case TakeAnswer =>
      if s.pc.AwaitingHandler? then s.(pc := Finishing)
      else if VerdictOf(s) == Some(Allow) then s.(pc := PolicyPassed)
      else if VerdictOf(s).Some? then Fail(s, VerdictFailure(VerdictOf(s).value))
      else s
  }

  /** A run: every action enabled where it happens. */
  ghost predicate Run(c: Call, actions: seq<Action>)
  {
    actions == [] || (Run(c, actions[..|actions| - 1])
                      && Enabled(After(c, actions[..|actions| - 1]), actions[|actions| - 1]))
  }

  ghost function After(c: Call, actions: seq<Action>): State
  {
    if actions == [] then Initial() else Apply(c, After(c, actions[..|actions| - 1]), actions[|actions| - 1])
  }

  // ----- the invariant -----

  /** Every event is where the mark of its kind says, and every mark has its event. */
  ghost predicate Marked(s: State) {
    && (forall i :: 0 <= i < |s.log| ==> KindOf(s.log[i]) in s.marks && s.marks[KindOf(s.log[i])] == i)
    && (forall k :: k in s.marks ==> s.marks[k] < |s.log| && KindOf(s.log[s.marks[k]]) == k)
  }

  predicate Earlier(s: State, j: Kind, k: Kind) { k in s.marks ==> j in s.marks && s.marks[j] < s.marks[k] }

  function Stage(pc: Pc): nat {
    match pc
    case Entering => 0
    case Looking => 1
    case Checking => 2
    case Asking => 3
    case AwaitingPolicy => 4
    case PolicyPassed => 5
    case Cleared => 6
    case AwaitingHandler => 7
    case Finishing => 8
    case Returned(_) => 9
  }

  /** How the events are ordered, and what was asked and started. */
  ghost predicate Ordered(c: Call, s: State)
  {
    && (s.ctx.Live? <==> EndedKind !in s.marks)
    && Earlier(s, AskedKind, SaidKind) && Earlier(s, SaidKind, LiveKind) && Earlier(s, LiveKind, StartedKind)
    && Earlier(s, StartedKind, FinishedKind)
    && (LiveKind in s.marks ==> VerdictOf(s) == Some(Allow)
                                && (EndedKind in s.marks ==> s.marks[LiveKind] < s.marks[EndedKind]))
    && (AskedKind in s.marks ==> c.bound.Some? && EventOf(s, AskedKind) == Some(Asked(c.bound.value.canonical)))
    && (StartedKind in s.marks ==> c.bound.Some? && EventOf(s, StartedKind) == Some(Started(c.bound.value.input)))
  }

  /** What dispatch has behind it at every instruction. */
  ghost predicate Reached(c: Call, s: State)
  {
    && (2 <= Stage(s.pc) <= 8 ==> c.bound.Some?)
    && (Stage(s.pc) <= 3 ==> AskedKind !in s.marks) && (4 <= Stage(s.pc) <= 8 ==> AskedKind in s.marks)
    && (Stage(s.pc) <= 5 ==> LiveKind !in s.marks) && (6 <= Stage(s.pc) <= 8 ==> LiveKind in s.marks)
    && (5 <= Stage(s.pc) <= 8 ==> VerdictOf(s) == Some(Allow))
    && (Stage(s.pc) <= 6 ==> StartedKind !in s.marks) && (7 <= Stage(s.pc) <= 8 ==> StartedKind in s.marks)
    && (s.pc.Finishing? ==> FinishedKind in s.marks)
    && (s.pc.Returned? ==> Explained(c, s, s.pc.answer))
  }

  /** The answer a call deserves once everything it waits for has come. */
  ghost function Expected(c: Call, s: State): Option<Answer>
  {
    if c.bound.None? then Some(Fails(ProtocolFailure))
    else if VerdictOf(s).None? then None
    else if VerdictOf(s) != Some(Allow) then Some(Fails(VerdictFailure(VerdictOf(s).value)))
    else if OutcomeOf(s).None? then None
    else Some(AnswerOf(c, OutcomeOf(s).value))
  }

  /** An answer is the expected one, or the failure of a context that ended. */
  ghost predicate Explained(c: Call, s: State, answer: Answer)
  {
    (!s.ctx.Live? && answer == Fails(ContextFailure(s.ctx))) || Expected(c, s) == Some(answer)
  }

  ghost predicate Sound(c: Call, s: State)
  {
    Marked(s) && Ordered(c, s) && Reached(c, s)
  }

  /** A new event leaves every earlier one where it was. */
  lemma HappenMarks(s: State, e: Event)
    requires Marked(s) && KindOf(e) !in s.marks
    ensures Marked(Happen(s, e))
    ensures forall k :: EventOf(Happen(s, e), k) == if k == KindOf(e) then Some(e) else EventOf(s, k)
  {}

  lemma EndStep(c: Call, s: State, kind: Context)
    requires Sound(c, s) && s.ctx.Live? && !kind.Live?
    ensures Sound(c, Happen(s.(ctx := kind), ContextEnded))
  {
    HappenMarks(s.(ctx := kind), ContextEnded);
  }

  lemma SayStep(c: Call, s: State, v: Verdict)
    requires Sound(c, s) && AskedKind in s.marks && SaidKind !in s.marks
    ensures Sound(c, Happen(s, Said(v)))
  {
    HappenMarks(s, Said(v));
  }

  lemma FinishStep(c: Call, s: State, o: Outcome)
    requires Sound(c, s) && StartedKind in s.marks && FinishedKind !in s.marks
    ensures Sound(c, Happen(s, Finished(o)))
  {
    HappenMarks(s, Finished(o));
  }

  /** An outside event keeps everything. */
  lemma OutsideStep(c: Call, s: State, a: Action)
    requires Sound(c, s) && Enabled(s, a) && (a.EndContext? || a.PolicyReturns? || a.HandlerReturns?)
    ensures Sound(c, Apply(c, s, a))
  {
    match a
    case EndContext(kind) => EndStep(c, s, kind);
    case PolicyReturns(v) => SayStep(c, s, v);
    case HandlerReturns(o) => FinishStep(c, s, o);
  }

  /** An instruction that logs nothing leaves the order of events alone. */
  lemma Moved(c: Call, s: State, pc: Pc)
    requires Sound(c, s) && Reached(c, s.(pc := pc))
    ensures Sound(c, s.(pc := pc))
  {}

  lemma ReturnStep(c: Call, s: State, answer: Answer)
    requires Sound(c, s) && Explained(c, s, answer)
    ensures Sound(c, Return(s, answer))
  {
    Moved(c, s, Returned(answer));
  }

  lemma CheckStep(c: Call, s: State, next: Pc)
    requires Sound(c, s) && (s.ctx.Live? ==> Reached(c, s.(pc := next)))
    ensures Sound(c, Check(s, next))
  {
    if s.ctx.Live? { Moved(c, s, next); } else { ReturnStep(c, s, Fails(ContextFailure(s.ctx))); }
  }

  lemma AskStep(c: Call, s: State)
    requires Sound(c, s) && s.pc.Asking?
    ensures Sound(c, Advance(c, s))
  {
    HappenMarks(s, Asked(c.bound.value.canonical));
  }

  lemma ClearStep(c: Call, s: State)
    requires Sound(c, s) && s.pc.PolicyPassed?
    ensures Sound(c, Advance(c, s))
  {
    HappenMarks(s, FoundLive);
  }

  lemma StartStep(c: Call, s: State)
    requires Sound(c, s) && s.pc.Cleared?
    ensures Sound(c, Advance(c, s))
  {
    HappenMarks(s, Started(c.bound.value.input));
  }

  lemma LookStep(c: Call, s: State)
    requires Sound(c, s) && Stage(s.pc) <= 2
    ensures Sound(c, Advance(c, s))
  {
    if s.pc.Entering? { CheckStep(c, s, Looking); }
    else if s.pc.Checking? { CheckStep(c, s, Asking); }
    else if c.bound.Some? { Moved(c, s, Checking); }
    else { ReturnStep(c, s, Fails(ProtocolFailure)); }
  }

  lemma EndingStep(c: Call, s: State)
    requires Sound(c, s) && s.pc.Finishing?
    ensures Sound(c, Advance(c, s))
  {
    if !s.ctx.Live? { ReturnStep(c, s, Fails(ContextFailure(s.ctx))); }
    else { ReturnStep(c, s, AnswerOf(c, OutcomeOf(s).value)); }
  }

  lemma TakeStep(c: Call, s: State, a: Action)
    requires Sound(c, s) && Enabled(s, a) && (a.TakeContext? || a.TakeAnswer?)
    ensures Sound(c, Apply(c, s, a))
  {
    if a.TakeContext? { ReturnStep(c, s, Fails(ContextFailure(s.ctx))); }
    else if s.pc.AwaitingHandler? { Moved(c, s, Finishing); }
    else if VerdictOf(s) == Some(Allow) { Moved(c, s, PolicyPassed); }
    else { ReturnStep(c, s, Fails(VerdictFailure(VerdictOf(s).value))); }
  }

  /** So does dispatch's next instruction. */
  lemma InsideStep(c: Call, s: State, a: Action)
    requires Sound(c, s) && Enabled(s, a) && (a.Proceed? || a.TakeContext? || a.TakeAnswer?)
    ensures Sound(c, Apply(c, s, a))
  {
    if a.TakeContext? || a.TakeAnswer? { TakeStep(c, s, a); }
    else if s.pc.Asking? { AskStep(c, s); }
    else if s.pc.PolicyPassed? { ClearStep(c, s); }
    else if s.pc.Cleared? { StartStep(c, s); }
    else if s.pc.Finishing? { EndingStep(c, s); }
    else { LookStep(c, s); }
  }

  lemma {:induction false} RunsAreSound(c: Call, actions: seq<Action>)
    requires Run(c, actions)
    ensures Sound(c, After(c, actions))
  {
    if actions != [] {
      RunsAreSound(c, actions[..|actions| - 1]);
      var s, a := After(c, actions[..|actions| - 1]), actions[|actions| - 1];
      if a.Proceed? || a.TakeContext? || a.TakeAnswer? { InsideStep(c, s, a); } else { OutsideStep(c, s, a); }
    }
  }

  // ----- what holds in every run -----

  lemma BoundProjects(c: Call, ops: FloatOps, plan: Plan, root: nat, enabled: bool, arguments: map<Bytes, Value>)
    requires Binds(c, ops, plan, root, enabled, arguments) && c.bound.Some?
    ensures Project(plan, root, c.bound.value.input) == c.bound.value.canonical
  {
    ProjectOfStruct(ops, plan, root, arguments);
  }

  /** In every interleaving: the handler starts at most once, and only after the authorizer was
      asked about the canonical map projected from the handler's own input, said nil, and the
      context was then found live, not having ended before. */
  lemma HandlerStartsOnlyWhenAllowed(c: Call, ops: FloatOps, plan: Plan, root: nat, enabled: bool,
                                     arguments: map<Bytes, Value>, actions: seq<Action>, i: nat)
    requires Binds(c, ops, plan, root, enabled, arguments)
    requires Run(c, actions) && i < |After(c, actions).log| && After(c, actions).log[i].Started?
    ensures var log := After(c, actions).log;
            && (forall j :: 0 <= j < |log| && log[j].Started? ==> j == i)
            && exists a: nat, p: nat, l: nat :: a < p < l < i
                 && log[a] == Asked(Project(plan, root, log[i].input)) && log[p] == Said(Allow) && log[l] == FoundLive
                 && forall k :: 0 <= k < l ==> !log[k].ContextEnded?
  {
    var s := After(c, actions);
    RunsAreSound(c, actions);
    BoundProjects(c, ops, plan, root, enabled, arguments);
    var a, p, l := s.marks[AskedKind], s.marks[SaidKind], s.marks[LiveKind];
    assert s.log[a] == Asked(Project(plan, root, s.log[i].input)) && s.log[p] == Said(Allow) && s.log[l] == FoundLive;
  }

  /** The authorizer is asked at most once, and its late answer starts nothing: no handler starts
      in a run whose context ended before the authorizer answered. */
  lemma LateAnswerStartsNothing(c: Call, actions: seq<Action>, i: nat, j: nat)
    requires Run(c, actions)
    requires i < j < |After(c, actions).log| && After(c, actions).log[i].ContextEnded? && After(c, actions).log[j].Said?
    ensures forall k :: 0 <= k < |After(c, actions).log| ==> !After(c, actions).log[k].Started?
    ensures forall k :: 0 <= k < |After(c, actions).log| && After(c, actions).log[k].Asked? ==> k < j
  {
    RunsAreSound(c, actions);
  }

  /** A refusal starts nothing either. */
  lemma RefusalStartsNothing(c: Call, actions: seq<Action>, j: nat)
    requires Run(c, actions) && j < |After(c, actions).log| && After(c, actions).log[j].Said?
    requires After(c, actions).log[j] != Said(Allow)
    ensures forall k :: 0 <= k < |After(c, actions).log| ==> !After(c, actions).log[k].Started?
  {
    RunsAreSound(c, actions);
  }

  /** What is answered: while the context lives, exactly what binding, policy, handler and
      conversion make of the call; afterwards that or the context's failure, and nothing else. */
  lemma AnswersAreExplained(c: Call, actions: seq<Action>)
    requires Run(c, actions) && After(c, actions).pc.Returned?
    ensures var s := After(c, actions);
            && (s.ctx.Live? ==> Expected(c, s) == Some(s.pc.answer))
            && (s.pc.answer.Result? ==> VerdictOf(s) == Some(Allow) && OutcomeOf(s).Some? && OutcomeOf(s).value.Output?
                                        && c.convert(OutcomeOf(s).value.number) == Converts(s.pc.answer.value))
  {
    RunsAreSound(c, actions);
  }

  /** What must have happened for each answer, read off the log. */
  ghost predicate Cause(c: Call, ctx: Context, log: seq<Event>, answer: Answer) {
    match answer
    case Result(v) => Said(Allow) in log && exists n :: Finished(Output(n)) in log && c.convert(n) == Converts(v)
    case Fails(failure) =>
      match failure
      case CanceledFailure => ctx == Canceled
      case DeadlineFailure => ctx == DeadlineExceeded
      case ProtocolFailure => c.bound.None?
      case PermissionDenied => Said(Deny) in log
      case PolicyFailure => Said(PolicyError) in log || Said(PolicyPanic) in log
      case CapabilityFailure(detail) =>
        || Finished(AgentError(detail)) in log
        || (detail == [] && (Finished(OtherError) in log
                             || exists n :: Finished(Output(n)) in log && c.convert(n) == Unconvertible))
      case InternalFailure => Finished(InputMismatch) in log || Finished(HandlerPanic) in log
      case ResourceLimit => exists n :: Finished(Output(n)) in log && c.convert(n) == OverLimit
  }

  /** Every answer has its cause, and every outcome its answer: a log holds at most one verdict and
      one outcome, so an answer of another class would lack its cause. */
  lemma AnswersHaveCauses(c: Call, actions: seq<Action>)
    requires Run(c, actions) && After(c, actions).pc.Returned?
    ensures var s := After(c, actions);
            && Cause(c, s.ctx, s.log, s.pc.answer)
            && (forall a, b :: Said(a) in s.log && Said(b) in s.log ==> a == b)
            && (forall a, b :: Finished(a) in s.log && Finished(b) in s.log ==> a == b)
  {
    var s := After(c, actions);
    RunsAreSound(c, actions);
    if VerdictOf(s).Some? { assert Said(VerdictOf(s).value) in s.log; }
    if OutcomeOf(s).Some? { assert Finished(OutcomeOf(s).value) in s.log; }
    OneOfEach(s);
  }

  lemma OneOfEach(s: State)
    requires Marked(s)
    ensures forall a, b :: Said(a) in s.log && Said(b) in s.log ==> a == b
    ensures forall a, b :: Finished(a) in s.log && Finished(b) in s.log ==> a == b
  {
    forall x, y | x in s.log && y in s.log && KindOf(x) == KindOf(y) ensures x == y {
      var i :| 0 <= i < |s.log| && s.log[i] == x;
      var j :| 0 <= j < |s.log| && s.log[j] == y;
    }
  }

  /** The stretches between two looks at the context. */
  function Stretch(pc: Pc): nat {
    match pc
    case Entering => 0
    case Looking => 1
    case Checking => 1
    case Asking => 2
    case AwaitingPolicy => 2
    case PolicyPassed => 2
    case Returned(_) => 4
    case _ => 3
  }

  /** What can still come of a call whose context ended in the given stretch. */
  ghost predicate Overtaken(c: Call, s: State, stretch: nat) {
    && !s.ctx.Live?
    && (stretch <= 1 ==> AskedKind !in s.marks) && (stretch <= 2 ==> StartedKind !in s.marks)
    && if !s.pc.Returned? then Stretch(s.pc) == stretch
       else
         || s.pc.answer == Fails(ContextFailure(s.ctx))
         || (stretch == 1 && c.bound.None? && s.pc.answer == Fails(ProtocolFailure))
         || (stretch == 2 && (s.pc.answer == Fails(PermissionDenied) || s.pc.answer == Fails(PolicyFailure)))
  }

  lemma OvertakenStep(c: Call, s: State, a: Action, stretch: nat)
    requires Sound(c, s) && Enabled(s, a) && Overtaken(c, s, stretch)
    ensures Overtaken(c, Apply(c, s, a), stretch)
  {}

  /** A context that ends while the call is open is noticed at the next look: nobody is asked and no
      handler started beyond it, and the answer is the context's failure, unless the lookup or the
      policy, whichever lies before that look, refused the call first. */
  lemma {:induction false} EndedCallsFail(c: Call, actions: seq<Action>, n: nat)
    requires Run(c, actions) && n <= |actions|
    requires !After(c, actions[..n]).ctx.Live? && !After(c, actions[..n]).pc.Returned?
    ensures Run(c, actions[..n])
    ensures Overtaken(c, After(c, actions), Stretch(After(c, actions[..n]).pc))
  {
    if n == |actions| {
      assert actions[..n] == actions;
      RunsAreSound(c, actions);
    } else {
      var before := actions[..|actions| - 1];
      assert before[..n] == actions[..n];
      EndedCallsFail(c, before, n);
      RunsAreSound(c, before);
      OvertakenStep(c, After(c, before), actions[|actions| - 1], Stretch(After(c, actions[..n]).pc));
    }
  }

  /** Something of the call can always happen until it returns, without waiting for the context. */
  lemma NeverStuck(c: Call, actions: seq<Action>)
    requires Run(c, actions) && !After(c, actions).pc.Returned?
    ensures exists a :: Enabled(After(c, actions), a) && !a.EndContext?
  {
    var s := After(c, actions);
    RunsAreSound(c, actions);
    if s.pc.AwaitingPolicy? {
      assert Enabled(s, if SaidKind in s.marks then TakeAnswer else PolicyReturns(Allow));
    } else if s.pc.AwaitingHandler? {
      assert Enabled(s, if FinishedKind in s.marks then TakeAnswer else HandlerReturns(OtherError));
    } else {
      assert Enabled(s, Proceed);
    }
  }

  function Count(s: State, k: Kind): nat { if k in s.marks then 1 else 0 }

  /** Instructions and outside events that a state has behind it. */
  function Progress(s: State): nat { Stage(s.pc) + Count(s, EndedKind) + Count(s, SaidKind) + Count(s, FinishedKind) }

  lemma ProgressStep(c: Call, s: State, a: Action)
    requires Sound(c, s) && Enabled(s, a)
    ensures Progress(s) < Progress(Apply(c, s, a)) <= 12
  {}

  /** Every call returns: no run is longer than nine instructions and three outside events. */
  lemma {:induction false} RunsEnd(c: Call, actions: seq<Action>)
    requires Run(c, actions)
    ensures |actions| <= Progress(After(c, actions)) <= 12
  {
    if actions != [] {
      RunsEnd(c, actions[..|actions| - 1]);
      RunsAreSound(c, actions[..|actions| - 1]);
      ProgressStep(c, After(c, actions[..|actions| - 1]), actions[|actions| - 1]);
    }
  }
}
