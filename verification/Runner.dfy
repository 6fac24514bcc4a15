/** Runner.Execute and childSession of internal/worker/parent.go: any number of concurrent
    executions, one semaphore, one child each, and the rules that pick the outcome. */
module Runner {
  import opened Text
  import opened Moves

  const STDERR_CAP: nat := 4096

  // ----- one call of Execute -----

  datatype Pc = Wanting | Holding | Exchanging | Joining | Waiting | Releasing | Done

  /** NoChild until the process starts; Exited is a process nobody has waited for yet. */
  datatype Child = NoChild | Alive | Exited | Reaped

  datatype Exchange = Idle | Working | Sent

  /** One call: where it stands, its context, its child, its exchange goroutine, and how often it
      has taken a permit, given one back and waited. */
  datatype Call = Call(pc: Pc, cancelled: bool, selected: bool, child: Child, exchange: Exchange, acquired: nat,
                       released: nat, waits: nat)

  function NewCall(): Call { Call(Wanting, false, false, NoChild, Idle, 0, 0, 0) }

  /** The held flag of Execute. */
  predicate Held(c: Call) { c.acquired > c.released }

  predicate Unreaped(c: Call) { c.child.Alive? || c.child.Exited? }

  datatype Runner = Runner(capacity: nat, permits: nat, calls: seq<Call>)

  datatype Action =
    | Arrive
    | CancelCall(i: nat)
    | Acquire(i: nat)
    | GiveUp(i: nat)
    | Refuse(i: nat)
    | StartChild(i: nat)
    | FinishExchange(i: nat)
    | ExitChild(i: nat)
    | SelectDone(i: nat)
    | SelectContext(i: nat)
    | JoinExchange(i: nat)
    | WaitChild(i: nat)
    | Release(i: nat)

  /** Refuse stands for every exit between taking a permit and starting a child: worker mode, a
      context that ended meanwhile, no executable, or a start that fails. */
  predicate Enabled(r: Runner, a: Action) {
    match a
    case Arrive => true
    case CancelCall(i) => i < |r.calls| && !r.calls[i].cancelled
    case Acquire(i) => i < |r.calls| && r.calls[i].pc.Wanting? && r.permits < r.capacity
    case GiveUp(i) => i < |r.calls| && r.calls[i].pc.Wanting? && r.calls[i].cancelled
    case Refuse(i) => i < |r.calls| && r.calls[i].pc.Holding? && r.permits > 0
    case StartChild(i) => i < |r.calls| && r.calls[i].pc.Holding?
    case FinishExchange(i) => i < |r.calls| && r.calls[i].exchange.Working?
    case ExitChild(i) => i < |r.calls| && r.calls[i].child.Alive?
    case SelectDone(i) => i < |r.calls| && r.calls[i].pc.Exchanging? && r.calls[i].exchange.Sent?
    case SelectContext(i) => i < |r.calls| && r.calls[i].pc.Exchanging? && r.calls[i].cancelled
    case JoinExchange(i) =>
      i < |r.calls| && r.calls[i].pc.Joining? && (r.calls[i].selected || r.calls[i].exchange.Sent?)
    case WaitChild(i) => i < |r.calls| && r.calls[i].pc.Waiting? && r.calls[i].child.Exited?
    case Release(i) => i < |r.calls| && r.calls[i].pc.Releasing? && r.permits > 0
  }

  /** release: the held flag makes it give back one permit at most. */
  function GiveBack(c: Call): Call { c.(pc := Done, released := c.released + if Held(c) then 1 else 0) }

  function PermitsAfter(r: Runner, c: Call): nat
    requires r.permits > 0
  {
    if Held(c) then r.permits - 1 else r.permits
  }

  function Apply(r: Runner, a: Action): Runner
    requires Enabled(r, a)
  {
    match a
    case Arrive => r.(calls := r.calls + [NewCall()])
    case CancelCall(i) => r.(calls := r.calls[i := r.calls[i].(cancelled := true)])
    case Acquire(i) =>
      r.(permits := r.permits + 1, calls :=
         r.calls[i := r.calls[i].(pc := Holding, acquired := r.calls[i].acquired + 1)])
    case GiveUp(i) => r.(calls := r.calls[i := r.calls[i].(pc := Done)])
    case Refuse(i) => r.(permits := PermitsAfter(r, r.calls[i]), calls := r.calls[i := GiveBack(r.calls[i])])
    case StartChild(i) => r.(calls := r.calls[i := r.calls[i].(pc := Exchanging, child := Alive, exchange := Working)])
    case FinishExchange(i) => r.(calls := r.calls[i := r.calls[i].(exchange := Sent)])
    case ExitChild(i) => r.(calls := r.calls[i := r.calls[i].(child := Child.Exited)])
    case SelectDone(i) => r.(calls := r.calls[i := r.calls[i].(pc := Joining, selected := true)])
    case SelectContext(i) => r.(calls := r.calls[i := r.calls[i].(pc := Joining)])
    case JoinExchange(i) => r.(calls := r.calls[i := r.calls[i].(pc := Waiting)])
    case WaitChild(i) =>
      r.(calls := r.calls[i := r.calls[i].(pc := Releasing, child := Reaped, waits := r.calls[i].waits + 1)])
    case Release(i) => r.(permits := PermitsAfter(r, r.calls[i]), calls := r.calls[i := GiveBack(r.calls[i])])
  }

  /** The state after a run, if each action was enabled when it came. */
  ghost function Run(capacity: nat, actions: seq<Action>): Option<Runner> {
    if actions == [] then Some(Runner(capacity, 0, []))
    else match Run(capacity, actions[..|actions| - 1])
      case None => None
      case Some(r) => if Enabled(r, actions[|actions| - 1]) then Some(Apply(r, actions[|actions| - 1])) else None
  }

  // ----- counting permits -----

  ghost function Holders(calls: seq<Call>): (n: nat)
    ensures n <= |calls|
  {
    if calls == [] then 0 else Holders(calls[..|calls| - 1]) + if Held(calls[|calls| - 1]) then 1 else 0
  }

  ghost function LiveChildren(calls: seq<Call>): (n: nat)
    ensures n <= |calls|
  {
    if calls == [] then 0 else LiveChildren(calls[..|calls| - 1]) + if Unreaped(calls[|calls| - 1]) then 1 else 0
  }

  lemma {:induction false} HoldersUpdate(calls: seq<Call>, i: nat, c: Call)
    requires i < |calls|
    ensures Holders(calls[i := c]) == Holders(calls) - (if Held(calls[i]) then 1 else 0) + if Held(c) then 1 else 0
  {
    var n := |calls| - 1;
    if i < n {
      HoldersUpdate(calls[..n], i, c);
      assert calls[i := c][..n] == calls[..n][i := c];
    } else {
      assert calls[i := c][..n] == calls[..n];
    }
  }

  lemma {:induction false} SomeoneHolds(calls: seq<Call>, i: nat)
    requires i < |calls| && Held(calls[i])
    ensures Holders(calls) > 0
  {
    if i < |calls| - 1 { SomeoneHolds(calls[..|calls| - 1], i); }
  }

  lemma {:induction false} ChildrenHaveHolders(calls: seq<Call>)
    requires forall i :: 0 <= i < |calls| ==> Unreaped(calls[i]) ==> Held(calls[i])
    ensures LiveChildren(calls) <= Holders(calls)
  {
    if calls != [] { ChildrenHaveHolders(calls[..|calls| - 1]); }
  }

  // ----- the invariant -----

  /** What a call has behind it where it stands. */
  predicate CallOk(c: Call) {
    && c.acquired <= 1
    && match c.pc
       case Wanting =>
         c.acquired == 0 && c.released == 0 && c.waits == 0 && c.child.NoChild? && c.exchange.Idle? && !c.selected
       case Holding =>
         c.acquired == 1 && c.released == 0 && c.waits == 0 && c.child.NoChild? && c.exchange.Idle? && !c.selected
       case Exchanging =>
         c.acquired == 1 && c.released == 0 && c.waits == 0 && Unreaped(c) && !c.exchange.Idle? && !c.selected
       case Joining =>
         c.acquired == 1 && c.released == 0 && c.waits == 0 && Unreaped(c) && !c.exchange.Idle?
           && (c.selected ==> c.exchange.Sent?)
       case Waiting => c.acquired == 1 && c.released == 0 && c.waits == 0 && Unreaped(c) && c.exchange.Sent?
       case Releasing => c.acquired == 1 && c.released == 0 && c.waits == 1 && c.child.Reaped? && c.exchange.Sent?
       case Done =>
         c.released == c.acquired && ((c.waits == 0 && c.child.NoChild? && c.exchange.Idle?)
                                      || (c.acquired == 1 && c.waits == 1 && c.child.Reaped? && c.exchange.Sent?))
  }

  ghost predicate Sound(r: Runner) {
    r.permits == Holders(r.calls) && r.permits <= r.capacity && forall i :: 0 <= i < |r.calls| ==> CallOk(r.calls[i])
  }

  /** The call an action touches. */
  function Touched(a: Action): nat {
    match a
    case Arrive => 0
    case _ => a.i
  }

  lemma TouchedStep(r: Runner, a: Action)
    requires Sound(r) && Enabled(r, a) && !a.Arrive?
    ensures var i, t := Touched(a), Apply(r, a);
            && i < |r.calls| == |t.calls| && CallOk(t.calls[i]) && t.calls == r.calls[i := t.calls[i]]
            && t.capacity == r.capacity
            && t.permits == r.permits - (if Held(r.calls[i]) then 1 else 0) + if Held(t.calls[i]) then 1 else 0
  {
    var i, t := Touched(a), Apply(r, a);
    assert CallOk(r.calls[i]);
    assert t.calls == r.calls[i := t.calls[i]];
    assert CallOk(t.calls[i]);
  }

  lemma SoundStep(r: Runner, a: Action)
    requires Sound(r) && Enabled(r, a)
    ensures Sound(Apply(r, a))
  {
    var t := Apply(r, a);
    if a.Arrive? {
      assert t.calls[..|r.calls|] == r.calls;
    } else {
      TouchedStep(r, a);
      HoldersUpdate(r.calls, Touched(a), t.calls[Touched(a)]);
      assert t.permits > r.permits ==> a.Acquire?;
    }
  }

  lemma {:induction false} RunsAreSound(capacity: nat, actions: seq<Action>)
    requires Run(capacity, actions).Some?
    ensures Sound(Run(capacity, actions).value) && Run(capacity, actions).value.capacity == capacity
  {
    if actions != [] {
      RunsAreSound(capacity, actions[..|actions| - 1]);
      SoundStep(Run(capacity, actions[..|actions| - 1]).value, actions[|actions| - 1]);
    }
  }

  // ----- what holds in every run -----

  /** The semaphore counts exactly the calls that hold a permit, and there are never more children
      that have not been reaped than permits, nor more permits than the capacity. */
  lemma PermitsBoundChildren(capacity: nat, actions: seq<Action>)
    requires Run(capacity, actions).Some?
    ensures var r := Run(capacity, actions).value;
            && r.permits == Holders(r.calls) && LiveChildren(r.calls) <= r.permits <= capacity
            && forall i :: 0 <= i < |r.calls| && Unreaped(r.calls[i]) ==> Held(r.calls[i])
  {
    RunsAreSound(capacity, actions);
    ChildrenHaveHolders(Run(capacity, actions).value.calls);
  }

  /** A call that has returned has given back what it took, exactly once, after waiting exactly once
      for any child it started; its exchange goroutine is over. No call ever does either twice. */
  lemma ReturnsClean(capacity: nat, actions: seq<Action>, i: nat)
    requires Run(capacity, actions).Some? && i < |Run(capacity, actions).value.calls|
    ensures var c := Run(capacity, actions).value.calls[i];
            && c.released <= c.acquired <= 1 && c.waits <= 1
            && (c.pc.Done? ==> c.released == c.acquired && !Unreaped(c) && !c.exchange.Working?
                               && (c.waits == 1 <==> c.child.Reaped?))
            && (c.released == 1 ==> !Unreaped(c)) && (c.child.Reaped? ==> c.waits == 1)
  {
    RunsAreSound(capacity, actions);
  }

  /** Giving back never blocks: a call about to release finds a permit to take out. */
  lemma ReleaseNeverBlocks(capacity: nat, actions: seq<Action>, i: nat)
    requires Run(capacity, actions).Some? && i < |Run(capacity, actions).value.calls|
    ensures Run(capacity, actions).value.calls[i].pc.Releasing? ==> Enabled(Run(capacity, actions).value, Release(i))
    ensures Run(capacity, actions).value.calls[i].pc.Holding? ==> Enabled(Run(capacity, actions).value, Refuse(i))
  {
    RunsAreSound(capacity, actions);
    var calls := Run(capacity, actions).value.calls;
    if Held(calls[i]) { SomeoneHolds(calls, i); }
  }

  /** A call that holds a permit waits for nobody but its own child and exchange; and while any call
      wants a permit, it can take one or some other call holds one. */
  lemma NoCallIsStuck(capacity: nat, actions: seq<Action>, i: nat)
    requires Run(capacity, actions).Some? && i < |Run(capacity, actions).value.calls|
             && !Run(capacity, actions).value.calls[i].pc.Done? && capacity > 0
    ensures var r := Run(capacity, actions).value;
            if r.calls[i].pc.Wanting? then Enabled(r, Acquire(i)) || Holders(r.calls) == capacity
            else exists a: Action :: !a.Arrive? && !a.CancelCall? && Touched(a) == i && Enabled(r, a)
  {
    RunsAreSound(capacity, actions);
    var r := Run(capacity, actions).value;
    var c := r.calls[i];
    match c.pc
    case Wanting =>
    case Holding => assert Enabled(r, StartChild(i));
    case Exchanging => assert Enabled(r, if c.exchange.Sent? then SelectDone(i) else FinishExchange(i));
    case Joining => assert Enabled(r, if c.exchange.Sent? then JoinExchange(i) else FinishExchange(i));
    case Waiting => assert Enabled(r, if c.child.Exited? then WaitChild(i) else ExitChild(i));
    case Releasing => ReleaseNeverBlocks(capacity, actions, i); assert Enabled(r, Release(i));
    case Done =>
  }

  // ----- one session -----

  /** childSession: the pipes of one child and its single Wait. */
  class ChildSession {
    var stdinOpen: bool
    var stdoutOpen: bool
    var killed: bool
    var waited: bool
    var waitFailed: bool
    ghost var reaps: nat

    constructor ()
      ensures Valid() && stdinOpen && stdoutOpen && !killed && reaps == 0
    {
      stdinOpen, stdoutOpen, killed, waited, waitFailed, reaps := true, true, false, false, false, 0;
    }

    /** The process is reaped once, when wait first runs. */
    ghost predicate Valid()
      reads this
    {
      reaps == if waited then 1 else 0
    }

    /** wait: the first call reaps the process, every call reports what the first one found. */
    method Wait(exitFailed: bool) returns (failed: bool)
      requires Valid()
      modifies this
      ensures Valid() && reaps == 1 && failed == waitFailed == if old(waited) then old(waitFailed) else exitFailed
      ensures stdinOpen == old(stdinOpen) && stdoutOpen == old(stdoutOpen) && killed == old(killed)
    {
      if !waited {
        waited := true;
        waitFailed := exitFailed;
        reaps := reaps + 1;
      }
      return waitFailed;
    }

    /** finish: both pipes are closed and the process is reaped whatever happened before. */
    method Finish(kill: bool, exitFailed: bool) returns (failed: bool)
      requires Valid()
      modifies this
      ensures Valid() && reaps == 1 && !stdinOpen && !stdoutOpen && killed == (old(killed) || kill)
      ensures failed == if old(waited) then old(waitFailed) else exitFailed
    {
      stdinOpen := false;
      if kill { killed := true; }
      stdoutOpen := false;
      failed := Wait(exitFailed);
    }
  }

  /** stderrCapture: the first bytes of a stream that may be longer. */
  class StderrCapture {
    var buf: Bytes
    var overflow: bool
    ghost var written: Bytes

    constructor ()
      ensures Valid() && written == []
    {
      buf, overflow, written := [], false, [];
    }

    /** What is kept is the longest prefix within the cap, and overflow says that more came. */
    ghost predicate Valid()
      reads this
    {
      buf == written[..if |written| <= STDERR_CAP then |written| else STDERR_CAP]
        && (overflow <==> |written| > STDERR_CAP)
    }

    method Write(p: Bytes) returns (n: nat)
      requires Valid()
      modifies this
      ensures Valid() && written == old(written) + p && n == |p|
    {
      if !overflow {
        var room := STDERR_CAP - |buf|;
        if |p| > room {
          buf := buf + p[..room];
          overflow := true;
        } else {
          buf := buf + p;
        }
      }
      written := written + p;
      return |p|;
    }
  }

  // ----- the outcome -----

  /** interpretExec: None stands for a live context or a clean wait. */
  function Interpret(ctx: Option<ExecError>, out: Outcome, waitFailed: bool): (r: Outcome) {
    if out.retained.Some? then Outcome(None, out.retained, None, false)
    else if ctx.Some? && (out.kill || out.err.Some? || waitFailed) then Outcome(None, ctx, None, false)
    else if out.err.Some? then Outcome(None, out.err, None, false)
    else if waitFailed then Outcome(None, Some(Internal), None, false)
    else Outcome(out.value, None, None, false)
  }

  /** A caller gets a value exactly when the exchange ended with one, nothing was killed or
      retained, and the child was reaped cleanly; a context that ended only after such an
      exchange takes nothing away. A retained callback error always wins, and next a context. */
  lemma InterpretMeans(ctx: Option<ExecError>, out: Outcome, waitFailed: bool)
    requires out.kill ==> out.err.Some?
    ensures Interpret(ctx, out, waitFailed).err.None? <==> out.retained.None? && out.err.None? && !waitFailed
    ensures Interpret(ctx, out, waitFailed).err.None? ==> Interpret(ctx, out, waitFailed).value == out.value
    ensures out.retained.Some? ==> Interpret(ctx, out, waitFailed).err == out.retained
    ensures out.retained.None? && ctx.Some? && Interpret(ctx, out, waitFailed).err.Some?
            ==> Interpret(ctx, out, waitFailed).err == ctx
  {}
}
