/** What a Call returns (machine.go), told from the steps of the run before it. */
module LifecycleCalls {
  import opened Wrappers
  import opened MachineState
  import opened Lifecycle

  // ---- The error of a machine ----

  /** The error stored last among the first `n` steps, by the loop or by the OOM monitor. */
  ghost function LastStored(ls: seq<Label>, n: nat): Option<Cause>
    requires n <= |ls|
  {
    if n == 0 then None
    else
      match ls[n - 1]
      case Loop(FailWith(e)) => Some(e)
      case Oom(OomError) => Some(OutOfMemory)
      case _ => LastStored(ls, n - 1)
  }

  lemma CallKeepsErr(c: Config, t: nat, s: CallStep)
    requires CallEnabled(c, t, s)
    ensures ApplyCall(c, t, s).sh.err == c.sh.err
  {
  }

  /** In every run the machine's error is the one stored last. */
  lemma {:induction false} ErrIsLast(r: seq<Config>, ls: seq<Label>, n: nat)
    requires Run(r, ls) && n < |r|
    ensures r[n].sh.err == LastStored(ls, n)
  {
    if n > 0 {
      ErrIsLast(r, ls, n - 1);
      assert StepAt(r, ls, n - 1);
      if ls[n - 1].Caller? {
        CallKeepsErr(r[n - 1], ls[n - 1].t, ls[n - 1].callStep);
      }
    }
  }

  // ---- What a call has seen ----

  ghost predicate Returns(l: Label, t: nat) {
    l.Caller? && l.t == t && l.callStep.RpcReturns?
  }

  /** What the RPC of call `t` returned within the first `n` steps. */
  ghost predicate RpcIs(ls: seq<Label>, n: nat, t: nat, why: Option<RpcOutcome>)
    requires n <= |ls|
  {
    && (forall i: nat | i < n && Returns(ls[i], t) :: why == Some(ls[i].callStep.outcome))
    && (why.Some? ==> exists i: nat :: i < n && Returns(ls[i], t))
  }

  /** Within the first `n` steps call `t` made the step `s`, and found the machine stopped or not. */
  ghost predicate Found(r: seq<Config>, ls: seq<Label>, n: nat, t: nat, s: CallStep, stopped: bool)
    requires n <= |ls| < |r|
  {
    exists i: nat :: i < n && ls[i] == Caller(t, s) && (r[i].sh.state == STOPPED <==> stopped)
  }

  /** Within the first `n` steps call `t` read the machine's error, which was the one stored last. */
  ghost predicate ReadCause(ls: seq<Label>, n: nat, t: nat, cause: Option<Cause>)
    requires n <= |ls|
  {
    exists i: nat :: i < n && ls[i] == Caller(t, ReadErr) && cause == LastStored(ls, i)
  }

  ghost predicate GaveUp(r: seq<Config>, ls: seq<Label>, n: nat, t: nat)
    requires n <= |ls| < |r|
  {
    exists i: nat :: i < n && ls[i] == Caller(t, GiveUp) && t in r[i].callerDone
  }

  /** Why the machine is reported as stopped: the state switch found it so, or the test after a context error did. */
  ghost predicate Stopped(r: seq<Config>, ls: seq<Label>, n: nat, t: nat, why: Option<RpcOutcome>)
    requires n <= |ls| < |r|
  {
    if why.None? then Found(r, ls, n, t, Switch, true) else why.value.ContextError? && Found(r, ls, n, t, Test, true)
  }

  ghost predicate Verdict(r: seq<Config>, ls: seq<Label>, n: nat, t: nat, why: Option<RpcOutcome>, result: Result)
    requires n <= |ls| < |r|
  {
    && RpcIs(ls, n, t, why)
    && match result
       case RpcResult(o) => why == Some(o) && (o.ContextError? ==> Found(r, ls, n, t, Test, false))
       case Unavailable(cause) => ReadCause(ls, n, t, cause) && Stopped(r, ls, n, t, why)
       case CallerGaveUp => why.None? && GaveUp(r, ls, n, t)
  }

  ghost predicate Told(r: seq<Config>, ls: seq<Label>, n: nat, t: nat)
    requires n <= |ls| < |r|
  {
    if t !in r[n].calls then RpcIs(ls, n, t, None)
    else
      match r[n].calls[t]
      case AfterRpc(_, o) => RpcIs(ls, n, t, Some(o))
      case AtErr(_, why) => RpcIs(ls, n, t, why) && Stopped(r, ls, n, t, why)
      case Releasing(_, o, result) => Verdict(r, ls, n, t, Some(o), result)
      case Returned(_, why, result) => Verdict(r, ls, n, t, why, result)
      case _ => RpcIs(ls, n, t, None)
  }

  /** What was seen stays seen. */
  lemma Later(r: seq<Config>, ls: seq<Label>, n: nat, t: nat)
    requires n < |ls| < |r|
    ensures forall why | RpcIs(ls, n, t, why) && !Returns(ls[n], t) :: RpcIs(ls, n + 1, t, why)
    ensures forall s, b | Found(r, ls, n, t, s, b) :: Found(r, ls, n + 1, t, s, b)
    ensures forall cause | ReadCause(ls, n, t, cause) :: ReadCause(ls, n + 1, t, cause)
    ensures GaveUp(r, ls, n, t) ==> GaveUp(r, ls, n + 1, t)
  {
    forall why | RpcIs(ls, n, t, why) && !Returns(ls[n], t) ensures RpcIs(ls, n + 1, t, why) {
      if why.Some? {
        var i: nat :| i < n && Returns(ls[i], t);
        assert i < n + 1;
      }
    }
    forall s, b | Found(r, ls, n, t, s, b) ensures Found(r, ls, n + 1, t, s, b) {
      var i: nat :| i < n && ls[i] == Caller(t, s) && (r[i].sh.state == STOPPED <==> b);
      assert i < n + 1;
    }
    forall cause | ReadCause(ls, n, t, cause) ensures ReadCause(ls, n + 1, t, cause) {
      var i: nat :| i < n && ls[i] == Caller(t, ReadErr) && cause == LastStored(ls, i);
      assert i < n + 1;
    }
    if GaveUp(r, ls, n, t) {
      var i: nat :| i < n && ls[i] == Caller(t, GiveUp) && t in r[i].callerDone;
      assert i < n + 1;
    }
  }

  lemma CallMoves(c: Config, u: nat, s: CallStep) returns (pc: CallPc)
    requires CallEnabled(c, u, s)
    ensures ApplyCall(c, u, s).calls == c.calls[u := pc]
  {
    pc := ApplyCall(c, u, s).calls[u];
  }

  lemma OtherKeepsCall(c: Config, l: Label, t: nat)
    requires Enabled(c, l) && !(l.Caller? && l.t == t)
    ensures t in Apply(c, l).calls <==> t in c.calls
    ensures t in c.calls ==> Apply(c, l).calls[t] == c.calls[t]
  {
    match l
    case Caller(u, s) => var pc := CallMoves(c, u, s);
    case Loop(s) => assert ApplyLoop(c, s).calls == c.calls;
    case Oom(s) => assert ApplyOom(c, s).calls == c.calls;
    case _ =>
  }

  /** A step of the call itself that is not seen by its result. */
  lemma QuietTold(r: seq<Config>, ls: seq<Label>, n: nat, t: nat, s: CallStep)
    requires n < |ls| < |r| && StepOf(r, ls, n, t, s) && Told(r, ls, n, t)
    requires s.Begin? || s.WaitRunning? || s.Wake? || s.MakeContext? || s.Release?
    ensures Told(r, ls, n + 1, t)
  {
    Later(r, ls, n, t);
  }

  ghost predicate StepOf(r: seq<Config>, ls: seq<Label>, n: nat, t: nat, s: CallStep)
    requires n < |ls| < |r|
  {
    && ls[n] == Caller(t, s) && CallEnabled(r[n], t, s)
    && n + 1 < |r| && r[n + 1].calls == ApplyCall(r[n], t, s).calls
  }

  lemma RpcTold(r: seq<Config>, ls: seq<Label>, n: nat, t: nat, s: CallStep)
    requires n < |ls| < |r| && StepOf(r, ls, n, t, s) && Told(r, ls, n, t) && s.RpcReturns?
    ensures Told(r, ls, n + 1, t)
  {
    assert Returns(ls[n], t);
  }

  lemma SwitchTold(r: seq<Config>, ls: seq<Label>, n: nat, t: nat, s: CallStep)
    requires n < |ls| < |r| && StepOf(r, ls, n, t, s) && Told(r, ls, n, t) && (s.Switch? || s.Test?)
    ensures Told(r, ls, n + 1, t)
  {
    Later(r, ls, n, t);
    assert Found(r, ls, n + 1, t, s, r[n].sh.state == STOPPED);
  }

  lemma ReadTold(r: seq<Config>, ls: seq<Label>, n: nat, t: nat, s: CallStep)
    requires n < |ls| < |r| && StepOf(r, ls, n, t, s) && Told(r, ls, n, t)
    requires s.ReadErr? && r[n].sh.err == LastStored(ls, n)
    ensures Told(r, ls, n + 1, t)
  {
    Later(r, ls, n, t);
    assert ReadCause(ls, n + 1, t, LastStored(ls, n));
  }

  lemma GiveUpTold(r: seq<Config>, ls: seq<Label>, n: nat, t: nat, s: CallStep)
    requires n < |ls| < |r| && StepOf(r, ls, n, t, s) && Told(r, ls, n, t) && s.GiveUp?
    ensures Told(r, ls, n + 1, t)
  {
    Later(r, ls, n, t);
    assert ls[n] == Caller(t, GiveUp) && t in r[n].callerDone;
  }

  lemma StepTold(r: seq<Config>, ls: seq<Label>, n: nat, t: nat)
    requires Run(r, ls) && n < |ls| && Told(r, ls, n, t)
    ensures Told(r, ls, n + 1, t)
  {
    assert StepAt(r, ls, n);
    if ls[n].Caller? && ls[n].t == t {
      var s := ls[n].callStep;
      assert StepOf(r, ls, n, t, s);
      match s {
        case RpcReturns(_) => RpcTold(r, ls, n, t, s);
        case Switch => SwitchTold(r, ls, n, t, s);
        case Test => SwitchTold(r, ls, n, t, s);
        case ReadErr =>
          ErrIsLast(r, ls, n);
          ReadTold(r, ls, n, t, s);
        case GiveUp => GiveUpTold(r, ls, n, t, s);
        case _ => QuietTold(r, ls, n, t, s);
      }
    } else {
      OtherKeepsCall(r[n], ls[n], t);
      Later(r, ls, n, t);
    }
  }

  lemma {:induction false} RunTold(r: seq<Config>, ls: seq<Label>, n: nat, t: nat)
    requires Run(r, ls) && n < |r|
    ensures Told(r, ls, n, t)
  {
    if n > 0 {
      RunTold(r, ls, n - 1, t);
      StepTold(r, ls, n - 1, t);
    }
  }

  /**
   What a Call has returned, in every run. It is what its RPC returned, unless that was an error of the
   call's own context and the machine was stopped at the test that followed. Then, and if a pass of the
   state switch found the machine stopped, it is Unavailable, with the error that the loop or the OOM
   monitor had stored last when the call read it. It is the caller's context error if the call gave up
   waiting, with that context done.
   */
  lemma CallReturns(r: seq<Config>, ls: seq<Label>, n: nat, t: nat)
    requires Run(r, ls) && n < |r| && t in r[n].calls && r[n].calls[t].Returned?
    ensures Verdict(r, ls, n, t, r[n].calls[t].why, r[n].calls[t].result)
  {
    RunTold(r, ls, n, t);
  }

  // ---- Where the state switch sends a call ----

  /** Within the first `n` steps a pass of call `t` through its state switch found the machine in state `s`. */
  ghost predicate Switched(r: seq<Config>, ls: seq<Label>, n: nat, t: nat, s: State)
    requires n <= |ls| < |r|
  {
    exists i: nat :: i < n && ls[i] == Caller(t, Switch) && r[i].sh.state == s
  }

  /** It waits only if it found the machine below Running, and makes its RPC only if it found it Running. */
  ghost predicate Sent(r: seq<Config>, ls: seq<Label>, n: nat, t: nat, pc: CallPc)
    requires n <= |ls| < |r|
  {
    && (Waits(pc) ==> Switched(r, ls, n, t, UNSTARTED) || Switched(r, ls, n, t, STARTING))
    && (Calls(pc) ==> Switched(r, ls, n, t, RUNNING))
    && (pc.Releasing? ==> pc.result != CallerGaveUp)
  }

  /** The call waits for Running, or gave up doing so. */
  ghost predicate Waits(pc: CallPc) {
    pc.AtWait? || pc.Blocked? || (pc.Returned? && pc.result == CallerGaveUp)
  }

  /** The call makes its RPC, or has made it. */
  ghost predicate Calls(pc: CallPc) {
    || pc.AtContext? || pc.InRpc? || pc.AfterRpc? || pc.Releasing?
    || ((pc.AtErr? || pc.Returned?) && pc.why.Some?)
  }

  lemma SwitchedLater(r: seq<Config>, ls: seq<Label>, n: nat, t: nat)
    requires n < |ls| < |r|
    ensures forall s | Switched(r, ls, n, t, s) :: Switched(r, ls, n + 1, t, s)
  {
    forall s | Switched(r, ls, n, t, s) ensures Switched(r, ls, n + 1, t, s) {
      var i: nat :| i < n && ls[i] == Caller(t, Switch) && r[i].sh.state == s;
      assert i < n + 1;
    }
  }

  lemma OwnSent(r: seq<Config>, ls: seq<Label>, n: nat, t: nat, s: CallStep)
    requires n < |ls| < |r| && StepOf(r, ls, n, t, s)
    requires t in r[n].calls ==> Sent(r, ls, n, t, r[n].calls[t]) && InvCall(r[n], t, r[n].calls[t])
    ensures t in r[n + 1].calls && Sent(r, ls, n + 1, t, r[n + 1].calls[t])
  {
    SwitchedLater(r, ls, n, t);
    assert s.Switch? ==> Switched(r, ls, n + 1, t, r[n].sh.state);
  }

  /** In every run a Call waits only if it found the machine below Running, and makes its RPC only if it found it Running. */
  lemma {:induction false} CallSent(r: seq<Config>, ls: seq<Label>, n: nat, t: nat)
    requires Run(r, ls) && n < |r|
    ensures t in r[n].calls ==> Sent(r, ls, n, t, r[n].calls[t])
  {
    if n > 0 {
      CallSent(r, ls, n - 1, t);
      assert StepAt(r, ls, n - 1);
      if ls[n - 1].Caller? && ls[n - 1].t == t {
        RunInv(r, ls, n - 1);
        OwnSent(r, ls, n - 1, t, ls[n - 1].callStep);
      } else {
        OtherKeepsCall(r[n - 1], ls[n - 1], t);
        SwitchedLater(r, ls, n - 1, t);
      }
    }
  }
}
