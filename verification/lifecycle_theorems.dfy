/** What holds over every run of the goroutines of one Machine. */
module LifecycleTheorems {
  import opened Wrappers
  import opened MachineState
  import opened Lifecycle

  // ---- Waiters: no double close, no lost wake-up ----

  ghost predicate Listed(c: Config, ch: nat)
    requires ch in c.registered
  {
    Waiter(ch, c.registered[ch]) in c.sh.waiters
  }

  /** No goroutine is between the locked half of setState and its last close. */
  ghost predicate Quiet(c: Config) {
    c.loopPending == [] && c.oomPending == []
  }

  ghost predicate Reached(r: seq<Config>, n: nat, ch: nat)
    requires n < |r| && ch in r[n].registered
  {
    exists k: nat :: k <= n && ch in r[k].registered && r[k].sh.state >= r[n].registered[ch]
  }

  /** A channel leaves the list with the step that brings the state up to what it wants. */
  ghost predicate ListedStep(c: Config, c': Config, ch: nat) {
    && (ch in c.registered ==> ch in c'.registered && c'.registered[ch] == c.registered[ch])
    && (ch in c'.registered ==>
          (Listed(c', ch) <==> (ch in c.registered ==> Listed(c, ch)) && c'.sh.state < c'.registered[ch]))
  }

  lemma LoopListed(c: Config, s: LoopStep, ch: nat)
    requires InvWaiters(c) && LoopEnabled(c, s)
    ensures ListedStep(c, ApplyLoop(c, s), ch)
  {
    match s
    case StoreStarting => KeptMember(c.sh.waiters, STARTING);
    case StoreStopped => KeptMember(c.sh.waiters, STOPPED);
    case StoreRunning => KeptMember(c.sh.waiters, RUNNING);
    case _ =>
  }

  lemma OomListed(c: Config, s: OomStep, ch: nat)
    requires InvWaiters(c) && OomEnabled(c, s)
    ensures ListedStep(c, ApplyOom(c, s), ch)
  {
    KeptMember(c.sh.waiters, STOPPED);
  }

  lemma WaitListedStep(c: Config, made: nat, want: State, ch: nat)
    requires InvWaiters(c) && made !in c.registered
    ensures ListedStep(c, Waiting(c, made, want), ch)
  {
    if ch == made {
      assert forall w | w in c.sh.waiters :: w.chan != made;
    }
  }

  lemma CallListedStep(c: Config, t: nat, s: CallStep, ch: nat)
    requires InvWaiters(c) && CallEnabled(c, t, s)
    ensures ListedStep(c, ApplyCall(c, t, s), ch)
  {
    if s.WaitRunning? {
      WaitListedStep(c, s.ch, RUNNING, ch);
    }
  }

  lemma StepListed(c: Config, l: Label, ch: nat)
    requires InvWaiters(c) && Enabled(c, l)
    ensures ListedStep(c, Apply(c, l), ch)
  {
    match l
    case Loop(s) => LoopListed(c, s, ch);
    case Oom(s) => OomListed(c, s, ch);
    case Caller(t, s) => CallListedStep(c, t, s, ch);
    case Register(made, want) => WaitListedStep(c, made, want, ch);
    case Done(_) =>
  }

  /** A channel is off the list exactly when the state was high enough since `Wait` made it. */
  lemma {:induction false} ListedUntilReached(r: seq<Config>, ls: seq<Label>, n: nat, ch: nat)
    requires Run(r, ls) && n < |r| && ch in r[n].registered
    ensures Listed(r[n], ch) <==> !Reached(r, n, ch)
  {
    assert n > 0;
    var c := r[n - 1];
    assert ListedStep(c, r[n], ch) by {
      RunInv(r, ls, n - 1);
      assert StepAt(r, ls, n - 1);
      StepListed(c, ls[n - 1], ch);
    }
    RegisteredBefore(r, ls, n - 1, ch);
    ReachedStep(r, n, ch);
    if ch in c.registered {
      ListedUntilReached(r, ls, n - 1, ch);
    }
  }

  /** A state is reached with the last step or was before. */
  lemma ReachedStep(r: seq<Config>, n: nat, ch: nat)
    requires 0 < n < |r| && ch in r[n].registered
    requires forall k: nat | k < n && ch in r[k].registered ::
      ch in r[n - 1].registered && r[n - 1].registered[ch] == r[n].registered[ch]
    ensures Reached(r, n, ch) <==>
      r[n].sh.state >= r[n].registered[ch] || (ch in r[n - 1].registered && Reached(r, n - 1, ch))
  {
    if ch in r[n - 1].registered && Reached(r, n - 1, ch) {
      var k: nat :| k <= n - 1 && ch in r[k].registered && r[k].sh.state >= r[n - 1].registered[ch];
      assert k <= n && ch in r[k].registered && r[k].sh.state >= r[n].registered[ch];
    }
  }

  /** Once made, a channel stays made, for the same state. */
  lemma {:induction false} RegisteredBefore(r: seq<Config>, ls: seq<Label>, n: nat, ch: nat)
    requires Run(r, ls) && n < |r|
    ensures forall k: nat | k <= n && ch in r[k].registered ::
      ch in r[n].registered && r[n].registered[ch] == r[k].registered[ch]
  {
    if n > 0 {
      RegisteredBefore(r, ls, n - 1, ch);
      RunInv(r, ls, n - 1);
      assert StepAt(r, ls, n - 1);
      StepListed(r[n - 1], ls[n - 1], ch);
    }
  }

  /**
   In every interleaving a channel is closed at most once, every listed waiter wants a state above
   the current one, and when no setState is under way a channel is closed exactly when the machine
   was at or above the wanted state at some moment since `Wait` made it.
   */
  lemma WaitersServed(r: seq<Config>, ls: seq<Label>, n: nat, ch: nat)
    requires Run(r, ls) && n < |r|
    ensures r[n].closed[ch] <= 1
    ensures forall w | w in r[n].sh.waiters :: w.want > r[n].sh.state
    ensures Quiet(r[n]) && ch in r[n].registered ==> (ch in r[n].closed <==> Reached(r, n, ch))
  {
    RunInv(r, ls, n);
    assert Places(r[n], ch) == if ch in r[n].registered then 1 else 0;
    if ch in r[n].registered {
      ListedUntilReached(r, ls, n, ch);
      ListedPlace(r[n], ch);
    }
  }

  lemma ListedPlace(c: Config, ch: nat)
    requires InvWaiters(c) && ch in c.registered
    ensures Listed(c, ch) <==> Chans(c.sh.waiters)[ch] > 0
  {
    ChansMember(c.sh.waiters);
    if Chans(c.sh.waiters)[ch] > 0 {
      assert ch in Chans(c.sh.waiters);
      var w :| w in c.sh.waiters && w.chan == ch;
      assert w == Waiter(ch, c.registered[ch]);
    }
  }

  /** The configuration once every goroutine inside setState has executed its remaining closes. */
  ghost function Drained(c: Config): Config
    decreases |c.loopPending| + |c.oomPending|
  {
    if c.loopPending != [] then Drained(ApplyLoop(c, LoopClose))
    else if c.oomPending != [] then Drained(ApplyOom(c, OomClose))
    else c
  }

  /**
   No lost wake-up: whatever the other goroutines do, the closes still pending are enough to make
   every Call that waits for Running able to go on once the machine has reached Running.
   */
  lemma {:induction false} NoLostWakeUp(c: Config, t: nat)
    requires Inv(c) && t in c.calls && c.calls[t].Blocked? && c.sh.state >= RUNNING
    ensures CallEnabled(Drained(c), t, Wake)
    decreases |c.loopPending| + |c.oomPending|
  {
    if c.loopPending != [] {
      LoopInv(c, LoopClose);
      NoLostWakeUp(ApplyLoop(c, LoopClose), t);
    } else if c.oomPending != [] {
      OomInv(c, OomClose);
      NoLostWakeUp(ApplyOom(c, OomClose), t);
    } else {
      var ch := c.calls[t].chan;
      assert InvCall(c, t, c.calls[t]);
      assert Places(c, ch) == 1;
      ListedPlace(c, ch);
    }
  }

  // ---- Cancellation and what Call reports ----

  /** Whether a Call has got past `context`, so that it holds a context of its own. */
  ghost predicate HasContext(pc: CallPc) {
    || pc.InRpc? || pc.AfterRpc? || pc.Releasing?
    || ((pc.AtErr? || pc.Returned?) && pc.why.Some?)
  }

  /**
   A stopped machine holds an error and no canceler; a context is registered, cancelled or released,
   and none is cancelled unless the machine has stopped.
   */
  lemma NoMissedCancellation(r: seq<Config>, ls: seq<Label>, n: nat)
    requires Run(r, ls) && n < |r|
    ensures r[n].sh.state == STOPPED ==> r[n].sh.cancelers == {} && r[n].sh.err.Some?
    ensures forall t | t in r[n].calls && HasContext(r[n].calls[t]) ::
      t in r[n].sh.cancelers || t in r[n].cancelled || t in r[n].released
    ensures forall t | t in r[n].calls && HasContext(r[n].calls[t]) && !r[n].calls[t].Returned? ::
      r[n].sh.state == STOPPED ==> t in r[n].cancelled
    ensures r[n].cancelled != {} ==> r[n].sh.state == STOPPED
  {
    RunInv(r, ls, n);
    forall t | t in r[n].calls ensures InvCall(r[n], t, r[n].calls[t]) {}
  }

  /**
   A Call makes at most two passes of its state switch, it returns what its RPC returned unless that
   is an error of the call's own context, its Unavailable error always carries the cause, it reports
   the machine's own stop as Unavailable and never as a context error, and it reports a context
   error only if the context its caller passed in is done.
   */
  lemma CallReports(r: seq<Config>, ls: seq<Label>, n: nat, t: nat)
    requires Run(r, ls) && n < |r| && t in r[n].calls
    ensures r[n].calls[t].pass <= 2
    ensures r[n].calls[t].Returned? ==>
      var Returned(_, why, result) := r[n].calls[t];
      && (result.Unavailable? ==> result.cause.Some?)
      && (why == Some(ContextError(true)) ==> result.Unavailable?)
      && (why.Some? && !why.value.ContextError? ==> result == RpcResult(why.value))
      && (result.RpcResult? ==> why == Some(result.outcome))
      && (result == CallerGaveUp || (result.RpcResult? && result.outcome.ContextError?) ==> t in r[n].callerDone)
  {
    RunInv(r, ls, n);
    assert InvCall(r[n], t, r[n].calls[t]);
  }

  // ---- Progress ----

  /**
   A Call has a step exactly unless it has returned, or waits with its channel open and its caller's context
   not done. Its RPC may succeed, fail, or return the error of the call's context once that is done.
   */
  lemma CallGoesOn(r: seq<Config>, ls: seq<Label>, n: nat, t: nat)
    requires Run(r, ls) && n < |r| && t in r[n].calls
    ensures (exists s :: CallEnabled(r[n], t, s)) <==>
      var pc := r[n].calls[t];
      !pc.Returned? && (pc.Blocked? ==> pc.chan in r[n].closed || t in r[n].callerDone)
    ensures r[n].calls[t].InRpc? ==>
      && CallEnabled(r[n], t, RpcReturns(Succeeded)) && (forall code :: CallEnabled(r[n], t, RpcReturns(OtherError(code))))
      && (t in r[n].cancelled ==> CallEnabled(r[n], t, RpcReturns(ContextError(true))))
      && (t in r[n].callerDone - r[n].cancelled ==> CallEnabled(r[n], t, RpcReturns(ContextError(false))))
  {
    var ch := FreshChannel(r[n].registered);
    CallHasStep(r[n], t, ch);
  }

  /** A channel that has not been made yet. */
  lemma FreshChannel(registered: map<nat, State>) returns (ch: nat)
    ensures ch !in registered
  {
    ch := Above(registered.Keys);
  }

  lemma {:induction false} Above(A: set<nat>) returns (n: nat)
    ensures forall a | a in A :: a < n
  {
    if A == {} {
      n := 0;
    } else {
      var a :| a in A;
      var m := Above(A - {a});
      n := if a < m then m else a + 1;
      assert forall b | b in A :: b == a || b in A - {a};
    }
  }

  lemma CallHasStep(c: Config, t: nat, ch: nat)
    requires t in c.calls && ch !in c.registered
    ensures (exists s :: CallEnabled(c, t, s)) <==>
      var pc := c.calls[t];
      !pc.Returned? && (pc.Blocked? ==> pc.chan in c.closed || t in c.callerDone)
  {
    match c.calls[t]
    case AtSwitch(_) => assert CallEnabled(c, t, Switch);
    case AtWait(_) => assert CallEnabled(c, t, WaitRunning(ch));
    case Blocked(_, x) =>
      assert x in c.closed ==> CallEnabled(c, t, Wake);
      assert t in c.callerDone ==> CallEnabled(c, t, GiveUp);
    case AtContext(_) => assert CallEnabled(c, t, MakeContext);
    case InRpc(_) => assert CallEnabled(c, t, RpcReturns(Succeeded));
    case AfterRpc(_, _) => assert CallEnabled(c, t, Test);
    case AtErr(_, _) => assert CallEnabled(c, t, ReadErr);
    case Releasing(_, _, _) => assert CallEnabled(c, t, Release);
    case Returned(_, _, _) =>
  }

  /** The loop has a step until it is finished and has closed its channels; what fails it may fail it at every stage. */
  lemma LoopGoesOn(c: Config)
    requires InvPhase(c)
    ensures (exists s :: LoopEnabled(c, s)) <==> c.loop != Finished || c.loopPending != []
    ensures c.loopPending == [] && (c.loop == Booting || c.loop == Serving) ==> forall e :: LoopEnabled(c, FailWith(e))
    ensures c.loopPending == [] && c.loop == Booting && !c.monitored ==> LoopEnabled(c, StoreRunning)
    ensures c.loopPending == [] && c.loop == Booting && c.monitored ==> LoopEnabled(c, StartMonitor)
    ensures (exists s :: OomEnabled(c, s)) <==> c.oom != Absent || c.oomPending != []
  {
    assert c.loopPending != [] ==> LoopEnabled(c, LoopClose);
    match c.loop {
      case Fresh => assert LoopEnabled(c, StoreStarting);
      case Booting => assert c.loopPending == [] ==> LoopEnabled(c, FailWith(OutOfMemory));
      case Monitored => assert c.loopPending == [] ==> LoopEnabled(c, StoreRunning);
      case Serving => assert c.loopPending == [] ==> LoopEnabled(c, FailWith(OutOfMemory));
      case Failing(_) => assert LoopEnabled(c, StoreStopped);
      case Finished =>
    }
    assert c.oomPending != [] ==> OomEnabled(c, OomClose);
    match c.oom {
      case Absent =>
      case Scanning => assert c.oomPending == [] ==> OomEnabled(c, OomError);
      case Reporting => assert OomEnabled(c, OomStopped);
    }
  }

  // ---- The order of the states ----

  lemma CallKeepsState(c: Config, t: nat, s: CallStep)
    requires CallEnabled(c, t, s)
    ensures ApplyCall(c, t, s).sh.state == c.sh.state && ApplyCall(c, t, s).served == c.served
    ensures ApplyCall(c, t, s).loop == c.loop
  {
  }

  ghost predicate StateStep(c: Config, l: Label, c': Config) {
    && (c'.sh.state < c.sh.state <==> l == Loop(StoreRunning) && c.sh.state == STOPPED)
    && (c.served ==> c'.served && RUNNING <= c.sh.state <= c'.sh.state)
    && (c.sh.state >= RUNNING ==> c'.sh.state >= RUNNING)
    && (l == Loop(StoreRunning) ==> Early(c))
    && (Early(c') ==> Early(c) && (c'.sh.state == STOPPED <==> c.sh.state == STOPPED || l == Oom(OomStopped)))
  }

  /** The loop has not stored Running and is not failing. */
  ghost predicate Early(c: Config) {
    c.loop in {Fresh, Booting, Monitored}
  }

  lemma LoopState(c: Config, s: LoopStep)
    requires InvPhase(c) && LoopEnabled(c, s)
    ensures StateStep(c, Loop(s), ApplyLoop(c, s))
  {
  }

  lemma OomState(c: Config, s: OomStep)
    requires InvPhase(c) && OomEnabled(c, s)
    ensures StateStep(c, Oom(s), ApplyOom(c, s))
  {
  }

  /** The one step that can lower the state is the store of Running over Stopped. */
  lemma OnlyDecrease(c: Config, l: Label)
    requires InvPhase(c) && Enabled(c, l)
    ensures StateStep(c, l, Apply(c, l))
  {
    match l
    case Loop(s) => LoopState(c, s);
    case Oom(s) => OomState(c, s);
    case Caller(t, s) => CallKeepsState(c, t, s);
    case _ =>
  }

  lemma StateStepAt(r: seq<Config>, ls: seq<Label>, n: nat)
    requires Run(r, ls) && n < |ls|
    ensures StateStep(r[n], ls[n], r[n + 1])
  {
    RunInv(r, ls, n);
    assert StepAt(r, ls, n);
    OnlyDecrease(r[n], ls[n]);
  }

  /** From the store of Running on, the state never falls; so Stopped is permanent and Running a floor. */
  lemma {:induction false} MonotoneOnceServed(r: seq<Config>, ls: seq<Label>, i: nat, j: nat)
    requires Run(r, ls) && i <= j < |r| && r[i].served
    ensures r[j].served && RUNNING <= r[i].sh.state <= r[j].sh.state
  {
    if i < j {
      MonotoneOnceServed(r, ls, i, j - 1);
      StateStepAt(r, ls, j - 1);
    } else {
      RunInv(r, ls, i);
    }
  }

  /** Once the state has been Running or above it stays so, in the runs with a decrease too. */
  lemma {:induction false} RunningIsFloor(r: seq<Config>, ls: seq<Label>, i: nat, j: nat)
    requires Run(r, ls) && i <= j < |r| && r[i].sh.state >= RUNNING
    ensures r[j].sh.state >= RUNNING
  {
    if i < j {
      RunningIsFloor(r, ls, i, j - 1);
      StateStepAt(r, ls, j - 1);
    }
  }

  ghost predicate Reports(ls: seq<Label>, n: nat)
    requires n <= |ls|
  {
    exists i: nat :: i < n && ls[i] == Oom(OomStopped)
  }

  /** Until Running is stored, only an OOM report can have stopped the machine. */
  lemma {:induction false} EarlyStop(r: seq<Config>, ls: seq<Label>, n: nat)
    requires Run(r, ls) && n < |r| && Early(r[n])
    ensures r[n].sh.state == STOPPED <==> Reports(ls, n)
  {
    if n > 0 {
      StateStepAt(r, ls, n - 1);
      EarlyStop(r, ls, n - 1);
      if Reports(ls, n - 1) {
        var i: nat :| i < n - 1 && ls[i] == Oom(OomStopped);
        assert i < n;
      }
      if ls[n - 1] == Oom(OomStopped) {
        assert Reports(ls, n);
      }
    }
  }

  /** The states of a run never fall. */
  ghost predicate Monotone(r: seq<Config>) {
    forall i | 0 <= i < |r| - 1 :: r[i].sh.state <= r[i + 1].sh.state
  }

  /** An OOM report is stored before the loop stores Running. */
  ghost predicate ReportBeforeRunning(ls: seq<Label>) {
    exists i, j :: 0 <= i < j < |ls| && ls[i] == Oom(OomStopped) && ls[j] == Loop(StoreRunning)
  }

  /** The state falls with a step exactly if that stores Running and an OOM report came before it. */
  ghost predicate FallsExactly(r: seq<Config>, ls: seq<Label>, n: nat)
    requires n < |ls| && |r| == |ls| + 1
  {
    r[n + 1].sh.state < r[n].sh.state <==> ls[n] == Loop(StoreRunning) && Reports(ls, n)
  }

  lemma StepFalls(r: seq<Config>, ls: seq<Label>, n: nat)
    requires Run(r, ls) && n < |ls|
    ensures FallsExactly(r, ls, n)
  {
    StateStepAt(r, ls, n);
    if ls[n] == Loop(StoreRunning) {
      EarlyStop(r, ls, n);
    }
  }

  lemma MonotoneIff(r: seq<Config>, ls: seq<Label>)
    requires |r| == |ls| + 1 && forall n: nat | n < |ls| :: FallsExactly(r, ls, n)
    ensures Monotone(r) <==> !ReportBeforeRunning(ls)
  {
    if !Monotone(r) {
      var n: nat :| n < |ls| && r[n + 1].sh.state < r[n].sh.state;
      assert FallsExactly(r, ls, n);
      var i: nat :| i < n && ls[i] == Oom(OomStopped);
      assert 0 <= i < n < |ls| && ls[i] == Oom(OomStopped) && ls[n] == Loop(StoreRunning);
    }
    if ReportBeforeRunning(ls) {
      var i, j :| 0 <= i < j < |ls| && ls[i] == Oom(OomStopped) && ls[j] == Loop(StoreRunning);
      assert Reports(ls, j) && FallsExactly(r, ls, j);
      assert r[j + 1].sh.state < r[j].sh.state;
    }
  }

  /** The states proceed monotonically exactly in the runs where no OOM report precedes the store of Running. */
  lemma MonotoneExactly(r: seq<Config>, ls: seq<Label>)
    requires Run(r, ls)
    ensures Monotone(r) <==> !ReportBeforeRunning(ls)
  {
    forall n: nat | n < |ls| ensures FallsExactly(r, ls, n) {
      StepFalls(r, ls, n);
    }
    MonotoneIff(r, ls);
  }

  /** The loop has started the OOM monitor and stored nothing since; nobody waits. */
  ghost function Watched(): Config {
    Config(true, Shared(STARTING, None, [], {}), Monitored, [], Scanning, [],
           map[], map[], multiset{}, {}, {}, {}, false)
  }

  lemma GetsWatched() returns (c0: Config, c1: Config)
    ensures Init(c0) && Enabled(c0, Loop(StoreStarting)) && c1 == Apply(c0, Loop(StoreStarting))
    ensures Enabled(c1, Loop(StartMonitor)) && Watched() == Apply(c1, Loop(StartMonitor))
  {
    c0 := Config(true, Shared(UNSTARTED, None, [], {}), Fresh, [], Absent, [],
                 map[], map[], multiset{}, {}, {}, {}, false);
    c1 := c0.(sh := c0.sh.(state := STARTING), loop := Booting);
  }

  lemma GetsReported() returns (c3: Config, c4: Config, c5: Config)
    ensures Enabled(Watched(), Oom(OomError)) && c3 == Apply(Watched(), Oom(OomError))
    ensures Enabled(c3, Oom(OomStopped)) && c4 == Apply(c3, Oom(OomStopped))
    ensures Enabled(c4, Loop(StoreRunning)) && c5 == Apply(c4, Loop(StoreRunning))
    ensures c4.sh.state == STOPPED && c5.sh.state == RUNNING
  {
    var c2 := Watched();
    c3 := c2.(sh := c2.sh.(err := Some(OutOfMemory)), oom := Reporting);
    c4 := c3.(sh := c3.sh.(state := STOPPED), oom := Scanning);
    c5 := c4.(sh := c4.sh.(state := RUNNING), loop := Serving, served := true);
  }

  /** A run of an owned machine in which the state does fall, from Stopped to Running. */
  lemma StateCanFall() returns (r: seq<Config>, ls: seq<Label>)
    ensures Run(r, ls) && !Monotone(r)
    ensures r[|r| - 2].sh.state == STOPPED && r[|r| - 1].sh.state == RUNNING
  {
    var c0, c1 := GetsWatched();
    var c3, c4, c5 := GetsReported();
    ls := [Loop(StoreStarting), Loop(StartMonitor), Oom(OomError), Oom(OomStopped), Loop(StoreRunning)];
    r := [c0, c1, Watched(), c3, c4, c5];
    assert StepAt(r, ls, 0);
    assert StepAt(r, ls, 1);
    assert StepAt(r, ls, 2);
    assert StepAt(r, ls, 3);
    assert StepAt(r, ls, 4);
    assert r[5].sh.state < r[4].sh.state;
  }
}
