/**
 The goroutines that share one Machine (machine.go): its loop, the OOM monitor the
 loop may start, any number of callers of `Wait` and any number of callers of
 `Call`. Each locked section, each unlocked read of the state and each channel
 close is one step, and the steps interleave in every order.
 */
module Lifecycle {
  import opened Wrappers
  import opened MachineState

  /** Where the loop stands between two of its steps. */
  datatype LoopPc =
    | Fresh                     // before setState(Starting)
    | Booting                   // Starting stored: ping, exec, register services
    | Monitored                 // the OOM monitor was started; Running is not stored yet
    | Serving                   // Running stored: keepalives
    | Failing(served: bool)     // inside setError, the error is stored and Stopped is not
    | Finished

  datatype MonitorPc = Absent | Scanning | Reporting

  /** What an RPC made by `Call` came back with. */
  datatype RpcOutcome =
    | Succeeded
    | OtherError(code: nat)
    | ContextError(byMachine: bool)   // the error of the call's own context

  datatype Result =
    | RpcResult(outcome: RpcOutcome)
    | Unavailable(cause: Option<Cause>)   // the Fatal/Unavailable error
    | CallerGaveUp                        // ctx.Err() of the caller's context

  /** Where a `Call` stands; `pass` counts the passes of its state switch that have begun. */
  datatype CallPc =
    | AtSwitch(pass: nat)
    | AtWait(pass: nat)
    | Blocked(pass: nat, chan: nat)
    | AtContext(pass: nat)
    | InRpc(pass: nat)
    | AfterRpc(pass: nat, outcome: RpcOutcome)
    | AtErr(pass: nat, why: Option<RpcOutcome>)
    | Releasing(pass: nat, outcome: RpcOutcome, result: Result)
    | Returned(pass: nat, why: Option<RpcOutcome>, result: Result)

  datatype Config = Config(
    monitored: bool,              // the machine is owned and has a System
    sh: Shared,
    loop: LoopPc, loopPending: seq<nat>,
    oom: MonitorPc, oomPending: seq<nat>,
    calls: map<nat, CallPc>,
    registered: map<nat, State>,  // every channel made so far and the state it waits for
    closed: multiset<nat>,        // one entry per close(c) executed
    cancelled: set<nat>,          // contexts the machine cancelled
    released: set<nat>,           // contexts whose canceler was dropped by its Call
    callerDone: set<nat>,         // calls whose own context is done
    served: bool)                 // the loop has stored Running

  datatype LoopStep = StoreStarting | FailWith(e: Cause) | StoreStopped | StartMonitor | StoreRunning | LoopClose

  datatype OomStep = OomError | OomStopped | OomClose

  datatype CallStep =
    | Begin | Switch | WaitRunning(ch: nat) | Wake | GiveUp | MakeContext
    | RpcReturns(outcome: RpcOutcome) | Test | ReadErr | Release

  datatype Label =
    | Loop(loopStep: LoopStep)
    | Oom(oomStep: OomStep)
    | Caller(t: nat, callStep: CallStep)
    | Register(ch: nat, want: State)   // any other caller of Wait
    | Done(t: nat)                     // the context a caller passed in is done

  ghost predicate Init(c: Config) {
    && c.sh == Shared(UNSTARTED, None, [], {})
    && c.loop == Fresh && c.loopPending == [] && c.oom == Absent && c.oomPending == []
    && c.calls == map[] && c.registered == map[] && c.closed == multiset{}
    && c.cancelled == {} && c.released == {} && c.callerDone == {} && !c.served
  }

  ghost predicate LoopEnabled(c: Config, l: LoopStep) {
    match l
    case StoreStarting => c.loop == Fresh
    case FailWith(_) => c.loopPending == [] && (c.loop == Booting || c.loop == Serving)
    case StoreStopped => c.loop.Failing?
    case StartMonitor => c.loopPending == [] && c.loop == Booting && c.monitored
    case StoreRunning => c.loopPending == [] && c.loop == (if c.monitored then Monitored else Booting)
    case LoopClose => c.loopPending != []
  }

  ghost predicate OomEnabled(c: Config, l: OomStep) {
    match l
    case OomError => c.oomPending == [] && c.oom == Scanning
    case OomStopped => c.oom == Reporting
    case OomClose => c.oomPending != []
  }

  ghost predicate CallEnabled(c: Config, t: nat, l: CallStep) {
    if l.Begin? then t !in c.calls
    else
      && t in c.calls
      && var pc := c.calls[t];
         match l
         case Begin => false
         case Switch => pc.AtSwitch?
         case WaitRunning(ch) => pc.AtWait? && ch !in c.registered
         case Wake => pc.Blocked? && pc.chan in c.closed
         case GiveUp => pc.Blocked? && t in c.callerDone
         case MakeContext => pc.AtContext?
         case RpcReturns(o) =>
           && pc.InRpc?
           && (o.ContextError? ==> (t in c.cancelled || t in c.callerDone) && o.byMachine == (t in c.cancelled))
         case Test => pc.AfterRpc?
         case ReadErr => pc.AtErr?
         case Release => pc.Releasing?
  }

  ghost predicate Enabled(c: Config, l: Label) {
    match l
    case Loop(s) => LoopEnabled(c, s)
    case Oom(s) => OomEnabled(c, s)
    case Caller(t, s) => CallEnabled(c, t, s)
    case Register(ch, _) => ch !in c.registered
    case Done(_) => true
  }

  /** `setState(s)` up to its unlock, but for the channels left to close. */
  ghost function Store(c: Config, s: State): Config {
    c.(sh := Stored(c.sh, s), cancelled := c.cancelled + CancelledBy(c.sh, s))
  }

  ghost function Waiting(c: Config, ch: nat, want: State): Config {
    c.(sh := Waited(c.sh, ch, want),
       registered := c.registered[ch := want],
       closed := if want <= c.sh.state then c.closed + multiset{ch} else c.closed)
  }

  ghost function Move(c: Config, t: nat, pc: CallPc): Config {
    c.(calls := c.calls[t := pc])
  }

  ghost function ApplyLoop(c: Config, l: LoopStep): Config
    requires LoopEnabled(c, l)
  {
    match l
    case StoreStarting =>
      Store(c, STARTING).(loop := Booting, loopPending := Triggered(c.sh.waiters, STARTING))
    case FailWith(e) => c.(sh := c.sh.(err := Some(e)), loop := Failing(c.loop == Serving))
    case StoreStopped =>
      Store(c, STOPPED).(loop := Finished, loopPending := Triggered(c.sh.waiters, STOPPED))
    case StartMonitor => c.(loop := Monitored, oom := Scanning)
    case StoreRunning =>
      Store(c, RUNNING).(loop := Serving, loopPending := Triggered(c.sh.waiters, RUNNING), served := true)
    case LoopClose => c.(loopPending := c.loopPending[1..], closed := c.closed + multiset{c.loopPending[0]})
  }

  ghost function ApplyOom(c: Config, l: OomStep): Config
    requires OomEnabled(c, l)
  {
    match l
    case OomError => c.(sh := c.sh.(err := Some(OutOfMemory)), oom := Reporting)
    case OomStopped =>
      Store(c, STOPPED).(oom := Scanning, oomPending := Triggered(c.sh.waiters, STOPPED))
    case OomClose => c.(oomPending := c.oomPending[1..], closed := c.closed + multiset{c.oomPending[0]})
  }

  ghost function ApplyCall(c: Config, t: nat, l: CallStep): Config
    requires CallEnabled(c, t, l)
  {
    match l
    case Begin => Move(c, t, AtSwitch(0))
    case Switch =>
      var pass := c.calls[t].pass + 1;
      Move(c, t, if c.sh.state == RUNNING then AtContext(pass)
                 else if c.sh.state == STOPPED then AtErr(pass, None)
                 else AtWait(pass))
    case WaitRunning(ch) => Move(Waiting(c, ch, RUNNING), t, Blocked(c.calls[t].pass, ch))
    case Wake => Move(c, t, AtSwitch(c.calls[t].pass))
    case GiveUp => Move(c, t, Returned(c.calls[t].pass, None, CallerGaveUp))
    case MakeContext =>
      Move(c, t, InRpc(c.calls[t].pass))
      .(sh := Contexted(c.sh, t),
        cancelled := if c.sh.state >= STOPPED then c.cancelled + {t} else c.cancelled)
    case RpcReturns(o) => Move(c, t, AfterRpc(c.calls[t].pass, o))
    case Test =>
      var AfterRpc(pass, o) := c.calls[t];
      Move(c, t, if o.ContextError? && c.sh.state == STOPPED then AtErr(pass, Some(o))
                 else Releasing(pass, o, RpcResult(o)))
    case ReadErr =>
      var AtErr(pass, why) := c.calls[t];
      Move(c, t, if why.None? then Returned(pass, why, Unavailable(c.sh.err))
                 else Releasing(pass, why.value, Unavailable(c.sh.err)))
    case Release =>
      var Releasing(pass, why, result) := c.calls[t];
      Move(c, t, Returned(pass, Some(why), result))
      .(sh := c.sh.(cancelers := c.sh.cancelers - {t}), released := c.released + {t})
  }

  ghost function Apply(c: Config, l: Label): Config
    requires Enabled(c, l)
  {
    match l
    case Loop(s) => ApplyLoop(c, s)
    case Oom(s) => ApplyOom(c, s)
    case Caller(t, s) => ApplyCall(c, t, s)
    case Register(ch, want) => Waiting(c, ch, want)
    case Done(t) => c.(callerDone := c.callerDone + {t})
  }

  ghost predicate StepAt(r: seq<Config>, ls: seq<Label>, i: nat)
    requires i < |ls| && |r| == |ls| + 1
  {
    Enabled(r[i], ls[i]) && r[i + 1] == Apply(r[i], ls[i])
  }

  /** A run: the configurations visited and the steps between them. */
  ghost predicate Run(r: seq<Config>, ls: seq<Label>) {
    && |r| == |ls| + 1
    && Init(r[0])
    && forall i | 0 <= i < |ls| :: StepAt(r, ls, i)
  }

  // ---- What every step keeps ----

  /** How the state, the error and the canceler set follow the loop and the monitor. */
  ghost predicate InvPhase(c: Config) {
    && (c.loop == Fresh ==> c.sh.state == UNSTARTED && c.loopPending == [])
    && (c.loop == Booting ==> c.sh.state == STARTING)
    && (c.loop == Monitored ==> c.monitored && (c.sh.state == STARTING || c.sh.state == STOPPED))
    && (c.loop == Serving ==> c.served)
    && (c.loop.Failing? ==> c.loopPending == [] && c.sh.err.Some? && c.loop.served == c.served && (!c.served ==> c.sh.state == STARTING))
    && (c.loop == Finished ==> c.sh.state == STOPPED)
    && (c.loop in {Fresh, Booting, Monitored} ==> !c.served)
    && (c.served ==> c.sh.state >= RUNNING)
    && (c.oom != Absent ==> c.served || c.loop == Monitored)
    && (c.oom == Reporting ==> c.oomPending == [] && c.sh.err.Some?)
    && (c.sh.state == STOPPED ==> c.sh.err.Some? && c.sh.cancelers == {})
    && (c.cancelled != {} ==> c.served && c.sh.state == STOPPED)
    && (c.sh.cancelers != {} ==> c.served)
  }

  /** In how many places a channel is: listed, about to be closed, or closed. */
  ghost function Places(c: Config, ch: nat): nat {
    Chans(c.sh.waiters)[ch] + multiset(c.loopPending)[ch] + multiset(c.oomPending)[ch] + c.closed[ch]
  }

  /** Every channel made so far is in exactly one place, every other in none. */
  ghost predicate InvChannels(c: Config) {
    forall ch :: Places(c, ch) == if ch in c.registered then 1 else 0
  }

  /** Every listed waiter wants a state above the current one. */
  ghost predicate InvWaiters(c: Config) {
    forall w | w in c.sh.waiters ::
      w.want > c.sh.state && w.chan in c.registered && c.registered[w.chan] == w.want
  }

  /** A channel for Running leaves the list only once the state is there. */
  ghost predicate InvReached(c: Config) {
    forall ch | ch in c.registered && c.registered[ch] == RUNNING ::
      c.sh.state >= RUNNING || Waiter(ch, RUNNING) in c.sh.waiters
  }

  /** Unavailable has a cause; the machine's own cancellation is never passed on as a context error. */
  ghost predicate ResultOk(c: Config, t: nat, why: Option<RpcOutcome>, result: Result) {
    && (result.Unavailable? ==> result.cause.Some?)
    && (why == Some(ContextError(true)) ==> result.Unavailable?)
    && (why.Some? && !why.value.ContextError? ==> result == RpcResult(why.value))
    && (result.RpcResult? ==> why == Some(result.outcome))
    && (result == CallerGaveUp || result == RpcResult(ContextError(false)) ==> t in c.callerDone)
  }

  ghost predicate InvCall(c: Config, t: nat, pc: CallPc) {
    match pc
    case AtSwitch(p) => p <= 1 && (p == 1 ==> c.sh.state >= RUNNING)
    case AtWait(p) => p == 1
    case Blocked(p, ch) => p == 1 && ch in c.registered && c.registered[ch] == RUNNING
    case AtContext(p) => p <= 2 && c.served
    case InRpc(p) => p <= 2 && t in c.sh.cancelers + c.cancelled
    case AfterRpc(p, o) =>
      p <= 2 && t in c.sh.cancelers + c.cancelled && (o == ContextError(true) ==> t in c.cancelled)
      && (o == ContextError(false) ==> t in c.callerDone)
    case AtErr(p, why) =>
      && p <= 2 && c.sh.err.Some?
      && (why.Some? ==> why.value.ContextError? && t in c.sh.cancelers + c.cancelled)
    case Releasing(p, why, result) =>
      p <= 2 && ResultOk(c, t, Some(why), result) && t in c.sh.cancelers + c.cancelled
    case Returned(p, why, result) => p <= 2 && ResultOk(c, t, why, result) && (why.Some? ==> t in c.released)
  }

  ghost predicate InvCalls(c: Config) {
    forall t | t in c.calls :: InvCall(c, t, c.calls[t])
  }

  ghost predicate Inv(c: Config) {
    InvPhase(c) && InvChannels(c) && InvWaiters(c) && InvReached(c) && InvCalls(c)
  }

  lemma PlacesStore(ws: seq<Waiter>, s: State, ch: nat)
    ensures Chans(ws)[ch] == multiset(Triggered(ws, s))[ch] + Chans(Kept(ws, s))[ch]
  {
    StoreSplitsChans(ws, s);
  }

  lemma PlacesClose(pending: seq<nat>, ch: nat)
    requires pending != []
    ensures multiset(pending)[ch] == multiset(pending[1..])[ch] + if ch == pending[0] then 1 else 0
  {
    assert pending == [pending[0]] + pending[1..];
  }

  lemma PlacesWait(c: Config, made: nat, want: State, ch: nat)
    ensures Places(Waiting(c, made, want), ch) == Places(c, ch) + if ch == made then 1 else 0
  {
    ChansSnoc(c.sh.waiters, Waiter(made, want));
  }

  // The loop's steps.

  lemma LoopPhase(c: Config, s: LoopStep)
    requires InvPhase(c) && LoopEnabled(c, s)
    ensures InvPhase(ApplyLoop(c, s))
  {
  }

  /** A store moves the channels it triggers from the list to the loop. */
  lemma LoopStorePlaces(c: Config, c': Config, s: State, ch: nat)
    requires c.loopPending == [] && c'.loopPending == Triggered(c.sh.waiters, s) && c'.sh.waiters == Kept(c.sh.waiters, s)
    requires c'.oomPending == c.oomPending && c'.closed == c.closed
    ensures Places(c', ch) == Places(c, ch)
  {
    PlacesStore(c.sh.waiters, s, ch);
  }

  lemma LoopPlaces(c: Config, s: LoopStep, ch: nat)
    requires LoopEnabled(c, s) && (!s.LoopClose? ==> c.loopPending == [])
    ensures Places(ApplyLoop(c, s), ch) == Places(c, ch)
  {
    match s
    case StoreStarting => LoopStorePlaces(c, ApplyLoop(c, s), STARTING, ch);
    case StoreStopped => LoopStorePlaces(c, ApplyLoop(c, s), STOPPED, ch);
    case StoreRunning => LoopStorePlaces(c, ApplyLoop(c, s), RUNNING, ch);
    case LoopClose => PlacesClose(c.loopPending, ch);
    case _ =>
  }

  lemma LoopWaiters(c: Config, s: LoopStep)
    requires InvWaiters(c) && LoopEnabled(c, s)
    ensures InvWaiters(ApplyLoop(c, s))
  {
    match s
    case StoreStarting => KeptMember(c.sh.waiters, STARTING);
    case StoreStopped => KeptMember(c.sh.waiters, STOPPED);
    case StoreRunning => KeptMember(c.sh.waiters, RUNNING);
    case _ =>
  }

  lemma LoopReached(c: Config, s: LoopStep)
    requires InvPhase(c) && InvReached(c) && LoopEnabled(c, s)
    ensures InvReached(ApplyLoop(c, s))
  {
    if s.StoreStarting? {
      KeptMember(c.sh.waiters, STARTING);
    }
  }

  lemma LoopCall(c: Config, s: LoopStep, t: nat)
    requires InvPhase(c) && LoopEnabled(c, s) && t in c.calls && InvCall(c, t, c.calls[t])
    ensures InvCall(ApplyLoop(c, s), t, c.calls[t])
  {
  }

  lemma LoopInv(c: Config, s: LoopStep)
    requires Inv(c) && LoopEnabled(c, s)
    ensures Inv(ApplyLoop(c, s))
  {
    var c' := ApplyLoop(c, s);
    LoopPhase(c, s);
    forall ch ensures Places(c', ch) == Places(c, ch) { LoopPlaces(c, s, ch); }
    LoopWaiters(c, s);
    LoopReached(c, s);
    forall t | t in c.calls ensures InvCall(c', t, c.calls[t]) { LoopCall(c, s, t); }
  }

  // The monitor's steps.

  lemma OomPhase(c: Config, s: OomStep)
    requires InvPhase(c) && OomEnabled(c, s)
    ensures InvPhase(ApplyOom(c, s))
  {
  }

  lemma OomPlaces(c: Config, s: OomStep, ch: nat)
    requires InvPhase(c) && OomEnabled(c, s)
    ensures Places(ApplyOom(c, s), ch) == Places(c, ch)
  {
    match s
    case OomError =>
    case OomStopped => PlacesStore(c.sh.waiters, STOPPED, ch);
    case OomClose => PlacesClose(c.oomPending, ch);
  }

  lemma OomCall(c: Config, s: OomStep, t: nat)
    requires InvPhase(c) && OomEnabled(c, s) && t in c.calls && InvCall(c, t, c.calls[t])
    ensures InvCall(ApplyOom(c, s), t, c.calls[t])
  {
  }

  lemma OomInv(c: Config, s: OomStep)
    requires Inv(c) && OomEnabled(c, s)
    ensures Inv(ApplyOom(c, s))
  {
    var c' := ApplyOom(c, s);
    OomPhase(c, s);
    forall ch ensures Places(c', ch) == Places(c, ch) { OomPlaces(c, s, ch); }
    assert InvWaiters(c') && InvReached(c') by { KeptMember(c.sh.waiters, STOPPED); }
    forall t | t in c.calls ensures InvCall(c', t, c.calls[t]) { OomCall(c, s, t); }
  }

  // A caller of Wait.

  lemma WaitChannels(c: Config, ch: nat, want: State)
    requires InvChannels(c) && ch !in c.registered
    ensures InvChannels(Waiting(c, ch, want))
  {
    var c' := Waiting(c, ch, want);
    forall x ensures Places(c', x) == if x in c'.registered then 1 else 0 {
      PlacesWait(c, ch, want, x);
      assert Places(c, x) == if x in c.registered then 1 else 0;
    }
  }

  lemma WaitListed(c: Config, ch: nat, want: State)
    requires InvWaiters(c) && InvReached(c) && ch !in c.registered
    ensures InvWaiters(Waiting(c, ch, want)) && InvReached(Waiting(c, ch, want))
  {
    var c' := Waiting(c, ch, want);
    assert want > c.sh.state ==> Waiter(ch, want) in c'.sh.waiters;
    assert forall w | w in c.sh.waiters :: w in c'.sh.waiters;
  }

  lemma WaitCall(c: Config, ch: nat, want: State, t: nat)
    requires ch !in c.registered && t in c.calls && InvCall(c, t, c.calls[t])
    ensures InvCall(Waiting(c, ch, want), t, c.calls[t])
  {
  }

  lemma WaitInv(c: Config, ch: nat, want: State)
    requires Inv(c) && ch !in c.registered
    ensures Inv(Waiting(c, ch, want))
  {
    WaitChannels(c, ch, want);
    WaitListed(c, ch, want);
    forall t | t in c.calls ensures InvCall(Waiting(c, ch, want), t, c.calls[t]) { WaitCall(c, ch, want, t); }
  }

  // The steps of a Call.

  /** A closed channel is no longer listed. */
  lemma WokenMeansReached(c: Config, ch: nat)
    requires Inv(c) && ch in c.closed && ch in c.registered && c.registered[ch] == RUNNING
    ensures c.sh.state >= RUNNING
  {
    assert Places(c, ch) == 1;
    ChansMember(c.sh.waiters);
  }

  /** What InvPhase speaks of is the same. */
  ghost predicate SamePhase(c: Config, c': Config) {
    && c'.monitored == c.monitored && c'.served == c.served && c'.cancelled == c.cancelled
    && c'.loop == c.loop && c'.loopPending == c.loopPending && c'.oom == c.oom && c'.oomPending == c.oomPending
    && c'.sh.state == c.sh.state && c'.sh.err == c.sh.err && c'.sh.cancelers == c.sh.cancelers
  }

  lemma CallSamePhase(c: Config, t: nat, s: CallStep)
    requires CallEnabled(c, t, s) && !s.MakeContext? && !s.Release?
    ensures SamePhase(c, ApplyCall(c, t, s))
  {
  }

  lemma ContextPhase(c: Config, t: nat)
    requires InvPhase(c) && CallEnabled(c, t, MakeContext) && InvCall(c, t, c.calls[t])
    ensures InvPhase(ApplyCall(c, t, MakeContext))
  {
  }

  lemma ReleasePhase(c: Config, t: nat)
    requires InvPhase(c) && CallEnabled(c, t, Release)
    ensures InvPhase(ApplyCall(c, t, Release))
  {
  }

  lemma CallPhase(c: Config, t: nat, s: CallStep)
    requires InvPhase(c) && CallEnabled(c, t, s) && (t in c.calls ==> InvCall(c, t, c.calls[t]))
    ensures InvPhase(ApplyCall(c, t, s))
  {
    match s
    case MakeContext => ContextPhase(c, t);
    case Release => ReleasePhase(c, t);
    case _ => CallSamePhase(c, t, s);
  }

  lemma CallOwn(c: Config, t: nat, s: CallStep)
    requires InvPhase(c) && CallEnabled(c, t, s) && (t in c.calls ==> InvCall(c, t, c.calls[t]))
    requires s.Wake? ==> c.sh.state >= RUNNING
    ensures var c' := ApplyCall(c, t, s); t in c'.calls && InvCall(c', t, c'.calls[t])
  {
  }

  lemma CallOther(c: Config, t: nat, s: CallStep, u: nat)
    requires CallEnabled(c, t, s) && u != t && u in c.calls && InvCall(c, u, c.calls[u])
    ensures var c' := ApplyCall(c, t, s); u in c'.calls && InvCall(c', u, c'.calls[u])
  {
  }

  ghost predicate SameChannels(c: Config, c': Config) {
    && c'.sh.waiters == c.sh.waiters && c'.loopPending == c.loopPending && c'.oomPending == c.oomPending
    && c'.closed == c.closed && c'.registered == c.registered
  }

  lemma ChannelsKept(c: Config, c': Config)
    requires InvChannels(c) && SameChannels(c, c')
    ensures InvChannels(c')
  {
    assert forall ch :: Places(c', ch) == Places(c, ch);
  }

  /** Except for `Wait`, a Call's step leaves the channels alone. */
  lemma CallSameChannels(c: Config, t: nat, s: CallStep)
    requires CallEnabled(c, t, s)
    ensures SameChannels(if s.WaitRunning? then Waiting(c, s.ch, RUNNING) else c, ApplyCall(c, t, s))
  {
  }

  lemma CallChannels(c: Config, t: nat, s: CallStep)
    requires InvChannels(c) && CallEnabled(c, t, s)
    ensures InvChannels(ApplyCall(c, t, s))
  {
    CallSameChannels(c, t, s);
    if s.WaitRunning? {
      WaitChannels(c, s.ch, RUNNING);
      ChannelsKept(Waiting(c, s.ch, RUNNING), ApplyCall(c, t, s));
    } else {
      ChannelsKept(c, ApplyCall(c, t, s));
    }
  }

  lemma CallListed(c: Config, t: nat, s: CallStep)
    requires InvWaiters(c) && InvReached(c) && CallEnabled(c, t, s)
    ensures InvWaiters(ApplyCall(c, t, s)) && InvReached(ApplyCall(c, t, s))
  {
    if s.WaitRunning? {
      WaitListed(c, s.ch, RUNNING);
    }
  }

  lemma CallCalls(c: Config, t: nat, s: CallStep)
    requires InvPhase(c) && InvCalls(c) && CallEnabled(c, t, s)
    requires s.Wake? ==> c.sh.state >= RUNNING
    ensures InvCalls(ApplyCall(c, t, s))
  {
    var c' := ApplyCall(c, t, s);
    forall u | u in c'.calls ensures InvCall(c', u, c'.calls[u]) {
      if u == t { CallOwn(c, t, s); } else { CallOther(c, t, s, u); }
    }
  }

  lemma CallInv(c: Config, t: nat, s: CallStep)
    requires Inv(c) && CallEnabled(c, t, s)
    ensures Inv(ApplyCall(c, t, s))
  {
    assert t in c.calls ==> InvCall(c, t, c.calls[t]);
    if s.Wake? {
      WokenMeansReached(c, c.calls[t].chan);
    }
    CallPhase(c, t, s);
    CallChannels(c, t, s);
    CallListed(c, t, s);
    CallCalls(c, t, s);
  }

  lemma StepInv(c: Config, l: Label)
    requires Inv(c) && Enabled(c, l)
    ensures Inv(Apply(c, l))
  {
    match l
    case Loop(s) => LoopInv(c, s);
    case Oom(s) => OomInv(c, s);
    case Caller(t, s) => CallInv(c, t, s);
    case Register(ch, want) => WaitInv(c, ch, want);
    case Done(t) => DoneInv(c, t);
  }

  lemma DoneInv(c: Config, t: nat)
    requires Inv(c)
    ensures Inv(c.(callerDone := c.callerDone + {t}))
  {
    var c' := c.(callerDone := c.callerDone + {t});
    ChannelsKept(c, c');
    forall u | u in c.calls ensures InvCall(c', u, c.calls[u]) {
      assert InvCall(c, u, c.calls[u]);
    }
  }

  lemma InitInv(c: Config)
    requires Init(c)
    ensures Inv(c)
  {
  }

  /** Every reachable configuration satisfies the invariant. */
  lemma {:induction false} RunInv(r: seq<Config>, ls: seq<Label>, n: nat)
    requires Run(r, ls) && n < |r|
    ensures Inv(r[n])
  {
    if n == 0 {
      InitInv(r[0]);
    } else {
      RunInv(r, ls, n - 1);
      assert StepAt(r, ls, n - 1);
      StepInv(r[n - 1], ls[n - 1]);
    }
  }
}
