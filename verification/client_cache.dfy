/**
 The RPC client's table of connection handles (rpc/client.go): one handle per
 address, replaced when a call on it fails, shared by any number of concurrent calls.
 */
module ClientCache {

  /**
   A clientState: its address, how often its factory has run, and the (logical) times at which its
   idle connections were last closed, -1 if never. `failed` records that a call on it ended in error.
   */
  datatype Handle = Handle(addr: string, built: nat, idleClosed: int, failed: bool)

  /** The client's mutex guards `clients`; handles are named by their index in `handles`. */
  datatype Table = Table(clients: map<string, nat>, handles: seq<Handle>)
  {
    ghost predicate Valid() {
      forall addr | addr in clients :: clients[addr] < |handles| && handles[clients[addr]].addr == addr
    }

    ghost predicate Current(h: nat)
      requires h < |handles|
    {
      handles[h].addr in clients && clients[handles[h].addr] == h
    }
  }

  function GotClient(tb: Table, addr: string): (Table, nat) {
    if addr in tb.clients then (tb, tb.clients[addr])
    else (Table(tb.clients[addr := |tb.handles|], tb.handles + [Handle(addr, 0, -1, false)]), |tb.handles|)
  }

  function Updated(tb: Table, h: nat, failed: bool, now: int): Table
    requires h < |tb.handles|
  {
    var addr := tb.handles[h].addr;
    var current := addr in tb.clients && tb.clients[addr] == h;
    var clients := if failed && current then tb.clients - {addr} else tb.clients;
    var h' := tb.handles[h];
    Table(clients,
          tb.handles[h := h'.(failed := h'.failed || failed,
                              idleClosed := if current && !failed then h'.idleClosed else now)])
  }

  class Client {
    var clients: map<string, nat>
    var handles: seq<Handle>

    ghost function View(): Table
      reads this
    {
      Table(clients, handles)
    }

    constructor ()
      ensures View() == Table(map[], [])
    {
      clients, handles := map[], [];
    }

    method GetClient(addr: string) returns (h: nat)
      modifies this
      ensures (View(), h) == GotClient(old(View()), addr)
    {
      if addr in clients {
        h := clients[addr];
      } else {
        h := |handles|;
        handles := handles + [Handle(addr, 0, -1, false)];
        clients := clients[addr := h];
      }
    }

    /** updateClientState, at the (logical) time `now`. */
    method UpdateClientState(h: nat, failed: bool, now: int)
      requires h < |handles|
      modifies this
      ensures View() == Updated(old(View()), h, failed, now)
    {
      var addr := handles[h].addr;
      if failed && addr in clients && clients[addr] == h {
        clients := clients - {addr};
      }
      if failed {
        handles := handles[h := handles[h].(failed := true)];
      }
      if !(addr in clients && clients[addr] == h) {
        handles := handles[h := handles[h].(idleClosed := now)];
      }
    }
  }

  // ---- Concurrent calls ----

  /** Where a call stands. Its outcome is known at time `at`; the deferred update runs later. */
  datatype CallPc =
    | Asking(addr: string)
    | Holding(h: nat)
    | Posting(h: nat)
    | Ending(h: nat, at: nat, failed: bool)
    | Over(h: nat, at: nat, failed: bool)

  datatype Config = Config(table: Table, calls: map<nat, CallPc>, clock: nat)

  datatype Label = Begin(t: nat, addr: string) | Get(t: nat) | Build(t: nat) | Finish(t: nat, failed: bool) | Update(t: nat)

  ghost predicate Init(c: Config) {
    c == Config(Table(map[], []), map[], 0)
  }

  ghost predicate Enabled(c: Config, l: Label) {
    match l
    case Begin(t, _) => t !in c.calls
    case Get(t) => t in c.calls && c.calls[t].Asking?
    case Build(t) => t in c.calls && c.calls[t].Holding? && c.calls[t].h < |c.table.handles|
    case Finish(t, _) => t in c.calls && c.calls[t].Posting?
    case Update(t) => t in c.calls && c.calls[t].Ending? && c.calls[t].h < |c.table.handles|
  }

  ghost function Apply(c: Config, l: Label): Config
    requires Enabled(c, l)
  {
    var now := c.clock + 1;
    match l
    case Begin(t, addr) => Config(c.table, c.calls[t := Asking(addr)], now)
    case Get(t) =>
      var (tb, h) := GotClient(c.table, c.calls[t].addr);
      Config(tb, c.calls[t := Holding(h)], now)
    case Build(t) =>
      // sync.Once: the factory runs only if it has not run yet
      var h := c.calls[t].h;
      var x := c.table.handles[h];
      Config(c.table.(handles := c.table.handles[h := x.(built := if x.built == 0 then 1 else x.built)]),
             c.calls[t := Posting(h)], now)
    case Finish(t, failed) => Config(c.table, c.calls[t := Ending(c.calls[t].h, now, failed)], now)
    case Update(t) =>
      var Ending(h, at, failed) := c.calls[t];
      Config(Updated(c.table, h, failed, now), c.calls[t := Over(h, at, failed)], now)
  }

  ghost predicate StepAt(r: seq<Config>, ls: seq<Label>, i: nat)
    requires i < |ls| && |r| == |ls| + 1
  {
    Enabled(r[i], ls[i]) && r[i + 1] == Apply(r[i], ls[i])
  }

  ghost predicate Run(r: seq<Config>, ls: seq<Label>) {
    && |r| == |ls| + 1
    && Init(r[0])
    && forall i | 0 <= i < |ls| :: StepAt(r, ls, i)
  }

  // ---- What every step keeps ----

  /** The call got its http.Client from the handle. */
  ghost predicate Used(c: Config, t: nat, h: nat) {
    t in c.calls && (c.calls[t].Posting? || c.calls[t].Ending? || c.calls[t].Over?) && c.calls[t].h == h
  }

  ghost predicate InvHandle(c: Config, h: nat)
    requires h < |c.table.handles|
  {
    var x := c.table.handles[h];
    && x.built <= 1
    && (x.failed ==> !c.table.Current(h))
    && (!c.table.Current(h) ==> 0 <= x.idleClosed)
    && (x.built == 1 ==> exists t :: Used(c, t, h))
  }

  ghost predicate InvCall(c: Config, pc: CallPc) {
    match pc
    case Asking(_) => true
    case Holding(h) => h < |c.table.handles|
    case Posting(h) => h < |c.table.handles| && c.table.handles[h].built == 1
    case Ending(h, at, _) => h < |c.table.handles| && c.table.handles[h].built == 1 && at <= c.clock
    case Over(h, at, failed) =>
      && h < |c.table.handles| && c.table.handles[h].built == 1 && at <= c.clock
      && (failed ==> c.table.handles[h].failed)
      && (!c.table.Current(h) ==> at <= c.table.handles[h].idleClosed)
  }

  ghost predicate Inv(c: Config) {
    && c.table.Valid()
    && (forall h: nat | h < |c.table.handles| :: InvHandle(c, h))
    && (forall t | t in c.calls :: InvCall(c, c.calls[t]))
  }

  /** The step is the deferred update of a call on `h` that ended in error. */
  ghost predicate FailsOn(c: Config, l: Label, h: nat) {
    l.Update? && l.t in c.calls && c.calls[l.t].Ending? && c.calls[l.t].h == h && c.calls[l.t].failed
  }

  /** A step never makes an existing handle current again, and drops one only when its own call failed. */
  ghost predicate TableStep(c: Config, l: Label, c': Config) {
    && |c.table.handles| <= |c'.table.handles|
    && forall h: nat | h < |c.table.handles| ::
         && c'.table.handles[h].addr == c.table.handles[h].addr
         && c.table.handles[h].built <= c'.table.handles[h].built
         && (c.table.handles[h].failed ==> c'.table.handles[h].failed)
         && (c'.table.Current(h) ==> c.table.Current(h))
         && (c.table.Current(h) && !c'.table.Current(h) ==> FailsOn(c, l, h))
  }

  lemma StepTable(c: Config, l: Label)
    requires c.table.Valid() && Enabled(c, l)
    ensures Apply(c, l).table.Valid() && TableStep(c, l, Apply(c, l))
  {
  }

  lemma StepHandles(c: Config, l: Label)
    requires Inv(c) && Enabled(c, l)
    ensures forall h: nat | h < |Apply(c, l).table.handles| :: InvHandle(Apply(c, l), h)
  {
    var c' := Apply(c, l);
    forall h: nat | h < |c'.table.handles| ensures InvHandle(c', h) {
      if h < |c.table.handles| {
        assert InvHandle(c, h);
        if c'.table.handles[h].built == 1 {
          StillUsed(c, l, h);
        }
      }
    }
  }

  lemma StillUsed(c: Config, l: Label, h: nat)
    requires Enabled(c, l) && h < |c.table.handles| && h < |Apply(c, l).table.handles|
    requires c.table.handles[h].built == 1 ==> exists t :: Used(c, t, h)
    ensures Apply(c, l).table.handles[h].built == 1 ==> exists t :: Used(Apply(c, l), t, h)
  {
    if t :| Used(c, t, h) {
      assert Used(Apply(c, l), t, h);
    } else if Apply(c, l).table.handles[h].built == 1 {
      assert Used(Apply(c, l), l.t, h);
    }
  }

  lemma StepCalls(c: Config, l: Label)
    requires Inv(c) && Enabled(c, l)
    ensures forall t | t in Apply(c, l).calls :: InvCall(Apply(c, l), Apply(c, l).calls[t])
  {
    var c' := Apply(c, l);
    forall t | t in c'.calls ensures InvCall(c', c'.calls[t]) {
      assert t in c.calls ==> InvCall(c, c.calls[t]);
      if l == Build(t) {
        assert InvHandle(c, c.calls[t].h);
      }
    }
  }

  lemma {:induction false} RunInv(r: seq<Config>, ls: seq<Label>, n: nat)
    requires Run(r, ls) && n < |r|
    ensures Inv(r[n])
  {
    if n > 0 {
      RunInv(r, ls, n - 1);
      assert StepAt(r, ls, n - 1);
      StepTable(r[n - 1], ls[n - 1]);
      StepHandles(r[n - 1], ls[n - 1]);
      StepCalls(r[n - 1], ls[n - 1]);
    }
  }

  // ---- Theorems over every run ----

  lemma RunTableStep(r: seq<Config>, ls: seq<Label>, n: nat)
    requires Run(r, ls) && n < |ls|
    ensures TableStep(r[n], ls[n], r[n + 1])
  {
    RunInv(r, ls, n);
    assert StepAt(r, ls, n);
    StepTable(r[n], ls[n]);
  }

  /** Once a handle is not current it never is again, so no later getClient hands it out. */
  lemma {:induction false} DefunctForever(r: seq<Config>, ls: seq<Label>, i: nat, j: nat, h: nat)
    requires Run(r, ls) && i <= j < |r|
    requires h < |r[i].table.handles| && !r[i].table.Current(h)
    ensures h < |r[j].table.handles| && !r[j].table.Current(h)
    ensures forall addr :: GotClient(r[j].table, addr).1 != h
  {
    if i < j {
      DefunctForever(r, ls, i, j - 1, h);
      RunTableStep(r, ls, j - 1);
    }
    RunInv(r, ls, j);
    forall addr ensures GotClient(r[j].table, addr).1 != h {
      assert addr in r[j].table.clients ==> r[j].table.handles[r[j].table.clients[addr]].addr == addr;
    }
  }

  /** Once a call that ended in error has updated the client, its handle is never handed out again. */
  lemma FailedNeverReissued(r: seq<Config>, ls: seq<Label>, i: nat, j: nat, t: nat)
    requires Run(r, ls) && i <= j < |r|
    requires t in r[i].calls && r[i].calls[t].Over? && r[i].calls[t].failed
    ensures forall addr :: GotClient(r[j].table, addr).1 != r[i].calls[t].h
  {
    RunInv(r, ls, i);
    assert InvCall(r[i], r[i].calls[t]);
    assert InvHandle(r[i], r[i].calls[t].h);
    DefunctForever(r, ls, i, j, r[i].calls[t].h);
  }

  /** Only a failed call on the current handle itself evicts it: a late failure on a defunct handle never does. */
  lemma EvictedOnlyByOwnFailure(r: seq<Config>, ls: seq<Label>, n: nat, addr: string)
    requires Run(r, ls) && n < |ls| && addr in r[n].table.clients
    ensures (addr in r[n + 1].table.clients && r[n + 1].table.clients[addr] == r[n].table.clients[addr])
         <==> !FailsOn(r[n], ls[n], r[n].table.clients[addr])
  {
    RunInv(r, ls, n);
    assert StepAt(r, ls, n);
    var h := r[n].table.clients[addr];
    assert r[n].table.handles[h].addr == addr;
  }

  /**
   At every moment: different addresses have different current handles, a handle's factory has run
   once if a call has posted on it and otherwise not at all, and for every handle that is not current, its
   idle connections were closed at or after the end of each call on it that is over.
   */
  lemma HandlesAccounted(r: seq<Config>, ls: seq<Label>, n: nat)
    requires Run(r, ls) && n < |r|
    ensures forall a, b | a in r[n].table.clients && b in r[n].table.clients && a != b ::
      r[n].table.clients[a] != r[n].table.clients[b]
    ensures forall h: nat | h < |r[n].table.handles| ::
      r[n].table.handles[h].built == if exists t :: Used(r[n], t, h) then 1 else 0
    ensures forall t | t in r[n].calls && r[n].calls[t].Over? ::
      && r[n].calls[t].h < |r[n].table.handles|
      && r[n].table.handles[r[n].calls[t].h].built == 1
      && (r[n].table.Current(r[n].calls[t].h) || r[n].calls[t].at <= r[n].table.handles[r[n].calls[t].h].idleClosed)
    ensures forall h: nat | h < |r[n].table.handles| && !r[n].table.Current(h) ::
      0 <= r[n].table.handles[h].idleClosed
  {
    RunInv(r, ls, n);
    var tb := r[n].table;
    forall h: nat | h < |tb.handles|
      ensures tb.handles[h].built == (if exists t :: Used(r[n], t, h) then 1 else 0)
           && (!tb.Current(h) ==> 0 <= tb.handles[h].idleClosed)
    {
      assert InvHandle(r[n], h);
      if t :| Used(r[n], t, h) {
        assert InvCall(r[n], r[n].calls[t]);
      }
    }
    forall t | t in r[n].calls ensures InvCall(r[n], r[n].calls[t]) {}
  }

  /**
   The idle connections of a handle are closed by exactly the updates of its own calls after which it
   is not current; so the update of a successful call leaves those of a current handle alone.
   */
  lemma IdleClosedExactly(r: seq<Config>, ls: seq<Label>, n: nat, h: nat)
    requires Run(r, ls) && n < |ls| && h < |r[n].table.handles|
    ensures h < |r[n + 1].table.handles|
    ensures r[n + 1].table.handles[h].idleClosed
         == if UpdatesOn(r[n], ls[n], h) && !r[n + 1].table.Current(h) then n + 1 else r[n].table.handles[h].idleClosed
  {
    RunInv(r, ls, n);
    assert StepAt(r, ls, n);
    ClockIs(r, ls, n);
  }

  /** The step is the deferred update of a call on `h`. */
  ghost predicate UpdatesOn(c: Config, l: Label, h: nat) {
    l.Update? && l.t in c.calls && c.calls[l.t].Ending? && c.calls[l.t].h == h
  }

  lemma {:induction false} ClockIs(r: seq<Config>, ls: seq<Label>, n: nat)
    requires Run(r, ls) && n < |r|
    ensures r[n].clock == n
  {
    if n > 0 {
      ClockIs(r, ls, n - 1);
      assert StepAt(r, ls, n - 1);
    }
  }

  /** A call that is not over has a step, and its RPC may end either way. */
  lemma CallGoesOn(r: seq<Config>, ls: seq<Label>, n: nat, t: nat)
    requires Run(r, ls) && n < |r| && t in r[n].calls && !r[n].calls[t].Over?
    ensures Enabled(r[n], Get(t)) || Enabled(r[n], Build(t)) || Enabled(r[n], Update(t))
         || forall failed :: Enabled(r[n], Finish(t, failed))
  {
    RunInv(r, ls, n);
    assert InvCall(r[n], r[n].calls[t]);
  }

  /** The handle that a call gets is that of its address, and current at that moment. */
  lemma GetsCurrent(r: seq<Config>, ls: seq<Label>, n: nat, t: nat)
    requires Run(r, ls) && n < |ls| && ls[n] == Get(t) && t in r[n].calls && r[n].calls[t].Asking?
    ensures t in r[n + 1].calls && r[n + 1].calls[t].Holding? && r[n + 1].calls[t].h < |r[n + 1].table.handles|
    ensures var h := r[n + 1].calls[t].h;
      r[n + 1].table.handles[h].addr == r[n].calls[t].addr && r[n + 1].table.Current(h)
  {
    RunInv(r, ls, n);
    assert StepAt(r, ls, n);
  }
}
