/**
 Bringing an owned machine up (machine.go): the retrying call that every step of
 the loop is made of, and the registration of the machine's services on the
 worker's server (supervisor.go, rpc/server.go). Times are integer nanoseconds.
 */
module Boot {
  import opened Wrappers
  import opened Lease
  import opened MachineState

  // ---- retryCall ----

  datatype Outcome = Succeeded | FatalError | OtherError

  /**
   One attempt: how long the RPC takes and how it ends, whether the Init of a service registered by
   it returns nil, the backoff that follows a failure, and whether the caller's context is done
   before that backoff is over (and then how soon).
   */
  datatype Attempt = Attempt(duration: nat, outcome: Outcome, inits: bool, backoff: nat, done: bool, cut: nat)

  /** An RPC returns by its context's deadline, a backoff is at least one second, and success means that Init returned nil. */
  ghost predicate Allowed(env: nat -> Attempt, rpcTimeout: nat) {
    forall k: nat ::
      env(k).duration <= rpcTimeout && env(k).backoff >= SECOND && (env(k).outcome == Succeeded ==> env(k).inits)
  }

  /** When attempt `k` begins. */
  ghost function Begins(env: nat -> Attempt, start: int, k: nat): int {
    if k == 0 then start else Begins(env, start, k - 1) + env(k - 1).duration + env(k - 1).backoff
  }

  /** An attempt begins only when those before it have returned, and a second has passed after each of them. */
  lemma {:induction false} AttemptsSpaced(env: nat -> Attempt, start: int, rpcTimeout: nat, j: nat, k: nat)
    requires Allowed(env, rpcTimeout) && j < k
    ensures Begins(env, start, j) + env(j).duration + (k - j) * SECOND <= Begins(env, start, k)
    ensures Begins(env, start, j + 1) == Begins(env, start, j) + env(j).duration + env(j).backoff
  {
    assert env(k - 1).backoff >= SECOND;
    if j < k - 1 {
      AttemptsSpaced(env, start, rpcTimeout, j, k - 1);
    }
  }

  /** The longest a retryCall can take. */
  function RetryBound(overall: nat, rpcTimeout: nat): nat {
    overall + rpcTimeout
  }

  /** After attempt `k` failed there is another one: the wait for it is not cut short and ends in time. */
  ghost predicate Retried(env: nat -> Attempt, start: int, overall: nat, k: nat) {
    env(k).outcome == OtherError && !env(k).done && Begins(env, start, k + 1) <= start + overall
  }

  /** The attempts of a call end with the first that is not retried. */
  ghost predicate Made(env: nat -> Attempt, start: int, overall: nat, attempts: nat) {
    && attempts > 0 && !Retried(env, start, overall, attempts - 1)
    && forall k: nat | k < attempts - 1 :: Retried(env, start, overall, k)
  }

  /** When the last of the attempts returns. */
  ghost function Answered(env: nat -> Attempt, start: int, attempts: nat): int
    requires attempts > 0
  {
    Begins(env, start, attempts - 1) + env(attempts - 1).duration
  }

  /**
   retryCall. The overall deadline governs only the waits: the call ends within the retry bound,
   after at most overall/1s + 1 attempts. Its attempts end with the first that is not retried, and
   it succeeds exactly when that one does. It ends when that one returns, or within the overall
   timeout if a wait for another is cut short.
   */
  method RetryCall(start: int, overall: nat, rpcTimeout: nat, env: nat -> Attempt)
    returns (end: int, attempts: nat, ok: bool)
    requires Allowed(env, rpcTimeout)
    ensures start <= end <= start + RetryBound(overall, rpcTimeout)
    ensures 1 <= attempts <= overall / SECOND + 1
    ensures ok <==> env(attempts - 1).outcome == Succeeded
    ensures Made(env, start, overall, attempts)
    ensures forall k: nat | k < attempts - 1 :: env(k).outcome == OtherError
    ensures env(attempts - 1).outcome == OtherError ==>
      env(attempts - 1).done || Answered(env, start, attempts) + env(attempts - 1).backoff > start + overall
    ensures env(attempts - 1).outcome != OtherError ==> end == Answered(env, start, attempts)
    ensures Answered(env, start, attempts) <= end
    ensures end > Answered(env, start, attempts) ==> end <= start + overall
  {
    var deadline := start + overall;
    var now, retries: nat := start, 0;
    while true
      invariant start + retries * SECOND <= now <= deadline && now == Begins(env, start, retries)
      invariant forall k: nat | k < retries :: Retried(env, start, overall, k)
      invariant forall k: nat | k < retries :: env(k).outcome == OtherError
      decreases deadline - now
    {
      var a := env(retries);
      assert a.duration <= rpcTimeout && a.backoff >= SECOND;
      now := now + a.duration;
      if a.outcome == Succeeded {
        return now, retries + 1, true;
      }
      if a.outcome == FatalError {
        return now, retries + 1, false;
      }
      // retry.Wait on the overall context
      if a.done || now + a.backoff > deadline {
        var left := if now < deadline then deadline - now else 0;
        return now + (if a.cut < left then a.cut else left), retries + 1, false;
      }
      now := now + a.backoff;
      retries := retries + 1;
    }
  }

  // ---- The server's service table ----

  /** A decoded service value: every request to register a service decodes a new one. */
  datatype Instance = Instance(name: string, request: nat)

  /** The first instance in a log of registrations that has the given name. */
  ghost function FirstNamed(log: seq<Instance>, name: string): Option<Instance> {
    if log == [] then None
    else if log[0].name == name then Some(log[0])
    else FirstNamed(log[1..], name)
  }

  lemma {:induction false} FirstNamedConcat(log: seq<Instance>, more: seq<Instance>, name: string)
    ensures FirstNamed(log + more, name)
         == if FirstNamed(log, name).Some? then FirstNamed(log, name) else FirstNamed(more, name)
  {
    if log == [] {
      assert log + more == more;
    } else {
      assert (log + more)[1..] == log[1..] + more;
      FirstNamedConcat(log[1..], more, name);
    }
  }

  lemma FirstNamedSnoc(log: seq<Instance>, x: Instance, name: string)
    ensures FirstNamed(log + [x], name)
         == if FirstNamed(log, name).Some? then FirstNamed(log, name)
            else if x.name == name then Some(x) else None
  {
    FirstNamedConcat(log, [x], name);
    assert [x][1..] == [];
  }

  /** The instance arrives, and none of its name arrives before it. */
  ghost predicate FirstToArrive(log: seq<Instance>, x: Instance) {
    exists i :: 0 <= i < |log| && log[i] == x && forall j | 0 <= j < i :: log[j].name != x.name
  }

  lemma {:induction false} FirstNamedIsFirst(log: seq<Instance>, x: Instance)
    ensures FirstNamed(log, x.name) == Some(x) <==> FirstToArrive(log, x)
  {
    if log != [] && log[0].name != x.name {
      FirstNamedIsFirst(log[1..], x);
      FirstInTail(log, x);
    }
  }

  lemma FirstInTail(log: seq<Instance>, x: Instance)
    requires log != [] && log[0].name != x.name
    ensures FirstToArrive(log, x) <==> FirstToArrive(log[1..], x)
  {
    forall i | 0 <= i < |log| - 1 ensures log[1..][i] == log[i + 1] {}
    if FirstToArrive(log[1..], x) {
      var i :| 0 <= i < |log[1..]| && log[1..][i] == x && forall j | 0 <= j < i :: log[1..][j].name != x.name;
      assert log[i + 1] == x && forall j | 0 < j < i + 1 :: log[j] == log[1..][j - 1];
    }
    if FirstToArrive(log, x) {
      var i :| 0 <= i < |log| && log[i] == x && forall j | 0 <= j < i :: log[j].name != x.name;
      assert log[1..][i - 1] == x;
    }
  }

  class Server {
    var services: map<string, Instance>
    /** Every registration that has reached this server, in order of arrival. */
    ghost var log: seq<Instance>

    /** Each binding is the instance of the first registration under its name to reach the server. */
    ghost predicate Valid()
      reads this
    {
      forall name :: FirstNamed(log, name) == if name in services then Some(services[name]) else None
    }

    constructor ()
      ensures Valid() && log == []
    {
      services, log := map[], [];
    }

    /** Server.Register: a no-op when the name is bound. */
    method Register(x: Instance)
      requires Valid()
      modifies this
      ensures Valid() && log == old(log) + [x]
      ensures services == if x.name in old(services) then old(services) else old(services)[x.name := x]
    {
      forall name { FirstNamedSnoc(log, x, name); }
      log := log + [x];
      if x.name !in services {
        services := services[x.name := x];
      }
    }
  }

  // ---- The loop up to Running ----

  /**
   What the environment decides about one service: its attempts, and, if there are `n` of them, which
   registrations have reached the server by the end and in what order. A request may arrive although
   its reply does not, and after requests that were sent later.
   */
  datatype Registration = Registration(env: nat -> Attempt, arrivals: nat -> seq<Instance>)

  /** With `n` attempts: all that arrives under the name was sent by one of them, and what succeeded arrived. */
  ghost predicate Delivers(reg: Registration, name: string, n: nat)
    requires n > 0
  {
    && (forall x | x in reg.arrivals(n) && x.name == name :: x.request < n)
    && (reg.env(n - 1).outcome == Succeeded ==> Instance(name, n - 1) in reg.arrivals(n))
  }

  ghost predicate Possible(reg: Registration, name: string) {
    Allowed(reg.env, 25 * SECOND) && forall n: nat | n > 0 :: Delivers(reg, name, n)
  }

  const PING_BOUND: int := RetryBound(9 * MINUTE, 3 * MINUTE)
  const REGISTER_BOUND: int := RetryBound(5 * MINUTE, 25 * SECOND)

  ghost predicate Preserved(before: map<string, Instance>, after: map<string, Instance>) {
    forall n | n in before :: n in after && after[n] == before[n]
  }

  /** What was bound stays bound when more registrations arrive. */
  lemma LogPreserves(log: seq<Instance>, more: seq<Instance>, before: map<string, Instance>, after: map<string, Instance>)
    requires forall n :: FirstNamed(log, n) == if n in before then Some(before[n]) else None
    requires forall n :: FirstNamed(log + more, n) == if n in after then Some(after[n]) else None
    ensures Preserved(before, after)
  {
    forall n | n in before ensures n in after && after[n] == before[n] {
      FirstNamedConcat(log, more, n);
      assert FirstNamed(log, n) == Some(before[n]);
    }
  }

  /**
   One service: retryCall of Supervisor.Register, with its effect on the server. A new binding is the
   instance of the attempt that was first to arrive. It is the one whose Init let the registration
   succeed exactly if no other attempt's request arrived before that attempt's.
   */
  method RegisterService(server: Server, name: string, start: int, reg: Registration)
    returns (end: int, attempts: nat, ok: bool)
    requires server.Valid() && Possible(reg, name)
    modifies server
    ensures start <= end <= start + REGISTER_BOUND
    ensures Made(reg.env, start, 5 * MINUTE, attempts)
    ensures ok <==> reg.env(attempts - 1).outcome == Succeeded
    ensures ok ==> end == Answered(reg.env, start, attempts)
    ensures server.Valid() && server.log == old(server.log) + reg.arrivals(attempts)
    ensures Preserved(old(server.services), server.services)
    ensures ok ==> name in server.services
    ensures ok && name !in old(server.services) ==>
      && server.services[name].request < attempts && FirstToArrive(reg.arrivals(attempts), server.services[name])
      && var last := Instance(name, attempts - 1);
         server.services[name] == last <==> FirstToArrive(reg.arrivals(attempts), last)
  {
    end, attempts, ok := RetryCall(start, 5 * MINUTE, 25 * SECOND, reg.env);
    var arrivals := reg.arrivals(attempts);
    for i := 0 to |arrivals|
      invariant server.Valid() && server.log == old(server.log) + arrivals[..i]
    {
      assert arrivals[..i + 1] == arrivals[..i] + [arrivals[i]];
      server.Register(arrivals[i]);
    }
    assert arrivals[..|arrivals|] == arrivals;
    LogPreserves(old(server.log), arrivals, old(server.services), server.services);
    if ok {
      assert Delivers(reg, name, attempts);
      Bound(server, old(server.log), arrivals, Instance(name, attempts - 1));
    }
  }

  /** An instance that arrives finds its name bound, or binds it, unless another of the name came first. */
  lemma Bound(server: Server, log: seq<Instance>, arrivals: seq<Instance>, x: Instance)
    requires server.Valid() && server.log == log + arrivals && x in arrivals
    ensures x.name in server.services
    ensures FirstNamed(log, x.name).None? ==>
      && server.services[x.name] in arrivals && server.services[x.name].name == x.name
      && FirstToArrive(arrivals, server.services[x.name])
      && (server.services[x.name] == x <==> FirstToArrive(arrivals, x))
  {
    FirstNamedConcat(log, arrivals, x.name);
    SomeNamed(arrivals, x);
    var y := FirstNamed(arrivals, x.name).value;
    FirstNamedIsFirst(arrivals, y);
    FirstNamedIsFirst(arrivals, x);
  }

  lemma {:induction false} SomeNamed(log: seq<Instance>, x: Instance)
    requires x in log
    ensures var r := FirstNamed(log, x.name); r.Some? && r.value in log && r.value.name == x.name
  {
    if log[0].name != x.name {
      SomeNamed(log[1..], x);
    }
  }

  /**
   The bound instance need not be the one whose Init let the registration succeed: the first
   attempt arrives and its Init fails, the second succeeds, and the first is what stays bound.
   */
  method BoundNeedNotBeInitialised(name: string) returns (server: Server, reg: Registration)
    ensures fresh(server) && server.Valid() && Possible(reg, name)
    ensures !reg.env(0).inits && reg.env(1).outcome == Succeeded
    ensures server.log == [Instance(name, 0), Instance(name, 1)]
    ensures name in server.services && server.services[name] == Instance(name, 0)
  {
    var env := (k: nat) =>
      if k == 0 then Attempt(0, OtherError, false, SECOND, false, 0) else Attempt(0, Succeeded, true, SECOND, false, 0);
    var arrivals := (n: nat) =>
      if n <= 1 then [Instance(name, 0)] else [Instance(name, 0), Instance(name, n - 1)];
    reg := Registration(env, arrivals);
    server := new Server();
    var end, attempts, ok := RegisterService(server, name, 0, reg);
    assert Retried(reg.env, 0, 5 * MINUTE, 0) && !Retried(reg.env, 0, 5 * MINUTE, 1);
    assert attempts == 2;
  }

  /** One retried call of the loop: when it began and how many attempts it made. */
  datatype Called = Called(start: int, attempts: nat)

  /** The `i`-th retried call of the loop is the ping, or the registration of a service. */
  ghost function EnvOf(ping: nat -> Attempt, regs: nat -> Registration, i: nat): nat -> Attempt {
    if i == 0 then ping else regs(i - 1).env
  }

  /** The call made its attempts, within the timeout of its kind. */
  ghost predicate CallMade(ping: nat -> Attempt, regs: nat -> Registration, x: Called, i: nat) {
    Made(EnvOf(ping, regs, i), x.start, if i == 0 then 540 * SECOND else 300 * SECOND, x.attempts)
  }

  /** The call succeeded: its last attempt did. */
  ghost predicate CallSucceeds(ping: nat -> Attempt, regs: nat -> Registration, x: Called, i: nat) {
    x.attempts > 0 && EnvOf(ping, regs, i)(x.attempts - 1).outcome == Succeeded
  }

  /** The calls follow on one another, each made only after the one before it has succeeded. */
  ghost predicate InTurn(ping: nat -> Attempt, regs: nat -> Registration, start: int, calls: seq<Called>) {
    && (forall i: nat | i < |calls| :: CallMade(ping, regs, calls[i], i))
    && (calls != [] ==> calls[0].start == start)
    && (forall i: nat | i < |calls| - 1 :: Next(ping, regs, calls[i], calls[i + 1], i))
  }

  ghost predicate Next(ping: nat -> Attempt, regs: nat -> Registration, x: Called, y: Called, i: nat) {
    CallSucceeds(ping, regs, x, i) && y.start == Answered(EnvOf(ping, regs, i), x.start, x.attempts)
  }

  /** The calls made so far have all succeeded, the last one at `end`. */
  ghost predicate Through(ping: nat -> Attempt, regs: nat -> Registration, start: int, calls: seq<Called>, end: int) {
    && calls != [] && InTurn(ping, regs, start, calls)
    && var i := |calls| - 1;
       CallSucceeds(ping, regs, calls[i], i) && end == Answered(EnvOf(ping, regs, i), calls[i].start, calls[i].attempts)
  }

  lemma NextCall(ping: nat -> Attempt, regs: nat -> Registration, start: int, calls: seq<Called>, x: Called, end: int)
    requires Through(ping, regs, start, calls, x.start) && CallMade(ping, regs, x, |calls|)
    requires CallSucceeds(ping, regs, x, |calls|) ==> end == Answered(EnvOf(ping, regs, |calls|), x.start, x.attempts)
    ensures InTurn(ping, regs, start, calls + [x])
    ensures CallSucceeds(ping, regs, x, |calls|) ==> Through(ping, regs, start, calls + [x], end)
  {
    forall i: nat | i < |calls + [x]| - 1 ensures Next(ping, regs, (calls + [x])[i], (calls + [x])[i + 1], i) {
      assert i < |calls| - 1 ==> Next(ping, regs, calls[i], calls[i + 1], i);
    }
  }

  lemma FirstCall(ping: nat -> Attempt, regs: nat -> Registration, x: Called, end: int)
    requires Made(ping, x.start, 540 * SECOND, x.attempts)
    requires ping(x.attempts - 1).outcome == Succeeded ==> end == Answered(ping, x.start, x.attempts)
    ensures InTurn(ping, regs, x.start, [x])
    ensures ping(x.attempts - 1).outcome == Succeeded ==> Through(ping, regs, x.start, [x], end)
  {
  }

  /** The ping that every other call waits for. */
  method Ping(start: int, ping: nat -> Attempt, ghost regs: nat -> Registration)
    returns (end: int, calls: seq<Called>, ok: bool)
    requires Allowed(ping, 3 * MINUTE)
    ensures start <= end <= start + PING_BOUND
    ensures |calls| == 1 && InTurn(ping, regs, start, calls)
    ensures ok <==> CallSucceeds(ping, regs, calls[0], 0)
    ensures ok ==> Through(ping, regs, start, calls, end)
  {
    var attempts;
    end, attempts, ok := RetryCall(start, 9 * MINUTE, 3 * MINUTE, ping);
    calls := [Called(start, attempts)];
    FirstCall(ping, regs, calls[0], end);
  }

  /** The registration of the next service, after the calls made so far. */
  method RegisterNext(server: Server, name: string, begin: int, ghost start: int, ghost ping: nat -> Attempt,
                      regs: nat -> Registration, calls: seq<Called>)
    returns (end: int, calls': seq<Called>, ok: bool)
    requires server.Valid() && Through(ping, regs, start, calls, begin) && Possible(regs(|calls| - 1), name)
    modifies server
    ensures server.Valid() && old(server.log) <= server.log && Preserved(old(server.services), server.services)
    ensures begin <= end <= begin + REGISTER_BOUND
    ensures |calls'| == |calls| + 1 && InTurn(ping, regs, start, calls')
    ensures ok <==> CallSucceeds(ping, regs, calls'[|calls|], |calls|)
    ensures ok ==> Through(ping, regs, start, calls', end) && name in server.services
  {
    var attempts;
    end, attempts, ok := RegisterService(server, name, begin, regs(|calls| - 1));
    calls' := calls + [Called(begin, attempts)];
    NextCall(ping, regs, start, calls, Called(begin, attempts), end);
  }

  ghost predicate AllBound(names: seq<string>, i: nat, services: map<string, Instance>)
    requires i <= |names|
  {
    forall j | 0 <= j < i :: names[j] in services
  }

  lemma NextBound(names: seq<string>, i: nat, before: map<string, Instance>, after: map<string, Instance>)
    requires i < |names| && AllBound(names, i, before) && Preserved(before, after) && names[i] in after
    ensures AllBound(names, i + 1, after)
  {
  }

  /**
   The loop of an owned machine that does not exec, up to the store of Running or Stopped. It pings and
   registers the services in turn, and stores Running exactly if all of these calls were made and the
   last one succeeded too, so with every service bound. It takes at most 12 minutes and 5m25s per
   service; a binding never changes, however often requests are sent again.
   */
  method BringUp(server: Server, names: seq<string>, start: int, ping: nat -> Attempt, regs: nat -> Registration)
    returns (end: int, calls: seq<Called>, state: State)
    requires server.Valid() && Allowed(ping, 3 * MINUTE)
    requires forall i: nat | i < |names| :: Possible(regs(i), names[i])
    modifies server
    ensures server.Valid() && old(server.log) <= server.log && Preserved(old(server.services), server.services)
    ensures 1 <= |calls| <= 1 + |names| && InTurn(ping, regs, start, calls)
    ensures var all := |calls| == 1 + |names| && CallSucceeds(ping, regs, calls[|calls| - 1], |calls| - 1);
      state == if all then RUNNING else STOPPED
    ensures |calls| < 1 + |names| ==> !CallSucceeds(ping, regs, calls[|calls| - 1], |calls| - 1)
    ensures start <= end <= start + 720 * SECOND + |names| * (325 * SECOND)
    ensures state == RUNNING ==> AllBound(names, |names|, server.services)
  {
    var ok;
    end, calls, ok := Ping(start, ping, regs);
    var i := 0;
    while ok && i < |names|
      invariant 0 <= i <= |names| && |calls| == 1 + i && InTurn(ping, regs, start, calls)
      invariant ok <==> CallSucceeds(ping, regs, calls[i], i)
      invariant ok ==> Through(ping, regs, start, calls, end)
      invariant server.Valid() && old(server.log) <= server.log && Preserved(old(server.services), server.services)
      invariant start <= end <= start + PING_BOUND + i * REGISTER_BOUND
      invariant ok ==> AllBound(names, i, server.services)
    {
      ghost var before := server.services;
      end, calls, ok := RegisterNext(server, names[i], end, start, ping, regs, calls);
      if ok {
        NextBound(names, i, before, server.services);
      }
      i := i + 1;
    }
    state := if ok then RUNNING else STOPPED;
  }
}
