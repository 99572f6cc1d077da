/**
 The keepalive lease between a driver (the loop of machine.go) and a worker (the
 watchdog of supervisor.go). Times and durations are integer nanoseconds.
 */
module Lease {
  import opened Wrappers

  const SECOND := 1_000_000_000
  const MINUTE := 60 * SECOND

  /** Period of the watchdog's ticker. */
  const TICK := 30 * SECOND
  /** Lease a worker starts with. */
  const GRACE := 2 * MINUTE
  /** Lease the driver's loop asks for with each keepalive. */
  const LEASE := 5 * MINUTE

  /**
   A keepalive that the watchdog accepted: when its handler read the clock, the interval it asked
   for, when the watchdog received the deadline, when the handler computed the reply, and what the
   driver did next.
   */
  datatype Accept = Accept(now: int, interval: int, sent: int, replied: int, follow: Follow)
  {
    /** The deadline handed to the watchdog. It may lie before the one it replaces. */
    function Deadline(): int {
      now + interval
    }

    /** The reply's Next field. */
    function Next(): int {
      Deadline() - replied
    }
  }

  /**
   What follows an acceptance. Either the reply reaches the driver after `latency`, the driver
   spends `dump` on heap and expvar dumps, and the next acceptance comes `gap` after its pause; or
   the reply is lost and the next acceptance, whoever causes it, comes `gap` after it was computed.
   */
  datatype Follow = Answered(latency: nat, dump: nat, gap: nat) | Lost(gap: nat)

  /** A wake-up of the watchdog's select, with the time of the check that follows it. */
  datatype Wake = Tick(at: int) | Recv(accept: Accept, at: int)

  /** Halving a time.Duration truncates toward zero. */
  function Half(d: int): (h: int)
    ensures d >= 0 ==> 0 <= d - 2 * h <= 1
    ensures d <= 0 ==> -1 <= d - 2 * h <= 0
  {
    if d >= 0 then d / 2 else -((-d) / 2)
  }

  function Min(a: int, b: int): int { if a <= b then a else b }

  function Max(a: int, b: int): int { if a >= b then a else b }

  /** The driver arms its timer and then dumps, so that the two overlap: it goes on once both are over. */
  function Pause(next: int, period: int, dump: nat): int {
    Max(Half(Min(next, period)), dump)
  }

  /**
   `r` is how long the driver pauses: no shorter than its dumps, and for the rest until half of the
   smaller of reply.Next and the period is over, but for a nanosecond of rounding.
   */
  ghost predicate Pauses(r: int, next: int, period: int, dump: nat) {
    && r >= dump && (2 * r + 1 >= next || 2 * r + 1 >= period)
    && (r == dump || (2 * r <= next && 2 * r <= period))
  }

  lemma PauseIs(next: int, period: int, dump: nat)
    ensures Pauses(Pause(next, period, dump), next, period, dump)
  {
  }

  /** When the acceptance after `a` happens. */
  function NextSent(a: Accept, period: int): int {
    match a.follow
    case Answered(latency, dump, gap) => a.replied + latency + Pause(a.Next(), period, dump) + gap
    case Lost(gap) => a.replied + gap
  }

  // ---- The driver ----

  /** Acceptances that follow one another as their timings say, the first at `due`. */
  ghost predicate Chained(due: int, period: int, accepts: seq<Accept>) {
    forall k: nat | k < |accepts| :: ChainedAt(due, period, accepts, k)
  }

  ghost predicate ChainedAt(due: int, period: int, accepts: seq<Accept>, k: nat)
    requires k < |accepts|
  {
    && accepts[k].now <= accepts[k].sent <= accepts[k].replied
    && accepts[k].sent == DueAt(due, period, accepts, k)
  }

  /** When the `k`-th acceptance is due. */
  ghost function DueAt(due: int, period: int, accepts: seq<Accept>, k: nat): int
    requires k <= |accepts|
  {
    if k == 0 then due else NextSent(accepts[k - 1], period)
  }

  lemma ChainedSnoc(due: int, period: int, accepts: seq<Accept>, a: Accept)
    requires Chained(due, period, accepts)
    requires a.now <= a.sent <= a.replied && a.sent == DueAt(due, period, accepts, |accepts|)
    ensures Chained(due, period, accepts + [a])
  {
    forall k: nat | k < |accepts + [a]| ensures ChainedAt(due, period, accepts + [a], k) {
      if k < |accepts| {
        assert ChainedAt(due, period, accepts, k);
      }
    }
  }

  /** What the environment decides about one successful turn of the driver's keepalive loop. */
  datatype Turn = Turn(handling: nat, replying: nat, latency: nat, healthy: bool, dump: nat, gap: nat)
  {
    /** The driver dumps only when the reply said that the worker is unhealthy. */
    function Follow(): Follow {
      Answered(latency, if healthy then 0 else dump, gap)
    }
  }

  /** The turn makes the acceptance: what it asks for, when its handler reads the clock and replies, what follows. */
  ghost predicate Made(t: Turn, a: Accept) {
    && a.interval == LEASE && a.now == a.sent - t.handling && a.replied == a.sent + t.replying
    && a.follow == t.Follow()
  }

  /**
   The next acceptance `b` comes once the reply has arrived, the driver has paused and, only if the worker is
   unhealthy, dumped, and the next keepalive has got to the watchdog.
   */
  ghost predicate Paced(t: Turn, a: Accept, b: Accept, period: int) {
    Pauses(b.sent - a.replied - t.latency - t.gap, a.Next(), period, if t.healthy then 0 else t.dump)
  }

  /** The driver's keepalive loop from its first acceptance on: it asks for five minutes each time. */
  method Drive(first: int, period: int, turns: seq<Turn>) returns (accepts: seq<Accept>)
    ensures |accepts| == |turns| && Chained(first, period, accepts)
    ensures forall k | 0 <= k < |turns| :: Made(turns[k], accepts[k]) && accepts[k].interval == 300 * SECOND
    ensures turns != [] ==> accepts[0].sent == first
    ensures forall k: nat | k < |turns| - 1 :: Paced(turns[k], accepts[k], accepts[k + 1], period)
  {
    accepts := [];
    var sent := first;
    for i := 0 to |turns|
      invariant |accepts| == i && Chained(first, period, accepts)
      invariant sent == DueAt(first, period, accepts, i)
      invariant forall k | 0 <= k < i :: Made(turns[k], accepts[k])
    {
      var t := turns[i];
      var dump := if t.healthy then 0 else t.dump;
      var now, replied := sent - t.handling, sent + t.replying;
      var a := Accept(now, LEASE, sent, replied, Answered(t.latency, dump, t.gap));
      ChainedSnoc(first, period, accepts, a);
      accepts := accepts + [a];
      var next := now + LEASE - replied;
      if next > period {
        next := period;
      }
      var clock := replied + t.latency;
      var timer := clock + Half(next);
      clock := clock + dump;
      if timer > clock {
        clock := timer;
      }
      sent := clock + t.gap;
    }
    forall k: nat | k < |turns| - 1 ensures Paced(turns[k], accepts[k], accepts[k + 1], period) {
      PacedAt(first, period, turns, accepts, k);
    }
    assert turns != [] ==> ChainedAt(first, period, accepts, 0);
  }

  lemma PacedAt(first: int, period: int, turns: seq<Turn>, accepts: seq<Accept>, k: nat)
    requires |accepts| == |turns| && Chained(first, period, accepts) && k < |turns| - 1 && Made(turns[k], accepts[k])
    ensures Paced(turns[k], accepts[k], accepts[k + 1], period)
  {
    assert ChainedAt(first, period, accepts, k + 1);
    PauseIs(accepts[k].Next(), period, if turns[k].healthy then 0 else turns[k].dump);
  }

  // ---- The watchdog ----

  /** The deadline that the check of wake `k` compares with. */
  ghost function DeadlineAt(start: int, wakes: seq<Wake>, k: nat): int
    requires k < |wakes|
  {
    if wakes[k].Recv? then wakes[k].accept.Deadline()
    else if k == 0 then start + GRACE
    else DeadlineAt(start, wakes, k - 1)
  }

  /** Whether the check of wake `k` finds the lease expired. */
  ghost predicate Expired(start: int, wakes: seq<Wake>, k: nat)
    requires k < |wakes|
  {
    wakes[k].at > DeadlineAt(start, wakes, k)
  }

  ghost predicate Survives(start: int, wakes: seq<Wake>) {
    forall k: nat | k < |wakes| :: !Expired(start, wakes, k)
  }

  /** The watchdog's loop, run on a history of wake-ups; `exit` is the wake at which it calls Exit. */
  method Watchdog(start: int, wakes: seq<Wake>) returns (exit: Option<nat>)
    ensures exit.None? <==> Survives(start, wakes)
    ensures exit.Some? ==> exit.value < |wakes| && Expired(start, wakes, exit.value)
    ensures exit.Some? ==> forall k: nat | k < exit.value :: !Expired(start, wakes, k)
  {
    var next := start + GRACE;
    for i := 0 to |wakes|
      invariant next == if i == 0 then start + GRACE else DeadlineAt(start, wakes, i - 1)
      invariant forall k: nat | k < i :: !Expired(start, wakes, k)
    {
      match wakes[i] {
        case Tick(_) =>
        case Recv(a, _) => next := a.Deadline();
      }
      assert next == DeadlineAt(start, wakes, i);
      if wakes[i].at - next > 0 {
        assert Expired(start, wakes, i);
        return Some(i);
      }
    }
    return None;
  }

  /** The current deadline is the initial lease or the last deadline received, whichever came last. */
  lemma {:induction false} DeadlineIsLast(start: int, wakes: seq<Wake>, k: nat)
    requires k < |wakes|
    ensures (&& DeadlineAt(start, wakes, k) == start + 120 * SECOND
             && forall i: nat | i <= k :: wakes[i].Tick?)
         || exists j: nat :: && j <= k && wakes[j].Recv?
                             && DeadlineAt(start, wakes, k) == wakes[j].accept.Deadline()
                             && forall i: nat | j < i <= k :: wakes[i].Tick?
  {
    if wakes[k].Tick? && k > 0 {
      DeadlineIsLast(start, wakes, k - 1);
    }
  }

  // ---- Safety of the composed protocol ----

  /**
   The wake-ups of a worker whose next acceptance is due at `due`, the previous check having been
   made at `prev`. The watchdog is one goroutine: it makes each check before it receives again.
   */
  ghost predicate Timed(prev: int, due: int, period: int, wakes: seq<Wake>)
    decreases wakes
  {
    wakes == [] ||
    match wakes[0]
    case Tick(at) => prev <= at <= due && Timed(at, due, period, wakes[1..])
    case Recv(a, at) =>
      && a.sent == due && prev <= a.sent <= at && a.now <= a.sent <= a.replied
      && at <= NextSent(a, period)
      && Timed(at, NextSent(a, period), period, wakes[1..])
  }

  /** Reply latency, pause and the time to the next acceptance stay within reply.Next. */
  ghost predicate Prompt(a: Accept, period: int) {
    match a.follow
    case Answered(latency, dump, gap) => latency + Pause(a.Next(), period, dump) + gap <= a.Next()
    case Lost(gap) => gap <= a.Next()
  }

  /**
   Lease safety: if the first acceptance falls into the initial lease and every acceptance is
   prompt, then the watchdog never exits, also where a late handler shortens the lease.
   */
  lemma LeaseSafety(start: int, due: int, period: int, wakes: seq<Wake>)
    requires Timed(start, due, period, wakes) && due <= start + GRACE
    requires forall w | w in wakes && w.Recv? :: Prompt(w.accept, period)
    ensures Survives(start, wakes)
  {
    SafeFrom(start, start, due, start + GRACE, period, wakes, 0);
  }

  lemma {:induction false} SafeFrom(start: int, prev: int, due: int, deadline: int, period: int,
                                    wakes: seq<Wake>, k: nat)
    requires k <= |wakes| && Timed(prev, due, period, wakes[k..]) && due <= deadline
    requires deadline == if k == 0 then start + GRACE else DeadlineAt(start, wakes, k - 1)
    requires forall w | w in wakes && w.Recv? :: Prompt(w.accept, period)
    ensures forall i: nat | k <= i < |wakes| :: !Expired(start, wakes, i)
    decreases |wakes| - k
  {
    if k < |wakes| {
      assert wakes[k..][0] == wakes[k] && wakes[k..][1..] == wakes[k + 1..];
      match wakes[k] {
        case Tick(at) => SafeFrom(start, at, due, deadline, period, wakes, k + 1);
        case Recv(a, at) =>
          assert wakes[k] in wakes;
          SafeFrom(start, at, NextSent(a, period), a.Deadline(), period, wakes, k + 1);
      }
    }
  }

  // ---- Promptness is also necessary ----

  ghost function AcceptsOf(wakes: seq<Wake>): seq<Accept> {
    if wakes == [] then []
    else if wakes[0].Recv? then [wakes[0].accept] + AcceptsOf(wakes[1..])
    else AcceptsOf(wakes[1..])
  }

  /** Every history of checks around a chain of acceptances survives. */
  ghost predicate Safe(start: int, due: int, period: int, accepts: seq<Accept>) {
    forall wakes | Timed(start, due, period, wakes) && AcceptsOf(wakes) <= accepts :: Survives(start, wakes)
  }

  lemma {:induction false} AcceptsComplete(wakes: seq<Wake>, w: Wake)
    requires w in wakes && w.Recv?
    ensures w.accept in AcceptsOf(wakes)
  {
    if w != wakes[0] {
      AcceptsComplete(wakes[1..], w);
    }
  }

  /** The first `n` acceptances from the `k`-th on, each checked at once, and a tick at `t`. */
  ghost function Tight(accepts: seq<Accept>, t: int, k: nat, n: nat): (wakes: seq<Wake>)
    requires k <= n <= |accepts| && 0 < n
    ensures |wakes| == n - k + 1
    ensures forall i | 0 <= i < n - k :: wakes[i] == Recv(accepts[k + i], accepts[k + i].sent)
    ensures wakes[n - k] == Tick(t)
    decreases n - k
  {
    if k == n then [Tick(t)] else [Recv(accepts[k], accepts[k].sent)] + Tight(accepts, t, k + 1, n)
  }

  lemma {:induction false} TightIsTimed(prev: int, due: int, period: int, accepts: seq<Accept>, t: int, k: nat, n: nat)
    requires k <= n <= |accepts| && 0 < n && Chained(due, period, accepts)
    requires prev <= (if k == n then t else DueAt(due, period, accepts, k))
    requires accepts[n - 1].sent <= t <= NextSent(accepts[n - 1], period)
    ensures Timed(prev, DueAt(due, period, accepts, k), period, Tight(accepts, t, k, n))
    decreases n - k
  {
    var wakes := Tight(accepts, t, k, n);
    if k < n {
      var a := accepts[k];
      assert ChainedAt(due, period, accepts, k);
      assert k + 1 < n ==> ChainedAt(due, period, accepts, k + 1);
      TightIsTimed(a.sent, due, period, accepts, t, k + 1, n);
      assert wakes[0] == Recv(a, a.sent) && wakes[1..] == Tight(accepts, t, k + 1, n);
    } else {
      assert wakes[1..] == [];
    }
  }

  lemma {:induction false} TightAccepts(accepts: seq<Accept>, t: int, k: nat, n: nat)
    requires k <= n <= |accepts| && 0 < n
    ensures AcceptsOf(Tight(accepts, t, k, n)) == accepts[k..n]
    decreases n - k
  {
    var wakes := Tight(accepts, t, k, n);
    if k < n {
      TightAccepts(accepts, t, k + 1, n);
      assert wakes[1..] == Tight(accepts, t, k + 1, n);
    } else {
      assert wakes[1..] == [];
    }
  }

  /** A history that receives the first `n` acceptances at once and then checks at `t` finds the last one's deadline. */
  lemma TightHistory(start: int, due: int, period: int, accepts: seq<Accept>, t: int, n: nat) returns (wakes: seq<Wake>)
    requires start <= due && Chained(due, period, accepts) && 0 < n <= |accepts|
    requires accepts[n - 1].sent <= t <= NextSent(accepts[n - 1], period)
    ensures |wakes| == n + 1 && Timed(start, due, period, wakes) && AcceptsOf(wakes) <= accepts
    ensures forall i | 0 <= i < n :: wakes[i] == Recv(accepts[i], accepts[i].sent)
    ensures wakes[n] == Tick(t) && DeadlineAt(start, wakes, n) == accepts[n - 1].Deadline()
  {
    wakes := Tight(accepts, t, 0, n);
    TightIsTimed(start, due, period, accepts, t, 0, n);
    TightAccepts(accepts, t, 0, n);
    assert DeadlineAt(start, wakes, n) == DeadlineAt(start, wakes, n - 1);
  }

  lemma LateStartUnsafe(start: int, due: int, period: int, accepts: seq<Accept>)
    requires start <= due && due > start + GRACE
    ensures !Safe(start, due, period, accepts)
  {
    var wakes := [Tick(due)];
    assert wakes[1..] == [] && AcceptsOf(wakes) == [];
    assert wakes[0].at == due;
    assert Timed(start, due, period, wakes) && Expired(start, wakes, 0);
    assert AcceptsOf(wakes) <= accepts && !Survives(start, wakes);
  }

  lemma LateAcceptUnsafe(start: int, due: int, period: int, accepts: seq<Accept>, i: nat)
    requires start <= due && Chained(due, period, accepts) && i < |accepts| && !Prompt(accepts[i], period)
    ensures !Safe(start, due, period, accepts)
  {
    assert ChainedAt(due, period, accepts, i);
    var wakes := TightHistory(start, due, period, accepts, NextSent(accepts[i], period), i + 1);
    assert Expired(start, wakes, i + 1);
  }

  /**
   For a given chain of acceptances, every history of checks made around it survives exactly when
   the chain starts inside the initial lease and every acceptance in it is prompt.
   */
  lemma LeaseExactly(start: int, due: int, period: int, accepts: seq<Accept>)
    requires start <= due && Chained(due, period, accepts)
    ensures Safe(start, due, period, accepts)
       <==> due <= start + GRACE && forall a | a in accepts :: Prompt(a, period)
  {
    if due <= start + GRACE && forall a | a in accepts :: Prompt(a, period) {
      forall wakes: seq<Wake> | Timed(start, due, period, wakes) && AcceptsOf(wakes) <= accepts ensures Survives(start, wakes) {
        forall w: Wake | w in wakes && w.Recv? ensures Prompt(w.accept, period) { AcceptsComplete(wakes, w); }
        LeaseSafety(start, due, period, wakes);
      }
    } else if due > start + GRACE {
      LateStartUnsafe(start, due, period, accepts);
    } else {
      var i :| 0 <= i < |accepts| && !Prompt(accepts[i], period);
      LateAcceptUnsafe(start, due, period, accepts, i);
    }
  }

  // ---- Checks of a ticker that is on time ----

  ghost function TicksOf(wakes: seq<Wake>): seq<int> {
    if wakes == [] then []
    else if wakes[0].Tick? then [wakes[0].at] + TicksOf(wakes[1..])
    else TicksOf(wakes[1..])
  }

  /** The checks that no acceptance causes are made 30 seconds after the start, 30 seconds later, and so on. */
  ghost predicate OnTime(start: int, wakes: seq<Wake>) {
    forall i | 0 <= i < |TicksOf(wakes)| :: TicksOf(wakes)[i] == start + (i + 1) * TICK
  }

  /** Every history of on-time checks around a chain of acceptances survives. */
  ghost predicate SafeOnTime(start: int, due: int, period: int, accepts: seq<Accept>) {
    forall wakes | Timed(start, due, period, wakes) && AcceptsOf(wakes) <= accepts && OnTime(start, wakes) ::
      Survives(start, wakes)
  }

  /** The ticks after the `k`-th up to the `m`-th. */
  ghost function Ticks(start: int, k: nat, m: nat): (wakes: seq<Wake>)
    requires k <= m
    ensures |wakes| == m - k && forall i | 0 <= i < m - k :: wakes[i] == Tick(start + (k + i + 1) * TICK)
    decreases m - k
  {
    if k == m then [] else [Tick(start + (k + 1) * TICK)] + Ticks(start, k + 1, m)
  }

  lemma {:induction false} TicksAreTimed(prev: int, due: int, period: int, start: int, k: nat, m: nat)
    requires k <= m && prev <= start + (k + 1) * TICK && start + m * TICK <= due
    ensures var wakes := Ticks(start, k, m); Timed(prev, due, period, wakes) && AcceptsOf(wakes) == []
    ensures var ts := TicksOf(Ticks(start, k, m));
      |ts| == m - k && forall i | 0 <= i < m - k :: ts[i] == start + (k + i + 1) * TICK
    decreases m - k
  {
    if k < m {
      TicksAreTimed(start + (k + 1) * TICK, due, period, start, k + 1, m);
      assert Ticks(start, k, m)[1..] == Ticks(start, k + 1, m);
    }
  }

  /** The acceptance comes within a tick of the start, and the ticker runs until the next one is due. */
  lemma OnTimeHistory(a: Accept, period: int, start: int, m: nat) returns (wakes: seq<Wake>)
    requires a.now <= a.sent <= a.replied && start <= a.sent <= start + TICK
    requires start + m * TICK == NextSent(a, period)
    ensures Timed(start, a.sent, period, wakes) && AcceptsOf(wakes) == [a] && OnTime(start, wakes)
    ensures |wakes| == m + 1 && wakes[0] == Recv(a, a.sent) && SilentAfter(wakes, 0)
    ensures m > 0 ==> wakes[m].at == NextSent(a, period)
  {
    var ticks := Ticks(start, 0, m);
    wakes := [Recv(a, a.sent)] + ticks;
    assert wakes[1..] == ticks;
    TicksAreTimed(a.sent, NextSent(a, period), period, start, 0, m);
    assert TicksOf(wakes) == TicksOf(ticks);
  }

  /** An acceptance that is not prompt can be the last of a worker whose ticker is on time. */
  lemma OnTimeUnsafe(a: Accept, period: int) returns (start: int)
    requires a.now <= a.sent <= a.replied && !Prompt(a, period)
    ensures start <= a.sent <= start + GRACE && !SafeOnTime(start, a.sent, period, [a])
  {
    var end := NextSent(a, period);
    var m: nat := (end - a.sent + TICK - 1) / TICK;
    start := end - m * TICK;
    var wakes := OnTimeHistory(a, period, start, m);
    DeadlineKept(start, wakes, 0, m);
    assert DeadlineAt(start, wakes, 0) == a.Deadline();
    assert Expired(start, wakes, m);
    assert AcceptsOf(wakes) <= [a];
  }

  // ---- Liveness: an abandoned worker exits ----

  /** Checks are never further apart than one tick. */
  ghost predicate Ticking(start: int, wakes: seq<Wake>) {
    && (wakes != [] ==> start <= wakes[0].at <= start + TICK)
    && forall k | 0 < k < |wakes| :: wakes[k - 1].at <= wakes[k].at <= wakes[k - 1].at + TICK
  }

  /** No acceptance after wake `j`. */
  ghost predicate SilentAfter(wakes: seq<Wake>, j: nat) {
    forall k: nat | j < k < |wakes| :: wakes[k].Tick?
  }

  lemma {:induction false} DeadlineKept(start: int, wakes: seq<Wake>, j: nat, k: nat)
    requires j <= k < |wakes| && SilentAfter(wakes, j)
    ensures DeadlineAt(start, wakes, k) == DeadlineAt(start, wakes, j)
  {
    if j < k {
      DeadlineKept(start, wakes, j, k - 1);
    }
  }

  /** The first expired check at or after wake `j`. */
  lemma {:induction false} FirstExpiry(start: int, wakes: seq<Wake>, j: nat, n: nat) returns (k: nat)
    requires j <= n < |wakes| && Expired(start, wakes, n)
    ensures j <= k <= n && Expired(start, wakes, k)
    ensures forall i: nat | j <= i < k :: !Expired(start, wakes, i)
    decreases n - j
  {
    if Expired(start, wakes, j) {
      k := j;
    } else {
      k := FirstExpiry(start, wakes, j + 1, n);
    }
  }

  /**
   A worker that has seen its last acceptance at wake `j`, and whose history reaches past the
   deadline, exits strictly after the deadline and within one tick of it (or, if that
   acceptance itself carried a deadline already past, at its check).
   */
  lemma ExitsInTime(start: int, wakes: seq<Wake>, j: nat) returns (k: nat)
    requires Ticking(start, wakes) && j < |wakes| && SilentAfter(wakes, j)
    requires wakes[|wakes| - 1].at > DeadlineAt(start, wakes, j)
    ensures j <= k < |wakes| && Expired(start, wakes, k)
    ensures forall i: nat | j <= i < k :: !Expired(start, wakes, i)
    ensures DeadlineAt(start, wakes, j) < wakes[k].at
    ensures k > j ==> wakes[k].at <= DeadlineAt(start, wakes, j) + 30 * SECOND
  {
    DeadlineKept(start, wakes, j, |wakes| - 1);
    k := FirstExpiry(start, wakes, j, |wakes| - 1);
    DeadlineKept(start, wakes, j, k);
    if k > j {
      DeadlineKept(start, wakes, j, k - 1);
      assert !Expired(start, wakes, k - 1);
    }
  }

  /** A worker whose driver gave up dies within 5m30s of the last keepalive it accepted from the loop. */
  lemma AbandonedWorkerDies(start: int, wakes: seq<Wake>, j: nat) returns (k: nat)
    requires Ticking(start, wakes) && j < |wakes| && wakes[j].Recv? && SilentAfter(wakes, j)
    requires wakes[j].accept.interval == 300 * SECOND && wakes[j].accept.now <= wakes[j].accept.sent
    requires (if j == 0 then start else wakes[j - 1].at) <= wakes[j].accept.sent
    requires wakes[|wakes| - 1].at > wakes[j].accept.Deadline()
    ensures j <= k < |wakes| && Expired(start, wakes, k)
    ensures wakes[j].accept.Deadline() < wakes[k].at <= wakes[j].accept.sent + 330 * SECOND
  {
    k := ExitsInTime(start, wakes, j);
  }

  // ---- Which deployments are prompt ----

  /** The timings a deployment allows: bounds on handler delay, reply latency, dump time and gap. */
  datatype Bounds = Bounds(handler: nat, latency: nat, dump: nat, gap: nat)

  ghost predicate Within(a: Accept, b: Bounds) {
    && a.interval == LEASE && a.now <= a.sent <= a.replied <= a.now + b.handler && a.follow.gap <= b.gap
    && (a.follow.Answered? ==> a.follow.latency <= b.latency && a.follow.dump <= b.dump)
  }

  /** Handler delay and pause grow together: a later reply leaves less to halve. */
  lemma PauseGrows(h: nat, h': nat, period: nat, dump: nat, dump': nat)
    requires h <= h' && dump <= dump'
    ensures h + Pause(LEASE - h, period, dump) <= h' + Pause(LEASE - h', period, dump')
  {
  }

  /**
   The bounds fit into the lease: what handler, latency and gap leave of it covers the dumps, and twice
   that, rounded up, covers what the handler leaves of the lease or the period.
   */
  predicate Fits(b: Bounds, period: nat) {
    var left := LEASE - b.handler - b.latency - b.gap;
    b.dump <= left && (LEASE - b.handler <= 2 * left + 1 || period <= 2 * left + 1)
  }

  lemma FitsIs(b: Bounds, period: nat)
    ensures Fits(b, period) <==> b.handler + b.latency + Pause(LEASE - b.handler, period, b.dump) + b.gap <= LEASE
  {
    PauseIs(LEASE - b.handler, period, b.dump);
  }

  /** Every keepalive that keeps within the bounds is prompt exactly when the worst one is: the bounds fit into the lease. */
  lemma BudgetExactly(b: Bounds, period: nat)
    ensures (forall a: Accept | Within(a, b) :: Prompt(a, period)) <==> Fits(b, period)
  {
    FitsIs(b, period);
    var worst := Accept(0, LEASE, 0, b.handler, Answered(b.latency, b.dump, b.gap));
    assert Within(worst, b);
    if Fits(b, period) {
      forall a: Accept | Within(a, b) ensures Prompt(a, period) {
        PauseGrows(a.replied - a.now, b.handler, period, if a.follow.Answered? then a.follow.dump else 0, b.dump);
      }
    }
  }

  /** A chain of acceptances within the bounds, the first inside the initial lease. */
  ghost predicate Deployed(start: int, due: int, period: int, b: Bounds, accepts: seq<Accept>) {
    start <= due <= start + GRACE && Chained(due, period, accepts) && forall a | a in accepts :: Within(a, b)
  }

  /**
   A deployment never loses a worker to its watchdog exactly if its bounds fit into the
   lease; and that is so whether the checks come at any time or only with a ticker that is on time.
   */
  lemma DeploymentExactly(b: Bounds, period: nat)
    ensures (forall start, due, accepts | Deployed(start, due, period, b, accepts) :: Safe(start, due, period, accepts))
       <==> Fits(b, period)
    ensures (forall start, due, accepts | Deployed(start, due, period, b, accepts) ::
               SafeOnTime(start, due, period, accepts))
       <==> Fits(b, period)
  {
    BudgetExactly(b, period);
    if Fits(b, period) {
      forall start, due, accepts | Deployed(start, due, period, b, accepts) ensures Safe(start, due, period, accepts) {
        LeaseExactly(start, due, period, accepts);
      }
    } else {
      var a: Accept :| Within(a, b) && !Prompt(a, period);
      var start := OnTimeUnsafe(a, period);
      assert ChainedAt(a.sent, period, [a], 0);
      assert Deployed(start, a.sent, period, b, [a]);
      assert !SafeOnTime(start, a.sent, period, [a]) && !Safe(start, a.sent, period, [a]);
    }
  }
}
