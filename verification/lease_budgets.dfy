/**
 Which keepalive timeouts (System.KeepaliveConfig) keep workers alive: the lease of
 supervisor.go against the retrying calls of machine.go.
 */
module LeaseBudgets {
  import opened Boot
  import opened Lease

  /** What KeepaliveConfig returns. */
  datatype Timeouts = Timeouts(period: nat, timeout: nat, rpcTimeout: nat)

  /**
   A keepalive of a driver with these timeouts. A reply that reaches the driver does so within the
   RPC timeout, the handler's delay included, and the next acceptance comes within a retried call
   after the pause. If the reply is lost, the next acceptance is made by the same retried call,
   which had begun when the handler read the clock.
   */
  ghost predicate Keeps(a: Accept, t: Timeouts, dump: nat) {
    && a.interval == LEASE && a.now <= a.sent <= a.replied
    && match a.follow
       case Answered(latency, d, gap) =>
         a.replied - a.now + latency <= t.rpcTimeout && d <= dump && gap <= RetryBound(t.timeout, t.rpcTimeout)
       case Lost(gap) => a.replied - a.now + gap <= RetryBound(t.timeout, t.rpcTimeout)
  }

  /** What a call and a retried call leave of the lease covers the dumps, and twice that, rounded up, lease or period. */
  predicate Affordable(t: Timeouts, dump: nat) {
    var left := 300 * SECOND - t.timeout - 2 * t.rpcTimeout;
    dump <= left && (300 * SECOND <= 2 * left + 1 || t.period <= 2 * left + 1)
  }

  /** Less time left makes no longer a pause. */
  lemma PauseMonotone(next: int, next': int, period: nat, dump: nat, dump': nat)
    requires next <= next' && dump <= dump'
    ensures Pause(next, period, dump) <= Pause(next', period, dump')
  {
  }

  lemma KeepsExactly(t: Timeouts, dump: nat)
    ensures (forall a: Accept | Keeps(a, t, dump) :: Prompt(a, t.period)) <==> Affordable(t, dump)
  {
    var worst := Accept(0, LEASE, 0, 0, Answered(t.rpcTimeout, dump, RetryBound(t.timeout, t.rpcTimeout)));
    assert Keeps(worst, t, dump);
    PauseIs(LEASE, t.period, dump);
    if Affordable(t, dump) {
      forall a: Accept | Keeps(a, t, dump) ensures Prompt(a, t.period) {
        if a.follow.Answered? {
          PauseMonotone(a.Next(), LEASE, t.period, a.follow.dump, dump);
        }
      }
    }
  }

  /** A chain of keepalives of such a driver, the first accepted no later than `first` after the worker's start. */
  ghost predicate Driven(start: int, due: int, t: Timeouts, dump: nat, first: nat, accepts: seq<Accept>) {
    start <= due <= start + first && Chained(due, t.period, accepts) && forall a | a in accepts :: Keeps(a, t, dump)
  }

  /** Every worker of such a driver survives, whenever its watchdog makes its checks. */
  ghost predicate KeepsWorkers(t: Timeouts, dump: nat, first: nat) {
    forall start, due, accepts | Driven(start, due, t, dump, first, accepts) :: Safe(start, due, t.period, accepts)
  }

  /** Every worker of such a driver survives whose watchdog's ticker is on time. */
  ghost predicate KeepsOnTime(t: Timeouts, dump: nat, first: nat) {
    forall start, due, accepts | Driven(start, due, t, dump, first, accepts) :: SafeOnTime(start, due, t.period, accepts)
  }

  lemma AffordableKeeps(t: Timeouts, dump: nat, first: nat)
    requires Affordable(t, dump) && first <= GRACE
    ensures KeepsWorkers(t, dump, first) && KeepsOnTime(t, dump, first)
  {
    KeepsExactly(t, dump);
    forall start, due, accepts | Driven(start, due, t, dump, first, accepts) ensures Safe(start, due, t.period, accepts) {
      LeaseExactly(start, due, t.period, accepts);
    }
  }

  lemma UnaffordableLoses(t: Timeouts, dump: nat)
    requires !Affordable(t, dump)
    ensures !KeepsOnTime(t, dump, GRACE)
  {
    KeepsExactly(t, dump);
    var a: Accept :| Keeps(a, t, dump) && !Prompt(a, t.period);
    var start := OnTimeUnsafe(a, t.period);
    assert ChainedAt(a.sent, t.period, [a], 0);
    assert Driven(start, a.sent, t, dump, GRACE, [a]);
  }

  /**
   For all timeouts, and whenever the first keepalive comes: a driver never loses a worker to its
   watchdog exactly if the first falls into the initial lease and the lease affords the timeouts. With
   a ticker that is on time, and the first anywhere in the initial lease, affording them is as necessary.
   */
  lemma TimeoutsExactly(t: Timeouts, dump: nat, first: nat)
    ensures KeepsWorkers(t, dump, first) <==> first <= GRACE && Affordable(t, dump)
    ensures KeepsOnTime(t, dump, GRACE) <==> Affordable(t, dump)
  {
    if Affordable(t, dump) {
      AffordableKeeps(t, dump, GRACE);
    } else {
      UnaffordableLoses(t, dump);
    }
    if first > GRACE {
      LateStartUnsafe(0, first, t.period, []);
      assert Driven(0, first, t, dump, first, []);
    } else if Affordable(t, dump) {
      AffordableKeeps(t, dump, first);
    } else {
      KeepsExactly(t, dump);
      var a: Accept :| Keeps(a, t, dump) && !Prompt(a, t.period);
      assert ChainedAt(a.sent, t.period, [a], 0);
      assert Driven(a.sent, a.sent, t, dump, first, [a]);
      LeaseExactly(a.sent, a.sent, t.period, [a]);
      assert a in [a];
    }
  }

  /** localSystem.KeepaliveConfig */
  const LOCAL := Timeouts(MINUTE, 2 * MINUTE, 10 * SECOND)
  /** ec2system's System.KeepaliveConfig */
  const EC2 := Timeouts(MINUTE, 10 * MINUTE, 2 * MINUTE)
  /** The dumps of an unhealthy worker: one minute for the heap profile, a retried call for the variables. */
  const DUMP: nat := MINUTE + RetryBound(5 * MINUTE, 25 * SECOND)

  /**
   The local system's timeouts keep every healthy worker alive whose first keepalive falls into its
   initial lease, but not if the driver takes the time that it is allowed for registering a service
   before, and not one whose driver spends the time allowed for its dumps; the EC2 system's exceed the
   lease by themselves, with a ticker that is on time too.
   */
  lemma DeployedTimeouts()
    ensures KeepsWorkers(LOCAL, 0, GRACE) && !KeepsWorkers(LOCAL, 0, REGISTER_BOUND)
    ensures !KeepsOnTime(LOCAL, DUMP, GRACE) && !KeepsOnTime(EC2, 0, GRACE)
  {
    TimeoutsExactly(LOCAL, 0, GRACE);
    TimeoutsExactly(LOCAL, 0, REGISTER_BOUND);
    TimeoutsExactly(LOCAL, DUMP, GRACE);
    TimeoutsExactly(EC2, 0, GRACE);
  }
}
