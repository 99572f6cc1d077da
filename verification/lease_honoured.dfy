/**
 When a worker lives as long as every lease it was granted (supervisor.go): a deadline that the
 watchdog receives replaces the one before, also where it lies earlier.
 */
module LeaseHonoured {
  import opened Lease

  /** No check finds the lease expired before a deadline received earlier has passed. */
  ghost predicate Honoured(start: int, wakes: seq<Wake>) {
    forall j: nat, k: nat | j <= k < |wakes| && wakes[j].Recv? && Expired(start, wakes, k) ::
      wakes[k].at > wakes[j].accept.Deadline()
  }

  /** Every history of checks around a chain of acceptances honours the deadlines received. */
  ghost predicate AllHonoured(start: int, due: int, period: int, accepts: seq<Accept>) {
    forall wakes | Timed(start, due, period, wakes) && AcceptsOf(wakes) <= accepts :: Honoured(start, wakes)
  }

  /**
   The later acceptance `b` does no harm to the deadline of the earlier `a`: it does not shorten it, or
   it is prompt, so that nothing expires under it, or it comes when the deadline has passed.
   */
  ghost predicate Harmless(a: Accept, b: Accept, period: int) {
    a.Deadline() <= b.Deadline() || Prompt(b, period) || a.Deadline() < b.sent
  }

  // ---- Histories in time ----

  /** A check is made between the acceptance it is of, or that came last before it, and the one due next. */
  lemma {:induction false} Window(prev: int, due: int, period: int, wakes: seq<Wake>, j: nat, k: nat)
    requires Timed(prev, due, period, wakes) && j <= k < |wakes| && wakes[j].Recv?
    requires forall i: nat | j < i <= k :: wakes[i].Tick?
    ensures wakes[j].accept.sent <= wakes[k].at <= NextSent(wakes[j].accept, period)
    decreases |wakes|
  {
    if j > 0 {
      var next := if wakes[0].Recv? then NextSent(wakes[0].accept, period) else due;
      assert forall i: nat | j - 1 < i <= k - 1 :: wakes[1..][i] == wakes[i + 1];
      Window(wakes[0].at, next, period, wakes[1..], j - 1, k - 1);
    } else if k > 0 {
      TicksWithin(wakes[0].at, NextSent(wakes[0].accept, period), period, wakes[1..], k - 1);
    }
  }

  lemma {:induction false} TicksWithin(prev: int, due: int, period: int, wakes: seq<Wake>, k: nat)
    requires Timed(prev, due, period, wakes) && k < |wakes| && forall i: nat | i <= k :: wakes[i].Tick?
    ensures prev <= wakes[k].at <= due
    decreases |wakes|
  {
    assert wakes[0].Tick?;
    if k > 0 {
      assert forall i: nat | i <= k - 1 :: wakes[1..][i] == wakes[i + 1];
      TicksWithin(wakes[0].at, due, period, wakes[1..], k - 1);
    }
  }

  /** How many acceptances come before wake `j`. */
  ghost function Rank(wakes: seq<Wake>, j: nat): nat
    requires j <= |wakes|
  {
    if j == 0 then 0 else Rank(wakes[1..], j - 1) + if wakes[0].Recv? then 1 else 0
  }

  lemma {:induction false} RankIs(wakes: seq<Wake>, j: nat)
    requires j < |wakes| && wakes[j].Recv?
    ensures Rank(wakes, j) < |AcceptsOf(wakes)| && AcceptsOf(wakes)[Rank(wakes, j)] == wakes[j].accept
  {
    if j > 0 {
      RankIs(wakes[1..], j - 1);
    }
  }

  lemma {:induction false} RankGrows(wakes: seq<Wake>, j: nat, l: nat)
    requires j < l < |wakes| && wakes[j].Recv?
    ensures Rank(wakes, j) < Rank(wakes, l)
  {
    if j > 0 {
      RankGrows(wakes[1..], j - 1, l - 1);
    }
  }

  // ---- The theorem ----

  lemma HarmlessHonours(start: int, due: int, period: int, accepts: seq<Accept>, wakes: seq<Wake>, j: nat, k: nat)
    requires forall i, n | 0 <= i < n < |accepts| :: Harmless(accepts[i], accepts[n], period)
    requires Timed(start, due, period, wakes) && AcceptsOf(wakes) <= accepts
    requires j <= k < |wakes| && wakes[j].Recv? && Expired(start, wakes, k)
    ensures wakes[k].at > wakes[j].accept.Deadline()
  {
    DeadlineIsLast(start, wakes, k);
    var l: nat :| l <= k && wakes[l].Recv? && DeadlineAt(start, wakes, k) == wakes[l].accept.Deadline()
                  && forall i: nat | l < i <= k :: wakes[i].Tick?;
    if j < l {
      RankIs(wakes, j);
      RankIs(wakes, l);
      RankGrows(wakes, j, l);
      assert Harmless(accepts[Rank(wakes, j)], accepts[Rank(wakes, l)], period);
      Window(start, due, period, wakes, l, k);
    }
  }

  /** A harmful acceptance: the check just before the next one is due, or at the earlier deadline, kills the worker. */
  lemma HarmfulBreaks(start: int, due: int, period: int, accepts: seq<Accept>, j: nat, i: nat)
    requires start <= due && Chained(due, period, accepts) && j < i < |accepts|
    requires !Harmless(accepts[j], accepts[i], period)
    ensures !AllHonoured(start, due, period, accepts)
  {
    var a, b := accepts[j], accepts[i];
    assert ChainedAt(due, period, accepts, i);
    var t := Min(NextSent(b, period), a.Deadline());
    var wakes := TightHistory(start, due, period, accepts, t, i + 1);
    assert wakes[j].Recv? && Expired(start, wakes, i + 1) && wakes[i + 1].at <= a.Deadline();
    assert !Honoured(start, wakes);
  }

  /**
   For a given chain of acceptances, no history of checks made around it ends a worker inside a lease
   it was granted, exactly when every acceptance is harmless to every earlier one.
   */
  lemma HonouredExactly(start: int, due: int, period: int, accepts: seq<Accept>)
    requires start <= due && Chained(due, period, accepts)
    ensures AllHonoured(start, due, period, accepts)
       <==> forall j, i | 0 <= j < i < |accepts| :: Harmless(accepts[j], accepts[i], period)
  {
    if j: nat, i: nat :| j < i < |accepts| && !Harmless(accepts[j], accepts[i], period) {
      HarmfulBreaks(start, due, period, accepts, j, i);
    } else {
      forall wakes: seq<Wake> | Timed(start, due, period, wakes) && AcceptsOf(wakes) <= accepts
        ensures Honoured(start, wakes)
      {
        forall j: nat, k: nat | j <= k < |wakes| && wakes[j].Recv? && Expired(start, wakes, k)
          ensures wakes[k].at > wakes[j].accept.Deadline()
        {
          HarmlessHonours(start, due, period, accepts, wakes, j, k);
        }
      }
    }
  }

  // ---- The check at which the worker exits ----

  /** The watchdog exits at wake `k`. */
  ghost predicate ExitsAt(start: int, wakes: seq<Wake>, k: nat)
    requires k < |wakes|
  {
    Expired(start, wakes, k) && forall i: nat | i < k :: !Expired(start, wakes, i)
  }

  /** No worker exits before a deadline that its watchdog received has passed. */
  ghost predicate ExitsHonour(start: int, due: int, period: int, accepts: seq<Accept>) {
    forall wakes | Timed(start, due, period, wakes) && AcceptsOf(wakes) <= accepts :: ExitHonours(start, wakes)
  }

  ghost predicate ExitHonours(start: int, wakes: seq<Wake>) {
    forall j: nat, k: nat | j <= k < |wakes| && wakes[j].Recv? && ExitsAt(start, wakes, k) ::
      wakes[k].at > wakes[j].accept.Deadline()
  }

  /** An acceptance before the `i`-th carries a deadline that has passed, so that the worker does not get to the `i`-th. */
  ghost predicate DeadBefore(accepts: seq<Accept>, i: nat)
    requires i <= |accepts|
  {
    exists l: nat :: l < i && accepts[l].sent > accepts[l].Deadline()
  }

  lemma {:induction false} ReceivedBefore(wakes: seq<Wake>, n: nat, l: nat) returns (i: nat)
    requires l <= |wakes| && n < Rank(wakes, l)
    ensures i < l && wakes[i].Recv? && Rank(wakes, i) == n
  {
    if wakes[0].Recv? && n == 0 {
      i := 0;
    } else {
      var i' := ReceivedBefore(wakes[1..], if wakes[0].Recv? then n - 1 else n, l - 1);
      i := i' + 1;
    }
  }

  /** A deadline that has passed when it is received ends the worker at that check. */
  lemma DeadEarlier(start: int, due: int, period: int, accepts: seq<Accept>, wakes: seq<Wake>, l: nat) returns (i: nat)
    requires Timed(start, due, period, wakes) && AcceptsOf(wakes) <= accepts
    requires l < |wakes| && Rank(wakes, l) <= |accepts| && DeadBefore(accepts, Rank(wakes, l))
    ensures i < l && Expired(start, wakes, i)
  {
    var n: nat :| n < Rank(wakes, l) && accepts[n].sent > accepts[n].Deadline();
    i := ReceivedBefore(wakes, n, l);
    RankIs(wakes, i);
    Window(start, due, period, wakes, i, i);
  }

  lemma HarmlessExit(start: int, due: int, period: int, accepts: seq<Accept>, wakes: seq<Wake>, j: nat, k: nat)
    requires forall i: nat, n: nat | i < n < |accepts| ::
      Harmless(accepts[i], accepts[n], period) || DeadBefore(accepts, n)
    requires Timed(start, due, period, wakes) && AcceptsOf(wakes) <= accepts
    requires j <= k < |wakes| && wakes[j].Recv? && ExitsAt(start, wakes, k)
    ensures wakes[k].at > wakes[j].accept.Deadline()
  {
    DeadlineIsLast(start, wakes, k);
    var l: nat :| l <= k && wakes[l].Recv? && DeadlineAt(start, wakes, k) == wakes[l].accept.Deadline()
                  && forall i: nat | l < i <= k :: wakes[i].Tick?;
    if j < l {
      RankIs(wakes, j);
      RankIs(wakes, l);
      RankGrows(wakes, j, l);
      if DeadBefore(accepts, Rank(wakes, l)) {
        var i := DeadEarlier(start, due, period, accepts, wakes, l);
        assert false;
      }
      assert Harmless(accepts[Rank(wakes, j)], accepts[Rank(wakes, l)], period);
      Window(start, due, period, wakes, l, k);
    }
  }

  lemma HarmfulExit(start: int, due: int, period: int, accepts: seq<Accept>, j: nat, i: nat)
    requires start <= due && Chained(due, period, accepts) && j < i < |accepts|
    requires !Harmless(accepts[j], accepts[i], period) && !DeadBefore(accepts, i)
    ensures !ExitsHonour(start, due, period, accepts)
  {
    var a, b := accepts[j], accepts[i];
    assert ChainedAt(due, period, accepts, i);
    var t := Min(NextSent(b, period), a.Deadline());
    var wakes := TightHistory(start, due, period, accepts, t, i + 1);
    forall n: nat | n < i ensures !Expired(start, wakes, n) {
      assert wakes[n] == Recv(accepts[n], accepts[n].sent);
    }
    var k := if Expired(start, wakes, i) then i else i + 1;
    assert wakes[i] == Recv(b, b.sent) && wakes[j] == Recv(a, a.sent);
    assert ExitsAt(start, wakes, k) && wakes[k].at <= a.Deadline();
    assert !ExitHonours(start, wakes);
  }

  /**
   For a given chain of acceptances, no history makes the watchdog exit inside a lease that it was
   granted, exactly when every acceptance that a worker gets to is harmless to every earlier one.
   */
  lemma ExitsHonourExactly(start: int, due: int, period: int, accepts: seq<Accept>)
    requires start <= due && Chained(due, period, accepts)
    ensures ExitsHonour(start, due, period, accepts) <==>
      forall j: nat, i: nat | j < i < |accepts| :: Harmless(accepts[j], accepts[i], period) || DeadBefore(accepts, i)
  {
    if j: nat, i: nat :| j < i < |accepts| && !Harmless(accepts[j], accepts[i], period) && !DeadBefore(accepts, i) {
      HarmfulExit(start, due, period, accepts, j, i);
    } else {
      forall wakes: seq<Wake> | Timed(start, due, period, wakes) && AcceptsOf(wakes) <= accepts
        ensures ExitHonours(start, wakes)
      {
        forall j: nat, k: nat | j <= k < |wakes| && wakes[j].Recv? && ExitsAt(start, wakes, k)
          ensures wakes[k].at > wakes[j].accept.Deadline()
        {
          HarmlessExit(start, due, period, accepts, wakes, j, k);
        }
      }
    }
  }

  /** A stale handler shortens the lease: the second deadline replaces a later one and the worker dies. */
  lemma StaleHandlerKills()
    ensures var newer := Accept(100 * SECOND, LEASE, 100 * SECOND, 100 * SECOND, Lost(SECOND));
            var stale := Accept(40 * SECOND, LEASE, 101 * SECOND, 101 * SECOND, Lost(260 * SECOND));
            var wakes := [Recv(newer, 100 * SECOND), Recv(stale, 101 * SECOND), Tick(350 * SECOND)];
            && Timed(0, 100 * SECOND, MINUTE, wakes)
            && 350 * SECOND <= newer.Deadline()
            && !Harmless(newer, stale, MINUTE) && !ExitHonours(0, wakes)
  {
    var newer := Accept(100 * SECOND, LEASE, 100 * SECOND, 100 * SECOND, Lost(SECOND));
    var stale := Accept(40 * SECOND, LEASE, 101 * SECOND, 101 * SECOND, Lost(260 * SECOND));
    var wakes := [Recv(newer, 100 * SECOND), Recv(stale, 101 * SECOND), Tick(350 * SECOND)];
    assert wakes[1..] == [Recv(stale, 101 * SECOND), Tick(350 * SECOND)];
    assert wakes[1..][1..] == [Tick(350 * SECOND)];
    assert Timed(101 * SECOND, 361 * SECOND, MINUTE, wakes[1..][1..]);
    assert Timed(100 * SECOND, 101 * SECOND, MINUTE, wakes[1..]);
    assert DeadlineAt(0, wakes, 2) == DeadlineAt(0, wakes, 1);
    assert ExitsAt(0, wakes, 2) && wakes[0].Recv?;
  }
}
