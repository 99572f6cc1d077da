/**
 The part of a Machine that its mutex guards (machine.go): the state word, the
 stored error, the waiter list and the canceler set. Each method of the class is
 one locked section of the source; its contract ties the new fields to a function
 of the old ones, and `Lifecycle` interleaves exactly those functions.
 */
module MachineState {
  import opened Wrappers

  /** The machine states, in the order of the source's enumeration. */
  type State = s: int | 0 <= s <= 3
  const UNSTARTED: State := 0
  const STARTING: State := 1
  const RUNNING: State := 2
  const STOPPED: State := 3

  /** Why a machine stopped: the OOM monitor's report or a failure seen by the loop. */
  datatype Cause = OutOfMemory | Failure(id: nat)

  /** A channel (named by a number) together with the state it waits for. */
  datatype Waiter = Waiter(chan: nat, want: State)

  datatype Shared = Shared(state: State, err: Option<Cause>, waiters: seq<Waiter>, cancelers: set<nat>)

  /** The channels that storing `s` releases, in list order. */
  function Triggered(ws: seq<Waiter>, s: State): seq<nat> {
    if ws == [] then []
    else
      var last := ws[|ws| - 1];
      Triggered(ws[..|ws| - 1], s) + (if last.want <= s then [last.chan] else [])
  }

  /** The waiters that storing `s` leaves in the list, in list order. */
  function Kept(ws: seq<Waiter>, s: State): seq<Waiter> {
    if ws == [] then []
    else
      var last := ws[|ws| - 1];
      Kept(ws[..|ws| - 1], s) + (if last.want <= s then [] else [last])
  }

  /** How often each channel occurs in a waiter list. */
  ghost function Chans(ws: seq<Waiter>): multiset<nat> {
    if ws == [] then multiset{} else Chans(ws[..|ws| - 1]) + multiset{ws[|ws| - 1].chan}
  }

  /** The guarded fields after the locked half of `setState(s)`. */
  function Stored(sh: Shared, s: State): Shared {
    sh.(state := s,
        waiters := Kept(sh.waiters, s),
        cancelers := if s >= STOPPED then {} else sh.cancelers)
  }

  /** The contexts that the locked half of `setState(s)` cancels. */
  function CancelledBy(sh: Shared, s: State): set<nat> {
    if s >= STOPPED then sh.cancelers else {}
  }

  /** The guarded fields after `Wait(want)` on a new channel `ch`. */
  function Waited(sh: Shared, ch: nat, want: State): Shared {
    if want <= sh.state then sh else sh.(waiters := sh.waiters + [Waiter(ch, want)])
  }

  /** The guarded fields after `context` has made the canceler `id`. */
  function Contexted(sh: Shared, id: nat): Shared {
    if sh.state >= STOPPED then sh else sh.(cancelers := sh.cancelers + {id})
  }

  lemma ChansSnoc(ws: seq<Waiter>, w: Waiter)
    ensures Chans(ws + [w]) == Chans(ws) + multiset{w.chan}
  {
    assert (ws + [w])[..|ws|] == ws;
  }

  /** A store neither loses nor duplicates a channel. */
  lemma {:induction false} StoreSplitsChans(ws: seq<Waiter>, s: State)
    ensures Chans(ws) == multiset(Triggered(ws, s)) + Chans(Kept(ws, s))
  {
    if ws != [] {
      var init, last := ws[..|ws| - 1], ws[|ws| - 1];
      StoreSplitsChans(init, s);
      var t, k, one := Triggered(init, s), Kept(init, s), multiset{last.chan};
      if last.want > s {
        assert Triggered(ws, s) == t;
        ChansSnoc(k, last);
      } else {
        assert Kept(ws, s) == k;
        assert multiset(t + [last.chan]) == multiset(t) + one;
      }
    }
  }

  /** A store keeps exactly the waiters for a higher state. */
  lemma {:induction false} KeptMember(ws: seq<Waiter>, s: State)
    ensures forall w :: w in Kept(ws, s) <==> w in ws && w.want > s
  {
    if ws != [] {
      KeptMember(ws[..|ws| - 1], s);
      assert ws == ws[..|ws| - 1] + [ws[|ws| - 1]];
    }
  }

  /** The order of the list is kept: what a store releases and keeps of two lists is that of the first, then of the second. */
  lemma {:induction false} StoreInOrder(a: seq<Waiter>, b: seq<Waiter>, s: State)
    ensures Triggered(a + b, s) == Triggered(a, s) + Triggered(b, s)
    ensures Kept(a + b, s) == Kept(a, s) + Kept(b, s)
  {
    if b == [] {
      assert a + b == a;
    } else {
      StoreInOrder(a, b[..|b| - 1], s);
      assert (a + b)[..|a + b| - 1] == a + b[..|b| - 1];
    }
  }

  lemma {:induction false} ChansMember(ws: seq<Waiter>)
    ensures forall ch :: ch in Chans(ws) <==> exists w :: w in ws && w.chan == ch
  {
    if ws != [] {
      var init, last := ws[..|ws| - 1], ws[|ws| - 1];
      ChansMember(init);
      assert ws == init + [last];
      forall ch ensures ch in Chans(ws) <==> exists w :: w in ws && w.chan == ch {
        if ch in Chans(init) {
          var w :| w in init && w.chan == ch;
          assert w in ws;
        } else if ch == last.chan {
          assert last in ws;
        }
      }
    }
  }

  class Machine {
    var state: State
    var err: Option<Cause>
    var waiters: seq<Waiter>
    var cancelers: set<nat>

    ghost function View(): Shared
      reads this
    {
      Shared(state, err, waiters, cancelers)
    }

    constructor ()
      ensures View() == Shared(UNSTARTED, None, [], {})
    {
      state, err, waiters, cancelers := UNSTARTED, None, [], {};
    }

    /** The locked half of `setState`; the caller closes `triggered` after unlocking. */
    method StoreState(s: State) returns (triggered: seq<nat>, cancelled: set<nat>)
      modifies this
      ensures View() == Stored(old(View()), s)
      ensures triggered == Triggered(old(waiters), s)
      ensures cancelled == CancelledBy(old(View()), s)
    {
      triggered, cancelled := [], {};
      var ws := waiters;
      waiters := [];
      for i := 0 to |ws|
        invariant triggered == Triggered(ws[..i], s)
        invariant waiters == Kept(ws[..i], s)
        invariant state == old(state) && err == old(err) && cancelers == old(cancelers)
      {
        assert ws[..i + 1][..i] == ws[..i];
        if ws[i].want <= s {
          triggered := triggered + [ws[i].chan];
        } else {
          waiters := waiters + [ws[i]];
        }
      }
      assert ws[..|ws|] == ws;
      state := s;
      if s >= STOPPED {
        cancelled := cancelers;
        cancelers := {};
      }
    }

    /** The locked half of `setError`. */
    method StoreError(e: Cause)
      modifies this
      ensures View() == old(View()).(err := Some(e))
    {
      err := Some(e);
    }

    /** `Wait`: `closed` tells that the new channel was closed before it was returned. */
    method Wait(ch: nat, want: State) returns (closed: bool)
      modifies this
      ensures View() == Waited(old(View()), ch, want)
      ensures closed <==> want <= old(state)
    {
      closed := want <= state;
      if !closed {
        waiters := waiters + [Waiter(ch, want)];
      }
    }

    /** `context`: `live` is false when the new context was cancelled before it was returned. */
    method Context(id: nat) returns (live: bool)
      modifies this
      ensures View() == Contexted(old(View()), id)
      ensures live <==> old(state) < STOPPED
    {
      live := state < STOPPED;
      if live {
        cancelers := cancelers + {id};
      }
    }

    /** The cancellation function that `context` returns: it forgets the canceler. */
    method Release(id: nat)
      modifies this
      ensures View() == old(View()).(cancelers := old(cancelers) - {id})
    {
      cancelers := cancelers - {id};
    }
  }
}
