/**
 What holds of a sink of the multiplexer in every interleaving, whether or not
 writes overlap: who owns a buffer, how many buffers follow a cancellation, and when
 a write can block.
 */
module TeeOverlap {
  import opened Wrappers
  import opened Tee

  // ---- Ownership ----

  /** The writer has a buffer in hand. */
  ghost predicate Holds(c: Config, w: nat) {
    w in c.writers && !c.writers[w].Entered?
  }

  /** The consumer has never had the buffer. */
  ghost predicate NeverTaken(c: Config, id: nat) {
    forall k | 0 <= k < |c.taken| :: c.taken[k].id != id
  }

  ghost predicate InvSlot(c: Config) {
    c.slot.Some? ==>
      && c.slot.value.id < c.ids && NeverTaken(c, c.slot.value.id)
      && forall w | Holds(c, w) :: c.writers[w].buf.id != c.slot.value.id
  }

  ghost predicate InvHolders(c: Config) {
    && (forall w | Holds(c, w) :: c.writers[w].buf.id < c.ids && NeverTaken(c, c.writers[w].buf.id))
    && (forall v, w | Holds(c, v) && Holds(c, w) && v != w :: c.writers[v].buf.id != c.writers[w].buf.id)
  }

  ghost predicate InvTaken(c: Config) {
    && (forall k | 0 <= k < |c.taken| :: c.taken[k].id < c.ids)
    && (forall j, k | 0 <= j < k < |c.taken| :: c.taken[j].id != c.taken[k].id)
    && (c.consumer.Copying? ==> c.taken != [] && c.taken[|c.taken| - 1] == c.consumer.buf)
  }

  ghost predicate Inv(c: Config) {
    InvSlot(c) && InvHolders(c) && InvTaken(c)
  }

  lemma TakeHolders(c: Config, w: nat)
    requires Inv(c) && Enabled(c, Take(w))
    ensures InvHolders(Apply(c, Take(w)))
  {
    var c' := Apply(c, Take(w));
    assert forall v | v != w :: Holds(c', v) <==> Holds(c, v);
    assert forall id :: NeverTaken(c', id) == NeverTaken(c, id);
  }

  lemma TakeInv(c: Config, w: nat)
    requires Inv(c) && Enabled(c, Take(w))
    ensures Inv(Apply(c, Take(w)))
  {
    TakeHolders(c, w);
  }

  lemma FillInv(c: Config, w: nat)
    requires Inv(c) && Enabled(c, Fill(w))
    ensures Inv(Apply(c, Fill(w)))
  {
    var c' := Apply(c, Fill(w));
    assert Holds(c, w);
    assert forall v :: Holds(c', v) <==> Holds(c, v);
    assert forall v | Holds(c', v) :: c'.writers[v].buf.id == c.writers[v].buf.id;
    assert forall id :: NeverTaken(c', id) == NeverTaken(c, id);
  }

  lemma PutInv(c: Config, w: nat)
    requires Inv(c) && Enabled(c, Put(w))
    ensures Inv(Apply(c, Put(w)))
  {
    var c' := Apply(c, Put(w));
    assert Holds(c, w);
    assert forall v :: Holds(c', v) <==> Holds(c, v) && v != w;
    assert forall id :: NeverTaken(c', id) == NeverTaken(c, id);
  }

  lemma ReceiveInv(c: Config)
    requires Inv(c) && Enabled(c, Receive)
    ensures Inv(Apply(c, Receive))
  {
    var c' := Apply(c, Receive);
    assert forall v :: Holds(c', v) <==> Holds(c, v);
    forall id | NeverTaken(c, id) && id != c.slot.value.id ensures NeverTaken(c', id) {}
  }

  /** The steps that move no buffer. */
  lemma StillInv(c: Config, l: Label)
    requires Inv(c) && Enabled(c, l) && !(l.Take? || l.Fill? || l.Put? || l.Receive?)
    ensures Inv(Apply(c, l))
  {
    var c' := Apply(c, l);
    assert forall v :: Holds(c', v) <==> Holds(c, v);
    assert forall id :: NeverTaken(c', id) == NeverTaken(c, id);
  }

  lemma {:induction false} FollowsInv(c: Config, ls: seq<Label>)
    requires Inv(c) && Follows(c, ls)
    ensures Inv(After(c, ls))
    decreases |ls|
  {
    if ls != [] {
      match ls[0] {
        case Take(w) => TakeInv(c, w);
        case Fill(w) => FillInv(c, w);
        case Put(w) => PutInv(c, w);
        case Receive => ReceiveInv(c);
        case _ => StillInv(c, ls[0]);
      }
      FollowsInv(Apply(c, ls[0]), ls[1..]);
    }
  }

  /**
   In every interleaving, overlapping writes included, the slot, each writer past the slot and the
   consumer hold different buffers, and no buffer comes back once the consumer has had it.
   */
  lemma OneOwner(c: Config, ls: seq<Label>)
    requires Init(c) && Follows(c, ls)
    ensures var c' := After(c, ls);
      && (c'.slot.Some? ==> forall w | Holds(c', w) :: c'.writers[w].buf.id != c'.slot.value.id)
      && (forall v, w | Holds(c', v) && Holds(c', w) && v != w :: c'.writers[v].buf.id != c'.writers[w].buf.id)
      && (c'.slot.Some? ==> NeverTaken(c', c'.slot.value.id))
      && (forall w | Holds(c', w) :: NeverTaken(c', c'.writers[w].buf.id))
      && (forall j, k | 0 <= j < k < |c'.taken| :: c'.taken[j].id != c'.taken[k].id)
      && (c'.consumer.Copying? ==> c'.taken != [] && c'.taken[|c'.taken| - 1] == c'.consumer.buf)
  {
    FollowsInv(c, ls);
  }

  // ---- Building continuations ----

  // ---- When the sink is detached ----

  /** The sink was cancelled, or a copy to it failed. */
  ghost predicate Detaches(ls: seq<Label>) {
    exists l :: l in ls && (l.Cancel? || l.CopyFails?)
  }

  lemma {:induction false} DetachedFrom(c: Config, ls: seq<Label>)
    requires Follows(c, ls) && (c.consumer.Stopped? ==> c.done)
    ensures After(c, ls).done <==> c.done || Detaches(ls)
    ensures After(c, ls).consumer.Stopped? ==> After(c, ls).done
    ensures After(c, ls).serial == c.serial
    decreases |ls|
  {
    if ls != [] {
      DetachedFrom(Apply(c, ls[0]), ls[1..]);
      assert forall l :: l in ls <==> l == ls[0] || l in ls[1..];
    }
  }

  /**
   In every run no new write gets to a sink, whatever it is, exactly once the sink was cancelled or a copy to it
   has failed; and the consumer stops only then.
   */
  lemma DetachedExactly(c: Config, ls: seq<Label>, w: nat, p: seq<Byte>)
    requires Init(c) && Follows(c, ls) && w !in After(c, ls).writers && (c.serial ==> After(c, ls).writers == map[])
    ensures Enabled(After(c, ls), Enter(w, p)) <==> !Detaches(ls)
    ensures After(c, ls).consumer.Stopped? ==> Detaches(ls)
  {
    DetachedFrom(c, ls);
  }

  /**
   A write in the callback has a step unless it waits for a full slot, and the consumer has one if it copies, or if there
   is a buffer or a cancellation for it; a copy may succeed, or fail after any number of bytes.
   */
  lemma StepsExactly(c: Config)
    ensures forall w | w in c.writers ::
      (Enabled(c, Take(w)) || Enabled(c, Fill(w)) || Enabled(c, Put(w))) <==> !(c.writers[w].Ready? && c.slot.Some?)
    ensures Enabled(c, Receive) <==> c.consumer.Waiting? && c.slot.Some?
    ensures Enabled(c, Stop) <==> c.consumer.Waiting? && c.done
    ensures c.consumer.Copying? ==>
      Enabled(c, CopyAll) && forall n: nat | n <= |c.consumer.buf.data| :: Enabled(c, CopyFails(n))
    ensures Enabled(c, Cancel)
  {
  }

  ghost function Receives(ls: seq<Label>): nat {
    if ls == [] then 0 else (if ls[0].Receive? then 1 else 0) + Receives(ls[1..])
  }

  ghost predicate NoEnter(ls: seq<Label>) {
    forall l | l in ls :: !l.Enter?
  }

  /** A step, then a continuation from where it leads. */
  lemma Chain(c: Config, l: Label, ls: seq<Label>) returns (ls': seq<Label>)
    requires Enabled(c, l) && !l.Enter? && Follows(Apply(c, l), ls) && NoEnter(ls)
    ensures Follows(c, ls') && NoEnter(ls') && After(c, ls') == After(Apply(c, l), ls)
    ensures Receives(ls') == Receives(ls) + if l.Receive? then 1 else 0
  {
    ls' := [l] + ls;
    assert ls'[1..] == ls;
  }

  // ---- After a cancellation ----

  /** How many buffers the consumer of a cancelled sink can still get: the slot's, and one per write in progress. */
  ghost function Potential(c: Config): nat {
    if c.consumer.Stopped? then 0 else (if c.slot.Some? then 1 else 0) + |c.writers|
  }

  lemma PotentialStep(c: Config, l: Label)
    requires c.done && Enabled(c, l)
    ensures Apply(c, l).done
    ensures Potential(Apply(c, l)) + (if l.Receive? then 1 else 0) <= Potential(c)
  {
    match l {
      case Take(w) => assert Apply(c, l).writers.Keys == c.writers.Keys;
      case Fill(w) => assert Apply(c, l).writers.Keys == c.writers.Keys;
      case Put(w) => assert Apply(c, l).writers.Keys == c.writers.Keys - {w};
      case _ =>
    }
  }

  lemma {:induction false} ReceivesBounded(c: Config, ls: seq<Label>)
    requires c.done && Follows(c, ls)
    ensures Receives(ls) <= Potential(c)
    decreases |ls|
  {
    if ls != [] {
      PotentialStep(c, ls[0]);
      ReceivesBounded(Apply(c, ls[0]), ls[1..]);
    }
  }

  /** A continuation in which the consumer gets all it can. */
  lemma {:induction false} ReceiveAll(c: Config) returns (ls: seq<Label>)
    ensures Follows(c, ls) && NoEnter(ls) && Receives(ls) == Potential(c)
    decreases |c.writers|, c.slot.Some?, c.consumer.Copying?
  {
    if c.consumer.Stopped? || (c.slot.None? && c.writers == map[]) {
      ls := [];
    } else if c.consumer.Copying? {
      ls := ReceiveAll(Apply(c, CopyAll));
      ls := Chain(c, CopyAll, ls);
    } else if c.slot.Some? {
      ls := ReceiveAll(Apply(c, Receive));
      ls := Chain(c, Receive, ls);
    } else {
      assert c.writers.Keys != {};
      var w :| w in c.writers;
      ls := PutThenAll(c, w);
    }
  }

  /** The slot is empty: a writer fills it. */
  lemma {:induction false} PutThenAll(c: Config, w: nat) returns (ls: seq<Label>)
    requires c.consumer.Waiting? && c.slot.None? && w in c.writers
    ensures Follows(c, ls) && NoEnter(ls) && Receives(ls) == Potential(c)
    decreases |c.writers|, false, false, if c.writers[w].Entered? then 2 else if c.writers[w].Took? then 1 else 0
  {
    match c.writers[w] {
      case Entered(_) =>
        assert Apply(c, Take(w)).writers.Keys == c.writers.Keys;
        ls := PutThenAll(Apply(c, Take(w)), w);
        ls := Chain(c, Take(w), ls);
      case Took(_, _) =>
        assert Apply(c, Fill(w)).writers.Keys == c.writers.Keys;
        ls := PutThenAll(Apply(c, Fill(w)), w);
        ls := Chain(c, Fill(w), ls);
      case Ready(_) =>
        assert Apply(c, Put(w)).writers.Keys == c.writers.Keys - {w};
        ls := ReceiveAll(Apply(c, Put(w)));
        ls := Chain(c, Put(w), ls);
    }
  }

  /**
   A cancelled sink gets at most `n` more buffers, whatever happens next, exactly if a full slot
   and the writes in progress at that moment number at most `n`.
   */
  lemma AtMostNMore(c: Config, n: nat)
    requires c.done
    ensures (forall ls | Follows(c, ls) :: Receives(ls) <= n) <==> Potential(c) <= n
  {
    if Potential(c) <= n {
      forall ls | Follows(c, ls) ensures Receives(ls) <= n { ReceivesBounded(c, ls); }
    } else {
      var ls := ReceiveAll(c);
      assert Receives(ls) > n;
    }
  }

  /** One more step at the end of a continuation. */
  lemma {:induction false} Extend(c: Config, ls: seq<Label>, l: Label)
    requires Follows(c, ls) && Enabled(After(c, ls), l)
    ensures Follows(c, ls + [l]) && After(c, ls + [l]) == Apply(After(c, ls), l)
    decreases |ls|
  {
    if ls == [] {
      assert ls + [l] == [l] && [l][1..] == [];
    } else {
      assert (ls + [l])[0] == ls[0] && (ls + [l])[1..] == ls[1..] + [l];
      Extend(Apply(c, ls[0]), ls[1..], l);
    }
  }

  /** A write that finds the slot empty fills it. */
  lemma {:induction false} WriteFillsSlot(c: Config, w: nat) returns (ls: seq<Label>)
    requires w in c.writers && c.slot.None?
    ensures Follows(c, ls) && NoEnter(ls)
    ensures var c' := After(c, ls);
      c'.slot.Some? && c'.writers == c.writers - {w} && c'.consumer == c.consumer && c'.done == c.done && c'.serial == c.serial
    decreases if c.writers[w].Entered? then 2 else if c.writers[w].Took? then 1 else 0
  {
    match c.writers[w] {
      case Entered(_) =>
        ls := WriteFillsSlot(Apply(c, Take(w)), w);
        ls := Chain(c, Take(w), ls);
      case Took(_, _) =>
        ls := WriteFillsSlot(Apply(c, Fill(w)), w);
        ls := Chain(c, Fill(w), ls);
      case Ready(_) =>
        ls := Chain(c, Put(w), []);
    }
  }

  /** A run, with writes that do not overlap, in which a sink gets two buffers after its cancellation. */
  lemma TwoAfterCancel(p: seq<Byte>, q: seq<Byte>) returns (c: Config, before: seq<Label>, after: seq<Label>)
    ensures Init(c) && c.serial && Follows(c, before) && After(c, before).done
    ensures Follows(After(c, before), after) && Receives(after) == 2
  {
    c := Config(true, [], 0, None, map[], Waiting, false, 0, [], [], []);
    var c1 := Apply(c, Enter(0, p));
    var ls := WriteFillsSlot(c1, 0);
    before := [Enter(0, p)] + ls;
    assert before[1..] == ls;
    assert After(c, before).writers == map[];
    Extend(c, before, Enter(0, q));
    before := before + [Enter(0, q)];
    Extend(c, before, Cancel);
    before := before + [Cancel];
    assert After(c, before).writers.Keys == {0};
    after := ReceiveAll(After(c, before));
  }

  // ---- When a write can block ----

  /** A writer has to put its buffer back and the slot is full. */
  ghost predicate Blocked(c: Config) {
    c.slot.Some? && exists w :: w in c.writers && c.writers[w].Ready?
  }

  /** Two writes are in progress, or one is past the slot while the slot is full. */
  ghost predicate Contended(c: Config) {
    || (exists v, w :: v in c.writers && w in c.writers && v != w)
    || (c.slot.Some? && exists w :: Holds(c, w))
  }

  lemma CalmStep(c: Config, l: Label)
    requires !Contended(c) && Enabled(c, l) && !l.Enter?
    ensures !Contended(Apply(c, l))
  {
    var c' := Apply(c, l);
    forall v, w | v in c'.writers && w in c'.writers ensures v == w {
      assert v in c.writers && w in c.writers;
    }
    forall w | Holds(c', w) ensures c'.slot.None? {
      assert w in c.writers;
      assert !l.Take? && !l.Fill? ==> Holds(c, w);
      assert l.Fill? ==> Holds(c, l.w);
    }
  }

  lemma {:induction false} CalmForever(c: Config, ls: seq<Label>)
    requires !Contended(c) && Follows(c, ls) && NoEnter(ls)
    ensures !Contended(After(c, ls)) && !Blocked(After(c, ls))
    decreases |ls|
  {
    if ls == [] {
      assert forall w | w in c.writers && c.writers[w].Ready? :: Holds(c, w);
    } else {
      CalmStep(c, ls[0]);
      CalmForever(Apply(c, ls[0]), ls[1..]);
    }
  }

  /** A writer waits for a slot that nobody will empty any more. */
  ghost predicate Stuck(c: Config, w: nat) {
    && c.done && c.consumer.Stopped? && c.slot.Some?
    && w in c.writers && c.writers[w].Ready? && forall v | v in c.writers :: !c.writers[v].Entered?
  }

  lemma {:induction false} StuckForever(c: Config, ls: seq<Label>, w: nat)
    requires Stuck(c, w) && Follows(c, ls)
    ensures Stuck(After(c, ls), w) && !Enabled(After(c, ls), Put(w))
    decreases |ls|
  {
    if ls != [] {
      StuckForever(Apply(c, ls[0]), ls[1..], w);
    }
  }

  ghost function EnteredSet(c: Config): set<nat> {
    set w | w in c.writers && c.writers[w].Entered?
  }

  /** From any contended configuration, first let every writer go past the slot. */
  lemma {:induction false} BecomesStuck(c: Config) returns (ls: seq<Label>, w: nat)
    requires Contended(c)
    ensures Follows(c, ls) && NoEnter(ls) && Stuck(After(c, ls), w)
    decreases |EnteredSet(c)|
  {
    if EnteredSet(c) != {} {
      var v :| v in EnteredSet(c);
      var c' := Apply(c, Take(v));
      assert EnteredSet(c') == EnteredSet(c) - {v};
      StillContended(c, v);
      ls, w := BecomesStuck(c');
      ls := Chain(c, Take(v), ls);
    } else {
      assert forall v | v in c.writers :: v !in EnteredSet(c);
      ls, w := AllPast(c);
    }
  }

  lemma StillContended(c: Config, v: nat)
    requires Contended(c) && Enabled(c, Take(v))
    ensures Contended(Apply(c, Take(v)))
  {
    var c' := Apply(c, Take(v));
    if c.slot.Some? && exists w :: Holds(c, w) {
      var w :| Holds(c, w);
      assert w in c'.writers && v in c'.writers && w != v;
    } else {
      var x, y :| x in c.writers && y in c.writers && x != y;
      assert x in c'.writers && y in c'.writers;
    }
  }

  /** Every writer holds a buffer: one of them gets ready, another fills the slot if it is empty. */
  lemma {:induction false} AllPast(c: Config) returns (ls: seq<Label>, w: nat)
    requires Contended(c) && forall v | v in c.writers :: !c.writers[v].Entered?
    ensures Follows(c, ls) && NoEnter(ls) && Stuck(After(c, ls), w)
  {
    if c.slot.Some? {
      w :| w in c.writers;
      ls := SlotFull(c, w);
    } else {
      var v :| v in c.writers && exists u :: u in c.writers && u != v;
      w :| w in c.writers && w != v;
      if c.writers[v].Took? {
        var c1 := Apply(c, Fill(v));
        ls := SlotFull(Apply(c1, Put(v)), w);
        ls := Chain(c1, Put(v), ls);
        ls := Chain(c, Fill(v), ls);
      } else {
        ls := SlotFull(Apply(c, Put(v)), w);
        ls := Chain(c, Put(v), ls);
      }
    }
  }

  lemma {:induction false} SlotFull(c: Config, w: nat) returns (ls: seq<Label>)
    requires c.slot.Some? && w in c.writers && forall v | v in c.writers :: !c.writers[v].Entered?
    ensures Follows(c, ls) && NoEnter(ls) && Stuck(After(c, ls), w)
    decreases c.writers[w].Took?, !c.done, c.consumer.Copying?, !c.consumer.Stopped?
  {
    if c.writers[w].Took? {
      ls := SlotFull(Apply(c, Fill(w)), w);
      ls := Chain(c, Fill(w), ls);
    } else if !c.done {
      ls := SlotFull(Apply(c, Cancel), w);
      ls := Chain(c, Cancel, ls);
    } else if c.consumer.Copying? {
      ls := SlotFull(Apply(c, CopyAll), w);
      ls := Chain(c, CopyAll, ls);
    } else if c.consumer.Waiting? {
      ls := SlotFull(Apply(c, Stop), w);
      ls := Chain(c, Stop, ls);
    } else {
      ls := [];
    }
  }

  /** One of the writes now in progress can come to face a full slot. */
  ghost predicate CanBlock(c: Config) {
    exists ls :: Follows(c, ls) && NoEnter(ls) && Blocked(After(c, ls))
  }

  /** And can come to face it for ever. */
  ghost predicate CanStick(c: Config) {
    exists ls, w :: Follows(c, ls) && NoEnter(ls) && Stuck(After(c, ls), w)
  }

  /**
   In every configuration, whether or not writes overlapped so far, a write in progress can come to
   block, and can come to block for ever, exactly if the configuration is contended.
   */
  lemma BlocksExactly(c: Config)
    ensures CanBlock(c) <==> Contended(c)
    ensures CanStick(c) <==> Contended(c)
  {
    if Contended(c) {
      var ls, w := BecomesStuck(c);
      assert Blocked(After(c, ls));
      assert CanStick(c);
    } else {
      forall ls | Follows(c, ls) && NoEnter(ls) ensures !Blocked(After(c, ls)) { CalmForever(c, ls); }
      assert forall ls, w | Follows(c, ls) && NoEnter(ls) :: Stuck(After(c, ls), w) ==> Blocked(After(c, ls));
    }
  }

  /** Two overlapping writes reach a configuration in which one of them is blocked for ever. */
  lemma OverlappingWritesCanBlock(p: seq<Byte>, q: seq<Byte>) returns (c: Config, ls: seq<Label>, w: nat)
    ensures Init(c) && Follows(c, ls) && Stuck(After(c, ls), w)
  {
    c := Config(false, [], 0, None, map[], Waiting, false, 0, [], [], []);
    var c1 := Apply(c, Enter(0, p));
    var c2 := Apply(c1, Enter(1, q));
    assert 0 in c2.writers && 1 in c2.writers;
    ls, w := BecomesStuck(c2);
    assert ([Enter(0, p), Enter(1, q)] + ls)[1..] == [Enter(1, q)] + ls;
    assert ([Enter(1, q)] + ls)[1..] == ls;
    ls := [Enter(0, p), Enter(1, q)] + ls;
  }
}
