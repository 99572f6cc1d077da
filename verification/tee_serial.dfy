/**
 What holds of a sink of the multiplexer when writes do not overlap: nothing blocks,
 the bytes arrive in order, and only overflow loses any.
 */
module TeeSerial {
  import opened Wrappers
  import opened Tee
  import opened TeeOverlap

  // ---- What every step keeps ----

  /** The buffer holds the stream from its first byte to the end, after everything the consumer has taken. */
  ghost predicate Suffix(c: Config, b: Buffer) {
    && b.To() == |c.written| && b.data == c.written[b.from..]
    && (c.taken != [] ==> c.taken[|c.taken| - 1].To() <= b.from)
  }

  ghost predicate WriterOk(c: Config, pc: WriterPc) {
    match pc
    case Entered(_) => true
    case Took(b, _) => c.slot.None? && Suffix(c, b)
    case Ready(b) => c.slot.None? && Suffix(c, b) && |b.data| <= Limit(c.last)
  }

  /** There is at most one writer, and the buffer it or the slot holds ends the stream. */
  ghost predicate InvBuffer(c: Config) {
    && (forall v, w | v in c.writers && w in c.writers :: v == w)
    && (forall w | w in c.writers :: WriterOk(c, c.writers[w]))
    && (c.slot.Some? ==> Suffix(c, c.slot.value) && |c.slot.value.data| <= Limit(c.last))
  }

  /** The taken buffers are disjoint intervals of the stream, in stream order. */
  ghost predicate InvOrder(c: Config) {
    && (forall k | 0 <= k < |c.taken| ::
          c.taken[k].To() <= |c.written| && c.taken[k].data == c.written[c.taken[k].from..c.taken[k].To()])
    && (forall j, k | 0 <= j < k < |c.taken| :: c.taken[j].To() <= c.taken[k].from)
  }

  ghost predicate InvOutput(c: Config) {
    && |c.taken| == |c.output| + (if c.consumer.Copying? then 1 else 0)
    && (c.consumer.Copying? ==> c.taken[|c.taken| - 1] == c.consumer.buf)
    && (forall k | 0 <= k < |c.output| :: c.output[k] <= c.taken[k].data)
    && (forall k | 0 <= k < |c.output| :: k < |c.output| - 1 || !c.consumer.Stopped? ==> c.output[k] == c.taken[k].data)
  }

  /** The position is in a buffer that the consumer has taken. */
  ghost predicate Taken(c: Config, i: nat) {
    exists k :: 0 <= k < |c.taken| && c.taken[k].from <= i < c.taken[k].To()
  }

  /** The position was discarded on overflow. */
  ghost predicate Lost(c: Config, i: nat) {
    exists k :: 0 <= k < |c.lost| && c.lost[k].from <= i < c.lost[k].to
  }

  /** The position is in the buffer of the slot or of a writer. */
  ghost predicate Buffered(c: Config, i: nat) {
    && i < |c.written|
    && ((c.slot.Some? && c.slot.value.from <= i) || exists w :: Holds(c, w) && c.writers[w].buf.from <= i)
  }

  /** `n` is where the buffer of the slot or of the writer begins, the end of the stream if there is none. */
  ghost predicate IsTail(c: Config, n: nat) {
    && n <= |c.written|
    && (c.slot.Some? ==> n == c.slot.value.from)
    && (forall w | Holds(c, w) :: n == c.writers[w].buf.from)
    && (c.slot.Some? || n == |c.written| || exists w :: Holds(c, w))
  }

  /** Before the buffer every position was taken or lost, and not both; from there on neither. */
  ghost predicate Covered(c: Config, n: nat) {
    && IsTail(c, n)
    && (forall i: nat | i < n :: Taken(c, i) != Lost(c, i))
    && (forall i: nat | i >= n :: !Taken(c, i) && !Lost(c, i))
  }

  ghost predicate Inv(c: Config) {
    c.serial && InvBuffer(c) && InvOrder(c) && InvOutput(c) && exists n: nat :: Covered(c, n)
  }

  // Enter and Take.

  lemma EnterInv(c: Config, w: nat, p: seq<Byte>)
    requires Inv(c) && Enabled(c, Enter(w, p))
    ensures Inv(Apply(c, Enter(w, p)))
  {
    var c' := Apply(c, Enter(w, p));
    var n: nat :| Covered(c, n);
    SameCover(c, c', n);
  }

  /** A step that moves no byte keeps the cover. */
  lemma SameCover(c: Config, c': Config, n: nat)
    requires Covered(c, n) && c'.taken == c.taken && c'.lost == c.lost && IsTail(c', n)
    ensures Covered(c', n)
  {
    forall i: nat ensures Taken(c', i) == Taken(c, i) && Lost(c', i) == Lost(c, i) {}
  }

  lemma TakeInv(c: Config, w: nat)
    requires Inv(c) && Enabled(c, Take(w))
    ensures Inv(Apply(c, Take(w)))
  {
    TakeBuffer(c, w);
    TakeOrder(c, w);
    var n: nat :| Covered(c, n);
    TakeTail(c, w, n);
    SameCover(c, Apply(c, Take(w)), n);
  }

  /** The buffer taken from the slot, or the new and empty one, ends the stream. */
  lemma TakeSuffix(c: Config, w: nat)
    requires InvBuffer(c) && InvOrder(c) && Enabled(c, Take(w))
    ensures Apply(c, Take(w)).slot.None? && Suffix(c, Apply(c, Take(w)).writers[w].buf)
  {
    if c.slot.None? && c.taken != [] {
      assert c.taken[|c.taken| - 1].To() <= |c.written|;
    }
  }

  lemma TakeBuffer(c: Config, w: nat)
    requires InvBuffer(c) && InvOrder(c) && Enabled(c, Take(w))
    ensures InvBuffer(Apply(c, Take(w)))
  {
    TakeSuffix(c, w);
    assert forall v | v in c.writers :: v == w;
  }

  lemma TakeOrder(c: Config, w: nat)
    requires InvOrder(c) && InvOutput(c) && Enabled(c, Take(w))
    ensures InvOrder(Apply(c, Take(w))) && InvOutput(Apply(c, Take(w)))
  {
  }

  lemma TakeTail(c: Config, w: nat, n: nat)
    requires InvBuffer(c) && IsTail(c, n) && Enabled(c, Take(w))
    ensures IsTail(Apply(c, Take(w)), n)
  {
    var c' := Apply(c, Take(w));
    assert forall v | Holds(c', v) :: v == w;
    assert Holds(c', w) && c'.writers[w].buf.from == n;
  }

  // Fill.

  /** Filling the buffer that ends the stream gives the buffer that ends the longer stream. */
  lemma FillSuffix(written: seq<Byte>, b: Buffer, p: seq<Byte>)
    requires b.To() == |written| && b.data == written[b.from..]
    ensures var b', all := Refilled(written, b, p), written + p;
      b.from <= b'.from && b'.To() == |all| && b'.data == all[b'.from..] && |b'.data| <= Limit(|p|)
    ensures Refilled(written, b, p).from > b.from ==> |Refilled(written, b, p).data| == Limit(|p|)
  {
    FilledKeepsNewest(b.data, p);
    assert (written + p)[b.from..] == b.data + p;
  }

  lemma FillBuffer(c: Config, w: nat)
    requires InvBuffer(c) && Enabled(c, Fill(w))
    ensures InvBuffer(Apply(c, Fill(w)))
  {
    var Took(b, p) := c.writers[w];
    FillSuffix(c.written, b, p);
    assert forall v | v in c.writers :: v == w;
  }

  lemma FillOrder(c: Config, w: nat)
    requires InvOrder(c) && InvOutput(c) && Enabled(c, Fill(w))
    ensures InvOrder(Apply(c, Fill(w))) && InvOutput(Apply(c, Fill(w)))
  {
    var p := c.writers[w].p;
    forall k | 0 <= k < |c.taken|
      ensures c.taken[k].data == (c.written + p)[c.taken[k].from..c.taken[k].To()]
    {
      assert c.taken[k].To() <= |c.written|;
    }
  }

  /** What a write discards is recorded as lost, and nothing else is. */
  lemma FillCover(c: Config, w: nat, n: nat) returns (n': nat)
    requires InvBuffer(c) && Covered(c, n) && Enabled(c, Fill(w))
    ensures Covered(Apply(c, Fill(w)), n')
  {
    var c' := Apply(c, Fill(w));
    var Took(b, p) := c.writers[w];
    FillSuffix(c.written, b, p);
    n' := c'.writers[w].buf.from;
    assert Holds(c, w) && Holds(c', w) && n == b.from;
    assert forall v | Holds(c', v) :: v == w;
    forall i: nat ensures Taken(c', i) == Taken(c, i) && (Lost(c', i) <==> Lost(c, i) || n <= i < n') {
      if Lost(c, i) {
        var k :| 0 <= k < |c.lost| && c.lost[k].from <= i < c.lost[k].to;
        assert c'.lost[k] == c.lost[k];
      }
      if n <= i < n' {
        assert c'.lost[|c.lost|] == Span(n, n');
      }
    }
  }

  lemma FillInv(c: Config, w: nat)
    requires Inv(c) && Enabled(c, Fill(w))
    ensures Inv(Apply(c, Fill(w)))
  {
    FillBuffer(c, w);
    FillOrder(c, w);
    var n: nat :| Covered(c, n);
    var n' := FillCover(c, w, n);
  }

  // Put.

  lemma PutInv(c: Config, w: nat)
    requires Inv(c) && Enabled(c, Put(w))
    ensures Inv(Apply(c, Put(w)))
  {
    var c' := Apply(c, Put(w));
    var n: nat :| Covered(c, n);
    assert forall v | v in c.writers :: v == w;
    assert WriterOk(c, c.writers[w]) && Holds(c, w);
    assert c'.writers == map[];
    SameCover(c, c', n);
  }

  // The consumer.

  lemma ReceiveOrder(c: Config)
    requires InvBuffer(c) && InvOrder(c) && Enabled(c, Receive)
    ensures InvOrder(Apply(c, Receive)) && InvBuffer(Apply(c, Receive))
  {
    var b := c.slot.value;
    assert c.written[b.from..] == c.written[b.from..b.To()];
    forall k | 0 <= k < |c.taken| ensures c.taken[k].To() <= b.from {
      if k < |c.taken| - 1 {
        assert c.taken[k].To() <= c.taken[|c.taken| - 1].from;
      }
    }
    assert forall w | w in c.writers :: WriterOk(c, c.writers[w]);
  }

  lemma ReceiveCover(c: Config, n: nat)
    requires InvBuffer(c) && Covered(c, n) && Enabled(c, Receive)
    ensures Covered(Apply(c, Receive), |c.written|)
  {
    var c' := Apply(c, Receive);
    var b := c.slot.value;
    assert forall w | w in c.writers :: WriterOk(c, c.writers[w]);
    forall i: nat ensures Lost(c', i) == Lost(c, i) && (Taken(c', i) <==> Taken(c, i) || n <= i < |c.written|) {
      if Taken(c, i) {
        var k :| 0 <= k < |c.taken| && c.taken[k].from <= i < c.taken[k].To();
        assert c'.taken[k] == c.taken[k];
      }
      if n <= i < |c.written| {
        assert c'.taken[|c.taken|] == b;
      }
    }
  }

  lemma ReceiveInv(c: Config)
    requires Inv(c) && Enabled(c, Receive)
    ensures Inv(Apply(c, Receive))
  {
    ReceiveOrder(c);
    var n: nat :| Covered(c, n);
    ReceiveCover(c, n);
  }

  /** The steps of the consumer after it has a buffer, and cancellation, touch no buffer. */
  ghost predicate Leaves(l: Label) {
    l.CopyAll? || l.CopyFails? || l.Stop? || l.Cancel?
  }

  lemma CopyOutput(c: Config, l: Label)
    requires InvOutput(c) && Enabled(c, l) && Leaves(l)
    ensures InvOutput(Apply(c, l))
  {
  }

  lemma CopyBuffer(c: Config, l: Label)
    requires InvBuffer(c) && InvOrder(c) && Enabled(c, l) && Leaves(l)
    ensures InvBuffer(Apply(c, l)) && InvOrder(Apply(c, l))
  {
    var c' := Apply(c, l);
    assert c'.writers == c.writers && c'.slot == c.slot && c'.taken == c.taken && c'.written == c.written && c'.last == c.last;
    assert forall w | w in c.writers :: WriterOk(c, c.writers[w]) ==> WriterOk(c', c.writers[w]);
  }

  lemma CopyTail(c: Config, l: Label, n: nat)
    requires IsTail(c, n) && Enabled(c, l) && Leaves(l)
    ensures IsTail(Apply(c, l), n)
  {
    var c' := Apply(c, l);
    assert c'.writers == c.writers && c'.slot == c.slot && c'.written == c.written;
    assert forall w :: Holds(c', w) == Holds(c, w);
  }

  lemma CopyInv(c: Config, l: Label)
    requires Inv(c) && Enabled(c, l) && Leaves(l)
    ensures Inv(Apply(c, l))
  {
    CopyOutput(c, l);
    CopyBuffer(c, l);
    var n: nat :| Covered(c, n);
    CopyTail(c, l, n);
    SameCover(c, Apply(c, l), n);
  }

  lemma StepInv(c: Config, l: Label)
    requires Inv(c) && Enabled(c, l)
    ensures Inv(Apply(c, l))
  {
    match l {
      case Enter(w, p) => EnterInv(c, w, p);
      case Take(w) => TakeInv(c, w);
      case Fill(w) => FillInv(c, w);
      case Put(w) => PutInv(c, w);
      case Receive => ReceiveInv(c);
      case _ => CopyInv(c, l);
    }
  }

  lemma {:induction false} SerialInv(c: Config, ls: seq<Label>)
    requires Inv(c) && Follows(c, ls)
    ensures Inv(After(c, ls))
    decreases |ls|
  {
    if ls != [] {
      StepInv(c, ls[0]);
      SerialInv(Apply(c, ls[0]), ls[1..]);
    }
  }

  lemma FromInit(c: Config, ls: seq<Label>)
    requires Init(c) && c.serial && Follows(c, ls)
    ensures Inv(After(c, ls))
  {
    assert Covered(c, 0);
    SerialInv(c, ls);
  }

  // ---- Theorems ----

  /** Writes that do not overlap never contend, so none ever waits for the sink. */
  lemma NeverBlocks(c: Config, ls: seq<Label>)
    requires Init(c) && c.serial && Follows(c, ls)
    ensures !Contended(After(c, ls)) && !CanBlock(After(c, ls))
  {
    FromInit(c, ls);
    var c' := After(c, ls);
    assert forall w | Holds(c', w) :: WriterOk(c', c'.writers[w]);
    BlocksExactly(c');
  }

  /** The slot holds the end of the stream, and no more than max(512 KiB, the last write) of it. */
  lemma SlotIsSuffix(c: Config, ls: seq<Label>)
    requires Init(c) && c.serial && Follows(c, ls) && After(c, ls).slot.Some?
    ensures var c' := After(c, ls);
      && |c'.slot.value.data| <= |c'.written| && |c'.slot.value.data| <= Limit(c'.last)
      && c'.slot.value.data == c'.written[|c'.written| - |c'.slot.value.data|..]
  {
    FromInit(c, ls);
  }

  /** Every byte written is in exactly one place: still buffered, taken by the consumer, or discarded on overflow. */
  lemma EveryByteAccounted(c: Config, ls: seq<Label>, i: nat)
    requires Init(c) && c.serial && Follows(c, ls) && i < |After(c, ls).written|
    ensures var c' := After(c, ls);
      && (Buffered(c', i) || Taken(c', i) || Lost(c', i))
      && !(Buffered(c', i) && Taken(c', i)) && !(Buffered(c', i) && Lost(c', i)) && !(Taken(c', i) && Lost(c', i))
  {
    FromInit(c, ls);
    var n: nat :| Covered(After(c, ls), n);
    BufferedAfter(After(c, ls), n, i);
  }

  lemma BufferedAfter(c: Config, n: nat, i: nat)
    requires IsTail(c, n) && i < |c.written|
    ensures Buffered(c, i) <==> n <= i
  {
  }

  /** A write discards bytes exactly on overflow of a buffer that holds some, and what is left then fills the buffer. */
  lemma LossExactly(c: Config, ls: seq<Label>, w: nat)
    requires Init(c) && c.serial && Follows(c, ls) && Enabled(After(c, ls), Fill(w))
    ensures var c1 := After(c, ls); var c2 := Apply(c1, Fill(w)); var Took(b, p) := c1.writers[w];
      && (|c2.lost| > |c1.lost| <==> b.data != [] && |b.data| + |p| > BUFFER_SIZE)
      && (|c2.lost| > |c1.lost| ==> |c2.writers[w].buf.data| == Limit(|p|))
  {
    FromInit(c, ls);
    var Took(b, p) := After(c, ls).writers[w];
    assert WriterOk(After(c, ls), After(c, ls).writers[w]);
    FillSuffix(After(c, ls).written, b, p);
  }

  /**
   What reaches the sink are disjoint intervals of the written stream, in stream order. Only the
   last one can be cut short, and only if a copy to the sink failed; and one interval follows on
   the one before it but for bytes that were discarded on overflow.
   */
  lemma DeliveredInOrder(c: Config, ls: seq<Label>)
    requires Init(c) && c.serial && Follows(c, ls)
    ensures var c' := After(c, ls);
      && |c'.output| <= |c'.taken|
      && (forall k | 0 <= k < |c'.output| ::
            && c'.taken[k].To() <= |c'.written|
            && c'.output[k] <= c'.written[c'.taken[k].from..c'.taken[k].To()]
            && (k < |c'.output| - 1 || !c'.consumer.Stopped? ==> |c'.output[k]| == |c'.taken[k].data|))
      && (!CopyFailed(ls) ==> forall k | 0 <= k < |c'.output| :: c'.output[k] == c'.taken[k].data)
      && (forall j, k | 0 <= j < k < |c'.taken| :: c'.taken[j].To() <= c'.taken[k].from)
      && (forall k: nat, i: nat | k < |c'.taken| && GapBefore(c', k) <= i < c'.taken[k].from :: Lost(c', i))
  {
    assert Covered(c, 0);
    FromInit(c, ls);
    var c' := After(c, ls);
    if !CopyFailed(ls) {
      WholeUntilFailed(c, ls);
    }
    forall k | 0 <= k < |c'.output|
      ensures c'.taken[k].To() <= |c'.written| && c'.output[k] <= c'.written[c'.taken[k].from..c'.taken[k].To()]
    {
      assert c'.taken[k].data == c'.written[c'.taken[k].from..c'.taken[k].To()];
    }
    forall k: nat, i: nat | k < |c'.taken| && GapBefore(c', k) <= i < c'.taken[k].from ensures Lost(c', i) {
      GapIsLost(c', k, i);
    }
  }

  /** A copy to the sink failed. */
  ghost predicate CopyFailed(ls: seq<Label>) {
    exists l :: l in ls && l.CopyFails?
  }

  /** Every copy that is over was complete. */
  ghost predicate Whole(c: Config) {
    |c.output| <= |c.taken| && forall k | 0 <= k < |c.output| :: c.output[k] == c.taken[k].data
  }

  lemma StepWhole(c: Config, l: Label)
    requires InvOutput(c) && Whole(c) && Enabled(c, l) && !l.CopyFails?
    ensures Whole(Apply(c, l))
  {
  }

  lemma {:induction false} WholeUntilFailed(c: Config, ls: seq<Label>)
    requires Inv(c) && Whole(c) && Follows(c, ls) && !CopyFailed(ls)
    ensures Whole(After(c, ls))
    decreases |ls|
  {
    if ls != [] {
      StepWhole(c, ls[0]);
      StepInv(c, ls[0]);
      assert forall l | l in ls[1..] :: l in ls;
      WholeUntilFailed(Apply(c, ls[0]), ls[1..]);
    }
  }

  /** Where the interval before the `k`-th taken one ends. */
  ghost function GapBefore(c: Config, k: nat): nat
    requires k < |c.taken|
  {
    if k == 0 then 0 else c.taken[k - 1].To()
  }

  lemma GapIsLost(c: Config, k: nat, i: nat)
    requires Inv(c) && k < |c.taken| && GapBefore(c, k) <= i < c.taken[k].from
    ensures Lost(c, i)
  {
    var n: nat :| Covered(c, n);
    forall j | 0 <= j < |c.taken| ensures !(c.taken[j].from <= i < c.taken[j].To()) {
      if j < k - 1 {
        assert c.taken[j].To() <= c.taken[k - 1].from;
      } else if j > k {
        assert c.taken[k].To() <= c.taken[j].from;
      }
    }
    assert !Taken(c, i);
    TailAfter(c, k, n);
  }

  /** The buffer that is not taken yet begins no earlier than any taken one. */
  lemma TailAfter(c: Config, k: nat, n: nat)
    requires InvBuffer(c) && InvOrder(c) && IsTail(c, n) && k < |c.taken|
    ensures c.taken[k].from <= n
  {
    var last := |c.taken| - 1;
    assert c.taken[k].from <= c.taken[last].To() by {
      if k < last {
        assert c.taken[k].To() <= c.taken[last].from;
      }
    }
    if w :| Holds(c, w) {
      assert WriterOk(c, c.writers[w]);
    }
  }
}
