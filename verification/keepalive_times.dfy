/** The last keepalive latencies of a machine, kept in a ring (machine.go). */
module KeepaliveTimes {

  const SLOTS := 10

  lemma SmallMod(k: nat, n: nat)
    requires k < n
    ensures k % n == k
  {
  }

  class ReplyTimes {
    var times: array<int>
    var count: nat
    /** Every latency recorded so far, oldest first. */
    ghost var history: seq<int>

    ghost predicate Valid()
      reads this, times
    {
      && times.Length == SLOTS && |history| == count
      && forall k | 0 <= k < count && count - SLOTS <= k :: times[k % SLOTS] == history[k]
    }

    constructor ()
      ensures Valid() && history == [] && fresh(times)
    {
      times := new int[SLOTS];
      count, history := 0, [];
    }

    /** What the loop does with the latency of a keepalive. */
    method Record(latency: int)
      requires Valid()
      modifies this`count, this`history, times
      ensures Valid() && history == old(history) + [latency]
    {
      times[count % SLOTS] := latency;
      count := count + 1;
      history := history + [latency];
    }

    /** KeepaliveReplyTimes: the last min(count, 10) latencies, newest first. */
    method Recent() returns (recent: seq<int>)
      requires Valid()
      ensures |recent| == if |history| < 10 then |history| else 10
      ensures forall i | 0 <= i < |recent| :: recent[i] == history[|history| - 1 - i]
    {
      var n := times.Length;
      if count < n {
        n := count;
      }
      recent := [];
      for i := 0 to n
        invariant |recent| == i
        invariant forall j | 0 <= j < i :: recent[j] == history[|history| - 1 - j]
      {
        // The ring is indexed modulo the returned length, not its own.
        var k := count - i - 1;
        if n < SLOTS {
          SmallMod(k, n);
          SmallMod(k, SLOTS);
        }
        recent := recent + [times[k % n]];
      }
    }
  }
}
