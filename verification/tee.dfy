/**
 The lossy write multiplexer (internal/tee/writer.go). For each sink a one-slot
 channel passes a buffer between the writers and the goroutine that copies it to
 the sink; on overflow the oldest bytes are dropped.
 */
module Tee {
  import opened Wrappers

  type Byte = b: int | 0 <= b < 256

  const BUFFER_SIZE: nat := 0x80000

  /** A buffer after `p` was written to it: first the bytes that would overflow are discarded. */
  function Filled(data: seq<Byte>, p: seq<Byte>): seq<Byte> {
    var n := |data| + |p| - BUFFER_SIZE;
    var drop := if n <= 0 then 0 else if n <= |data| then n else |data|;
    data[drop..] + p
  }

  /** The longest that a buffer can be when its last write had `n` bytes. */
  function Limit(n: nat): nat {
    if n > BUFFER_SIZE then n else BUFFER_SIZE
  }

  /** Filling keeps the newest bytes, drops none without need, and keeps within the limit. */
  lemma FilledKeepsNewest(data: seq<Byte>, p: seq<Byte>)
    ensures var r := Filled(data, p);
      && |p| <= |r| <= |data| + |p| && r == (data + p)[|data| + |p| - |r|..]
      && |r| <= Limit(|p|)
      && (|r| < |data| + |p| ==> |r| == Limit(|p|))
  {
  }

  /** What a write makes of a channel. */
  function Next(slot: Option<seq<Byte>>, p: seq<Byte>): Option<seq<Byte>> {
    Some(Filled(if slot.Some? then slot.value else [], p))
  }

  /**
   What a write of `p` makes of a channel: it then holds the newest of the bytes it held and of `p`, all of
   `p` and as many of the others as 512 KiB have room for.
   */
  ghost predicate KeepsNewest(before: Option<seq<Byte>>, p: seq<Byte>, after: Option<seq<Byte>>) {
    && after.Some?
    && var all := (if before.Some? then before.value else []) + p;
       var n := |after.value|;
       && |p| <= n <= |all| && after.value == all[|all| - n..]
       && (n > |p| ==> n <= 512 * 1024) && (n < |all| ==> n >= 512 * 1024)
  }

  /** A write keeps the newest bytes. */
  lemma NextKeeps(slot: Option<seq<Byte>>, p: seq<Byte>)
    ensures KeepsNewest(slot, p, Next(slot, p))
  {
    FilledKeepsNewest(if slot.Some? then slot.value else [], p);
  }

  /** The channel of one sink, seen by writes that follow one another. */
  class Sink {
    var slot: Option<seq<Byte>>

    constructor ()
      ensures slot == None
    {
      slot := None;
    }

    method Write(p: seq<Byte>)
      modifies this
      ensures slot == Next(old(slot), p)
    {
      var buf := [];
      if slot.Some? {
        buf := slot.value;
        slot := None;
      }
      var n := |buf| + |p| - BUFFER_SIZE;
      if n > 0 {
        buf := buf[if n <= |buf| then n else |buf|..];
      }
      buf := buf + p;
      slot := Some(buf);
    }
  }

  /** Write: every sink attached to the multiplexer gets the bytes. */
  method WriteAll(sinks: seq<Sink>, p: seq<Byte>) returns (n: nat)
    requires forall i, j | 0 <= i < j < |sinks| :: sinks[i] != sinks[j]
    modifies sinks
    ensures n == |p|
    ensures forall i | 0 <= i < |sinks| :: sinks[i].slot == Next(old(sinks[i].slot), p)
  {
    for i := 0 to |sinks|
      invariant forall j | 0 <= j < i :: sinks[j].slot == Next(old(sinks[j].slot), p)
      invariant forall j | i <= j < |sinks| :: sinks[j].slot == old(sinks[j].slot)
    {
      sinks[i].Write(p);
    }
    n := |p|;
  }

  // ---- One sink under interleaved writers and its consumer ----

  /** A buffer: its identity, the stream position of its first byte, and its bytes. */
  datatype Buffer = Buffer(id: nat, from: nat, data: seq<Byte>)
  {
    function To(): nat {
      from + |data|
    }
  }

  /** The positions of the stream from `from` up to `to`. */
  datatype Span = Span(from: nat, to: nat)

  datatype WriterPc =
    | Entered(p: seq<Byte>)                 // the callback for this sink has begun
    | Took(buf: Buffer, p: seq<Byte>)       // the slot was taken, or found empty
    | Ready(buf: Buffer)                    // about to put the buffer back

  datatype Consumer = Waiting | Copying(buf: Buffer) | Stopped

  datatype Config = Config(
    serial: bool,                           // writes to the multiplexer do not overlap
    written: seq<Byte>,                     // all bytes written, in the order they were appended
    last: nat,                              // length of the last write
    slot: Option<Buffer>,
    writers: map<nat, WriterPc>,
    consumer: Consumer,
    done: bool,
    ids: nat,
    taken: seq<Buffer>,                     // buffers the consumer has taken
    output: seq<seq<Byte>>,                 // what it copied of each of them
    lost: seq<Span>)                        // the stretches of the stream discarded on overflow

  datatype Label =
    | Enter(w: nat, p: seq<Byte>) | Take(w: nat) | Fill(w: nat) | Put(w: nat)
    | Receive | CopyAll | CopyFails(n: nat) | Stop | Cancel

  ghost predicate Init(c: Config) {
    c == Config(c.serial, [], 0, None, map[], Waiting, false, 0, [], [], [])
  }

  ghost predicate Enabled(c: Config, l: Label) {
    match l
    case Enter(w, _) => !c.done && w !in c.writers && (c.serial ==> c.writers == map[])
    case Take(w) => w in c.writers && c.writers[w].Entered?
    case Fill(w) => w in c.writers && c.writers[w].Took?
    case Put(w) => w in c.writers && c.writers[w].Ready? && c.slot.None?
    case Receive => c.consumer.Waiting? && c.slot.Some?
    case CopyAll => c.consumer.Copying?
    case CopyFails(n) => c.consumer.Copying? && n <= |c.consumer.buf.data|
    case Stop => c.consumer.Waiting? && c.done
    case Cancel => true
  }

  /** The buffer after a write of `p` that makes the stream `written + p`. */
  ghost function Refilled(written: seq<Byte>, buf: Buffer, p: seq<Byte>): Buffer {
    var data := Filled(buf.data, p);
    var end := |written| + |p|;
    Buffer(buf.id, if |data| <= end then end - |data| else 0, data)
  }

  ghost function Apply(c: Config, l: Label): Config
    requires Enabled(c, l)
  {
    match l
    case Enter(w, p) => c.(writers := c.writers[w := Entered(p)])
    case Take(w) =>
      if c.slot.Some? then c.(slot := None, writers := c.writers[w := Took(c.slot.value, c.writers[w].p)])
      else c.(writers := c.writers[w := Took(Buffer(c.ids, |c.written|, []), c.writers[w].p)], ids := c.ids + 1)
    case Fill(w) =>
      var Took(buf, p) := c.writers[w];
      var b := Refilled(c.written, buf, p);
      c.(written := c.written + p, last := |p|, writers := c.writers[w := Ready(b)],
         lost := if buf.from < b.from then c.lost + [Span(buf.from, b.from)] else c.lost)
    case Put(w) => c.(slot := Some(c.writers[w].buf), writers := c.writers - {w})
    case Receive => c.(slot := None, consumer := Copying(c.slot.value), taken := c.taken + [c.slot.value])
    case CopyAll => c.(consumer := Waiting, output := c.output + [c.consumer.buf.data])
    case CopyFails(n) => c.(consumer := Stopped, done := true, output := c.output + [c.consumer.buf.data[..n]])
    case Stop => c.(consumer := Stopped)
    case Cancel => c.(done := true)
  }

  /** The steps `ls` can be taken one after another from `c`. */
  ghost predicate Follows(c: Config, ls: seq<Label>)
    decreases |ls|
  {
    ls == [] || (Enabled(c, ls[0]) && Follows(Apply(c, ls[0]), ls[1..]))
  }

  ghost function After(c: Config, ls: seq<Label>): Config
    requires Follows(c, ls)
    decreases |ls|
  {
    if ls == [] then c else After(Apply(c, ls[0]), ls[1..])
  }
}
