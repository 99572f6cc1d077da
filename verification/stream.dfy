/**
 A streamed reply: the server copies the method's reader to the response body and
 puts a copy error into a trailer field (rpc/server.go; trailers are section 6.5 of
 RFC 9110 and section 8.1 of RFC 7540), the client turns that field into a read
 error at the end of the body (rpc/client.go).
 */
module Stream {
  import opened Wrappers

  type Byte = bv8

  /** How the method's reader ends after its last chunk: io.EOF, or an error with a message. */
  datatype SourceEnd = Eof | Fails(message: string)

  /** What the method produces, and at which chunk (if any) writing to the client fails, with what message. */
  datatype Source = Source(chunks: seq<seq<Byte>>, end: SourceEnd, writeFails: Option<(nat, string)>)
  {
    ghost function Produced(): seq<Byte> {
      Flatten(chunks)
    }

    /** A write to the client fails before the reader has ended. */
    ghost predicate CutShort() {
      writeFails.Some? && writeFails.value.0 < |chunks|
    }
  }

  ghost function Flatten(chunks: seq<seq<Byte>>): seq<Byte> {
    if chunks == [] then [] else Flatten(chunks[..|chunks| - 1]) + chunks[|chunks| - 1]
  }

  lemma {:induction false} FlattenPrefix(chunks: seq<seq<Byte>>, n: nat)
    requires n <= |chunks|
    ensures Flatten(chunks[..n]) <= Flatten(chunks)
  {
    if n < |chunks| {
      assert chunks[..|chunks| - 1][..n] == chunks[..n];
      FlattenPrefix(chunks[..|chunks| - 1], n);
    } else {
      assert chunks[..n] == chunks;
    }
  }

  /** Flattening is what its name says: one chunk is its bytes, and more are those of the first followed by the rest. */
  lemma {:induction false} FlattenJoins(a: seq<seq<Byte>>, b: seq<seq<Byte>>)
    ensures Flatten(a + b) == Flatten(a) + Flatten(b)
    ensures forall chunk :: Flatten([chunk]) == chunk
  {
    if b == [] {
      assert a + b == a;
    } else {
      FlattenJoins(a, b[..|b| - 1]);
      assert (a + b)[..|a + b| - 1] == a + b[..|b| - 1];
    }
    forall chunk: seq<Byte> ensures Flatten([chunk]) == chunk {
      assert [chunk][..0] == [];
    }
  }

  /**
   The server's copy loop: the body it sends and the trailer value it sets. A write that fails ends both
   with the chunks before it and its own message; otherwise all is sent, with the message the reader ends in.
   */
  method CopyOut(s: Source) returns (body: seq<Byte>, trailer: string)
    ensures s.CutShort() ==> body == Flatten(s.chunks[..s.writeFails.value.0]) && trailer == s.writeFails.value.1
    ensures !s.CutShort() ==> body == s.Produced() && trailer == if s.end.Fails? then s.end.message else ""
  {
    body, trailer := [], "";
    for i := 0 to |s.chunks|
      invariant body == Flatten(s.chunks[..i])
      invariant s.writeFails.Some? ==> s.writeFails.value.0 >= i
    {
      if s.writeFails.Some? && s.writeFails.value.0 == i {
        return body, s.writeFails.value.1;
      }
      assert s.chunks[..i + 1][..i] == s.chunks[..i];
      body := body + s.chunks[i];
    }
    assert s.chunks[..|s.chunks|] == s.chunks;
    if s.end.Fails? {
      trailer := s.end.message;
    }
  }

  datatype ReadError = NoError | CleanEof | Failure(message: string)

  /**
   The client's end of the body. The transport delivers `rest`, then io.EOF if the body came
   through whole and an error otherwise; `trailer` is the field's value, empty if it did not arrive.
   */
  class StreamReader {
    var rest: seq<Byte>
    const whole: bool
    const trailer: string

    constructor (delivered: seq<Byte>, whole: bool, trailer: string)
      ensures rest == delivered && this.whole == whole && this.trailer == trailer
    {
      rest := delivered;
      this.whole := whole;
      this.trailer := trailer;
    }

    /** streamReader.Read into a buffer of `size` bytes, of which the transport fills `give` if it has them;
        `eager` lets it report the end of the body together with the last bytes. */
    method Read(size: nat, give: nat, eager: bool) returns (data: seq<Byte>, err: ReadError)
      modifies this
      ensures old(rest) == data + rest && |data| <= size
      ensures size > 0 && give > 0 ==> if old(rest) == [] then err != NoError else data != []
      ensures err != NoError ==> rest == [] && (err == CleanEof <==> whole && trailer == "")
      ensures whole && trailer != "" && err != NoError ==> err == Failure(trailer)
    {
      var n := if give <= size then give else size;
      n := if n <= |rest| then n else |rest|;
      data := rest[..n];
      rest := rest[n..];
      if rest != [] || !(eager || n == 0) {
        return data, NoError;
      }
      if !whole {
        return data, Failure("unexpected EOF");
      }
      err := CleanEof;
      if trailer != "" {
        err := Failure(trailer);
      }
    }
  }

  /** One read of the client: the size of its buffer and what the transport does. */
  datatype ReadStep = ReadStep(size: nat, give: nat, eager: bool)

  /** The reads are not empty and the transport does not hold back. */
  ghost predicate Progressing(steps: seq<ReadStep>) {
    forall step | step in steps :: step.size > 0 && step.give > 0
  }

  /** Reading until an error, however the reads are split; enough of them get to the end. */
  method ReadAll(r: StreamReader, steps: seq<ReadStep>) returns (got: seq<Byte>, err: ReadError)
    modifies r
    ensures old(r.rest) == got + r.rest
    ensures err != NoError ==> got == old(r.rest) && (err == CleanEof <==> r.whole && r.trailer == "")
    ensures r.whole && r.trailer != "" && err != NoError ==> err == Failure(r.trailer)
    ensures Progressing(steps) && |steps| > |old(r.rest)| ==> err != NoError
  {
    got, err := [], NoError;
    for i := 0 to |steps|
      invariant err == NoError && old(r.rest) == got + r.rest
      invariant Progressing(steps) ==> |got| >= i
    {
      assert steps[i] in steps;
      var data;
      data, err := r.Read(steps[i].size, steps[i].give, steps[i].eager);
      got := got + data;
      if err != NoError {
        return;
      }
    }
  }

  /**
   What the client sees of a stream of which the server sent `body` and set the trailer `message`, and the
   last `lost` bytes did not arrive. At its end it has all that arrived. If that is the whole body, the end
   is clean exactly if the trailer is missing or empty, and otherwise an error with the trailer's message;
   if it is not, the end is never clean.
   */
  ghost predicate Seen(body: seq<Byte>, message: string, lost: nat, trailerArrives: bool, got: seq<Byte>, err: ReadError) {
    && got <= body
    && (err != NoError ==> |got| == if lost <= |body| then |body| - lost else 0)
    && (err != NoError && got == body ==>
          err == if trailerArrives && message != "" then Failure(message) else CleanEof)
    && (err != NoError && got != body ==> err != CleanEof)
  }

  /**
   Stream fidelity, for every source, every loss in transit and every split into reads. If a write
   failed, the client sees the chunks before it, ended by that write's message; otherwise all that the
   method produced, ended by its reader's message if that failed. The end is reached by any reads
   that are more in number than the bytes.
   */
  method Transfer(s: Source, lost: nat, trailerArrives: bool, steps: seq<ReadStep>)
    returns (got: seq<Byte>, err: ReadError)
    ensures s.CutShort() ==>
      Seen(Flatten(s.chunks[..s.writeFails.value.0]), s.writeFails.value.1, lost, trailerArrives, got, err)
    ensures !s.CutShort() ==>
      Seen(s.Produced(), if s.end.Fails? then s.end.message else "", lost, trailerArrives, got, err)
    ensures got <= s.Produced()
    ensures Progressing(steps) && |steps| > |s.Produced()| ==> err != NoError
  {
    var body, trailer := CopyOut(s);
    if s.CutShort() {
      FlattenPrefix(s.chunks, s.writeFails.value.0);
    }
    var n := if lost <= |body| then |body| - lost else 0;
    var r := new StreamReader(body[..n], n == |body|, if trailerArrives then trailer else "");
    got, err := ReadAll(r, steps);
    assert got <= body[..n] <= body;
  }
}
