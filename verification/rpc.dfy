/**
 One RPC from end to end: what the server does with a request (rpc/server.go),
 what the client makes of the response (rpc/client.go), and how the bootstrap
 judges the outcome of `exec` (machine.go). Encoding is a codec that either
 round-trips or fails; the HTTP transport either answers or fails.
 */
module Rpc {
  import opened Wrappers
  import opened Names

  datatype Severity = Unknown | Temporary | Retriable | Fatal

  datatype Kind = Other | Net | Remote | Invalid | Named(n: nat)

  datatype Err = Err(kind: Kind, severity: Severity, cause: Option<Err>)

  /** errors.E(kind, cause): the kind is the given one, the severity is the cause's. */
  function Wrap(kind: Kind, cause: Err): Err {
    Err(kind, cause.severity, Some(cause))
  }

  // ---- The server ----

  /** How a method call ended, and whether it had set the stream it replies with. */
  datatype Ran = Ran(failure: Option<Err>, panicked: bool, streamSet: bool)

  /** What the environment decides about one request once it is dispatched. */
  datatype Serving = Serving(argDecodes: bool, ran: Ran, encodes: bool, writes: bool)

  /** A method's reply is a stream or a value. */
  datatype Method = Method(streams: bool)

  datatype Body = Text | Value | Failure(e: Err) | Octets

  datatype Response = Response(status: int, body: Body, ran: bool)

  const METHOD_ERROR := 590

  /** The error that the captured call yields; a panic becomes a fatal one. */
  function MethodError(ran: Ran): Option<Err> {
    if ran.panicked then Some(Err(Other, Fatal, None)) else ran.failure
  }

  /** ServeHTTP */
  function Serve(services: map<string, map<string, Method>>, verb: string, path: string, x: Serving): Response {
    if verb != "POST" then Response(405, Text, false)
    else
      match SplitDot(Base(path))
      case None => Response(400, Text, false)
      case Some((service, method_)) =>
        if service !in services then Response(404, Text, false)
        else if method_ !in services[service] then Response(404, Text, false)
        else if !x.argDecodes then Response(400, Text, false)
        else
          var err := MethodError(x.ran);
          var code := if err.Some? then METHOD_ERROR else 200;
          if services[service][method_].streams && x.ran.streamSet then Response(code, Octets, true)
          else if !x.encodes then
            // The status of an error was written before its encoding was tried.
            Response(if code == 200 then 500 else code, Text, true)
          else if !x.writes then Response(code, Text, true)
          else Response(code, if err.Some? then Failure(err.value) else Value, true)
  }

  /** The status of a response to a request for a pair of names: what each of them tells. */
  lemma StatusMeans(services: map<string, map<string, Method>>, verb: string, path: string, x: Serving)
    ensures var resp := Serve(services, verb, path, x); var names := SplitDot(Base(path));
      var known := names.Some? && names.value.0 in services && names.value.1 in services[names.value.0];
      var nil := x.ran.failure.None? && !x.ran.panicked;
      && (resp.ran <==> verb == "POST" && known && x.argDecodes)
      && (resp.status == 405 <==> verb != "POST")
      && (resp.status == 404 <==> verb == "POST" && names.Some? && !known)
      && (resp.status == 400 <==> verb == "POST" && (names.None? || (known && !x.argDecodes)))
      && (resp.status == 590 <==> resp.ran && !nil)
      && (resp.status == 500 <==> resp.ran && nil && resp.body != Octets && !x.encodes)
      && (resp.status == 200 <==> resp.ran && nil && (resp.body == Octets || x.encodes))
      && (resp.body == Octets <==> resp.ran && x.ran.streamSet && services[names.value.0][names.value.1].streams)
  {
  }

  // ---- The client ----

  datatype Post = Answered | ContextDone | Broken

  datatype Result = Success | ContextError | Failed(e: Err)

  /** decodeError */
  function DecodeError(body: Body, decodes: bool): Result {
    if body.Failure? && decodes then Failed(Wrap(Remote, body.e)) else Failed(Err(Invalid, Temporary, None))
  }

  /** Client.Call, given whether the argument encodes, what the transport does, and the response. */
  function Classify(encodes: bool, post: Post, wantStream: bool, resp: Response, decodes: bool): Result {
    if !encodes then Failed(Err(Invalid, Fatal, None))
    else if post == ContextDone then ContextError
    else if post == Broken then Failed(Err(Net, Temporary, None))
    else if wantStream then
      if resp.status == 200 then Success
      else if resp.status == METHOD_ERROR then DecodeError(resp.body, decodes)
      else Failed(Err(Invalid, Fatal, None))
    else
      if resp.status == METHOD_ERROR then DecodeError(resp.body, decodes)
      else if resp.status == 200 then
        if resp.body == Value && decodes then Success else Failed(Err(Invalid, Temporary, None))
      else Failed(Err(Invalid, Fatal, None))
  }

  /** errors.Is */
  predicate IsKind(r: Result, k: Kind) {
    r.Failed? && r.e.kind == k
  }

  // ---- One call, end to end ----

  datatype Address = Address(origin: string, dir: string)

  datatype Exchange = Exchange(addr: Address, prefix: string, service: string, method_: string,
                               services: map<string, map<string, Method>>,
                               encodes: bool, post: Post, serving: Serving, decodes: bool)
  {
    ghost predicate Valid() {
      && addr.origin != "" && addr.origin[|addr.origin| - 1] != '/'
      && prefix != "" && prefix[|prefix| - 1] == '/'
      && Plain(addr.dir) && Plain(prefix) && Tidy(TrimSlashes(addr.dir) + prefix)
      && Nameable(service, method_)
    }

    function Url(): string {
      Names.Url(addr.origin + addr.dir, prefix, service, method_)
    }

    ghost predicate Known() {
      service in services && method_ in services[service]
    }

    /** The method ran on the server, if the request got there. */
    ghost predicate Runs() {
      Known() && serving.argDecodes
    }

    /** The method returns nil: it neither returns an error nor panics. */
    ghost predicate ReturnsNil() {
      serving.ran.failure.None? && !serving.ran.panicked
    }

    /** The method replies with a stream and has set it. */
    ghost predicate Streams() {
      Known() && services[service][method_].streams && serving.ran.streamSet
    }

    /** The server could encode and send what it replies with, and the client decode it. */
    ghost predicate Through() {
      serving.encodes && serving.writes && decodes
    }
  }

  ghost function Reply(x: Exchange): Response
    requires x.Valid()
  {
    NameRoundTrip(x.addr.origin, x.addr.dir, x.prefix, x.service, x.method_);
    Serve(x.services, "POST", PathOf(x.addr.origin, x.Url()).value, x.serving)
  }

  /** What the caller gets; the client's reply is a stream exactly when the method's is. */
  ghost function Outcome(x: Exchange): Result
    requires x.Valid()
  {
    Classify(x.encodes, x.post, x.Known() && x.services[x.service][x.method_].streams, Reply(x), x.decodes)
  }

  /** The server dispatches the very method that the client named. */
  lemma Dispatched(x: Exchange)
    requires x.Valid()
    ensures |x.addr.origin| <= |x.Url()|
    ensures var path := PathOf(x.addr.origin, x.Url());
      path.Some? && SplitDot(Base(path.value)) == Some((x.service, x.method_))
    ensures Reply(x).ran <==> x.Runs()
  {
    NameRoundTrip(x.addr.origin, x.addr.dir, x.prefix, x.service, x.method_);
  }

  /** A call with a value reply returns nil exactly when the method ran, returned nil and its reply came through. */
  lemma NilMeansDone(x: Exchange)
    requires x.Valid() && !(x.Known() && x.services[x.service][x.method_].streams)
    ensures Outcome(x) == Success <==>
      x.encodes && x.post == Answered && x.Runs() && x.ReturnsNil() && x.Through()
  {
    Dispatched(x);
  }

  /** A call with a stream reply returns nil exactly when the method ran, returned nil and set its stream,
      or left it unset and the server could encode that. */
  lemma StreamMeansDone(x: Exchange)
    requires x.Valid() && x.Known() && x.services[x.service][x.method_].streams
    ensures Outcome(x) == Success <==>
      && x.encodes && x.post == Answered && x.Runs() && x.ReturnsNil()
      && (x.serving.ran.streamSet || x.serving.encodes)
  {
    Dispatched(x);
  }

  /**
   The error is Remote exactly when the method ran and failed or panicked without leaving a stream
   set, and its error came through; then it carries the method's error and its severity, and is fatal
   after a panic.
   */
  lemma RemoteMeansMethodError(x: Exchange)
    requires x.Valid()
    ensures IsKind(Outcome(x), Remote) <==>
      x.encodes && x.post == Answered && x.Runs() && !x.ReturnsNil() && !x.Streams() && x.Through()
    ensures IsKind(Outcome(x), Remote) ==>
      if x.serving.ran.panicked then Outcome(x).e == Err(Remote, Fatal, Some(Err(Other, Fatal, None)))
      else Outcome(x).e == Err(Remote, x.serving.ran.failure.value.severity, x.serving.ran.failure)
  {
    Dispatched(x);
  }

  /** The kind Net arises exactly from a failure of the transport, never from what the server did. */
  lemma NetMeansTransport(x: Exchange)
    requires x.Valid()
    ensures IsKind(Outcome(x), Net) <==> x.encodes && x.post == Broken
  {
    Dispatched(x);
  }

  /**
   A call ends in a fatal Invalid error exactly if its argument could not be encoded, or if it was
   answered and the server could not dispatch or decode it or could not encode its successful reply.
   */
  lemma RejectedMeansFatal(x: Exchange)
    requires x.Valid()
    ensures Outcome(x) == Failed(Err(Invalid, Fatal, None)) <==>
      || !x.encodes
      || (x.post == Answered && (!x.Runs() || (x.ReturnsNil() && !x.serving.encodes && !x.Streams())))
  {
    Dispatched(x);
  }

  /**
   A call ends in a temporary Invalid error exactly if it was answered, the method ran, and either its
   error did not come through, with a stream set or not, or its value did not though it was encoded.
   */
  lemma GarbledMeansTemporary(x: Exchange)
    requires x.Valid()
    ensures Outcome(x) == Failed(Err(Invalid, Temporary, None)) <==>
      && x.encodes && x.post == Answered && x.Runs()
      && if x.ReturnsNil() then !x.services[x.service][x.method_].streams && x.serving.encodes && !x.Through()
         else x.Streams() || !x.Through()
  {
    Dispatched(x);
  }

  /** The call returns its context's error exactly if that ended the transport, and every other outcome is one of the others. */
  lemma ContextMeansContext(x: Exchange)
    requires x.Valid()
    ensures Outcome(x) == ContextError <==> x.encodes && x.post == ContextDone
    ensures Outcome(x) == Success || Outcome(x) == ContextError || IsKind(Outcome(x), Remote) || IsKind(Outcome(x), Net)
         || Outcome(x) == Failed(Err(Invalid, Fatal, None)) || Outcome(x) == Failed(Err(Invalid, Temporary, None))
    ensures IsKind(Outcome(x), Net) ==> Outcome(x).e.severity == Temporary
  {
    Dispatched(x);
  }

  /** A method that fails or panics with its stream set is not reported as Remote: its error is lost. */
  lemma StreamSetHidesError(x: Exchange)
    requires x.Valid() && x.Runs() && x.Streams() && !x.ReturnsNil() && x.encodes && x.post == Answered
    ensures Outcome(x) == Failed(Err(Invalid, Temporary, None))
  {
    Dispatched(x);
  }

  // ---- exec and the bootstrap ----

  /** The remote calls of exec whose failure ends it, in order. */
  const INFO := 0
  const SETENV := 1
  const SETARGS := 2
  const SETBINARY := 3
  const EXEC := 4

  /** What can fail on the driver itself: reading its own binary, an image for the target, opening it. */
  datatype Local = Local(self: bool, image: bool, open: bool)

  /** exec's result and whether Supervisor.Exec was called. The keepalive it sends cannot fail it. */
  function ExecResult(local: Local, calls: seq<Result>): (r: (Result, bool))
    requires |calls| == 5
  {
    if !local.self then (Failed(Err(Other, Unknown, None)), false)
    else if calls[INFO] != Success then (calls[INFO], false)
    else if !local.image then (Failed(Err(Other, Fatal, None)), false)
    else if calls[SETENV] != Success then (calls[SETENV], false)
    else if calls[SETARGS] != Success then (calls[SETARGS], false)
    else if !local.open then (Failed(Err(Other, Unknown, None)), false)
    else if calls[SETBINARY] != Success then (calls[SETBINARY], false)
    else (calls[EXEC], true)
  }

  /** The loop goes on after exec on success or an error of kind Net. */
  predicate BootPasses(r: Result) {
    r == Success || IsKind(r, Net)
  }

  /** exec makes its remote call `n` (5: it has made them all): what comes before succeeded. */
  ghost predicate Made(local: Local, calls: seq<Result>, n: nat)
    requires |calls| == 5 && n <= 5
  {
    && local.self && (n > INFO ==> local.image) && (n > SETARGS ==> local.open)
    && forall i | 0 <= i < n :: calls[i] == Success
  }

  /** exec's result is that of the last call it makes; a local failure never passes. */
  lemma ExecStops(local: Local, calls: seq<Result>)
    requires |calls| == 5
    ensures forall n: nat | n < 5 && Made(local, calls, n) && calls[n] != Success ::
      ExecResult(local, calls) == (calls[n], n == EXEC)
    ensures Made(local, calls, 5) ==> ExecResult(local, calls) == (Success, true)
    ensures ExecResult(local, calls).1 <==> Made(local, calls, EXEC)
    ensures Made(local, calls, 0) && calls[INFO] == Success && !local.image ==>
      ExecResult(local, calls).0 == Failed(Err(Other, Fatal, None))
    ensures !local.self || (local.image && Made(local, calls, SETARGS) && calls[SETARGS] == Success && !local.open) ==>
      ExecResult(local, calls).0 == Failed(Err(Other, Unknown, None))
    ensures BootPasses(ExecResult(local, calls).0) ==>
      Made(local, calls, 5) || exists n: nat :: n < 5 && Made(local, calls, n) && calls[n] != Success
  {
  }

  ghost function Outcomes(xs: seq<Exchange>): (calls: seq<Result>)
    requires forall x | x in xs :: x.Valid()
    ensures |calls| == |xs| && forall i | 0 <= i < |xs| :: calls[i] == Outcome(xs[i])
  {
    seq(|xs|, i requires 0 <= i < |xs| => Outcome(xs[i]))
  }

  ghost predicate TransportFails(x: Exchange) {
    x.encodes && x.post == Broken
  }

  /** The verdict on exec in terms of which of its calls, if made, the transport fails. */
  lemma VerdictOf(local: Local, calls: seq<Result>, broken: seq<bool>)
    requires |calls| == 5 && |broken| == 5 && forall i: nat | i < 5 :: IsKind(calls[i], Net) <==> broken[i]
    ensures BootPasses(ExecResult(local, calls).0) <==>
      Made(local, calls, 5) || exists n: nat :: n < 5 && Made(local, calls, n) && broken[n]
    ensures BootPasses(ExecResult(local, calls).0) && !ExecResult(local, calls).1 <==>
      exists n: nat :: n < EXEC && Made(local, calls, n) && broken[n]
    ensures forall n: nat | n < 5 && Made(local, calls, n) && IsKind(calls[n], Remote) ::
      !BootPasses(ExecResult(local, calls).0)
  {
    ExecStops(local, calls);
  }

  /**
   The bootstrap goes on after exec exactly if all of exec succeeded or the first thing to fail was
   the transport of one of its calls; so never after an error that a remote method returned. It goes
   on without Supervisor.Exec having been called exactly when the transport failed an earlier call.
   */
  lemma BootstrapVerdict(local: Local, xs: seq<Exchange>)
    requires |xs| == 5 && forall x | x in xs :: x.Valid()
    ensures var calls := Outcomes(xs);
      && (BootPasses(ExecResult(local, calls).0) <==>
            Made(local, calls, 5) || exists n: nat :: n < 5 && Made(local, calls, n) && TransportFails(xs[n]))
      && (BootPasses(ExecResult(local, calls).0) && !ExecResult(local, calls).1 <==>
            exists n: nat :: n < EXEC && Made(local, calls, n) && TransportFails(xs[n]))
      && (forall n: nat | n < 5 && Made(local, calls, n) && IsKind(calls[n], Remote) ::
            !BootPasses(ExecResult(local, calls).0))
  {
    var calls := Outcomes(xs);
    var broken := seq(5, i requires 0 <= i < 5 => TransportFails(xs[i]));
    forall i: nat | i < 5 ensures IsKind(calls[i], Net) <==> broken[i] {
      NetMeansTransport(xs[i]);
    }
    VerdictOf(local, calls, broken);
  }
}
