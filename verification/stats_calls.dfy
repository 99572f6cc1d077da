/** What one call adds to the statistics and records in them (rpc/stats.go). */
module StatsCalls {
  import opened Stats

  lemma {:induction false} SumConcat(a: seq<Op>, b: seq<Op>, p: Path, name: string)
    ensures Sum(a + b, p, name) == Sum(a, p, name) + Sum(b, p, name)
  {
    if b == [] {
      assert a + b == a;
    } else {
      SumConcat(a, b[..|b| - 1], p, name);
      assert (a + b)[..|a + b| - 1] == a + b[..|b| - 1];
    }
  }

  lemma SumOne(o: Op, p: Path, name: string)
    ensures Sum([o], p, name) == Delta(o, p, name)
  {
    assert [o][..0] == [];
  }

  lemma SumMax(p: Path, max: string, val: int, q: Path, name: string)
    ensures Sum(Max(p, max, val), q, name) == 0
  {
    var zero, peak := Op(p, max, Plus(0)), Op(p, max, Peak(val));
    assert Max(p, max, val) == [zero] + [peak];
    SumConcat([zero], [peak], q, name);
    SumOne(zero, q, name);
    SumOne(peak, q, name);
  }

  lemma SumSize(p: Path, total: string, max: string, size: int, q: Path, name: string)
    ensures Sum(SizeOps(p, total, max, size), q, name) == if q == p && name == total && size > 0 then size else 0
  {
    if size > 0 {
      SumConcat([Op(p, total, Plus(size))], Max(p, max, size), q, name);
      SumOne(Op(p, total, Plus(size)), q, name);
      SumMax(p, max, size, q, name);
    }
  }

  /** Start counts the call under its method, and under its machine if it has an address; it adds nothing else. */
  lemma StartAdds(a: string, m: string, p: Path, name: string)
    ensures Sum(StartOps(a, m), p, name)
         == if name == "count" && (p == ["method", m] || (a != "" && p == ["machine", a, "method", m])) then 1 else 0
  {
    var o := Op(MethodPath(m), "count", Plus(1));
    var q := Op(MachinePath(a, m), "count", Plus(1));
    SumConcat([o], if a == "" then [] else [q], p, name);
    SumOne(o, p, name);
    SumOne(q, p, name);
    assert MethodPath(m) != MachinePath(a, m) by { assert |MethodPath(m)| != |MachinePath(a, m)|; }
  }

  ghost predicate AtMethod(p: Path, m: string) {
    p == ["method", m]
  }

  ghost predicate AtMachine(p: Path, a: string, m: string) {
    a != "" && p == ["machine", a, "method", m]
  }

  /** What is added when a call is done, under every path and name: times, known sizes, errors. */
  lemma DoneAdds(a: string, m: string, elapsed: int, request: int, reply: int, failed: bool, p: Path, name: string)
    ensures Sum(DoneOps(a, m, elapsed, request, reply, failed), p, name)
         == if name == "time" && (AtMethod(p, m) || AtMachine(p, a, m)) then elapsed
            else if name == "requestbytes" && AtMethod(p, m) && request > 0 then request
            else if name == "replybytes" && AtMethod(p, m) && reply > 0 then reply
            else if name == "errors" && AtMethod(p, m) && failed then 1
            else 0
  {
    var q, u := MethodPath(m), MachinePath(a, m);
    assert |q| != |u|;
    var time := [Op(q, "time", Plus(elapsed))];
    var requests := SizeOps(q, "requestbytes", "maxrequestbytes", request);
    var replies := SizeOps(q, "replybytes", "maxreplybytes", reply);
    var errors := if failed then [Op(q, "errors", Plus(1))] else [];
    var machine := if a == "" then [] else [Op(u, "time", Plus(elapsed))] + Max(u, "maxtime", elapsed);
    SumOne(Op(q, "time", Plus(elapsed)), p, name);
    SumSize(q, "requestbytes", "maxrequestbytes", request, p, name);
    SumSize(q, "replybytes", "maxreplybytes", reply, p, name);
    SumOne(Op(q, "errors", Plus(1)), p, name);
    SumMax(q, "maxtime", elapsed, p, name);
    SumOne(Op(u, "time", Plus(elapsed)), p, name);
    SumMax(u, "maxtime", elapsed, p, name);
    SumConcat([Op(u, "time", Plus(elapsed))], Max(u, "maxtime", elapsed), p, name);
    SumConcat(time, requests, p, name);
    SumConcat(time + requests, replies, p, name);
    SumConcat(time + requests + replies, errors, p, name);
    SumConcat(time + requests + replies + errors, Max(q, "maxtime", elapsed), p, name);
    SumConcat(time + requests + replies + errors + Max(q, "maxtime", elapsed), machine, p, name);
  }

  /** What is recorded when a call is done, under every path and name: the time, and the sizes that are known. */
  lemma DoneRecords(a: string, m: string, elapsed: int, request: int, reply: int, failed: bool, p: Path, name: string, v: int)
    ensures Op(p, name, Peak(v)) in DoneOps(a, m, elapsed, request, reply, failed) <==>
      || (name == "maxtime" && (AtMethod(p, m) || AtMachine(p, a, m)) && v == elapsed)
      || (name == "maxrequestbytes" && AtMethod(p, m) && request > 0 && v == request)
      || (name == "maxreplybytes" && AtMethod(p, m) && reply > 0 && v == reply)
  {
    var o := Op(p, name, Peak(v));
    var q, u := MethodPath(m), MachinePath(a, m);
    assert o in Max(q, "maxtime", elapsed) <==> p == q && name == "maxtime" && v == elapsed;
    assert o in Max(u, "maxtime", elapsed) <==> p == u && name == "maxtime" && v == elapsed;
    SizeRecords(q, "requestbytes", "maxrequestbytes", request, o);
    SizeRecords(q, "replybytes", "maxreplybytes", reply, o);
  }

  lemma SizeRecords(p: Path, total: string, max: string, size: int, o: Op)
    requires o.act.Peak?
    ensures o in SizeOps(p, total, max, size) <==> size > 0 && o == Op(p, max, Peak(size))
  {
    assert o in Max(p, max, size) <==> o == Op(p, max, Peak(size)) by {
      assert Max(p, max, size)[1] == Op(p, max, Peak(size));
    }
  }
}
