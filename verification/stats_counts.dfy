/**
 Call counts (rpc/stats.go): Start counts a call under its method and, for a call with an
 address, under its machine too; the two counts agree but for the calls in between.
 */
module StatsCounts {
  import opened Stats

  /** What an operation contributes to the call counts. */
  datatype Role = Neutral | OfMethod(m: string) | OfMachine(a: string, m: string)

  ghost function RoleOf(o: Op): Role {
    if o.name != "count" then Neutral
    else if |o.path| == 2 then OfMethod(o.path[1])
    else if |o.path| == 4 then OfMachine(o.path[1], o.path[3])
    else Neutral
  }

  /** Counts are added by Start only, for non-empty addresses. */
  ghost predicate CountedBy(l: Label) {
    l.Begin? ==> (forall o | o in l.ops :: o.name != "count") || exists a, m :: a != "" && l.ops == StartOps(a, m)
  }

  /** What a call does when it is done concerns no count. */
  lemma DoneCountsNothing(t: nat, a: string, m: string, elapsed: int, request: int, reply: int, failed: bool)
    ensures CountedBy(Begin(t, DoneOps(a, m, elapsed, request, reply, failed)))
  {
  }

  ghost predicate CountsMethod(o: Op, m: string) {
    RoleOf(o) == OfMethod(m)
  }

  ghost predicate CountsMachine(o: Op, m: string) {
    RoleOf(o).OfMachine? && RoleOf(o).m == m
  }

  ghost function One(b: bool): int { if b then 1 else 0 }

  /** How many of the operations count a call of the method. */
  ghost function MethodAdds(log: seq<Op>, m: string): int {
    if log == [] then 0 else MethodAdds(log[..|log| - 1], m) + One(CountsMethod(log[|log| - 1], m))
  }

  /** How many of the operations count a call of the method on some machine. */
  ghost function MachineAdds(log: seq<Op>, m: string): int {
    if log == [] then 0 else MachineAdds(log[..|log| - 1], m) + One(CountsMachine(log[|log| - 1], m))
  }

  lemma AddsSnoc(log: seq<Op>, o: Op, m: string)
    ensures MethodAdds(log + [o], m) == MethodAdds(log, m) + One(CountsMethod(o, m))
    ensures MachineAdds(log + [o], m) == MachineAdds(log, m) + One(CountsMachine(o, m))
  {
    assert (log + [o])[..|log|] == log;
  }

  /** An operation on a leaf, the addition of one if it is on a count. */
  ghost predicate Regular(o: Op) {
    Leaf(o.path) && (RoleOf(o) != Neutral ==> o.act == Plus(1))
  }

  /** What a goroutine still has to do: nothing to a count, both additions of a Start, or its second. */
  ghost predicate Counting(ops: seq<Op>) {
    || (forall o | o in ops :: RoleOf(o) == Neutral)
    || (|ops| == 2 && RoleOf(ops[0]).OfMethod? && RoleOf(ops[1]).OfMachine? && RoleOf(ops[0]).m == RoleOf(ops[1]).m)
    || (|ops| == 1 && RoleOf(ops[0]).OfMachine?)
  }

  ghost predicate InGap(w: Walk, m: string) {
    |w.ops| == 1 && CountsMachine(w.ops[0], m)
  }

  /** The goroutines that have added the method's count and not yet the machine's. */
  ghost function Between(threads: map<nat, Walk>, m: string): set<nat> {
    set t | t in threads && InGap(threads[t], m)
  }

  lemma GapWithout(threads: map<nat, Walk>, t: nat, m: string)
    ensures |Between(threads, m)| == |Between(threads - {t}, m)| + One(t in threads && InGap(threads[t], m))
  {
    var rest := Between(threads - {t}, m);
    assert t !in rest;
    assert Between(threads, m) == if t in threads && InGap(threads[t], m) then rest + {t} else rest;
  }

  lemma GapWith(threads: map<nat, Walk>, t: nat, w: Walk, m: string)
    ensures |Between(threads[t := w], m)| == |Between(threads - {t}, m)| + One(InGap(w, m))
  {
    GapWithout(threads[t := w], t, m);
    assert threads[t := w] - {t} == threads - {t};
  }

  ghost predicate InvOf(w: Walk) {
    && w.ops != [] && Counting(w.ops) && (forall o | o in w.ops :: Regular(o))
    && (w.Setting? ==> w.ops[0].act.Peak?)
  }

  ghost predicate InvThreads(c: Config) {
    forall t | t in c.threads :: InvOf(c.threads[t])
  }

  ghost predicate Balanced(c: Config, m: string) {
    MethodAdds(c.log, m) == MachineAdds(c.log, m) + |Between(c.threads, m)|
  }

  ghost predicate InvCount(c: Config, m: string) {
    InvThreads(c) && (forall o | o in c.log :: Regular(o)) && Balanced(c, m)
  }

  /** An addition moves its goroutine into or out of the gap, and an operation on no count leaves it outside. */
  lemma PopGap(threads: map<nat, Walk>, t: nat, m: string)
    requires t in threads && InvOf(threads[t])
    ensures var o := threads[t].ops[0];
      |Between(Popped(threads, t), m)| == |Between(threads, m)| + One(CountsMethod(o, m)) - One(CountsMachine(o, m))
  {
    var ops := threads[t].ops;
    GapWithout(threads, t, m);
    if |ops| > 1 {
      GapWith(threads, t, Looking(0, [], ops[1].path, ops[1..]), m);
      assert ops[0] in ops && ops[1] in ops;
    }
  }

  lemma BeginCounting(l: Label)
    requires l.Begin? && l.ops != [] && CountedBy(l) && Program(l.ops)
    ensures InvOf(Looking(0, [], l.ops[0].path, l.ops))
    ensures |l.ops| == 1 ==> !RoleOf(l.ops[0]).OfMachine?
  {
    if exists o :: o in l.ops && o.name == "count" {
      var a, m :| a != "" && l.ops == StartOps(a, m);
      assert l.ops == [Op(MethodPath(m), "count", Plus(1)), Op(MachinePath(a, m), "count", Plus(1))];
    }
  }

  lemma StepThreads(c: Config, l: Label)
    requires InvThreads(c) && Enabled(c, l) && CountedBy(l)
    ensures InvThreads(Apply(c, l))
  {
    if l.Begin? {
      BeginCounting(l);
    }
    forall t | t in Apply(c, l).threads ensures InvOf(Apply(c, l).threads[t]) {
      if t != l.t {
        OthersKept(c, l, t);
      }
    }
  }

  /** The goroutine moves on within its first operation. */
  lemma SameGap(threads: map<nat, Walk>, t: nat, w: Walk, m: string)
    requires if t in threads then w.ops == threads[t].ops else !InGap(w, m)
    ensures |Between(threads[t := w], m)| == |Between(threads, m)|
  {
    GapWithout(threads, t, m);
    GapWith(threads, t, w, m);
  }

  lemma MoveBalanced(c: Config, l: Label, m: string)
    requires Balanced(c, m) && Enabled(c, l) && (l.Begin? || l.Look? || l.Lock?) && CountedBy(l)
    ensures Balanced(Apply(c, l), m)
  {
    if l.Begin? {
      BeginCounting(l);
    }
    var c' := Apply(c, l);
    SameGap(c.threads, l.t, c'.threads[l.t], m);
    assert c'.threads == c.threads[l.t := c'.threads[l.t]];
  }

  lemma OpBalanced(c: Config, l: Label, m: string)
    requires InvThreads(c) && Balanced(c, m) && Enabled(c, l) && (l.Add? || l.Read? || l.Set?)
    ensures Balanced(Apply(c, l), m)
  {
    var w := c.threads[l.t];
    var o := w.ops[0];
    assert o in w.ops;
    PopGap(c.threads, l.t, m);
    AddsSnoc(c.log, o, m);
    if l.Read? && Exceeds(c, w) {
      SameGap(c.threads, l.t, Setting(w.node, w.walked, [], w.ops), m);
    }
  }

  lemma StepCount(c: Config, l: Label, m: string)
    requires InvCount(c, m) && Enabled(c, l) && CountedBy(l)
    ensures InvCount(Apply(c, l), m)
  {
    StepThreads(c, l);
    match l
    case Begin(_, _) => MoveBalanced(c, l, m);
    case Look(_) => MoveBalanced(c, l, m);
    case Lock(_) => MoveBalanced(c, l, m);
    case _ =>
      OpBalanced(c, l, m);
      assert c.threads[l.t].ops[0] in c.threads[l.t].ops;
  }

  lemma {:induction false} FollowsCount(c: Config, ls: seq<Label>, m: string)
    requires InvCount(c, m) && Follows(c, ls) && forall l | l in ls :: CountedBy(l)
    ensures InvCount(After(c, ls), m)
    decreases |ls|
  {
    if ls != [] {
      StepCount(c, ls[0], m);
      FollowsCount(Apply(c, ls[0]), ls[1..], m);
    }
  }

  // The counts as a reader of the tree finds them.

  lemma {:induction false} SumIsMethodAdds(log: seq<Op>, m: string)
    requires forall o | o in log :: Regular(o)
    ensures Sum(log, MethodPath(m), "count") == MethodAdds(log, m)
  {
    if log != [] {
      var o := log[|log| - 1];
      assert o in log;
      SumIsMethodAdds(log[..|log| - 1], m);
      assert o.path == MethodPath(m) <==> |o.path| == 2 && o.path[0] == "method" && o.path[1] == m;
    }
  }

  /** Some element of a set, always the same one. */
  ghost function Pick(A: set<string>): (a: string)
    requires A != {}
    ensures a in A
  {
    var a :| a in A; a
  }

  /** The sum of the method's counts on the machines in `A`. */
  ghost function Total(c: Config, m: string, A: set<string>): int {
    if A == {} then 0 else var a := Pick(A); Value(c, MachinePath(a, m), "count") + Total(c, m, A - {a})
  }

  ghost function Sums(log: seq<Op>, m: string, A: set<string>): int {
    if A == {} then 0 else var a := Pick(A); Sum(log, MachinePath(a, m), "count") + Sums(log, m, A - {a})
  }

  lemma {:induction false} TotalIsSums(c: Config, m: string, A: set<string>)
    requires IsFlatMap(c)
    ensures Total(c, m, A) == Sums(c.log, m, A)
  {
    if A != {} {
      TotalIsSums(c, m, A - {Pick(A)});
    }
  }

  lemma {:induction false} SumsSnoc(log: seq<Op>, o: Op, m: string, A: set<string>)
    requires Regular(o)
    ensures Sums(log + [o], m, A) == Sums(log, m, A) + One(CountsMachine(o, m) && RoleOf(o).a in A)
  {
    if A != {} {
      var a := Pick(A);
      SumSnoc(log, o, MachinePath(a, m), "count");
      SumsSnoc(log, o, m, A - {a});
      assert o.path == MachinePath(a, m) <==>
        |o.path| == 4 && o.path[0] == "machine" && o.path[1] == a && o.path[2] == "method" && o.path[3] == m;
    }
  }

  lemma {:induction false} SumsIsMachineAdds(log: seq<Op>, m: string, A: set<string>)
    requires forall o | o in log :: Regular(o) && (CountsMachine(o, m) ==> RoleOf(o).a in A)
    ensures Sums(log, m, A) == MachineAdds(log, m)
  {
    if log == [] {
      SumsNil(m, A);
    } else {
      var init, o := log[..|log| - 1], log[|log| - 1];
      assert o in log && log == init + [o];
      SumsIsMachineAdds(init, m, A);
      SumsSnoc(init, o, m, A);
    }
  }

  lemma {:induction false} SumsNil(m: string, A: set<string>)
    ensures Sums([], m, A) == 0
  {
    if A != {} {
      SumsNil(m, A - {Pick(A)});
    }
  }

  lemma CountsAgreeAt(c: Config, m: string, A: set<string>)
    requires forall o | o in c.log :: Regular(o) && o.path in c.at
    requires forall a | MachinePath(a, m) in c.at :: a in A
    requires Balanced(c, m)
    ensures Sum(c.log, MethodPath(m), "count") == Sums(c.log, m, A) + |Between(c.threads, m)|
  {
    SumIsMethodAdds(c.log, m);
    forall o | o in c.log && CountsMachine(o, m) ensures RoleOf(o).a in A {
      assert o.path == MachinePath(RoleOf(o).a, m);
    }
    SumsIsMachineAdds(c.log, m, A);
  }

  lemma LogRegular(c: Config, ls: seq<Label>, m: string)
    requires Init(c) && Follows(c, ls) && forall l | l in ls :: CountedBy(l)
    ensures forall o | o in After(c, ls).log :: Regular(o) && o.path in After(c, ls).at
    ensures Balanced(After(c, ls), m)
  {
    FromInit(c, ls);
    assert Between(c.threads, m) == {};
    FollowsCount(c, ls, m);
  }

  /**
   A method's call count is the sum of its call counts on the machines and the number of Starts between
   their two additions, whatever finite set of addresses that covers the machines the reader sums over.
   */
  lemma CountsAgree(c: Config, ls: seq<Label>, m: string, A: set<string>)
    requires Init(c) && Follows(c, ls) && forall l | l in ls :: CountedBy(l)
    requires forall a | MachinePath(a, m) in After(c, ls).at :: a in A
    ensures Value(After(c, ls), MethodPath(m), "count") == Total(After(c, ls), m, A) + |Between(After(c, ls).threads, m)|
  {
    var c' := After(c, ls);
    assert Sum(c'.log, MethodPath(m), "count") == Sums(c'.log, m, A) + |Between(c'.threads, m)| by {
      LogRegular(c, ls, m);
      CountsAgreeAt(c', m, A);
    }
    assert IsFlatMap(c') by { TreeRefinesFlatMap(c, ls); }
    TotalIsSums(c', m, A);
  }
}
