/**
 Maxima (rpc/stats.go): a completed call reads a counter and, if it found its own value
 larger, sets the counter in a second step, with no lock around the two.
 */
module StatsMaxima {
  import opened Stats

  ghost predicate OnField(w: Walk, p: Path, name: string) {
    w.ops != [] && w.ops[0].path == p && w.ops[0].name == name && w.ops[0].act.Peak?
  }

  /** The goroutines that have read the counter and are about to set it. */
  ghost function Pending(c: Config, p: Path, name: string): set<nat> {
    set t | t in c.threads && c.threads[t].Setting? && OnField(c.threads[t], p, name)
  }

  /** The value that the goroutine is about to record. */
  ghost function Val(c: Config, t: nat): int
    requires t in c.threads && c.threads[t].ops != [] && c.threads[t].ops[0].act.Peak?
  {
    c.threads[t].ops[0].act.val
  }

  ghost predicate Reads(c: Config, l: Label, p: Path, name: string) {
    l.Read? && l.t in c.threads && OnField(c.threads[l.t], p, name)
  }

  ghost predicate Sets(c: Config, l: Label, p: Path, name: string) {
    l.Set? && l.t in c.threads && OnField(c.threads[l.t], p, name)
  }

  // ---- What was recorded ----

  ghost predicate Records(o: Op, p: Path, name: string) {
    o.path == p && o.name == name && o.act.Peak?
  }

  /** The largest value recorded under a path and a name, 0 if there is none above it. */
  ghost function MaxRec(log: seq<Op>, p: Path, name: string): int {
    if log == [] then 0
    else
      var rest, o := MaxRec(log[..|log| - 1], p, name), log[|log| - 1];
      if Records(o, p, name) && o.act.val > rest then o.act.val else rest
  }

  lemma {:induction false} MaxRecIsMax(log: seq<Op>, p: Path, name: string)
    ensures MaxRec(log, p, name) >= 0 && forall o | o in log && Records(o, p, name) :: o.act.val <= MaxRec(log, p, name)
    ensures MaxRec(log, p, name) == 0 || Op(p, name, Peak(MaxRec(log, p, name))) in log
  {
    if log != [] {
      MaxRecIsMax(log[..|log| - 1], p, name);
      assert log == log[..|log| - 1] + [log[|log| - 1]];
    }
  }

  lemma MaxRecSnoc(log: seq<Op>, o: Op, p: Path, name: string)
    ensures MaxRec(log + [o], p, name)
         == var m := MaxRec(log, p, name); if Records(o, p, name) && o.act.val > m then o.act.val else m
  {
    assert (log + [o])[..|log|] == log;
  }

  // ---- What a step does to one counter ----

  lemma LockValue(c: Config, t: nat, p: Path, name: string)
    requires InvTree(c) && InvEntries(c) && Enabled(c, Lock(t)) && InvWalk(c, c.threads[t])
    ensures Value(Apply(c, Lock(t)), p, name) == Value(c, p, name)
  {
    var w := c.threads[t];
    if !HasSub(c, w.node, w.rest[0]) {
      assert w.ops[0] in w.ops;
      PrefixNoLeaf(w.walked, w.rest);
      NotYet(c, w.node, w.rest[0]);
    }
  }

  lemma AddValue(c: Config, t: nat, p: Path, name: string)
    requires InvNodes(c) && InvEntries(c) && Enabled(c, Add(t)) && InvWalk(c, c.threads[t]) && IsMax(name)
    ensures Value(Apply(c, Add(t)), p, name) == Value(c, p, name)
  {
    var w := c.threads[t];
    AtCounter(c, w);
    if p in c.at {
      AddedNum(c.entries, w.node, w.ops[0].name, w.ops[0].act.delta, c.at[p], name);
    }
  }

  lemma SetValue(c: Config, t: nat, p: Path, name: string)
    requires InvNodes(c) && InvEntries(c) && Enabled(c, Set(t)) && InvWalk(c, c.threads[t])
    ensures Value(Apply(c, Set(t)), p, name) == if Sets(c, Set(t), p, name) then Val(c, t) else Value(c, p, name)
  {
    AtCounter(c, c.threads[t]);
  }

  /** What the invariant says of the tree and of the goroutine that makes the step. */
  ghost predicate Solid(c: Config, l: Label) {
    InvTree(c) && InvEntries(c) && (!l.Begin? && l.t in c.threads ==> InvWalk(c, c.threads[l.t]))
  }

  lemma IsSolid(c: Config, l: Label)
    requires Inv(c)
    ensures Solid(c, l)
  {
  }

  /** Only a set of the counter itself changes a maximum. */
  lemma StepValue(c: Config, l: Label, p: Path, name: string)
    requires Solid(c, l) && Enabled(c, l) && IsMax(name)
    ensures Value(Apply(c, l), p, name) == if Sets(c, l, p, name) then Val(c, l.t) else Value(c, p, name)
  {
    match l
    case Lock(t) => LockValue(c, t, p, name);
    case Add(t) => AddValue(c, t, p, name);
    case Set(t) => SetValue(c, t, p, name);
    case _ =>
  }

  /** A goroutine that reads a maximum finds the counter, and goes on to set it exactly if its own value is larger. */
  lemma ReadFinds(c: Config, t: nat, p: Path, name: string)
    requires InvNodes(c) && InvEntries(c) && Enabled(c, Read(t)) && InvWalk(c, c.threads[t])
    requires OnField(c.threads[t], p, name)
    ensures Exceeds(c, c.threads[t]) <==> Val(c, t) > Value(c, p, name)
  {
    AtCounter(c, c.threads[t]);
  }

  /** What a step does to the goroutines that are about to set the counter. */
  lemma StepPending(c: Config, l: Label, p: Path, name: string, u: nat)
    requires Enabled(c, l)
    ensures var c' := Apply(c, l);
      u in Pending(c', p, name) <==>
        if u == l.t then Reads(c, l, p, name) && Exceeds(c, c.threads[u]) else u in Pending(c, p, name)
    ensures u in c.threads && u in Pending(Apply(c, l), p, name) ==> Apply(c, l).threads[u].ops == c.threads[u].ops
  {
    if u != l.t {
      OthersKept(c, l, u);
    }
  }

  lemma StepRec(c: Config, l: Label, p: Path, name: string)
    requires Enabled(c, l)
    ensures MaxRec(Apply(c, l).log, p, name)
         == var m := MaxRec(c.log, p, name); if Reads(c, l, p, name) && Val(c, l.t) > m then Val(c, l.t) else m
  {
    if l.Add? || l.Read? {
      MaxRecSnoc(c.log, c.threads[l.t].ops[0], p, name);
    }
  }

  // ---- Completions that follow one another ----

  /** No goroutine reads the counter while another is about to set it. */
  ghost predicate SerialOn(c: Config, ls: seq<Label>, p: Path, name: string)
    requires Follows(c, ls)
    decreases |ls|
  {
    ls == [] ||
    ((Reads(c, ls[0], p, name) ==> Pending(c, p, name) == {}) && SerialOn(Apply(c, ls[0]), ls[1..], p, name))
  }

  /** The largest value recorded is in the counter, or one goroutine is about to set it. */
  ghost predicate InvMax(c: Config, p: Path, name: string) {
    && (forall s, t | s in Pending(c, p, name) && t in Pending(c, p, name) :: s == t)
    && (forall t | t in Pending(c, p, name) :: Val(c, t) == MaxRec(c.log, p, name))
    && (Pending(c, p, name) == {} ==> Value(c, p, name) == MaxRec(c.log, p, name))
  }

  lemma ReadMax(c: Config, l: Label, p: Path, name: string)
    requires Solid(c, l) && Enabled(c, l) && IsMax(name) && Reads(c, l, p, name) && Pending(c, p, name) == {}
    requires InvMax(c, p, name)
    ensures InvMax(Apply(c, l), p, name)
  {
    StepValue(c, l, p, name);
    StepRec(c, l, p, name);
    ReadFinds(c, l.t, p, name);
    forall u ensures u in Pending(Apply(c, l), p, name) <==> u == l.t && Exceeds(c, c.threads[u]) {
      StepPending(c, l, p, name, u);
    }
  }

  lemma SetMax(c: Config, l: Label, p: Path, name: string)
    requires Solid(c, l) && Enabled(c, l) && IsMax(name) && Sets(c, l, p, name)
    requires InvMax(c, p, name)
    ensures InvMax(Apply(c, l), p, name)
  {
    StepValue(c, l, p, name);
    StepRec(c, l, p, name);
    assert l.t in Pending(c, p, name);
    forall u ensures u !in Pending(Apply(c, l), p, name) {
      StepPending(c, l, p, name, u);
    }
  }

  lemma OtherMax(c: Config, l: Label, p: Path, name: string)
    requires Solid(c, l) && Enabled(c, l) && IsMax(name) && !Sets(c, l, p, name) && !Reads(c, l, p, name)
    requires InvMax(c, p, name)
    ensures InvMax(Apply(c, l), p, name)
  {
    StepValue(c, l, p, name);
    StepRec(c, l, p, name);
    assert Pending(Apply(c, l), p, name) == Pending(c, p, name) by { SamePending(c, l, p, name); }
    forall t | t in Pending(c, p, name) ensures Val(Apply(c, l), t) == Val(c, t) {
      StepPending(c, l, p, name, t);
    }
  }

  lemma SamePending(c: Config, l: Label, p: Path, name: string)
    requires Enabled(c, l) && !Sets(c, l, p, name) && !Reads(c, l, p, name)
    ensures Pending(Apply(c, l), p, name) == Pending(c, p, name)
  {
    forall u ensures u in Pending(Apply(c, l), p, name) <==> u in Pending(c, p, name) {
      StepPending(c, l, p, name, u);
    }
  }

  lemma {:induction false} SerialMax(c: Config, ls: seq<Label>, p: Path, name: string)
    requires Inv(c) && Follows(c, ls) && IsMax(name) && InvMax(c, p, name) && SerialOn(c, ls, p, name)
    ensures InvMax(After(c, ls), p, name)
    decreases |ls|
  {
    if ls != [] {
      var l := ls[0];
      IsSolid(c, l);
      if Reads(c, l, p, name) {
        ReadMax(c, l, p, name);
      } else if Sets(c, l, p, name) {
        SetMax(c, l, p, name);
      } else {
        OtherMax(c, l, p, name);
      }
      StepInv(c, l);
      SerialMax(Apply(c, l), ls[1..], p, name);
    }
  }

  /** If the completions on a counter follow one another, it holds the largest value recorded once none is under way. */
  lemma MaxWhenSerial(c: Config, ls: seq<Label>, p: Path, name: string)
    requires Init(c) && Follows(c, ls) && IsMax(name) && SerialOn(c, ls, p, name)
    requires Pending(After(c, ls), p, name) == {}
    ensures Value(After(c, ls), p, name) == MaxRec(After(c, ls).log, p, name)
  {
    SerialMax(c, ls, p, name);
  }

  // ---- Completions that overlap ----

  ghost predicate Recorded(c: Config, p: Path, name: string, v: int) {
    Op(p, name, Peak(v)) in c.log
  }

  ghost predicate InvRecorded(c: Config, p: Path, name: string) {
    && (Value(c, p, name) == 0 || Recorded(c, p, name, Value(c, p, name)))
    && forall t | t in Pending(c, p, name) :: Recorded(c, p, name, Val(c, t))
  }

  lemma StepRecorded(c: Config, l: Label, p: Path, name: string)
    requires Solid(c, l) && Enabled(c, l) && IsMax(name) && InvRecorded(c, p, name)
    ensures InvRecorded(Apply(c, l), p, name)
  {
    var c' := Apply(c, l);
    StepValue(c, l, p, name);
    assert forall v | Recorded(c, p, name, v) :: Recorded(c', p, name, v);
    if Sets(c, l, p, name) {
      assert l.t in Pending(c, p, name);
    }
    forall t | t in Pending(c', p, name) ensures Recorded(c', p, name, Val(c', t)) {
      StepPending(c, l, p, name, t);
      if t == l.t {
        assert c'.log[|c.log|] == Op(p, name, Peak(Val(c, t)));
      }
    }
  }

  lemma {:induction false} FollowsRecorded(c: Config, ls: seq<Label>, p: Path, name: string)
    requires Inv(c) && Follows(c, ls) && IsMax(name) && InvRecorded(c, p, name)
    ensures InvRecorded(After(c, ls), p, name)
    decreases |ls|
  {
    if ls != [] {
      IsSolid(c, ls[0]);
      StepRecorded(c, ls[0], p, name);
      StepInv(c, ls[0]);
      FollowsRecorded(Apply(c, ls[0]), ls[1..], p, name);
    }
  }

  /** In every run, overlapping or not, a maximum is 0 or a value that was recorded, and never above the largest of them. */
  lemma MaxIsRecorded(c: Config, ls: seq<Label>, p: Path, name: string)
    requires Init(c) && Follows(c, ls) && IsMax(name)
    ensures var c' := After(c, ls); var v := Value(c', p, name);
      (v == 0 || Recorded(c', p, name, v)) && v <= MaxRec(c'.log, p, name)
  {
    FollowsRecorded(c, ls, p, name);
    MaxRecIsMax(After(c, ls).log, p, name);
  }

  /** `m` is the maximum of the counter and of the values about to be set. */
  ghost predicate IsTop(c: Config, p: Path, name: string, m: int) {
    && Value(c, p, name) <= m && (forall t | t in Pending(c, p, name) :: Val(c, t) <= m)
    && (Value(c, p, name) == m || exists t :: t in Pending(c, p, name) && Val(c, t) == m)
  }

  ghost predicate NoReads(c: Config, ls: seq<Label>, p: Path, name: string)
    requires Follows(c, ls)
    decreases |ls|
  {
    ls == [] || (!Reads(c, ls[0], p, name) && NoReads(Apply(c, ls[0]), ls[1..], p, name))
  }

  /** The steps `ls` make all outstanding sets of the counter, in some order, and no goroutine reads it meanwhile. */
  ghost predicate Settles(c: Config, ls: seq<Label>, p: Path, name: string) {
    Follows(c, ls) && NoReads(c, ls, p, name) && Pending(After(c, ls), p, name) == {}
  }

  /** The maximum is in the counter, or will be. */
  ghost predicate Heads(c: Config, p: Path, name: string, m: int) {
    && (forall t | t in Pending(c, p, name) :: Val(c, t) == m)
    && (Value(c, p, name) == m || Pending(c, p, name) != {})
  }

  lemma StepHeads(c: Config, l: Label, p: Path, name: string, m: int)
    requires Solid(c, l) && Enabled(c, l) && IsMax(name) && Heads(c, p, name, m) && !Reads(c, l, p, name)
    ensures Heads(Apply(c, l), p, name, m)
  {
    var c' := Apply(c, l);
    StepValue(c, l, p, name);
    if Sets(c, l, p, name) {
      assert l.t in Pending(c, p, name);
    } else {
      SamePending(c, l, p, name);
    }
    forall t | t in Pending(c', p, name) ensures Val(c', t) == m {
      StepPending(c, l, p, name, t);
    }
  }

  lemma {:induction false} HeadsStays(c: Config, ls: seq<Label>, p: Path, name: string, m: int)
    requires Inv(c) && Follows(c, ls) && IsMax(name) && Heads(c, p, name, m) && NoReads(c, ls, p, name)
    ensures Heads(After(c, ls), p, name, m)
    decreases |ls|
  {
    if ls != [] {
      IsSolid(c, ls[0]);
      StepHeads(c, ls[0], p, name, m);
      StepInv(c, ls[0]);
      HeadsStays(Apply(c, ls[0]), ls[1..], p, name, m);
    }
  }

  lemma SetPending(c: Config, t: nat, p: Path, name: string)
    requires t in Pending(c, p, name)
    ensures Enabled(c, Set(t)) && Pending(Apply(c, Set(t)), p, name) == Pending(c, p, name) - {t}
    ensures forall u | u in c.threads && u != t ::
      u in Apply(c, Set(t)).threads && Apply(c, Set(t)).threads[u] == c.threads[u]
  {
    forall u ensures u in Pending(Apply(c, Set(t)), p, name) <==> u in Pending(c, p, name) && u != t {
      StepPending(c, Set(t), p, name, u);
    }
    forall u | u in c.threads && u != t
      ensures u in Apply(c, Set(t)).threads && Apply(c, Set(t)).threads[u] == c.threads[u]
    {
      OthersKept(c, Set(t), u);
    }
  }

  lemma Chain(c: Config, l: Label, ls: seq<Label>, p: Path, name: string) returns (ls': seq<Label>)
    requires Enabled(c, l) && !Reads(c, l, p, name) && Settles(Apply(c, l), ls, p, name)
    ensures Settles(c, ls', p, name) && After(c, ls') == After(Apply(c, l), ls)
  {
    ls' := [l] + ls;
    assert ls'[1..] == ls;
  }

  lemma OnlySet(c: Config, t: nat, p: Path, name: string) returns (ls: seq<Label>)
    requires Inv(c) && IsMax(name) && Pending(c, p, name) == {t}
    ensures t in Pending(c, p, name) && Settles(c, ls, p, name)
    ensures Value(After(c, ls), p, name) == Val(c, t) && After(c, ls).log == c.log
  {
    assert t in Pending(c, p, name);
    SetPending(c, t, p, name);
    IsSolid(c, Set(t));
    StepValue(c, Set(t), p, name);
    ls := Chain(c, Set(t), [], p, name);
  }

  lemma SetOther(c: Config, t: nat, u: nat, p: Path, name: string) returns (c': Config)
    requires t in Pending(c, p, name) && u in Pending(c, p, name) && u != t
    ensures Enabled(c, Set(u)) && c' == Apply(c, Set(u)) && c'.log == c.log
    ensures t in Pending(c', p, name) && Val(c', t) == Val(c, t) && |Pending(c', p, name)| < |Pending(c, p, name)|
  {
    SetPending(c, u, p, name);
    c' := Apply(c, Set(u));
  }

  /** Any of the outstanding sets can be the last. */
  lemma {:induction false} LastSet(c: Config, t: nat, p: Path, name: string) returns (ls: seq<Label>)
    requires Inv(c) && IsMax(name) && t in Pending(c, p, name)
    ensures Settles(c, ls, p, name)
    ensures Value(After(c, ls), p, name) == Val(c, t) && After(c, ls).log == c.log
    decreases |Pending(c, p, name)|
  {
    if u :| u in Pending(c, p, name) && u != t {
      var c' := SetOther(c, t, u, p, name);
      StepInv(c, Set(u));
      var ls' := LastSet(c', t, p, name);
      ls := Chain(c, Set(u), ls', p, name);
    } else {
      assert Pending(c, p, name) == {t};
      ls := OnlySet(c, t, p, name);
    }
  }

  /**
   From every reachable configuration: however the outstanding sets of a counter are ordered, they leave the maximum
   of the counter and of their values, exactly if all of them are about to set that maximum.
   */
  lemma OverlapExactly(c0: Config, before: seq<Label>, p: Path, name: string, m: int)
    requires Init(c0) && Follows(c0, before) && IsMax(name) && IsTop(After(c0, before), p, name, m)
    ensures var c := After(c0, before);
      (forall ls | Settles(c, ls, p, name) :: Value(After(c, ls), p, name) == m)
      <==> forall t | t in Pending(c, p, name) :: Val(c, t) == m
  {
    FromInit(c0, before);
    var c := After(c0, before);
    if forall t | t in Pending(c, p, name) :: Val(c, t) == m {
      forall ls | Settles(c, ls, p, name) ensures Value(After(c, ls), p, name) == m {
        HeadsStays(c, ls, p, name, m);
      }
    } else {
      var t :| t in Pending(c, p, name) && Val(c, t) != m;
      var ls := LastSet(c, t, p, name);
    }
  }

  // ---- A run in which the maximum is lost ----

  lemma {:induction false} Concat(c: Config, ls: seq<Label>, ks: seq<Label>)
    requires Follows(c, ls) && Follows(After(c, ls), ks)
    ensures Follows(c, ls + ks) && After(c, ls + ks) == After(After(c, ls), ks)
    decreases |ls|
  {
    if ls == [] {
      assert ls + ks == ks;
    } else {
      Concat(Apply(c, ls[0]), ls[1..], ks);
      assert (ls + ks)[1..] == ls[1..] + ks;
    }
  }

  /** The goroutine has only additions left to make before it reads the counter. */
  ghost predicate Nears(w: Walk, p: Path, name: string, v: int) {
    && !w.Setting? && w.ops != [] && w.ops[|w.ops| - 1] == Op(p, name, Peak(v))
    && forall i | 0 <= i < |w.ops| - 1 :: w.ops[i].act.Plus?
  }

  /** Steps of goroutine `t` that leave the others, the counter and what was recorded as they are. */
  ghost predicate Aside(c: Config, c': Config, t: nat, p: Path, name: string) {
    && c'.threads - {t} == c.threads - {t}
    && Value(c', p, name) == Value(c, p, name) && MaxRec(c'.log, p, name) == MaxRec(c.log, p, name)
  }

  lemma AsideStep(c: Config, l: Label, p: Path, name: string)
    requires Inv(c) && Enabled(c, l) && IsMax(name) && !l.Read? && !l.Set?
    ensures Inv(Apply(c, l)) && Aside(c, Apply(c, l), l.t, p, name)
  {
    StepInv(c, l);
    IsSolid(c, l);
    StepValue(c, l, p, name);
    StepRec(c, l, p, name);
    SameOthers(c, l);
  }

  lemma SameOthers(c: Config, l: Label)
    requires Enabled(c, l)
    ensures Apply(c, l).threads - {l.t} == c.threads - {l.t}
  {
    forall u | u != l.t ensures u in Apply(c, l).threads <==> u in c.threads {
      OthersKept(c, l, u);
    }
  }

  /** A measure of how far the goroutine is from the reading: operations, names of the path, the lock. */
  ghost predicate Nearer(w': Walk, w: Walk) {
    || |w'.ops| < |w.ops|
    || (w'.ops == w.ops && (|w'.rest| < |w.rest| || (|w'.rest| == |w.rest| && w.Looking? && w'.Locking?)))
  }

  lemma OneNearer(c: Config, t: nat, p: Path, name: string, v: int) returns (l: Label)
    requires t in c.threads && InvWalk(c, c.threads[t]) && Nears(c.threads[t], p, name, v)
    requires !(Arrived(c.threads[t]) && |c.threads[t].ops| == 1)
    ensures Enabled(c, l) && l.t == t && !l.Read? && !l.Set?
    ensures t in Apply(c, l).threads && Nears(Apply(c, l).threads[t], p, name, v)
    ensures Nearer(Apply(c, l).threads[t], c.threads[t])
  {
    var w := c.threads[t];
    l := if w.Locking? then Lock(t) else if w.rest != [] then Look(t) else Add(t);
  }

  /** Left to itself, the goroutine gets to the reading. */
  lemma {:induction false} GetsThere(c: Config, t: nat, p: Path, name: string, v: int) returns (ls: seq<Label>)
    requires Inv(c) && IsMax(name) && t in c.threads && Nears(c.threads[t], p, name, v)
    ensures Follows(c, ls) && Inv(After(c, ls)) && Aside(c, After(c, ls), t, p, name)
    ensures t in After(c, ls).threads && Arrived(After(c, ls).threads[t])
    ensures After(c, ls).threads[t].ops == [Op(p, name, Peak(v))]
    decreases |c.threads[t].ops|, |c.threads[t].rest|, c.threads[t].Looking?
  {
    if Arrived(c.threads[t]) && |c.threads[t].ops| == 1 {
      ls := [];
    } else {
      assert InvWalk(c, c.threads[t]);
      var l := OneNearer(c, t, p, name, v);
      AsideStep(c, l, p, name);
      var ls' := GetsThere(Apply(c, l), t, p, name, v);
      ls := [l] + ls';
      assert ls[1..] == ls';
    }
  }

  /** What a call without address, sizes or error does when it is done. */
  lemma PlainDone(m: string, v: int)
    ensures Program(DoneOps("", m, v, -1, -1, false))
    ensures DoneOps("", m, v, -1, -1, false) == [Op(MethodPath(m), "time", Plus(v))] + Max(MethodPath(m), "maxtime", v)
  {
    CallsArePrograms("", m, v, -1, -1, false);
  }

  lemma BeginsNear(c: Config, t: nat, m: string, v: int)
    requires t !in c.threads
    ensures var l := Begin(t, DoneOps("", m, v, -1, -1, false));
      Enabled(c, l) && t in Apply(c, l).threads && Nears(Apply(c, l).threads[t], MethodPath(m), "maxtime", v)
  {
    PlainDone(m, v);
  }

  /** Goroutine `t` has come to where it is about to set the counter to `v`; the others are as they were. */
  ghost predicate Comes(c: Config, c': Config, t: nat, p: Path, name: string, v: int) {
    && c'.threads - {t} == c.threads - {t} && Value(c', p, name) == Value(c, p, name)
    && t in Pending(c', p, name) && Val(c', t) == v
    && MaxRec(c'.log, p, name) == var r := MaxRec(c.log, p, name); if v > r then v else r
  }

  /** The reading finds the counter below the goroutine's value. */
  lemma ReadsBelow(c: Config, t: nat, p: Path, name: string, v: int)
    requires Inv(c) && IsMax(name) && t in c.threads && Arrived(c.threads[t])
    requires c.threads[t].ops == [Op(p, name, Peak(v))] && v > Value(c, p, name)
    ensures Enabled(c, Read(t)) && Inv(Apply(c, Read(t))) && Comes(c, Apply(c, Read(t)), t, p, name, v)
  {
    assert InvWalk(c, c.threads[t]);
    StepInv(c, Read(t));
    ReadFinds(c, t, p, name);
    StepRec(c, Read(t), p, name);
    SameOthers(c, Read(t));
  }

  lemma Snoc(c: Config, ls: seq<Label>, l: Label) returns (ls': seq<Label>)
    requires Follows(c, ls) && Enabled(After(c, ls), l)
    ensures Follows(c, ls') && After(c, ls') == Apply(After(c, ls), l)
  {
    assert [l][1..] == [];
    Concat(c, ls, [l]);
    ls' := ls + [l];
  }

  lemma Cons(c: Config, l: Label, ls: seq<Label>) returns (ls': seq<Label>)
    requires Enabled(c, l) && Follows(Apply(c, l), ls)
    ensures Follows(c, ls') && After(c, ls') == After(Apply(c, l), ls)
  {
    ls' := [l] + ls;
    assert ls'[1..] == ls;
  }

  lemma NearComes(c: Config, t: nat, p: Path, name: string, v: int) returns (ls: seq<Label>)
    requires Inv(c) && IsMax(name) && t in c.threads && Nears(c.threads[t], p, name, v) && v > Value(c, p, name)
    ensures Follows(c, ls) && Inv(After(c, ls)) && Comes(c, After(c, ls), t, p, name, v)
  {
    var ks := GetsThere(c, t, p, name, v);
    ReadsBelow(After(c, ks), t, p, name, v);
    ls := Snoc(c, ks, Read(t));
  }

  /** A call is done whose time is above the maximum: it can get to where it is about to set it. */
  lemma GetsPending(c: Config, t: nat, m: string, v: int) returns (ls: seq<Label>)
    requires Inv(c) && t !in c.threads && v > Value(c, MethodPath(m), "maxtime")
    ensures Follows(c, ls) && Inv(After(c, ls)) && Comes(c, After(c, ls), t, MethodPath(m), "maxtime", v)
  {
    var p := MethodPath(m);
    var l := Begin(t, DoneOps("", m, v, -1, -1, false));
    BeginsNear(c, t, m, v);
    AsideStep(c, l, p, "maxtime");
    var ks := NearComes(Apply(c, l), t, p, "maxtime", v);
    ls := Cons(c, l, ks);
  }

  lemma TwoPending(m: string, v: int, w: int) returns (c: Config, ls: seq<Label>)
    requires 0 < v < w
    ensures Init(c) && Follows(c, ls) && Inv(After(c, ls))
    ensures 1 in Pending(After(c, ls), MethodPath(m), "maxtime") && Val(After(c, ls), 1) == v
    ensures MaxRec(After(c, ls).log, MethodPath(m), "maxtime") == w
  {
    c := Config(map[], [[]], map[[] := 0], map[], []);
    var ks := GetsPending(c, 0, m, w);
    assert 1 !in After(c, ks).threads - {0};
    var js := GetsPending(After(c, ks), 1, m, v);
    Concat(c, ks, js);
    ls := ks + js;
  }

  /**
   Two calls are done at the same time, in `v` and in `w` milliseconds: the maximum can end up as `v`,
   though the longer time `w` was recorded and nothing is under way any more.
   */
  lemma OverlapLosesMax(m: string, v: int, w: int) returns (c: Config, ls: seq<Label>)
    requires 0 < v < w
    ensures Init(c) && Follows(c, ls) && Pending(After(c, ls), MethodPath(m), "maxtime") == {}
    ensures Value(After(c, ls), MethodPath(m), "maxtime") == v
    ensures MaxRec(After(c, ls).log, MethodPath(m), "maxtime") == w
  {
    var ks;
    c, ks := TwoPending(m, v, w);
    var js := LastSet(After(c, ks), 1, MethodPath(m), "maxtime");
    Concat(c, ks, js);
    ls := ks + js;
  }
}
