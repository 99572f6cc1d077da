/**
 RPC statistics (rpc/stats.go): a tree of expvar maps whose nodes are created on
 demand by concurrent callers, with a check before and a check under the node's
 lock, and counters that are added to, read and set without it.
 */
module Stats {
  type Path = seq<string>

  /** What a key of a node's map holds: a subtree or a counter. Both share one name space. */
  datatype Entry = Sub(node: nat) | Num(value: int)

  /** What is done to a counter: Add, or the reading of max and the set that may follow it. */
  datatype Act = Plus(delta: int) | Peak(val: int)

  /** An operation on the counter `name` of r.Path(path...). */
  datatype Op = Op(path: Path, name: string, act: Act)

  /** The two kinds of path that statistics are kept under. */
  predicate Leaf(p: Path) {
    || (|p| == 2 && p[0] == "method")
    || (|p| == 4 && p[0] == "machine" && p[2] == "method")
  }

  /** The counters that hold a maximum. */
  predicate IsMax(name: string) {
    name == "maxtime" || name == "maxrequestbytes" || name == "maxreplybytes"
  }

  // ---- What a call does to the statistics ----

  /** r.max(val, path..., name) */
  function Max(p: Path, name: string, val: int): seq<Op> {
    [Op(p, name, Plus(0)), Op(p, name, Peak(val))]
  }

  function MethodPath(m: string): Path {
    ["method", m]
  }

  function MachinePath(a: string, m: string): Path {
    ["machine", a, "method", m]
  }

  /** The operations that Start makes before the call. */
  function StartOps(a: string, m: string): seq<Op> {
    [Op(MethodPath(m), "count", Plus(1))]
    + if a == "" then [] else [Op(MachinePath(a, m), "count", Plus(1))]
  }

  /** The operations on a payload size, which may be unknown. */
  function SizeOps(p: Path, total: string, max: string, size: int): seq<Op> {
    if size > 0 then [Op(p, total, Plus(size))] + Max(p, max, size) else []
  }

  /** The operations that the function returned by Start makes after the call. */
  function DoneOps(a: string, m: string, elapsed: int, request: int, reply: int, failed: bool): seq<Op> {
    [Op(MethodPath(m), "time", Plus(elapsed))]
    + SizeOps(MethodPath(m), "requestbytes", "maxrequestbytes", request)
    + SizeOps(MethodPath(m), "replybytes", "maxreplybytes", reply)
    + (if failed then [Op(MethodPath(m), "errors", Plus(1))] else [])
    + Max(MethodPath(m), "maxtime", elapsed)
    + if a == "" then [] else [Op(MachinePath(a, m), "time", Plus(elapsed))] + Max(MachinePath(a, m), "maxtime", elapsed)
  }

  /** An operation on a leaf; the maxima are read and set, and otherwise only had 0 added to them. */
  ghost predicate Proper(o: Op) {
    Leaf(o.path) && match o.act case Plus(d) => (IsMax(o.name) ==> d == 0) case Peak(_) => IsMax(o.name)
  }

  /** The reading of a maximum at `i`, if it is one, comes after the addition that creates the counter. */
  ghost predicate Created(ops: seq<Op>, i: nat)
    requires i < |ops|
  {
    ops[i].act.Peak? ==> i > 0 && ops[i - 1] == Op(ops[i].path, ops[i].name, Plus(0))
  }

  /** A list of operations as a call makes them. */
  ghost predicate Program(ops: seq<Op>) {
    && (forall o | o in ops :: Proper(o))
    && forall i: nat | i < |ops| :: Created(ops, i)
  }

  lemma ProgramConcat(a: seq<Op>, b: seq<Op>)
    requires Program(a) && Program(b)
    ensures Program(a + b)
  {
    forall i: nat | i < |a + b| ensures Created(a + b, i) {
      if i < |a| {
        assert Created(a, i);
      } else {
        assert Created(b, i - |a|);
      }
    }
  }

  lemma SizeProgram(p: Path, total: string, max: string, size: int)
    requires Leaf(p) && !IsMax(total) && IsMax(max)
    ensures Program(SizeOps(p, total, max, size))
  {
  }

  /** What Start and the function it returns do are programs, with every address, method and outcome. */
  lemma CallsArePrograms(a: string, m: string, elapsed: int, request: int, reply: int, failed: bool)
    ensures Program(StartOps(a, m)) && Program(DoneOps(a, m, elapsed, request, reply, failed))
  {
    var p, q := MethodPath(m), MachinePath(a, m);
    SizeProgram(p, "requestbytes", "maxrequestbytes", request);
    SizeProgram(p, "replybytes", "maxreplybytes", reply);
    var ops := [Op(p, "time", Plus(elapsed))];
    ProgramConcat(ops, SizeOps(p, "requestbytes", "maxrequestbytes", request));
    ops := ops + SizeOps(p, "requestbytes", "maxrequestbytes", request);
    ProgramConcat(ops, SizeOps(p, "replybytes", "maxreplybytes", reply));
    ops := ops + SizeOps(p, "replybytes", "maxreplybytes", reply);
    var errors := if failed then [Op(p, "errors", Plus(1))] else [];
    ProgramConcat(ops, errors);
    ProgramConcat(ops + errors, Max(p, "maxtime", elapsed));
    ops := ops + errors + Max(p, "maxtime", elapsed);
    ProgramConcat([Op(q, "time", Plus(elapsed))], Max(q, "maxtime", elapsed));
    ProgramConcat(ops, if a == "" then [] else [Op(q, "time", Plus(elapsed))] + Max(q, "maxtime", elapsed));
  }

  // ---- Interleaved goroutines ----

  /** Where a goroutine stands in the first of its operations: at `node`, which it reached by `walked`. */
  datatype Walk =
    | Looking(node: nat, walked: Path, rest: Path, ops: seq<Op>)   // before the unlocked look-up
    | Locking(node: nat, walked: Path, rest: Path, ops: seq<Op>)   // before the locked section
    | Setting(node: nat, walked: Path, rest: Path, ops: seq<Op>)   // found its value larger, before the set

  datatype Config = Config(
    entries: map<(nat, string), Entry>,
    paths: seq<Path>,             // the path each node was created for; node 0 is the root
    at: map<Path, nat>,           // the node created for each path
    threads: map<nat, Walk>,
    log: seq<Op>)                 // the additions and readings made, in order

  datatype Label = Begin(t: nat, ops: seq<Op>) | Look(t: nat) | Lock(t: nat) | Add(t: nat) | Read(t: nat) | Set(t: nat)

  ghost predicate Init(c: Config) {
    c == Config(map[], [[]], map[[] := 0], map[], [])
  }

  /** The goroutine has reached the counter of its operation. */
  ghost predicate Arrived(w: Walk) {
    w.Looking? && w.rest == [] && w.ops != []
  }

  ghost predicate Enabled(c: Config, l: Label) {
    match l
    case Begin(t, ops) => t !in c.threads && ops != [] && Program(ops)
    case Look(t) => t in c.threads && c.threads[t].Looking? && c.threads[t].rest != []
    case Lock(t) => t in c.threads && c.threads[t].Locking? && c.threads[t].rest != [] && c.threads[t].node < |c.paths|
    case Add(t) => t in c.threads && Arrived(c.threads[t]) && c.threads[t].ops[0].act.Plus?
    case Read(t) => t in c.threads && Arrived(c.threads[t]) && c.threads[t].ops[0].act.Peak?
    case Set(t) => t in c.threads && c.threads[t].Setting? && c.threads[t].ops != [] && c.threads[t].ops[0].act.Peak?
  }

  ghost predicate HasSub(c: Config, n: nat, s: string) {
    (n, s) in c.entries && c.entries[(n, s)].Sub?
  }

  ghost function Descend(c: Config, t: nat, k: nat): Config
    requires t in c.threads && c.threads[t].rest != []
  {
    var w := c.threads[t];
    c.(threads := c.threads[t := Looking(k, w.walked + [w.rest[0]], w.rest[1..], w.ops)])
  }

  /** A new node under `n`; it replaces whatever else the name held. */
  ghost function Create(c: Config, n: nat, s: string): Config
    requires n < |c.paths|
  {
    var p := c.paths[n] + [s];
    c.(entries := c.entries[(n, s) := Sub(|c.paths|)], paths := c.paths + [p], at := c.at[p := |c.paths|])
  }

  /** expvar.Map.Add: it creates the counter, and does nothing to an entry of another type. */
  ghost function Added(entries: map<(nat, string), Entry>, n: nat, name: string, d: int): map<(nat, string), Entry> {
    if (n, name) !in entries then entries[(n, name) := Num(d)]
    else match entries[(n, name)]
      case Num(v) => entries[(n, name) := Num(v + d)]
      case Sub(_) => entries
  }

  /** The goroutine goes on with its next operation, from the root. */
  ghost function Popped(threads: map<nat, Walk>, t: nat): map<nat, Walk>
    requires t in threads && threads[t].ops != []
  {
    var ops := threads[t].ops;
    if |ops| == 1 then threads - {t} else threads[t := Looking(0, [], ops[1].path, ops[1..])]
  }

  /** The counter is there and below the goroutine's value. */
  ghost predicate Exceeds(c: Config, w: Walk)
    requires w.ops != [] && w.ops[0].act.Peak?
  {
    var key := (w.node, w.ops[0].name);
    key in c.entries && c.entries[key].Num? && w.ops[0].act.val > c.entries[key].value
  }

  ghost function Apply(c: Config, l: Label): Config
    requires Enabled(c, l)
  {
    match l
    case Begin(t, ops) => c.(threads := c.threads[t := Looking(0, [], ops[0].path, ops)])
    case Look(t) =>
      var w := c.threads[t];
      if HasSub(c, w.node, w.rest[0]) then Descend(c, t, c.entries[(w.node, w.rest[0])].node)
      else c.(threads := c.threads[t := Locking(w.node, w.walked, w.rest, w.ops)])
    case Lock(t) =>
      var w := c.threads[t];
      if HasSub(c, w.node, w.rest[0]) then Descend(c, t, c.entries[(w.node, w.rest[0])].node)
      else Descend(Create(c, w.node, w.rest[0]), t, |c.paths|)
    case Add(t) =>
      var w := c.threads[t];
      c.(entries := Added(c.entries, w.node, w.ops[0].name, w.ops[0].act.delta),
         log := c.log + [w.ops[0]], threads := Popped(c.threads, t))
    case Read(t) =>
      var w := c.threads[t];
      c.(log := c.log + [w.ops[0]],
         threads := if Exceeds(c, w) then c.threads[t := Setting(w.node, w.walked, [], w.ops)]
                    else Popped(c.threads, t))
    case Set(t) =>
      var w := c.threads[t];
      c.(entries := c.entries[(w.node, w.ops[0].name) := Num(w.ops[0].act.val)], threads := Popped(c.threads, t))
  }

  /** The steps `ls` can be taken one after another from `c`. */
  ghost predicate Follows(c: Config, ls: seq<Label>)
    decreases |ls|
  {
    ls == [] || (Enabled(c, ls[0]) && Follows(Apply(c, ls[0]), ls[1..]))
  }

  ghost function After(c: Config, ls: seq<Label>): Config
    requires Follows(c, ls)
    decreases |ls|
  {
    if ls == [] then c else After(Apply(c, ls[0]), ls[1..])
  }

  // ---- The flat map that the tree refines ----

  /** What an operation adds to the counter of a path and a name. */
  ghost function Delta(o: Op, p: Path, name: string): int {
    if o.path == p && o.name == name && o.act.Plus? then o.act.delta else 0
  }

  /** The sum of what was added under a path and a name. */
  ghost function Sum(log: seq<Op>, p: Path, name: string): int {
    if log == [] then 0 else Sum(log[..|log| - 1], p, name) + Delta(log[|log| - 1], p, name)
  }

  /** The counter of a name at a node, 0 if there is none. */
  ghost function NumAt(entries: map<(nat, string), Entry>, n: nat, name: string): int {
    if (n, name) in entries && entries[(n, name)].Num? then entries[(n, name)].value else 0
  }

  /** One node per path. */
  ghost predicate InvNodes(c: Config) {
    && |c.paths| > 0 && [] in c.at && c.at[[]] == 0
    && (forall p | p in c.at :: c.at[p] < |c.paths| && c.paths[c.at[p]] == p)
    && (forall k: nat | k < |c.paths| :: c.paths[k] in c.at && c.at[c.paths[k]] == k)
  }

  /** Every node but the root is linked from the node of the path before it. */
  ghost predicate InvTree(c: Config) {
    InvNodes(c) && forall p | p in c.at && p != [] :: Linked(c, p)
  }

  ghost predicate Linked(c: Config, p: Path)
    requires p in c.at && p != []
  {
    var q, s := p[..|p| - 1], p[|p| - 1];
    q in c.at && (c.at[q], s) in c.entries && c.entries[(c.at[q], s)] == Sub(c.at[p])
  }

  /** Subtrees hang below the leaves' ancestors, counters at the leaves; so the two never collide. */
  ghost predicate InvEntries(c: Config) {
    forall n, s | (n, s) in c.entries ::
      && n < |c.paths|
      && match c.entries[(n, s)]
         case Sub(k) => k < |c.paths| && c.paths[k] == c.paths[n] + [s] && !Leaf(c.paths[n])
         case Num(_) => Leaf(c.paths[n])
  }

  /** The counter of a path and a name has been created. */
  ghost predicate Present(c: Config, p: Path, name: string) {
    p in c.at && (c.at[p], name) in c.entries
  }

  ghost predicate InvWalk(c: Config, w: Walk) {
    && w.node < |c.paths| && c.paths[w.node] == w.walked
    && w.ops != [] && w.walked + w.rest == w.ops[0].path
    && (w.Locking? ==> w.rest != []) && (w.Setting? ==> w.rest == [] && w.ops[0].act.Peak?)
    && InvOps(c, w.ops)
  }

  /** What is left of a program: a maximum is read first only if its counter is there. */
  ghost predicate InvOps(c: Config, ops: seq<Op>)
    requires ops != []
  {
    && (forall o | o in ops :: Proper(o))
    && (forall i: nat | 0 < i < |ops| :: Created(ops, i))
    && (ops[0].act.Peak? ==> Present(c, ops[0].path, ops[0].name))
  }

  ghost predicate InvWalks(c: Config) {
    forall t | t in c.threads :: InvWalk(c, c.threads[t])
  }

  /** No increment is lost: every counter that is no maximum is the sum of what was added to it. */
  ghost predicate InvValues(c: Config) {
    && (forall n: nat, name | n < |c.paths| && !IsMax(name) :: NumAt(c.entries, n, name) == Sum(c.log, c.paths[n], name))
    && (forall o | o in c.log :: o.path in c.at)
  }

  ghost predicate Inv(c: Config) {
    InvTree(c) && InvEntries(c) && InvWalks(c) && InvValues(c)
  }

  /** A path that goes on is no leaf. */
  lemma PrefixNoLeaf(walked: Path, rest: Path)
    requires Leaf(walked + rest) && rest != []
    ensures !Leaf(walked)
  {
    var p := walked + rest;
    assert |walked| > 0 ==> p[0] == walked[0];
  }

  // A new node.

  /** Without a subtree entry there is no node for the longer path. */
  lemma NotYet(c: Config, n: nat, s: string)
    requires InvTree(c) && n < |c.paths| && !HasSub(c, n, s)
    ensures c.paths[n] + [s] !in c.at
  {
    var p := c.paths[n] + [s];
    assert p[..|p| - 1] == c.paths[n] && p[|p| - 1] == s;
  }

  lemma CreateTree(c: Config, n: nat, s: string)
    requires InvTree(c) && n < |c.paths| && !HasSub(c, n, s)
    ensures InvTree(Create(c, n, s))
  {
    var c' := Create(c, n, s);
    var p := c.paths[n] + [s];
    NotYet(c, n, s);
    assert p[..|p| - 1] == c.paths[n];
    forall q | q in c'.at && q != [] ensures Linked(c', q) {
      if q != p {
        assert Linked(c, q);
      }
    }
  }

  lemma CreateEntries(c: Config, n: nat, s: string)
    requires InvEntries(c) && n < |c.paths| && !Leaf(c.paths[n])
    ensures InvEntries(Create(c, n, s))
  {
  }

  lemma {:induction false} SumZero(log: seq<Op>, p: Path, name: string)
    requires forall o | o in log :: o.path != p
    ensures Sum(log, p, name) == 0
  {
    if log != [] {
      assert log[|log| - 1] in log;
      SumZero(log[..|log| - 1], p, name);
    }
  }

  lemma CreateValues(c: Config, n: nat, s: string)
    requires InvEntries(c) && InvValues(c)
    requires n < |c.paths| && !HasSub(c, n, s) && !Leaf(c.paths[n]) && c.paths[n] + [s] !in c.at
    ensures InvValues(Create(c, n, s))
  {
    var c' := Create(c, n, s);
    var p := c.paths[n] + [s];
    assert (n, s) !in c.entries;
    forall m: nat, name | m < |c'.paths| && !IsMax(name)
      ensures NumAt(c'.entries, m, name) == Sum(c'.log, c'.paths[m], name)
    {
      if m == |c.paths| {
        assert (m, name) !in c.entries;
        SumZero(c.log, p, name);
      } else {
        assert NumAt(c.entries, m, name) == Sum(c.log, c.paths[m], name);
      }
    }
  }

  // Operations on counters.

  lemma SumSnoc(log: seq<Op>, o: Op, p: Path, name: string)
    ensures Sum(log + [o], p, name) == Sum(log, p, name) + Delta(o, p, name)
  {
    assert (log + [o])[..|log|] == log;
  }

  /** Entries that change only in the counters of leaves leave the tree as it is. */
  lemma CountersOnly(c: Config, c': Config, n: nat, name: string)
    requires InvTree(c) && InvEntries(c) && c'.paths == c.paths && c'.at == c.at
    requires n < |c.paths| && Leaf(c.paths[n])
    requires c'.entries == c.entries
          || exists v :: c'.entries == c.entries[(n, name) := Num(v)] && !HasSub(c, n, name)
    ensures InvTree(c') && InvEntries(c')
  {
    forall p | p in c'.at && p != [] ensures Linked(c', p) {
      assert Linked(c, p);
    }
  }

  /** A goroutine that has arrived stands at the node of its operation's path, where the name is free for a counter. */
  lemma AtCounter(c: Config, w: Walk)
    requires InvNodes(c) && InvEntries(c) && InvWalk(c, w) && w.rest == []
    ensures var o := w.ops[0];
      && Proper(o) && c.paths[w.node] == o.path && o.path in c.at && c.at[o.path] == w.node
      && ((w.node, o.name) in c.entries ==> c.entries[(w.node, o.name)].Num?)
  {
    assert w.walked == w.ops[0].path && w.ops[0] in w.ops;
  }

  lemma AddedNum(entries: map<(nat, string), Entry>, n: nat, s: string, d: int, m: nat, name: string)
    requires (n, s) in entries ==> entries[(n, s)].Num?
    ensures NumAt(Added(entries, n, s, d), m, name) == NumAt(entries, m, name) + if m == n && name == s then d else 0
  {
  }

  lemma AddTree(c: Config, t: nat)
    requires InvTree(c) && InvEntries(c) && Enabled(c, Add(t)) && InvWalk(c, c.threads[t])
    ensures InvTree(Apply(c, Add(t))) && InvEntries(Apply(c, Add(t)))
  {
    var w := c.threads[t];
    AtCounter(c, w);
    CountersOnly(c, Apply(c, Add(t)), w.node, w.ops[0].name);
  }

  /** At the end of its walk an addition goes to the counter of its own path and name, and to no other. */
  lemma AddValues(c: Config, t: nat)
    requires InvNodes(c) && InvEntries(c) && InvValues(c) && Enabled(c, Add(t)) && InvWalk(c, c.threads[t])
    ensures InvValues(Apply(c, Add(t)))
  {
    var c' := Apply(c, Add(t));
    var w := c.threads[t];
    var o := w.ops[0];
    AtCounter(c, w);
    forall m: nat, name | m < |c.paths| && !IsMax(name)
      ensures NumAt(c'.entries, m, name) == Sum(c'.log, c.paths[m], name)
    {
      SumSnoc(c.log, o, c.paths[m], name);
      AddedNum(c.entries, w.node, o.name, o.act.delta, m, name);
      assert NumAt(c.entries, m, name) == Sum(c.log, c.paths[m], name);
      assert c.paths[m] == o.path <==> m == w.node;
    }
  }

  lemma ReadTree(c: Config, t: nat)
    requires InvTree(c) && InvEntries(c) && InvValues(c) && Enabled(c, Read(t)) && InvWalk(c, c.threads[t])
    ensures InvTree(Apply(c, Read(t))) && InvEntries(Apply(c, Read(t))) && InvValues(Apply(c, Read(t)))
  {
    var c' := Apply(c, Read(t));
    var w := c.threads[t];
    AtCounter(c, w);
    CountersOnly(c, c', w.node, w.ops[0].name);
    forall m: nat, name | m < |c.paths| && !IsMax(name)
      ensures NumAt(c'.entries, m, name) == Sum(c'.log, c.paths[m], name)
    {
      SumSnoc(c.log, w.ops[0], c.paths[m], name);
      assert NumAt(c.entries, m, name) == Sum(c.log, c.paths[m], name);
    }
  }

  lemma SetTree(c: Config, t: nat)
    requires InvTree(c) && InvEntries(c) && InvValues(c) && Enabled(c, Set(t)) && InvWalk(c, c.threads[t])
    ensures InvTree(Apply(c, Set(t))) && InvEntries(Apply(c, Set(t))) && InvValues(Apply(c, Set(t)))
  {
    var c' := Apply(c, Set(t));
    var w := c.threads[t];
    AtCounter(c, w);
    CountersOnly(c, c', w.node, w.ops[0].name);
    forall m: nat, name | m < |c.paths| && !IsMax(name)
      ensures NumAt(c'.entries, m, name) == Sum(c'.log, c.paths[m], name)
    {
      assert NumAt(c.entries, m, name) == Sum(c.log, c.paths[m], name);
    }
  }

  lemma SameTree(c: Config, c': Config)
    requires InvTree(c) && InvEntries(c) && InvValues(c) && c' == c.(threads := c'.threads)
    ensures InvTree(c') && InvEntries(c') && InvValues(c')
  {
    forall p | p in c'.at && p != [] ensures Linked(c', p) {
      assert Linked(c, p);
    }
  }

  lemma LockTree(c: Config, t: nat)
    requires InvTree(c) && InvEntries(c) && InvValues(c) && Enabled(c, Lock(t)) && InvWalk(c, c.threads[t])
    ensures InvTree(Apply(c, Lock(t))) && InvEntries(Apply(c, Lock(t))) && InvValues(Apply(c, Lock(t)))
  {
    var w := c.threads[t];
    if HasSub(c, w.node, w.rest[0]) {
      SameTree(c, Apply(c, Lock(t)));
    } else {
      assert w.ops[0] in w.ops;
      PrefixNoLeaf(w.walked, w.rest);
      CreateTree(c, w.node, w.rest[0]);
      CreateEntries(c, w.node, w.rest[0]);
      NotYet(c, w.node, w.rest[0]);
      CreateValues(c, w.node, w.rest[0]);
      SameTree(Create(c, w.node, w.rest[0]), Apply(c, Lock(t)));
    }
  }

  lemma StepTree(c: Config, l: Label)
    requires InvTree(c) && InvEntries(c) && InvValues(c) && Enabled(c, l)
    requires !l.Begin? ==> InvWalk(c, c.threads[l.t])
    ensures InvTree(Apply(c, l)) && InvEntries(Apply(c, l)) && InvValues(Apply(c, l))
  {
    match l
    case Add(t) =>
      AddTree(c, t);
      AddValues(c, t);
    case Read(t) => ReadTree(c, t);
    case Set(t) => SetTree(c, t);
    case Lock(t) => LockTree(c, t);
    case _ => SameTree(c, Apply(c, l));
  }

  // The walks.

  /** Nodes and entries are only ever added. */
  ghost predicate Grows(c: Config, c': Config) {
    && c.paths <= c'.paths
    && (forall p | p in c.at :: p in c'.at && c'.at[p] == c.at[p])
    && (forall k | k in c.entries :: k in c'.entries)
  }

  lemma StepGrows(c: Config, l: Label)
    requires InvTree(c) && Enabled(c, l)
    ensures Grows(c, Apply(c, l))
  {
    if l.Lock? && !HasSub(c, c.threads[l.t].node, c.threads[l.t].rest[0]) {
      NotYet(c, c.threads[l.t].node, c.threads[l.t].rest[0]);
    }
  }

  lemma WalkKept(c: Config, c': Config, w: Walk)
    requires InvWalk(c, w) && Grows(c, c')
    ensures InvWalk(c', w)
  {
  }

  lemma MoveWalk(c: Config, l: Label)
    requires InvEntries(c) && Enabled(c, l) && (l.Look? || l.Lock?) && InvWalk(c, c.threads[l.t]) && Grows(c, Apply(c, l))
    ensures InvWalk(Apply(c, l), Apply(c, l).threads[l.t])
  {
    var w := c.threads[l.t];
    assert w.walked + w.rest == (w.walked + [w.rest[0]]) + w.rest[1..];
  }

  /** After an addition the program goes on; a reading that comes next finds the counter. */
  lemma NextWalk(c: Config, w: Walk, c': Config)
    requires InvWalk(c, w) && |w.ops| > 1 && |c'.paths| > 0 && c'.paths[0] == []
    requires w.ops[0].act.Plus? ==> Present(c', w.ops[0].path, w.ops[0].name)
    ensures InvWalk(c', Looking(0, [], w.ops[1].path, w.ops[1..]))
  {
    var ops := w.ops[1..];
    assert ops[0] == w.ops[1] && Created(w.ops, 1);
    forall i: nat | 0 < i < |ops| ensures Created(ops, i) {
      assert Created(w.ops, i + 1);
    }
  }

  lemma PopWalk(c: Config, l: Label)
    requires InvNodes(c) && InvEntries(c) && Enabled(c, l) && (l.Add? || l.Read? || l.Set?) && InvWalk(c, c.threads[l.t])
    requires Grows(c, Apply(c, l))
    ensures l.t in Apply(c, l).threads ==> InvWalk(Apply(c, l), Apply(c, l).threads[l.t])
  {
    var c' := Apply(c, l);
    var w := c.threads[l.t];
    if l.Read? && Exceeds(c, w) {
      WalkKept(c, c', w);
    } else if |w.ops| > 1 {
      AtCounter(c, w);
      NextWalk(c, w, c');
    }
  }

  lemma BeginWalk(c: Config, l: Label)
    requires InvNodes(c) && l.Begin? && Enabled(c, l)
    ensures InvWalk(Apply(c, l), Apply(c, l).threads[l.t])
  {
    assert Created(l.ops, 0);
  }

  lemma OwnWalk(c: Config, l: Label)
    requires InvTree(c) && InvEntries(c) && Enabled(c, l) && Grows(c, Apply(c, l))
    requires !l.Begin? ==> InvWalk(c, c.threads[l.t])
    ensures l.t in Apply(c, l).threads ==> InvWalk(Apply(c, l), Apply(c, l).threads[l.t])
  {
    match l
    case Begin(_, _) => BeginWalk(c, l);
    case Look(_) => MoveWalk(c, l);
    case Lock(_) => MoveWalk(c, l);
    case _ => PopWalk(c, l);
  }

  lemma OthersKept(c: Config, l: Label, t: nat)
    requires Enabled(c, l) && t != l.t
    ensures t in Apply(c, l).threads <==> t in c.threads
    ensures t in c.threads ==> Apply(c, l).threads[t] == c.threads[t]
  {
  }

  lemma StepWalks(c: Config, l: Label)
    requires InvTree(c) && InvEntries(c) && InvWalks(c) && Enabled(c, l)
    ensures InvWalks(Apply(c, l))
  {
    var c' := Apply(c, l);
    StepGrows(c, l);
    assert !l.Begin? ==> InvWalk(c, c.threads[l.t]);
    OwnWalk(c, l);
    forall t | t in c'.threads && t != l.t ensures InvWalk(c', c'.threads[t]) {
      OthersKept(c, l, t);
      WalkKept(c, c', c.threads[t]);
    }
  }

  lemma StepInv(c: Config, l: Label)
    requires Inv(c) && Enabled(c, l)
    ensures Inv(Apply(c, l))
  {
    assert !l.Begin? ==> InvWalk(c, c.threads[l.t]);
    StepWalks(c, l);
    StepTree(c, l);
  }

  lemma {:induction false} FollowsInv(c: Config, ls: seq<Label>)
    requires Inv(c) && Follows(c, ls)
    ensures Inv(After(c, ls))
    decreases |ls|
  {
    if ls != [] {
      StepInv(c, ls[0]);
      FollowsInv(Apply(c, ls[0]), ls[1..]);
    }
  }

  lemma FromInit(c: Config, ls: seq<Label>)
    requires Init(c) && Follows(c, ls)
    ensures Inv(After(c, ls))
  {
    FollowsInv(c, ls);
  }

  /** The counter that a reader of the tree finds under a path and a name, 0 if there is none. */
  ghost function Value(c: Config, p: Path, name: string): int {
    if p in c.at then NumAt(c.entries, c.at[p], name) else 0
  }

  /** For the names that are added to, the tree stands for the flat map of the sums. */
  ghost predicate IsFlatMap(c: Config) {
    forall p, name | !IsMax(name) :: Value(c, p, name) == Sum(c.log, p, name)
  }

  /**
   In every interleaving the tree has one node per path and no increment is lost: for the names that
   are added to, it stands for the flat map that takes a path and a name to the sum of what was added.
   */
  lemma TreeRefinesFlatMap(c: Config, ls: seq<Label>)
    requires Init(c) && Follows(c, ls)
    ensures var c' := After(c, ls);
      && (forall j, k | 0 <= j < k < |c'.paths| :: c'.paths[j] != c'.paths[k])
      && IsFlatMap(c')
  {
    FromInit(c, ls);
    var c' := After(c, ls);
    forall p, name | !IsMax(name) ensures Value(c', p, name) == Sum(c'.log, p, name) {
      if p !in c'.at {
        SumZero(c'.log, p, name);
      }
    }
  }

  lemma CanStep(c: Config, t: nat)
    requires t in c.threads && InvWalk(c, c.threads[t])
    ensures Enabled(c, Look(t)) || Enabled(c, Lock(t)) || Enabled(c, Add(t)) || Enabled(c, Read(t)) || Enabled(c, Set(t))
  {
  }

  /** A goroutine is never held up: whatever the others do, one of its next steps is possible. */
  lemma WalkGoesOn(c: Config, ls: seq<Label>, t: nat)
    requires Init(c) && Follows(c, ls) && t in After(c, ls).threads
    ensures var c' := After(c, ls);
      Enabled(c', Look(t)) || Enabled(c', Lock(t)) || Enabled(c', Add(t)) || Enabled(c', Read(t)) || Enabled(c', Set(t))
  {
    FromInit(c, ls);
    CanStep(After(c, ls), t);
  }
}
