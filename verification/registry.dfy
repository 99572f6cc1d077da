/**
 The table of machines that a bigmachine instance knows, by address (bigmachine.go).
 `Dial` and `Start` insert under the mutex; for each dialled machine a goroutine
 waits for it to stop and then deletes its address.
 */
module Registry {

  /** A goroutine that will delete `addr` when machine `m` has stopped. */
  datatype Cleanup = Cleanup(m: nat, addr: string)

  /** A machine that System.Start returned, and whether services are configured for it. */
  datatype Started = Started(addr: string, services: bool)

  /** Machines are named by numbers in order of creation. */
  datatype Table = Table(machines: map<string, nat>, owned: set<nat>, made: nat, cleanups: multiset<Cleanup>)
  {
    ghost predicate Dialled(addr: string) {
      addr in machines && machines[addr] !in owned
    }
  }

  function Dialling(tb: Table, addr: string): Table {
    if addr in tb.machines then tb
    else Table(tb.machines[addr := tb.made], tb.owned, tb.made + 1, tb.cleanups + multiset{Cleanup(tb.made, addr)})
  }

  function Starting(tb: Table, ms: seq<Started>): Table
    decreases |ms|
  {
    if ms == [] || !ms[0].services then tb
    else Starting(Table(tb.machines[ms[0].addr := tb.made], tb.owned + {tb.made}, tb.made + 1, tb.cleanups), ms[1..])
  }

  function Cleaning(tb: Table, x: Cleanup): Table {
    Table(tb.machines - {x.addr}, tb.owned, tb.made, tb.cleanups - multiset{x})
  }

  class B {
    var machines: map<string, nat>
    var owned: set<nat>
    var made: nat
    var cleanups: multiset<Cleanup>

    ghost function View(): Table
      reads this
    {
      Table(machines, owned, made, cleanups)
    }

    constructor ()
      ensures View() == Table(map[], {}, 0, multiset{})
    {
      machines, owned, made, cleanups := map[], {}, 0, multiset{};
    }

    method Dial(addr: string) returns (m: nat)
      modifies this
      ensures View() == Dialling(old(View()), addr)
      ensures addr in machines && m == machines[addr]
    {
      if addr in machines {
        m := machines[addr];
      } else {
        m := made;
        made := made + 1;
        machines := machines[addr := m];
        cleanups := cleanups + multiset{Cleanup(m, addr)};
      }
    }

    /** Start, after the System has returned machines; a machine without services ends it with an error. */
    method Start(ms: seq<Started>) returns (ok: bool)
      modifies this
      ensures View() == Starting(old(View()), ms)
      ensures ok <==> ms != [] && forall x | x in ms :: x.services
    {
      if ms == [] {
        return false;
      }
      for i := 0 to |ms|
        invariant Starting(View(), ms[i..]) == Starting(old(View()), ms)
        invariant forall j | 0 <= j < i :: ms[j].services
      {
        assert ms[i..][0] == ms[i] && ms[i..][1..] == ms[i + 1..];
        if !ms[i].services {
          assert ms[i] in ms;
          return false;
        }
        owned := owned + {made};
        machines := machines[ms[i].addr := made];
        made := made + 1;
      }
      ok := true;
    }

    method RunCleanup(x: Cleanup)
      modifies this
      ensures View() == Cleaning(old(View()), x)
    {
      machines := machines - {x.addr};
      cleanups := cleanups - multiset{x};
    }
  }

  // ---- Interleavings ----

  datatype Label = Dial(addr: string) | Start(ms: seq<Started>) | Clean(x: Cleanup)

  ghost predicate Enabled(tb: Table, l: Label) {
    l.Clean? ==> l.x in tb.cleanups
  }

  ghost function Apply(tb: Table, l: Label): Table {
    match l
    case Dial(addr) => Dialling(tb, addr)
    case Start(ms) => Starting(tb, ms)
    case Clean(x) => Cleaning(tb, x)
  }

  /** The machines that Start gets to: those before the first one without services. */
  ghost function Inserted(ms: seq<Started>): set<string>
    decreases |ms|
  {
    if ms == [] || !ms[0].services then {} else {ms[0].addr} + Inserted(ms[1..])
  }

  /** No address that Start inserts belongs to a dialled machine. */
  ghost predicate FreshStart(tb: Table, l: Label) {
    l.Start? ==> forall addr | addr in Inserted(l.ms) :: !tb.Dialled(addr)
  }

  /** Machines are numbered as they are made, and no two addresses have the same one. */
  ghost predicate Numbered(tb: Table) {
    && (forall addr | addr in tb.machines :: tb.machines[addr] < tb.made)
    && (forall m | m in tb.owned :: m < tb.made)
    && (forall a, b | a in tb.machines && b in tb.machines && a != b :: tb.machines[a] != tb.machines[b])
  }

  /** Every entry is owned or dialled with exactly one cleanup pending, and nothing else has a cleanup. */
  ghost predicate Inv(tb: Table) {
    && Numbered(tb)
    && (forall x: Cleanup :: tb.cleanups[x] == if tb.Dialled(x.addr) && tb.machines[x.addr] == x.m then 1 else 0)
  }

  lemma {:induction false} StartingNumbers(tb: Table, ms: seq<Started>)
    requires Numbered(tb)
    ensures Numbered(Starting(tb, ms))
    decreases |ms|
  {
    if ms != [] && ms[0].services {
      var tb1 := Table(tb.machines[ms[0].addr := tb.made], tb.owned + {tb.made}, tb.made + 1, tb.cleanups);
      StartingNumbers(tb1, ms[1..]);
    }
  }

  /** Start makes new owned machines at the addresses it inserts, and changes nothing else. */
  lemma {:induction false} StartingMeans(tb: Table, ms: seq<Started>)
    ensures var tb' := Starting(tb, ms);
      && tb'.cleanups == tb.cleanups && tb.made <= tb'.made
      && tb'.machines.Keys == tb.machines.Keys + Inserted(ms)
      && (forall m | m < tb.made :: m in tb'.owned <==> m in tb.owned)
      && (forall addr | addr in Inserted(ms) :: tb.made <= tb'.machines[addr] && tb'.machines[addr] in tb'.owned)
      && (forall addr | addr in tb.machines && addr !in Inserted(ms) :: tb'.machines[addr] == tb.machines[addr])
    decreases |ms|
  {
    if ms != [] && ms[0].services {
      var tb1 := Table(tb.machines[ms[0].addr := tb.made], tb.owned + {tb.made}, tb.made + 1, tb.cleanups);
      StartingMeans(tb1, ms[1..]);
    }
  }

  /** A Start keeps the accounting exactly when it does not overwrite a dialled machine. */
  lemma StartKeepsExactly(tb: Table, ms: seq<Started>)
    requires Inv(tb)
    ensures Inv(Starting(tb, ms)) <==> forall addr | addr in Inserted(ms) :: !tb.Dialled(addr)
  {
    var tb' := Starting(tb, ms);
    StartingMeans(tb, ms);
    StartingNumbers(tb, ms);
    forall addr | addr in Inserted(ms) && tb.Dialled(addr) ensures !Inv(tb') {
      var x := Cleanup(tb.machines[addr], addr);
      assert tb'.cleanups[x] == 1 && !tb'.Dialled(addr);
    }
    if forall addr | addr in Inserted(ms) :: !tb.Dialled(addr) {
      forall x: Cleanup
        ensures tb'.cleanups[x] == if tb'.Dialled(x.addr) && tb'.machines[x.addr] == x.m then 1 else 0
      {
        assert tb.cleanups[x] == if tb.Dialled(x.addr) && tb.machines[x.addr] == x.m then 1 else 0;
      }
    }
  }

  lemma StepInv(tb: Table, l: Label)
    requires Inv(tb) && Enabled(tb, l) && FreshStart(tb, l)
    ensures Inv(Apply(tb, l))
  {
    match l
    case Start(ms) => StartKeepsExactly(tb, ms);
    case Dial(addr) => DialKeeps(tb, addr);
    case Clean(x) => CleanKeeps(tb, x);
  }

  lemma DialKeeps(tb: Table, addr: string)
    requires Inv(tb)
    ensures Inv(Dialling(tb, addr))
  {
  }

  lemma CleanKeeps(tb: Table, x: Cleanup)
    requires Inv(tb) && x in tb.cleanups
    ensures Inv(Cleaning(tb, x))
  {
    assert tb.cleanups[x] == if tb.Dialled(x.addr) && tb.machines[x.addr] == x.m then 1 else 0;
  }

  ghost predicate Run(r: seq<Table>, ls: seq<Label>) {
    && |r| == |ls| + 1
    && r[0] == Table(map[], {}, 0, multiset{})
    && forall i | 0 <= i < |ls| :: StepAt(r, ls, i)
  }

  ghost predicate StepAt(r: seq<Table>, ls: seq<Label>, i: nat)
    requires i < |ls| && |r| == |ls| + 1
  {
    Enabled(r[i], ls[i]) && FreshStart(r[i], ls[i]) && r[i + 1] == Apply(r[i], ls[i])
  }

  /**
   Over every interleaving in which no Start reuses the address of a dialled machine, each entry is
   an owned machine or a dialled one with exactly one cleanup pending.
   */
  lemma {:induction false} EntriesAccounted(r: seq<Table>, ls: seq<Label>, n: nat)
    requires Run(r, ls) && n < |r|
    ensures Inv(r[n])
  {
    if n > 0 {
      EntriesAccounted(r, ls, n - 1);
      assert StepAt(r, ls, n - 1);
      StepInv(r[n - 1], ls[n - 1]);
    }
  }

  /**
   In such a run an entry for a machine goes away only by the cleanup of that very machine, a Dial
   never replaces one, and an entry is replaced only by a Start at the address of an owned machine.
   */
  lemma EntryChanges(r: seq<Table>, ls: seq<Label>, n: nat, addr: string)
    requires Run(r, ls) && n < |ls| && addr in r[n].machines
    ensures addr !in r[n + 1].machines <==> ls[n] == Clean(Cleanup(r[n].machines[addr], addr))
    ensures addr in r[n + 1].machines ==>
      (r[n + 1].machines[addr] == r[n].machines[addr] <==> !(ls[n].Start? && addr in Inserted(ls[n].ms)))
    ensures ls[n].Start? && addr in Inserted(ls[n].ms) ==> r[n].machines[addr] in r[n].owned
  {
    EntriesAccounted(r, ls, n);
    assert StepAt(r, ls, n);
    match ls[n]
    case Start(ms) => StartingMeans(r[n], ms);
    case Dial(_) =>
    case Clean(x) =>
      assert r[n].cleanups[x] == if r[n].Dialled(x.addr) && r[n].machines[x.addr] == x.m then 1 else 0;
  }

  /** Without that hypothesis a cleanup can remove a machine that is not its own. */
  lemma CleanupCanRemoveOther(addr: string)
    ensures var dialled := Dialling(Table(map[], {}, 0, multiset{}), addr);
            var started := Starting(dialled, [Started(addr, true)]);
      && started.machines == map[addr := 1] && 1 in started.owned
      && Enabled(started, Clean(Cleanup(0, addr)))
      && Cleaning(started, Cleanup(0, addr)).machines == map[]
  {
  }
}
