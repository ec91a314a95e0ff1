/** Readers and writers as they run: the semaphore set and the shared integer
    are updated in place, one step of one process at a time. */
module ReadersWritersMachine {
  import opened Offers
  import opened ReadersWriters
  import Semop

  lemma {:induction false} LegalAppend(s: State, schedule: seq<nat>, i: nat)
    requires |s.sems| == 4 && Legal(s, schedule) && Enabled(After(s, schedule), i)
    ensures Legal(s, schedule + [i]) && After(s, schedule + [i]) == Step(After(s, schedule), i)
    decreases |schedule|
  {
    if schedule != [] {
      LegalAppend(Step(s, schedule[0]), schedule[1..], i);
      assert (schedule + [i])[1..] == schedule[1..] + [i];
    } else {
      assert (schedule + [i])[1..] == [];
    }
  }

  class Machine {
    const sem: array<int>
    var shm: int
    var procs: seq<Proc>
    var log: seq<Line>
    ghost var stores: nat

    ghost function Model(): State
      reads this, sem
    {
      State(sem[..], shm, procs, stores, log)
    }

    constructor (processes: seq<Proc>)
      ensures sem.Length == 4 && fresh(sem) && Model() == Initial(processes)
    {
      sem := new int[4](_ => 0);
      shm, procs, log, stores := 0, processes, [], 0;
      new;
      sem[BIN_A_WRITER] := 1;
      assert sem[..] == [0, 0, 1, 0];
    }

    /** The semop of process `i` on its way in or out. */
    method Pass(i: nat, ops: seq<Semop.Sembuf>, pc: Pc) returns (ok: bool)
      requires sem.Length == 4 && i < |procs| && Semop.InSet(ops, 4)
      modifies this`procs, sem
      ensures ok == Semop.Admissible(old(sem[..]), ops)
      ensures Model() == if ok
        then old(Model()).(sems := Semop.Effect(old(sem[..]), ops), procs := old(procs)[i := old(procs[i]).(pc := pc)])
        else old(Model())
    {
      ok := Semop.Run(sem, ops);
      if ok {
        procs := procs[i := procs[i].(pc := pc)];
      }
    }

    /** The next step of process `i`; `moved` is false when a semaphore holds
        it back. */
    method Move(i: nat) returns (moved: bool)
      requires sem.Length == 4 && i < |procs|
      modifies this, sem
      ensures moved == Enabled(old(Model()), i)
      ensures Model() == if moved then Step(old(Model()), i) else old(Model())
    {
      var p := procs[i];
      moved := true;
      match p.pc {
        case Away =>
          moved := Pass(i, p.role.Start(), Entered);
        case Entered =>
          if p.role.Writer? {
            procs := procs[i := p.(pc := Loaded(shm))];
          } else {
            log := log + [Line(i, Reader, shm)];
            procs := procs[i := p.(pc := Leaving)];
          }
        case Loaded(tmp) =>
          shm := tmp + 1;
          stores := stores + 1;
          procs := procs[i := p.(pc := Stored)];
        case Stored =>
          log := log + [Line(i, Writer, shm)];
          procs := procs[i := p.(pc := Leaving)];
        case Leaving =>
          moved := Pass(i, p.role.Stop(), Away);
      }
    }

    /** Offers steps to the processes in the given order: each moves exactly when
        it can in the state that the offers before it have led to.  `schedule`
        is who moved. */
    method Run(order: seq<nat>) returns (moved: seq<bool>, schedule: seq<nat>, ghost trace: seq<State>)
      requires sem.Length == 4 && forall k | 0 <= k < |order| :: order[k] < |procs|
      modifies this, sem
      ensures |trace| == |order| + 1 && Model() == trace[|order|]
      ensures Ran(Offer, old(Model()), order, moved, trace) && schedule == Chosen(order, moved)
      ensures Legal(old(Model()), schedule) && Model() == After(old(Model()), schedule)
    {
      moved, schedule, trace := [], [], [Model()];
      for k := 0 to |order|
        invariant |procs| == old(|procs|)
        invariant Running(Offer, old(Model()), order, k, moved, trace, Model())
        invariant schedule == Chosen(order[..k], moved)
      {
        ghost var now := Model();
        var m := Move(order[k]);
        RunningMore(Offer, old(Model()), order, k, moved, trace, now, m, Model());
        ChosenNext(order, moved, k, m);
        moved, trace := moved + [m], trace + [Model()];
        if m {
          schedule := schedule + [order[k]];
        }
      }
      RunningEnds(Offer, old(Model()), order, moved, trace, Model());
      assert order[..|order|] == order;
      RanLegal(old(Model()), order, moved, trace);
    }
  }

  /** One offer: the process moves exactly when it is enabled. */
  ghost predicate Offer(s: State, i: nat, moved: bool, next: State) {
    && |s.sems| == 4
    && (moved <==> Enabled(s, i))
    && next == if moved then Step(s, i) else s
  }

  /** Who moved is a legal schedule, and it leads to the last state. */
  lemma {:induction false} RanLegal(start: State, order: seq<nat>, moved: seq<bool>, trace: seq<State>)
    requires Ran(Offer, start, order, moved, trace) && |start.sems| == 4
    ensures Legal(start, Chosen(order, moved)) && After(start, Chosen(order, moved)) == trace[|order|]
    decreases |order|
  {
    if order != [] {
      var n := |order| - 1;
      RanInit(Offer, start, order, moved, trace, n);
      RanLegal(start, order[..n], moved[..n], trace[..n + 1]);
      assert Offer(trace[n], order[n], moved[n], trace[n + 1]);
      LegalOffer(start, Chosen(order[..n], moved[..n]), order[n], moved[n], trace[n + 1]);
    }
  }

  lemma LegalOffer(start: State, schedule: seq<nat>, i: nat, moved: bool, next: State)
    requires |start.sems| == 4 && Legal(start, schedule) && Offer(After(start, schedule), i, moved, next)
    ensures var more := schedule + if moved then [i] else [];
      Legal(start, more) && After(start, more) == next
  {
    if moved {
      LegalAppend(start, schedule, i);
    } else {
      assert schedule + [] == schedule;
    }
  }
}
