/** The bounded buffer as it runs: shared memory and semaphores are updated in
    place, one step of one process at a time.  Each step is the step of the
    model, so what holds of every schedule of the model holds of every run. */
module BufferMachine {
  import opened BoundedBuffer
  import opened Offers
  import opened Tallies
  import Semop

  lemma {:induction false} LegalAppend(s: State, schedule: seq<nat>, i: nat)
    requires |s.sems| == 3 && Legal(s, schedule) && Enabled(After(s, schedule), i)
    ensures Legal(s, schedule + [i]) && After(s, schedule + [i]) == Step(After(s, schedule), i)
    decreases |schedule|
  {
    if schedule != [] {
      LegalAppend(Step(s, schedule[0]), schedule[1..], i);
      assert (schedule + [i])[1..] == schedule[1..] + [i];
    } else {
      assert (schedule + [i])[1..] == [];
    }
  }

  /** The first `k` cells of the array, as the memory written so far. */
  ghost function CellsOf(b: seq<int>, k: nat): map<nat, int> {
    map j: nat | j < k && j < |b| :: b[j]
  }

  lemma CellsWrite(b: seq<int>, k: nat, v: int)
    requires k < |b|
    ensures CellsOf(b[k := v], k + 1) == CellsOf(b, k)[k := v]
  {
  }

  lemma EnteredLog(s: State, procs0: seq<Proc>, n: nat, i: nat)
    requires Inv(s, procs0, n) && i < |s.procs| && s.procs[i].pc == Entered
    ensures |s.produced| == s.posProd
  {
    assert SameLife(procs0[i], s.procs[i]);
    Alone(ProdMoved, s, n, i);
  }

  class Machine {
    const sem: array<int>
    const buffer: array<int>
    var posProd: nat
    var posConsum: nat
    var procs: seq<Proc>
    var produced: seq<Line>
    var consumed: seq<Line>
    ghost const procs0: seq<Proc>
    ghost const n: nat

    /** The model state that the memory stands for. */
    ghost function Model(): State
      reads this, sem, buffer
    {
      State(sem[..], posProd, posConsum, CellsOf(buffer[..], |produced|), procs, produced, consumed)
    }

    ghost predicate Valid()
      reads this, sem, buffer
    {
      && sem != buffer
      && Sum(ProdOwed, procs0) <= buffer.Length
      && Inv(Model(), procs0, n)
    }

    /** main(): SB = 1, SE = places, SM = 0, both positions 0. */
    constructor (processes: seq<Proc>, places: nat, length: nat)
      requires Fresh(processes) && Sum(ProdOwed, processes) <= length
      ensures Valid() && Model() == Initial(processes, places)
      ensures procs0 == processes && n == places && fresh(sem) && fresh(buffer)
    {
      sem := new int[3];
      buffer := new int[length];
      posProd, posConsum := 0, 0;
      procs, produced, consumed := processes, [], [];
      procs0, n := processes, places;
      new;
      sem[SB], sem[SE], sem[SM] := 1, places, 0;
      assert sem[..] == [1, places, 0];
      assert Model() == Initial(processes, places);
      InitInv(processes, places);
    }

    /** The semop of process `i` on its way in or out. */
    method Pass(i: nat, ops: seq<Semop.Sembuf>, p: Proc) returns (ok: bool)
      requires |sem[..]| == 3 && sem != buffer && i < |procs| && Semop.InSet(ops, 3)
      modifies this`procs, sem
      ensures ok == Semop.Admissible(old(sem[..]), ops)
      ensures Model() == if ok
                         then old(Model()).(sems := Semop.Effect(old(sem[..]), ops), procs := old(procs)[i := p])
                         else old(Model())
    {
      ok := Semop.Run(sem, ops);
      if ok {
        procs := procs[i := p];
      }
    }

    /** Producer `i` writes its slot and prints. */
    method Store(i: nat)
      requires i < |procs| && posProd == |produced| < buffer.Length && sem != buffer
      modifies this`procs, this`produced, buffer
      ensures var s, p := old(Model()), old(procs[i]);
        Model() == s.(cells := s.cells[s.posProd := p.value],
                      produced := s.produced + [Line(i, s.posProd, p.value)],
                      procs := s.procs[i := p.(pc := Moved)])
    {
      var p := procs[i];
      CellsWrite(buffer[..], posProd, p.value);
      buffer[posProd] := p.value;
      assert buffer[..] == old(buffer[..])[posProd := p.value];
      produced := produced + [Line(i, posProd, buffer[posProd])];
      procs := procs[i := p.(pc := Moved)];
    }

    /** Consumer `i` reads its slot and prints. */
    method Load(i: nat)
      requires i < |procs| && posConsum < |produced| && posConsum < buffer.Length
      modifies this`procs, this`consumed
      ensures var s, p := old(Model()), old(procs[i]);
        Model() == s.(consumed := s.consumed + [Line(i, s.posConsum, CellAt(s, s.posConsum))],
                      procs := s.procs[i := p.(pc := Moved)])
    {
      var p := procs[i];
      consumed := consumed + [Line(i, posConsum, buffer[posConsum])];
      procs := procs[i := p.(pc := Moved)];
    }

    /** Process `i` moves its position on. */
    method Count(i: nat)
      requires i < |procs| && procs[i].pc == Moved && |sem[..]| == 3
      modifies this`procs, this`posProd, this`posConsum
      ensures Model() == Step(old(Model()), i)
    {
      var p := procs[i];
      if p.kind.Producer? {
        posProd := posProd + 1;
      } else {
        posConsum := posConsum + 1;
      }
      procs := procs[i := p.(pc := Counted)];
    }

    /** The next step of process `i`, whose slot is at hand. */
    method Act(i: nat) returns (moved: bool)
      requires i < |procs| && |sem[..]| == 3 && sem != buffer && (procs[i].pc != Outside ==> procs[i].left > 0)
      requires procs[i].pc == Entered ==>
        if procs[i].kind.Producer? then posProd == |produced| < buffer.Length
        else posConsum < |produced| && posConsum < buffer.Length
      modifies this, sem, buffer
      ensures moved == Enabled(old(Model()), i)
      ensures Model() == if moved then Step(old(Model()), i) else old(Model())
    {
      var p := procs[i];
      moved := true;
      match p.pc {
        case Outside =>
          if p.left == 0 {
            return false;
          }
          moved := Pass(i, p.kind.Start(), p.(pc := Entered));
        case Entered =>
          if p.kind.Producer? {
            Store(i);
          } else {
            Load(i);
          }
        case Moved =>
          Count(i);
        case Counted =>
          moved := Pass(i, p.kind.Stop(), p.(pc := Outside, left := p.left - 1, value := p.value + 1));
      }
    }

    /** The next step of process `i`; `moved` is false when it has finished or
        is held back by a semaphore. */
    method Move(i: nat) returns (moved: bool)
      requires Valid() && i < |procs|
      modifies this, sem, buffer
      ensures Valid()
      ensures moved == Enabled(old(Model()), i)
      ensures Model() == if moved then Step(old(Model()), i) else old(Model())
    {
      ghost var s := Model();
      assert SameLife(procs0[i], s.procs[i]);
      if procs[i].pc == Entered {
        EnteredSlot(s, procs0, n, i);
        EnteredLog(s, procs0, n, i);
      }
      moved := Act(i);
      if moved {
        StepInv(s, procs0, n, i);
      }
    }

    /** Offers steps to the processes in the given order: each moves exactly when
        it can in the state that the offers before it have led to.  `schedule`
        is who moved. */
    method Run(order: seq<nat>) returns (moved: seq<bool>, schedule: seq<nat>, ghost trace: seq<State>)
      requires Valid() && forall k | 0 <= k < |order| :: order[k] < |procs|
      modifies this, sem, buffer
      ensures Valid() && |trace| == |order| + 1 && Model() == trace[|order|]
      ensures Ran(Offer, old(Model()), order, moved, trace) && schedule == Chosen(order, moved)
      ensures Legal(old(Model()), schedule) && Model() == After(old(Model()), schedule)
    {
      moved, schedule, trace := [], [], [Model()];
      for k := 0 to |order|
        invariant Valid() && |procs| == old(|procs|)
        invariant Running(Offer, old(Model()), order, k, moved, trace, Model())
        invariant schedule == Chosen(order[..k], moved)
      {
        ghost var now := Model();
        var m := Move(order[k]);
        ghost var next := Model();
        RunningMore(Offer, old(Model()), order, k, moved, trace, now, m, next);
        ChosenNext(order, moved, k, m);
        moved, trace := moved + [m], trace + [next];
        if m {
          schedule := schedule + [order[k]];
        }
      }
      RunningEnds(Offer, old(Model()), order, moved, trace, Model());
      assert order[..|order|] == order;
      RanLegal(old(Model()), order, moved, trace);
    }
  }

  /** One offer: the process moves exactly when it is enabled. */
  ghost predicate Offer(s: State, i: nat, moved: bool, next: State) {
    && |s.sems| == 3
    && (moved <==> Enabled(s, i))
    && next == if moved then Step(s, i) else s
  }

  /** Who moved is a legal schedule, and it leads to the last state. */
  lemma {:induction false} RanLegal(start: State, order: seq<nat>, moved: seq<bool>, trace: seq<State>)
    requires Ran(Offer, start, order, moved, trace) && |start.sems| == 3
    ensures Legal(start, Chosen(order, moved)) && After(start, Chosen(order, moved)) == trace[|order|]
    decreases |order|
  {
    if order != [] {
      var n := |order| - 1;
      RanInit(Offer, start, order, moved, trace, n);
      RanLegal(start, order[..n], moved[..n], trace[..n + 1]);
      assert Offer(trace[n], order[n], moved[n], trace[n + 1]);
      LegalOffer(start, Chosen(order[..n], moved[..n]), order[n], moved[n], trace[n + 1]);
    }
  }

  lemma LegalOffer(start: State, schedule: seq<nat>, i: nat, moved: bool, next: State)
    requires |start.sems| == 3 && Legal(start, schedule) && Offer(After(start, schedule), i, moved, next)
    ensures var more := schedule + if moved then [i] else [];
      Legal(start, more) && After(start, more) == next
  {
    if moved {
      LegalAppend(start, schedule, i);
    } else {
      assert schedule + [] == schedule;
    }
  }
}
