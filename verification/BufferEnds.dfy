/** Where the bounded buffer ends when the system is fair: every order that
    keeps giving each process a turn leads to the end of all of them. */
module BufferEnds {
  import opened BoundedBuffer
  import opened BufferMachine
  import opened Offers
  import opened Tallies

  /** The work left at each place of a run. */
  ghost function WorkOf(trace: seq<State>): seq<nat> {
    seq(|trace|, k requires 0 <= k < |trace| => Sum(Work, trace[k].procs))
  }

  /** Every state of a run is reachable. */
  lemma TraceReachable(procs0: seq<Proc>, n: nat, order: seq<nat>, moved: seq<bool>, trace: seq<State>, k: nat)
    requires Fresh(procs0) && Ran(Offer, Initial(procs0, n), order, moved, trace) && k <= |order|
    ensures Reachable(trace[k], procs0, n)
  {
    RanInit(Offer, Initial(procs0, n), order, moved, trace, k);
    RanLegal(Initial(procs0, n), order[..k], moved[..k], trace[..k + 1]);
    assert Leads(procs0, n, Chosen(order[..k], moved[..k]), trace[k]);
  }

  lemma WorkDescends(procs0: seq<Proc>, n: nat, order: seq<nat>, moved: seq<bool>, trace: seq<State>)
    requires Fresh(procs0) && Ran(Offer, Initial(procs0, n), order, moved, trace)
    ensures Descending(WorkOf(trace), moved)
  {
    forall k | 0 <= k < |moved|
      ensures if moved[k] then WorkOf(trace)[k + 1] < WorkOf(trace)[k] else WorkOf(trace)[k + 1] == WorkOf(trace)[k]
    {
      assert Offer(trace[k], order[k], moved[k], trace[k + 1]);
      if moved[k] {
        TraceReachable(procs0, n, order, moved, trace, k);
        ReachableInv(trace[k], procs0, n);
        StepWork(trace[k], procs0, order[k]);
      }
    }
  }

  /** In a round that begins with work left somebody moves. */
  lemma SomebodyMoves(procs0: seq<Proc>, n: nat, order: seq<nat>, moved: seq<bool>, trace: seq<State>, a: nat, b: nat)
    requires Fresh(procs0) && Balanced(procs0, n) && Ran(Offer, Initial(procs0, n), order, moved, trace)
    requires Covers(order, a, b, |procs0|) && WorkOf(trace)[a] > 0
    ensures MovedIn(moved, a, b)
  {
    TraceReachable(procs0, n, order, moved, trace, a);
    ReachableInv(trace[a], procs0, n);
    NotDone(trace[a]);
    DeadlockFree(trace[a], procs0, n);
    var i: nat :| Enabled(trace[a], i);
    assert i in order[a..b];
    var k :| a <= k < b && order[k] == i;
    assert Offer(trace[k], order[k], moved[k], trace[k + 1]);
    if !MovedIn(moved, a, k) {
      forall j | 0 <= j < |moved| && !moved[j]
        ensures trace[j + 1] == trace[j]
      {
        assert Offer(trace[j], order[j], moved[j], trace[j + 1]);
      }
      Still(trace, moved, a, k);
    }
  }

  lemma NotDone(s: State)
    requires Sum(Work, s.procs) > 0
    ensures !AllDone(s)
  {
    var i := PositiveTerm(Work, s.procs, |s.procs|);
  }

  /** Fair orders finish: with balanced counts, whatever the order, as many
      rounds as there are steps to make lead to the end.  All values are then
      produced and consumed. */
  lemma FairRunEnds(procs0: seq<Proc>, n: nat, order: seq<nat>, moved: seq<bool>, trace: seq<State>, cuts: seq<nat>)
    requires Fresh(procs0) && Balanced(procs0, n) && Ran(Offer, Initial(procs0, n), order, moved, trace)
    requires Rounds(order, cuts, |procs0|) && |cuts| > Sum(Work, procs0)
    ensures Ended(trace[|order|], procs0, n)
  {
    var work, last := WorkOf(trace), |cuts| - 1;
    WorkDescends(procs0, n, order, moved, trace);
    forall q | 0 < q < |cuts| && work[cuts[q - 1]] > 0
      ensures MovedIn(moved, cuts[q - 1], cuts[q])
    {
      assert Covers(order, cuts[q - 1], cuts[q], |procs0|);
      SomebodyMoves(procs0, n, order, moved, trace, cuts[q - 1], cuts[q]);
    }
    assert forall q | 0 < q < |cuts| :: Covers(order, cuts[q - 1], cuts[q], |procs0|) ==> cuts[q - 1] <= cuts[q];
    WorkEnds(work, moved, cuts, last);
    WorkFalls(work, moved, cuts[last], |order|);
    RanLegal(Initial(procs0, n), order, moved, trace);
    NoWorkLeft(procs0, n, Chosen(order, moved), trace[|order|]);
  }

  /** Everybody is done; the semaphores hold what was left over. */
  ghost predicate Ended(s: State, procs0: seq<Proc>, n: nat) {
    && AllDone(s)
    && |s.produced| == Sum(ProdOwed, procs0) && |s.consumed| == Sum(ConsOwed, procs0)
    && s.sems == [1, n - (|s.produced| - |s.consumed|), |s.produced| - |s.consumed|]
  }

  lemma NoWorkLeft(procs0: seq<Proc>, n: nat, schedule: seq<nat>, s: State)
    requires Fresh(procs0) && Balanced(procs0, n) && Leads(procs0, n, schedule, s) && Sum(Work, s.procs) == 0
    ensures Ended(s, procs0, n)
  {
    assert Reachable(s, procs0, n);
    ReachableInv(s, procs0, n);
    NoWorkStops(s, procs0);
    MaximalEnd(procs0, n, schedule, s);
  }

  lemma MaximalEnd(procs0: seq<Proc>, n: nat, schedule: seq<nat>, s: State)
    requires Fresh(procs0) && Balanced(procs0, n) && Leads(procs0, n, schedule, s) && AllDone(s) && Stuck(s)
    ensures Ended(s, procs0, n)
  {
    MaximalRun(procs0, n, schedule);
    assert |s.produced| == s.posProd && |s.consumed| == s.posConsum;
  }

  lemma NoWorkStops(s: State, procs0: seq<Proc>)
    requires Shape(s, procs0) && Sum(Work, s.procs) == 0
    ensures AllDone(s) && Stuck(s)
  {
    forall i | 0 <= i < |s.procs|
      ensures s.procs[i].left == 0 && s.procs[i].pc == Outside
    {
      SumAtLeast(Work, s.procs, i);
      assert SameLife(procs0[i], s.procs[i]);
    }
  }

  // ----------------------------------------------------- the program itself

  /** How often a value occurs. */
  function Count(values: seq<int>, v: int): nat {
    if values == [] then 0 else Count(values[..|values| - 1], v) + if values[|values| - 1] == v then 1 else 0
  }

  /** How many lines show a value. */
  function Shown(lines: seq<Line>, v: int): nat {
    if lines == [] then 0 else Shown(lines[..|lines| - 1], v) + if lines[|lines| - 1].value == v then 1 else 0
  }

  /** The same for each of `m` processes. */
  ghost function ShownBy(lines: seq<Line>, m: nat, v: int): (r: seq<nat>)
    ensures |r| == m
  {
    seq(m, i requires 0 <= i < m => Count(Values(lines, i), v))
  }

  function Total(counts: seq<nat>): nat {
    if counts == [] then 0 else Total(counts[..|counts| - 1]) + counts[|counts| - 1]
  }

  lemma {:induction false} TotalUpdate(counts: seq<nat>, i: nat, c: nat)
    requires i < |counts|
    ensures Total(counts[i := c]) + counts[i] == Total(counts) + c
  {
    var n := |counts| - 1;
    if i < n {
      TotalUpdate(counts[..n], i, c);
      assert counts[i := c][..n] == counts[..n][i := c];
    } else {
      assert counts[i := c][..n] == counts[..n];
    }
  }

  lemma {:induction false} TotalZero(counts: seq<nat>)
    requires forall i | 0 <= i < |counts| :: counts[i] == 0
    ensures Total(counts) == 0
  {
    if counts != [] {
      TotalZero(counts[..|counts| - 1]);
    }
  }

  lemma CountMore(values: seq<int>, x: int, v: int)
    ensures Count(values + [x], v) == Count(values, v) + if x == v then 1 else 0
  {
    assert (values + [x])[..|values|] == values;
  }

  lemma ValuesMore(init: seq<Line>, l: Line, id: nat, v: int)
    ensures Count(Values(init + [l], id), v)
            == Count(Values(init, id), v) + if l.id == id && l.value == v then 1 else 0
  {
    ValuesAppend(init, l, id);
    if l.id == id {
      CountMore(Values(init, id), l.value, v);
    } else {
      assert Values(init, id) + [] == Values(init, id);
    }
  }

  lemma ShownByMore(init: seq<Line>, l: Line, m: nat, v: int)
    requires l.id < m
    ensures Total(ShownBy(init + [l], m, v)) == Total(ShownBy(init, m, v)) + if l.value == v then 1 else 0
  {
    var a, b := ShownBy(init, m, v), ShownBy(init + [l], m, v);
    forall i | 0 <= i < m
      ensures b[i] == a[i] + if l.id == i && l.value == v then 1 else 0
    {
      ValuesMore(init, l, i, v);
    }
    assert b == a[l.id := b[l.id]];
    TotalUpdate(a, l.id, b[l.id]);
  }

  lemma {:induction false} ShownByAll(lines: seq<Line>, m: nat, v: int)
    requires forall k | 0 <= k < |lines| :: lines[k].id < m
    ensures Shown(lines, v) == Total(ShownBy(lines, m, v))
    decreases |lines|
  {
    if lines == [] {
      TotalZero(ShownBy(lines, m, v));
    } else {
      var n := |lines| - 1;
      ShownByAll(lines[..n], m, v);
      ShownByLast(lines, n, m, v);
    }
  }

  lemma ShownByLast(lines: seq<Line>, n: nat, m: nat, v: int)
    requires |lines| == n + 1 && lines[n].id < m
    ensures Total(ShownBy(lines, m, v)) == Total(ShownBy(lines[..n], m, v)) + if lines[n].value == v then 1 else 0
  {
    ShownByMore(lines[..n], lines[n], m, v);
    assert lines == lines[..n] + [lines[n]];
  }

  lemma {:induction false} CountConsecutive(first: int, n: nat, v: int)
    ensures Count(Consecutive(first, n), v) == if first <= v < first + n then 1 else 0
  {
    if n > 0 {
      CountConsecutive(first, n - 1, v);
      ConsecutiveNext(first, n - 1);
      CountMore(Consecutive(first, n - 1), first + n - 1, v);
    }
  }

  lemma {:induction false} SameShown(a: seq<Line>, b: seq<Line>, v: int)
    requires |a| == |b| && forall k | 0 <= k < |a| :: a[k].value == b[k].value
    ensures Shown(a, v) == Shown(b, v)
  {
    if a != [] {
      SameShown(a[..|a| - 1], b[..|b| - 1], v);
    }
  }

  lemma ShareDone(s: State, procs0: seq<Proc>, n: nat, i: nat)
    requires Inv(s, procs0, n) && AllDone(s) && i < |procs0| && procs0[i].pc == Outside
    ensures Values(s.produced, i) ==
      if procs0[i].kind.Producer? then Consecutive(procs0[i].value, procs0[i].left) else []
  {
    assert ShareOf(s, i, procs0[i]) && SameLife(procs0[i], s.procs[i]);
  }

  /** Whether a producer is to print a value: it counts from its first one on. */
  predicate Prints(p: Proc, v: int) {
    p.kind.Producer? && p.value <= v < p.value + p.left
  }

  /** How often each process is to produce a value. */
  function Planned(procs0: seq<Proc>, v: int): seq<nat> {
    seq(|procs0|, i requires 0 <= i < |procs0| => if Prints(procs0[i], v) then 1 else 0)
  }

  lemma SharePlanned(s: State, procs0: seq<Proc>, n: nat, i: nat, v: int)
    requires Inv(s, procs0, n) && AllDone(s) && i < |procs0| && procs0[i].pc == Outside
    ensures Count(Values(s.produced, i), v) == if Prints(procs0[i], v) then 1 else 0
  {
    ShareDone(s, procs0, n, i);
    CountConsecutive(procs0[i].value, procs0[i].left, v);
  }

  /** In the end the lines of the producers show each value as often as it is
      handed out; and if as many are consumed, so do the lines of the consumers. */
  lemma AllShown(s: State, procs0: seq<Proc>, n: nat, v: int)
    requires Reachable(s, procs0, n) && AllDone(s)
    ensures Shown(s.produced, v) == Total(Planned(procs0, v))
    ensures |s.consumed| == |s.produced| ==> Shown(s.consumed, v) == Total(Planned(procs0, v))
  {
    ReachableInv(s, procs0, n);
    ShownByAll(s.produced, |procs0|, v);
    forall i: nat | i < |procs0|
      ensures ShownBy(s.produced, |procs0|, v)[i] == Planned(procs0, v)[i]
    {
      SharePlanned(s, procs0, n, i, v);
    }
    assert ShownBy(s.produced, |procs0|, v) == Planned(procs0, v);
    if |s.consumed| == |s.produced| {
      Fifo(s, procs0, n);
      SameShown(s.consumed, s.produced, v);
    }
  }

  /** The nine values of the program. */
  predicate MainValue(v: int) {
    0 <= v <= 2 || 10 <= v <= 12 || 100 <= v <= 102
  }

  lemma MainPlanned(v: int)
    ensures Total(Planned(MAIN, v)) == if MainValue(v) then 1 else 0
  {
    var a, b, c := Bit(0 <= v <= 2), Bit(10 <= v <= 12), Bit(100 <= v <= 102);
    assert Planned(MAIN, v) == [0, 0, a, b, c];
    FiveTotal(a, b, c);
  }

  function Bit(b: bool): nat { if b then 1 else 0 }

  lemma FiveTotal(a: nat, b: nat, c: nat)
    ensures Total([0, 0, a, b, c]) == a + b + c
  {
    assert [0, 0, a, b, c][..4] == [0, 0, a, b] && [0, 0, a, b][..3] == [0, 0, a];
    assert [0, 0, a][..2] == [0, 0];
    TotalZero([0, 0]);
    assert Total([0, 0, a]) == a;
    assert Total([0, 0, a, b]) == a + b;
  }

  /** The program itself, with nine places, for any order in which the system
      lets its five processes go on: what it leads to is a reachable state, and
      an order that gives each process 72 turns in rounds leads to the end. */
  method Launch(order: seq<nat>) returns (m: Machine, ghost moved: seq<bool>, ghost trace: seq<State>)
    requires forall k | 0 <= k < |order| :: order[k] < |MAIN|
    ensures fresh(m) && Reachable(m.Model(), MAIN, 9)
    ensures Ran(Offer, Initial(MAIN, 9), order, moved, trace) && m.Model() == trace[|order|]
    ensures forall cuts | Rounds(order, cuts, 5) && |cuts| > 72 :: Finished(m.Model())
  {
    MainBalanced();
    m := new Machine(MAIN, 9, 9);
    var schedule;
    moved, schedule, trace := m.Run(order);
    assert Leads(MAIN, 9, schedule, m.Model());
    forall cuts | Rounds(order, cuts, 5) && |cuts| > 72
      ensures Finished(m.Model())
    {
      LaunchEnds(order, moved, trace, cuts);
    }
  }

  lemma LaunchEnds(order: seq<nat>, moved: seq<bool>, trace: seq<State>, cuts: seq<nat>)
    requires Ran(Offer, Initial(MAIN, 9), order, moved, trace) && Rounds(order, cuts, 5) && |cuts| > 72
    ensures Finished(trace[|order|])
  {
    MainBalanced();
    MainWork();
    FairRunEnds(MAIN, 9, order, moved, trace, cuts);
    TraceReachable(MAIN, 9, order, moved, trace, |order|);
    var s := trace[|order|];
    forall v
      ensures Shown(s.produced, v) == Shown(s.consumed, v) == if MainValue(v) then 1 else 0
    {
      AllShown(s, MAIN, 9, v);
      MainPlanned(v);
    }
  }

  lemma MainWork()
    ensures Sum(Work, MAIN) == 72
  {
    assert SumTo(Work, MAIN, 2) == 36;
    assert SumTo(Work, MAIN, 4) == 60;
  }

  /** The end of the program: the nine values are produced and consumed, each
      once, and all places are empty again. */
  ghost predicate Finished(s: State) {
    && AllDone(s) && s.sems == [1, 9, 0]
    && |s.produced| == |s.consumed| == 9
    && forall v :: Shown(s.produced, v) == Shown(s.consumed, v) == if MainValue(v) then 1 else 0
  }
}
