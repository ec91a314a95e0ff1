/** Producers and consumers over one shared array, kept apart by three
    semaphores that are taken and given back in pairs. */
module BoundedBuffer {
  import opened Semop
  import opened Tallies

  const SB: nat := 0  // the buffer is free to use
  const SE: nat := 1  // empty places
  const SM: nat := 2  // places that hold a value

  const PROD_START: seq<Sembuf> := [Sembuf(SE, -1), Sembuf(SB, -1)]
  const PROD_STOP: seq<Sembuf> := [Sembuf(SB, 1), Sembuf(SM, 1)]
  const CONSUM_START: seq<Sembuf> := [Sembuf(SM, -1), Sembuf(SB, -1)]
  const CONSUM_STOP: seq<Sembuf> := [Sembuf(SB, 1), Sembuf(SE, 1)]

  datatype Kind = Producer | Consumer {
    function Start(): seq<Sembuf> { if Producer? then PROD_START else CONSUM_START }
    function Stop(): seq<Sembuf> { if Producer? then PROD_STOP else CONSUM_STOP }
  }

  /** Where a process is in prod() or consum(): before the first semop, after
      it, after the slot was written or read, after the position moved on. */
  datatype Pc = Outside | Entered | Moved | Counted

  /** `left` is the number of calls still to finish, `value` the loop's value. */
  datatype Proc = Proc(kind: Kind, pc: Pc, left: nat, value: int)

  /** One printed line of a producer or a consumer. */
  datatype Line = Line(id: nat, pos: nat, value: int)

  /** The shared memory (`cells` holds what was written so far; a new shared
      segment reads as zero elsewhere), the semaphores, the processes, and the
      lines printed by producers and by consumers. */
  datatype State = State(
    sems: seq<int>, posProd: nat, posConsum: nat, cells: map<nat, int>,
    procs: seq<Proc>, produced: seq<Line>, consumed: seq<Line>)

  function Initial(procs: seq<Proc>, n: nat): State {
    State([1, n, 0], 0, 0, map[], procs, [], [])
  }

  /** The processes as main() creates them, none inside yet. */
  predicate Fresh(procs: seq<Proc>) {
    forall i | 0 <= i < |procs| :: procs[i].pc == Outside
  }

  // ---------------------------------------------------------------- steps

  predicate Enabled(s: State, i: nat)
    requires |s.sems| == 3
  {
    && i < |s.procs|
    && (s.procs[i].pc == Outside ==>
          s.procs[i].left > 0 && Admissible(s.sems, s.procs[i].kind.Start()))
    && (s.procs[i].pc == Counted ==>
          s.procs[i].left > 0 && Admissible(s.sems, s.procs[i].kind.Stop()))
  }

  function CellAt(s: State, pos: nat): int {
    if pos in s.cells then s.cells[pos] else 0
  }

  /** What process `i` does next. */
  function Step(s: State, i: nat): (s': State)
    requires |s.sems| == 3 && Enabled(s, i)
    ensures |s'.sems| == 3 && |s'.procs| == |s.procs|
  {
    var p := s.procs[i];
    match p.pc
    case Outside =>
      s.(sems := Effect(s.sems, p.kind.Start()), procs := s.procs[i := p.(pc := Entered)])
    case Entered =>
      if p.kind.Producer? then
        s.(cells := s.cells[s.posProd := p.value],
           produced := s.produced + [Line(i, s.posProd, p.value)],
           procs := s.procs[i := p.(pc := Moved)])
      else
        s.(consumed := s.consumed + [Line(i, s.posConsum, CellAt(s, s.posConsum))],
           procs := s.procs[i := p.(pc := Moved)])
    case Moved =>
      if p.kind.Producer? then
        s.(posProd := s.posProd + 1, procs := s.procs[i := p.(pc := Counted)])
      else
        s.(posConsum := s.posConsum + 1, procs := s.procs[i := p.(pc := Counted)])
    case Counted =>
      s.(sems := Effect(s.sems, p.kind.Stop()),
         procs := s.procs[i := p.(pc := Outside, left := p.left - 1, value := p.value + 1)])
  }

  /** Whether every step of a schedule, a list of process numbers, is enabled
      when its turn comes. */
  predicate Legal(s: State, schedule: seq<nat>)
    requires |s.sems| == 3
    decreases |schedule|
  {
    schedule == [] || (Enabled(s, schedule[0]) && Legal(Step(s, schedule[0]), schedule[1..]))
  }

  function After(s: State, schedule: seq<nat>): (s': State)
    requires |s.sems| == 3 && Legal(s, schedule)
    ensures |s'.sems| == 3
    decreases |schedule|
  {
    if schedule == [] then s else After(Step(s, schedule[0]), schedule[1..])
  }

  lemma Gates(sems: seq<int>)
    requires |sems| == 3
    ensures Admissible(sems, PROD_START) <==> sems[SE] >= 1 && sems[SB] >= 1
    ensures Admissible(sems, CONSUM_START) <==> sems[SM] >= 1 && sems[SB] >= 1
    ensures Admissible(sems, PROD_STOP) && Admissible(sems, CONSUM_STOP)
    ensures Effect(sems, PROD_START) == [sems[SB] - 1, sems[SE] - 1, sems[SM]]
    ensures Effect(sems, CONSUM_START) == [sems[SB] - 1, sems[SE], sems[SM] - 1]
    ensures Effect(sems, PROD_STOP) == [sems[SB] + 1, sems[SE], sems[SM] + 1]
    ensures Effect(sems, CONSUM_STOP) == [sems[SB] + 1, sems[SE] + 1, sems[SM]]
  {
    PairGate(sems, SE, -1, SB, -1);
    PairGate(sems, SM, -1, SB, -1);
    PairGate(sems, SB, 1, SM, 1);
    PairGate(sems, SB, 1, SE, 1);
  }

  /** An array of two entries on different semaphores. */
  lemma PairGate(sems: seq<int>, a: nat, da: int, b: nat, db: int)
    requires a != b && a < |sems| && b < |sems|
    ensures var ops := [Sembuf(a, da), Sembuf(b, db)];
      && (Admissible(sems, ops) <==> Passes(sems[a], da) && Passes(sems[b], db))
      && Effect(sems, ops) == sems[a := sems[a] + da][b := sems[b] + db]
  {
    var ops := [Sembuf(a, da), Sembuf(b, db)];
    assert forall s :: Net(ops, 0, s) == 0;
    assert forall s :: Net(ops, 1, s) == if a == s then da else 0;
    assert forall s :: Net(ops, 2, s) == Net(ops, 1, s) + if b == s then db else 0;
    assert PassesAt(sems, ops, 0) == Passes(sems[a], da);
    assert PassesAt(sems, ops, 1) == Passes(sems[b], db);
  }

  // ----------------------------------------------------------- invariant

  function Inside(p: Proc): nat { if p.pc != Outside then 1 else 0 }
  function ProdMoved(p: Proc): nat { if p.kind.Producer? && p.pc == Moved then 1 else 0 }
  function ConsMoved(p: Proc): nat { if p.kind.Consumer? && p.pc == Moved then 1 else 0 }
  function ProdCounted(p: Proc): nat { if p.kind.Producer? && p.pc == Counted then 1 else 0 }
  function ConsUncounted(p: Proc): nat {
    if p.kind.Consumer? && (p.pc == Entered || p.pc == Moved) then 1 else 0
  }

  /** How often a process still has to move its position on. */
  function Owed(p: Proc): nat { if p.pc == Counted && p.left > 0 then p.left - 1 else p.left }
  function ProdOwed(p: Proc): nat { if p.kind.Producer? then Owed(p) else 0 }
  function ConsOwed(p: Proc): nat { if p.kind.Consumer? then Owed(p) else 0 }

  /** The steps a process still has to make. */
  function Work(p: Proc): nat {
    if p.left == 0 then 0
    else 4 * p.left - match p.pc case Outside => 0 case Entered => 1 case Moved => 2 case Counted => 3
  }

  /** Items that a process has stored or taken, given how it started. */
  function Done(p0: Proc, p: Proc): int {
    p0.left - p.left + if p.pc == Moved || p.pc == Counted then 1 else 0
  }

  predicate SameLife(p0: Proc, p: Proc) {
    && p.kind == p0.kind
    && (p.pc != Outside ==> p.left > 0)
    && p.left <= p0.left
    && p.value - p0.value == p0.left - p.left
  }

  ghost predicate Shape(s: State, procs0: seq<Proc>) {
    && |s.sems| == 3
    && |s.procs| == |procs0|
    && forall i | 0 <= i < |s.procs| :: SameLife(procs0[i], s.procs[i])
  }

  /** Conservation: one token for the buffer, `n` tokens for its places. */
  ghost predicate Balance(s: State, n: nat)
    requires |s.sems| == 3
  {
    && s.sems[SB] >= 0 && s.sems[SE] >= 0 && s.sems[SM] >= 0
    && s.sems[SB] + Sum(Inside, s.procs) == 1
    && s.sems[SE] + s.sems[SM] + Sum(Inside, s.procs) == n
    && s.sems[SM] + Sum(ProdCounted, s.procs) + Sum(ConsUncounted, s.procs) == s.posProd - s.posConsum
  }

  /** Every slot holds the line that was produced at it, and line `k` of the
      consumers repeats position and value of line `k` of the producers. */
  ghost predicate Logs(s: State) {
    && |s.produced| == s.posProd + Sum(ProdMoved, s.procs)
    && |s.consumed| == s.posConsum + Sum(ConsMoved, s.procs)
    && |s.consumed| <= |s.produced|
    && (forall k | 0 <= k < |s.produced| :: s.produced[k].id < |s.procs|)
    && (forall k: nat :: k in s.cells <==> k < |s.produced|)
    && (forall k | 0 <= k < |s.produced| :: s.produced[k].pos == k && s.cells[k] == s.produced[k].value)
    && (forall k | 0 <= k < |s.consumed| :: s.consumed[k].pos == k && s.consumed[k].value == s.produced[k].value)
  }

  ghost predicate Totals(s: State, procs0: seq<Proc>) {
    && s.posProd + Sum(ProdOwed, s.procs) == Sum(ProdOwed, procs0)
    && s.posConsum + Sum(ConsOwed, s.procs) == Sum(ConsOwed, procs0)
  }

  /** The values in the lines of one process. */
  function Values(lines: seq<Line>, id: nat): seq<int> {
    if lines == [] then []
    else
      var last := lines[|lines| - 1];
      Values(lines[..|lines| - 1], id) + if last.id == id then [last.value] else []
  }

  function Consecutive(v: int, n: nat): (r: seq<int>)
    ensures |r| == n
  {
    seq(n, k => v + k)
  }

  ghost predicate ShareOf(s: State, i: nat, p0: Proc)
    requires i < |s.procs|
  {
    var done := Done(p0, s.procs[i]);
    && done >= 0
    && Values(s.produced, i) == (if p0.kind.Producer? then Consecutive(p0.value, done) else [])
    && |Values(s.consumed, i)| == if p0.kind.Consumer? then done else 0
  }

  ghost predicate Shares(s: State, procs0: seq<Proc>)
    requires |s.procs| == |procs0|
  {
    forall i | 0 <= i < |s.procs| :: ShareOf(s, i, procs0[i])
  }

  ghost predicate Inv(s: State, procs0: seq<Proc>, n: nat) {
    Shape(s, procs0) && Balance(s, n) && Logs(s) && Totals(s, procs0) && Shares(s, procs0)
  }

  // ------------------------------------------------- the invariant is kept

  lemma InitInv(procs0: seq<Proc>, n: nat)
    requires Fresh(procs0)
    ensures Inv(Initial(procs0, n), procs0, n)
  {
    var m := |procs0|;
    SumToZero(Inside, procs0, m);
    SumToZero(ProdMoved, procs0, m);
    SumToZero(ConsMoved, procs0, m);
    SumToZero(ProdCounted, procs0, m);
    SumToZero(ConsUncounted, procs0, m);
    forall i | 0 <= i < m
      ensures ShareOf(Initial(procs0, n), i, procs0[i])
    {
      assert Done(procs0[i], procs0[i]) == 0;
    }
  }

  /** The process that moves is the only one that can be inside. */
  lemma Alone(f: Proc -> nat, s: State, n: nat, i: nat)
    requires |s.sems| == 3 && Balance(s, n) && Enabled(s, i)
    requires forall p :: f(p) <= Inside(p)
    ensures Sum(f, s.procs) == f(s.procs[i])
    ensures Sum(f, Step(s, i).procs) == f(Step(s, i).procs[i])
  {
    var m := |s.procs|;
    Gates(s.sems);
    SumAtLeast(Inside, s.procs, i);
    if s.procs[i].pc == Outside {
      forall j | 0 <= j < m
        ensures f(s.procs[j]) == 0
      {
        SumAtLeast(Inside, s.procs, j);
      }
      SumToZero(f, s.procs, m);
    } else {
      OnlyOne(f, Inside, s.procs, m, i);
    }
    SumUpdate(f, s.procs, i, Step(s, i).procs[i]);
  }

  lemma StepShape(s: State, procs0: seq<Proc>, i: nat)
    requires Shape(s, procs0) && Enabled(s, i)
    ensures Shape(Step(s, i), procs0)
  {
    assert SameLife(procs0[i], s.procs[i]);
    forall j | 0 <= j < |s.procs|
      ensures SameLife(procs0[j], Step(s, i).procs[j])
    {
      assert SameLife(procs0[j], s.procs[j]);
    }
  }

  lemma StepSems(s: State, i: nat)
    requires |s.sems| == 3 && Enabled(s, i)
    ensures var p, t, t' := s.procs[i], s.sems, Step(s, i).sems;
      match p.pc
      case Outside => t[SB] >= 1 && (if p.kind.Producer?
                        then t[SE] >= 1 && t' == [t[SB] - 1, t[SE] - 1, t[SM]]
                        else t[SM] >= 1 && t' == [t[SB] - 1, t[SE], t[SM] - 1])
      case Counted => t' == if p.kind.Producer? then [t[SB] + 1, t[SE], t[SM] + 1] else [t[SB] + 1, t[SE] + 1, t[SM]]
      case _ => t' == t
  {
    Gates(s.sems);
  }

  lemma StepBalance(s: State, n: nat, i: nat)
    requires |s.sems| == 3 && Balance(s, n) && Enabled(s, i)
    ensures Balance(Step(s, i), n)
  {
    StepSems(s, i);
    Alone(Inside, s, n, i);
    Alone(ProdCounted, s, n, i);
    Alone(ConsUncounted, s, n, i);
  }

  /** What the counting of the processes says of the one that moves. */
  lemma StepLengths(s: State, n: nat, i: nat)
    requires |s.sems| == 3 && Balance(s, n) && Enabled(s, i) && Logs(s)
    ensures var p, s' := s.procs[i], Step(s, i);
      && |s'.produced| == s'.posProd + Sum(ProdMoved, s'.procs)
      && |s'.consumed| == s'.posConsum + Sum(ConsMoved, s'.procs)
      && (p.pc == Entered ==> |s.produced| == s.posProd && |s.consumed| == s.posConsum)
      && (p.pc == Entered && p.kind.Consumer? ==> s.posConsum < |s.produced|)
  {
    Alone(ProdMoved, s, n, i);
    Alone(ConsMoved, s, n, i);
    Alone(ConsUncounted, s, n, i);
    Alone(ProdCounted, s, n, i);
  }

  lemma StepLogs(s: State, n: nat, i: nat)
    requires |s.sems| == 3 && Balance(s, n) && Enabled(s, i) && Logs(s)
    ensures Logs(Step(s, i))
  {
    StepLengths(s, n, i);
    if s.procs[i].pc == Entered && s.procs[i].kind.Consumer? {
      assert s.posConsum in s.cells;
    }
  }

  lemma StepTotals(s: State, procs0: seq<Proc>, i: nat)
    requires Shape(s, procs0) && Enabled(s, i) && Totals(s, procs0)
    ensures Totals(Step(s, i), procs0)
  {
    assert SameLife(procs0[i], s.procs[i]);
    SumUpdate(ProdOwed, s.procs, i, Step(s, i).procs[i]);
    SumUpdate(ConsOwed, s.procs, i, Step(s, i).procs[i]);
  }

  lemma ValuesAppend(lines: seq<Line>, l: Line, id: nat)
    ensures Values(lines + [l], id) == Values(lines, id) + if l.id == id then [l.value] else []
  {
    assert (lines + [l])[..|lines|] == lines;
  }

  lemma ConsecutiveNext(v: int, n: nat)
    ensures Consecutive(v, n + 1) == Consecutive(v, n) + [v + n]
  {
  }

  /** Only a step from Entered prints, and it prints one line. */
  lemma StepValues(s: State, i: nat, j: nat)
    requires |s.sems| == 3 && Enabled(s, i)
    ensures var p := s.procs[i];
      && Values(Step(s, i).produced, j) == Values(s.produced, j) +
           (if i == j && p.pc == Entered && p.kind.Producer? then [p.value] else [])
      && |Values(Step(s, i).consumed, j)| == |Values(s.consumed, j)| +
           if i == j && p.pc == Entered && p.kind.Consumer? then 1 else 0
  {
    var p := s.procs[i];
    if p.pc == Entered {
      if p.kind.Producer? {
        ValuesAppend(s.produced, Line(i, s.posProd, p.value), j);
      } else {
        ValuesAppend(s.consumed, Line(i, s.posConsum, CellAt(s, s.posConsum)), j);
      }
    }
  }

  lemma StepDone(s: State, i: nat, p0: Proc)
    requires |s.sems| == 3 && Enabled(s, i) && SameLife(p0, s.procs[i])
    ensures Done(p0, Step(s, i).procs[i]) == Done(p0, s.procs[i]) + if s.procs[i].pc == Entered then 1 else 0
    ensures s.procs[i].pc == Entered ==> s.procs[i].value == p0.value + Done(p0, s.procs[i])
  {
  }

  lemma StepShare(s: State, procs0: seq<Proc>, i: nat, j: nat)
    requires Shape(s, procs0) && Enabled(s, i)
    requires j < |s.procs| && ShareOf(s, j, procs0[j])
    ensures ShareOf(Step(s, i), j, procs0[j])
  {
    StepValues(s, i, j);
    var done := Done(procs0[j], s.procs[j]);
    if i == j {
      assert SameLife(procs0[i], s.procs[i]);
      StepDone(s, i, procs0[i]);
      ConsecutiveNext(procs0[i].value, done);
    } else {
      assert Step(s, i).procs[j] == s.procs[j];
    }
  }

  lemma StepInv(s: State, procs0: seq<Proc>, n: nat, i: nat)
    requires Inv(s, procs0, n) && Enabled(s, i)
    ensures Inv(Step(s, i), procs0, n)
  {
    StepShape(s, procs0, i);
    StepBalance(s, n, i);
    StepLogs(s, n, i);
    StepTotals(s, procs0, i);
    forall j | 0 <= j < |s.procs|
      ensures ShareOf(Step(s, i), j, procs0[j])
    {
      StepShare(s, procs0, i, j);
    }
  }

  lemma {:induction false} RunInv(s: State, procs0: seq<Proc>, n: nat, schedule: seq<nat>)
    requires Inv(s, procs0, n) && Legal(s, schedule)
    ensures Inv(After(s, schedule), procs0, n)
    decreases |schedule|
  {
    if schedule != [] {
      StepInv(s, procs0, n, schedule[0]);
      RunInv(Step(s, schedule[0]), procs0, n, schedule[1..]);
    }
  }

  // ------------------------------------------------------------- theorems

  /** A state that some interleaving of the processes reaches. */
  ghost predicate Reachable(s: State, procs0: seq<Proc>, n: nat) {
    Fresh(procs0) && exists schedule: seq<nat> :: Leads(procs0, n, schedule, s)
  }

  ghost predicate Leads(procs0: seq<Proc>, n: nat, schedule: seq<nat>, s: State) {
    Legal(Initial(procs0, n), schedule) && After(Initial(procs0, n), schedule) == s
  }

  lemma ReachableInv(s: State, procs0: seq<Proc>, n: nat)
    requires Reachable(s, procs0, n)
    ensures Inv(s, procs0, n)
  {
    var schedule :| Leads(procs0, n, schedule, s);
    InitInv(procs0, n);
    RunInv(Initial(procs0, n), procs0, n, schedule);
  }

  lemma PositionGap(s: State, n: nat)
    requires |s.sems| == 3 && Balance(s, n)
    ensures Sum(ProdCounted, s.procs) + Sum(ConsUncounted, s.procs) <= Sum(Inside, s.procs)
  {
    var m := |s.procs|;
    if exists i: nat :: i < m && s.procs[i].pc != Outside {
      var i: nat :| i < m && s.procs[i].pc != Outside;
      SumAtLeast(Inside, s.procs, i);
      OnlyOne(ProdCounted, Inside, s.procs, m, i);
      OnlyOne(ConsUncounted, Inside, s.procs, m, i);
    } else {
      SumToZero(ProdCounted, s.procs, m);
      SumToZero(ConsUncounted, s.procs, m);
    }
  }

  /** Conservation: at most one process is inside, and the positions never
      drift apart by more than the number of places. */
  lemma Conservation(s: State, procs0: seq<Proc>, n: nat)
    requires Reachable(s, procs0, n)
    ensures |s.sems| == 3 && s.sems[SB] + Sum(Inside, s.procs) == 1
    ensures s.sems[SE] + s.sems[SM] + Sum(Inside, s.procs) == n
    ensures s.sems[SB] >= 0 && s.sems[SE] >= 0 && s.sems[SM] >= 0
    ensures 0 <= s.posProd - s.posConsum <= n
    ensures forall i, j | 0 <= i < j < |s.procs| :: s.procs[i].pc == Outside || s.procs[j].pc == Outside
  {
    ReachableInv(s, procs0, n);
    PositionGap(s, n);
    forall i, j | 0 <= i < j < |s.procs|
      ensures s.procs[i].pc == Outside || s.procs[j].pc == Outside
    {
      Exclusion(Inside, s.procs, i, j);
    }
  }

  /** Lines of one producer carry growing values. */
  lemma {:induction false} Growing(lines: seq<Line>, id: nat, v: int, n: nat, k: nat, l: nat)
    requires Values(lines, id) == Consecutive(v, n)
    requires k < l < |lines| && lines[k].id == id && lines[l].id == id
    ensures lines[k].value < lines[l].value
  {
    var init := lines[..|lines| - 1];
    if lines[|lines| - 1].id != id {
      Growing(init, id, v, n, k, l);
    } else {
      assert Values(lines, id) == Values(init, id) + [lines[|lines| - 1].value];
      assert Values(init, id) == Consecutive(v, n)[..n - 1] == Consecutive(v, n - 1);
      assert lines[|lines| - 1].value == Consecutive(v, n)[n - 1];
      if l < |lines| - 1 {
        Growing(init, id, v, n - 1, k, l);
      } else {
        ValueOccurs(init, id, k);
      }
    }
  }

  lemma {:induction false} ValueOccurs(lines: seq<Line>, id: nat, k: nat)
    requires k < |lines| && lines[k].id == id
    ensures lines[k].value in Values(lines, id)
  {
    if k < |lines| - 1 {
      ValueOccurs(lines[..|lines| - 1], id, k);
    }
  }

  /** First in, first out, exactly once: in every interleaving the consumed
      values are a prefix of the produced ones, each slot being used once by
      each side, and the values of one producer are consumed in growing order. */
  lemma Fifo(s: State, procs0: seq<Proc>, n: nat)
    requires Reachable(s, procs0, n)
    ensures |s.consumed| <= |s.produced|
    ensures forall k | 0 <= k < |s.consumed| :: s.consumed[k].value == s.produced[k].value
    ensures forall k | 0 <= k < |s.produced| :: s.produced[k].pos == k
    ensures forall k | 0 <= k < |s.consumed| :: s.consumed[k].pos == k
    ensures forall k, l | 0 <= k < l < |s.consumed| && s.produced[k].id == s.produced[l].id ::
      s.consumed[k].value < s.consumed[l].value
  {
    ReachableInv(s, procs0, n);
    forall k, l | 0 <= k < l < |s.consumed| && s.produced[k].id == s.produced[l].id
      ensures s.consumed[k].value < s.consumed[l].value
    {
      var i := s.produced[k].id;
      assert ShareOf(s, i, procs0[i]);
      if procs0[i].kind.Producer? {
        Growing(s.produced, i, procs0[i].value, Done(procs0[i], s.procs[i]), k, l);
      } else {
        ValueOccurs(s.produced, i, k);
        assert false;
      }
    }
  }

  /** What each process has printed: producer `i` its own consecutive values,
      consumer `i` one line for each of its finished reads. */
  lemma EachShare(s: State, procs0: seq<Proc>, n: nat, i: nat)
    requires Reachable(s, procs0, n) && i < |procs0|
    ensures |s.procs| == |procs0| && Done(procs0[i], s.procs[i]) >= 0
    ensures procs0[i].kind.Producer? ==>
      Values(s.produced, i) == Consecutive(procs0[i].value, Done(procs0[i], s.procs[i]))
    ensures procs0[i].kind.Producer? ==>
      forall k | 0 <= k < |Values(s.produced, i)| :: Values(s.produced, i)[k] == procs0[i].value + k
    ensures procs0[i].kind.Consumer? ==> |Values(s.consumed, i)| == Done(procs0[i], s.procs[i])
  {
    ReachableInv(s, procs0, n);
    assert ShareOf(s, i, procs0[i]);
  }

  /** No slot is read before it is written, and no slot is used past the number
      of values to produce. */
  lemma SlotsInOrder(s: State, procs0: seq<Proc>, n: nat, i: nat)
    requires Reachable(s, procs0, n) && i < |s.procs| && s.procs[i].pc == Entered
    ensures s.procs[i].kind.Consumer? ==> s.posConsum in s.cells && s.posConsum < Sum(ProdOwed, procs0)
    ensures s.procs[i].kind.Producer? ==> s.posProd !in s.cells && s.posProd < Sum(ProdOwed, procs0)
  {
    ReachableInv(s, procs0, n);
    EnteredSlot(s, procs0, n, i);
  }

  lemma EnteredSlot(s: State, procs0: seq<Proc>, n: nat, i: nat)
    requires Inv(s, procs0, n) && i < |s.procs| && s.procs[i].pc == Entered
    ensures s.procs[i].kind.Consumer? ==> s.posConsum in s.cells && s.posConsum < Sum(ProdOwed, procs0)
    ensures s.procs[i].kind.Producer? ==> s.posProd !in s.cells && s.posProd < Sum(ProdOwed, procs0)
  {
    assert SameLife(procs0[i], s.procs[i]);
    Alone(ConsUncounted, s, n, i);
    Alone(ProdMoved, s, n, i);
    SumAtLeast(ProdOwed, s.procs, i);
  }

  ghost predicate AllDone(s: State) {
    forall i | 0 <= i < |s.procs| :: s.procs[i].left == 0
  }

  ghost predicate Stuck(s: State)
    requires |s.sems| == 3
  {
    forall i: nat :: !Enabled(s, i)
  }

  /** The counts that let everybody finish: what is not consumed fits in the
      buffer, and there is at least one place unless nothing is to be done. */
  predicate Balanced(procs0: seq<Proc>, n: nat) {
    var p, c := Sum(ProdOwed, procs0), Sum(ConsOwed, procs0);
    c <= p <= c + n && (n >= 1 || p == 0)
  }

  /** The processes that main() creates: consumers of 4 and 5 values, and three
      producers of 3 each. */
  const MAIN: seq<Proc> := [
    Proc(Consumer, Outside, 4, 0), Proc(Consumer, Outside, 5, 0),
    Proc(Producer, Outside, 3, 0), Proc(Producer, Outside, 3, 10), Proc(Producer, Outside, 3, 100)]

  /** Its nine values fill the nine places of the array, and all get consumed. */
  lemma MainBalanced()
    ensures Fresh(MAIN) && Balanced(MAIN, 9)
    ensures Sum(ProdOwed, MAIN) == Sum(ConsOwed, MAIN) == 9
  {
    assert SumTo(ProdOwed, MAIN, 2) == 0 && SumTo(ConsOwed, MAIN, 2) == 9;
    assert SumTo(ProdOwed, MAIN, 4) == 6 && SumTo(ConsOwed, MAIN, 4) == 9;
  }

  /** A process inside can always go on. */
  lemma StuckMeansOutside(s: State, procs0: seq<Proc>)
    requires Shape(s, procs0) && Stuck(s)
    ensures forall i | 0 <= i < |s.procs| :: s.procs[i].pc == Outside
    ensures Sum(Inside, s.procs) == 0 && Sum(ProdCounted, s.procs) == 0 && Sum(ConsUncounted, s.procs) == 0
  {
    Gates(s.sems);
    var m := |s.procs|;
    forall i | 0 <= i < m
      ensures s.procs[i].pc == Outside
    {
      assert SameLife(procs0[i], s.procs[i]);
      assert !Enabled(s, i);
    }
    SumToZero(Inside, s.procs, m);
    SumToZero(ProdCounted, s.procs, m);
    SumToZero(ConsUncounted, s.procs, m);
  }

  /** Whoever still has calls to make is held back by a semaphore. */
  lemma StuckHeldBack(s: State, i: nat)
    requires |s.sems| == 3 && i < |s.procs| && !Enabled(s, i)
    requires s.procs[i].pc == Outside && s.procs[i].left > 0 && s.sems[SB] == 1
    ensures s.procs[i].kind.Producer? ==> s.sems[SE] <= 0
    ensures s.procs[i].kind.Consumer? ==> s.sems[SM] <= 0
  {
    Gates(s.sems);
  }

  lemma StuckOutside(s: State, procs0: seq<Proc>, n: nat)
    requires Inv(s, procs0, n) && Stuck(s)
    ensures s.sems[SB] == 1 && s.sems[SE] == n - (s.posProd - s.posConsum)
    ensures s.sems[SM] == s.posProd - s.posConsum
    ensures Sum(ProdOwed, s.procs) == 0 || s.sems[SE] == 0
    ensures Sum(ConsOwed, s.procs) == 0 || s.sems[SM] == 0
  {
    StuckMeansOutside(s, procs0);
    if Sum(ProdOwed, s.procs) > 0 {
      var i := PositiveTerm(ProdOwed, s.procs, |s.procs|);
      StuckHeldBack(s, i);
    }
    if Sum(ConsOwed, s.procs) > 0 {
      var i := PositiveTerm(ConsOwed, s.procs, |s.procs|);
      StuckHeldBack(s, i);
    }
  }

  lemma NothingOwed(s: State, procs0: seq<Proc>)
    requires Shape(s, procs0)
    ensures AllDone(s) ==> Sum(ProdOwed, s.procs) == 0 && Sum(ConsOwed, s.procs) == 0
    ensures (Sum(ProdOwed, s.procs) == 0 && Sum(ConsOwed, s.procs) == 0
             && forall i | 0 <= i < |s.procs| :: s.procs[i].pc == Outside) ==> AllDone(s)
  {
    if AllDone(s) {
      SumToZero(ProdOwed, s.procs, |s.procs|);
      SumToZero(ConsOwed, s.procs, |s.procs|);
    }
    forall i | 0 <= i < |s.procs|
      ensures Sum(ProdOwed, s.procs) >= ProdOwed(s.procs[i]) && Sum(ConsOwed, s.procs) >= ConsOwed(s.procs[i])
    {
      SumAtLeast(ProdOwed, s.procs, i);
      SumAtLeast(ConsOwed, s.procs, i);
    }
  }

  /** Deadlock freedom: with balanced counts every reachable state in which
      somebody still has work has a process that can move. */
  lemma DeadlockFree(s: State, procs0: seq<Proc>, n: nat)
    requires Reachable(s, procs0, n) && Balanced(procs0, n) && !AllDone(s)
    ensures exists i: nat :: Enabled(s, i)
  {
    ReachableInv(s, procs0, n);
    if Stuck(s) {
      StuckOutside(s, procs0, n);
      forall i | 0 <= i < |s.procs|
        ensures s.procs[i].pc == Outside
      {
        SumAtLeast(Inside, s.procs, i);
      }
      NothingOwed(s, procs0);
      assert false;
    }
  }

  lemma StepWork(s: State, procs0: seq<Proc>, i: nat)
    requires Shape(s, procs0) && Enabled(s, i)
    ensures Sum(Work, Step(s, i).procs) == Sum(Work, s.procs) - 1
  {
    assert SameLife(procs0[i], s.procs[i]);
    SumUpdate(Work, s.procs, i, Step(s, i).procs[i]);
  }

  lemma {:induction false} WorkShrinks(s: State, procs0: seq<Proc>, schedule: seq<nat>)
    requires Shape(s, procs0) && Legal(s, schedule)
    ensures |schedule| + Sum(Work, After(s, schedule).procs) == Sum(Work, s.procs)
    decreases |schedule|
  {
    if schedule != [] {
      StepWork(s, procs0, schedule[0]);
      StepShape(s, procs0, schedule[0]);
      WorkShrinks(Step(s, schedule[0]), procs0, schedule[1..]);
    }
  }

  /** Once the buffer token is back, nobody is inside. */
  lemma Outsiders(s: State, procs0: seq<Proc>, n: nat)
    requires Inv(s, procs0, n) && s.sems[SB] == 1
    ensures forall i | 0 <= i < |s.procs| :: s.procs[i].pc == Outside
    ensures Sum(ProdMoved, s.procs) == 0 && Sum(ConsMoved, s.procs) == 0
  {
    forall i | 0 <= i < |s.procs|
      ensures s.procs[i].pc == Outside
    {
      SumAtLeast(Inside, s.procs, i);
    }
    SumToZero(ProdMoved, s.procs, |s.procs|);
    SumToZero(ConsMoved, s.procs, |s.procs|);
  }

  /** Without a place nobody ever moves. */
  lemma NoPlace(procs0: seq<Proc>, i: nat)
    requires Fresh(procs0)
    ensures !Enabled(Initial(procs0, 0), i)
  {
    Gates([1, 0, 0]);
  }

  /** The arithmetic of an end: `x` and `y` moves are still owed. */
  lemma EndBalance(n: nat, posProd: nat, posConsum: nat, x: nat, y: nat)
    requires 0 <= posProd - posConsum <= n && (n == 0 ==> posProd == 0)
    requires x == 0 || posProd - posConsum == n
    requires y == 0 || posProd == posConsum
    ensures var p, c := posProd + x, posConsum + y;
      x == 0 && y == 0 <==> c <= p <= c + n && (n >= 1 || p == 0)
  {
  }

  lemma StuckEnd(s: State, procs0: seq<Proc>, n: nat)
    requires Inv(s, procs0, n) && Stuck(s) && (n == 0 ==> s.posProd == 0)
    ensures AllDone(s) <==> Balanced(procs0, n)
    ensures Balanced(procs0, n) ==>
      var p, c := Sum(ProdOwed, procs0), Sum(ConsOwed, procs0);
      s.posProd == p && s.posConsum == c && s.sems == [1, n - (p - c), p - c]
  {
    StuckOutside(s, procs0, n);
    StuckMeansOutside(s, procs0);
    NothingOwed(s, procs0);
    EndBalance(n, s.posProd, s.posConsum, Sum(ProdOwed, s.procs), Sum(ConsOwed, s.procs));
  }

  /** Termination: no interleaving is longer than the work handed out, and a
      run that cannot go on has finished all of it exactly when the counts are
      balanced.  The semaphores then hold what was left over. */
  lemma MaximalRun(procs0: seq<Proc>, n: nat, schedule: seq<nat>)
    requires Fresh(procs0) && Legal(Initial(procs0, n), schedule)
    ensures |schedule| <= Sum(Work, procs0)
    ensures Stuck(After(Initial(procs0, n), schedule)) ==>
      (AllDone(After(Initial(procs0, n), schedule)) <==> Balanced(procs0, n))
    ensures Stuck(After(Initial(procs0, n), schedule)) && Balanced(procs0, n) ==>
      var s := After(Initial(procs0, n), schedule);
      var p, c := Sum(ProdOwed, procs0), Sum(ConsOwed, procs0);
      && s.posProd == p == |s.produced|
      && s.posConsum == c == |s.consumed|
      && s.sems == [1, n - (p - c), p - c]
      && |schedule| == Sum(Work, procs0)
  {
    var s0 := Initial(procs0, n);
    var s := After(s0, schedule);
    InitInv(procs0, n);
    RunInv(s0, procs0, n, schedule);
    WorkShrinks(s0, procs0, schedule);
    if Stuck(s) {
      if n == 0 && schedule != [] {
        NoPlace(procs0, schedule[0]);
      }
      StuckEnd(s, procs0, n);
      StuckOutside(s, procs0, n);
      Outsiders(s, procs0, n);
      if Balanced(procs0, n) {
        SumToZero(Work, s.procs, |s.procs|);
      }
    }
  }
}
