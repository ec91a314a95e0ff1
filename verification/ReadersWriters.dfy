/** Readers and writers of one shared integer.  Who may enter is written down
    in four arrays of semaphore operations. */
module ReadersWriters {
  import opened Semop
  import opened Tallies

  const READER: nat := 0
  const AWRITER: nat := 1
  const BIN_A_WRITER: nat := 2
  const WAIT_WRITER: nat := 3

  const START_READ: seq<Sembuf> := [
    Sembuf(WAIT_WRITER, 0), Sembuf(AWRITER, 0), Sembuf(READER, 1),
    Sembuf(WAIT_WRITER, -1), Sembuf(BIN_A_WRITER, 1)]
  const STOP_READ: seq<Sembuf> := [Sembuf(READER, -1)]
  const START_WRITE: seq<Sembuf> := [
    Sembuf(WAIT_WRITER, 1), Sembuf(READER, 0), Sembuf(BIN_A_WRITER, -1),
    Sembuf(AWRITER, 1), Sembuf(WAIT_WRITER, -1)]
  const STOP_WRITE: seq<Sembuf> := [Sembuf(AWRITER, -1), Sembuf(BIN_A_WRITER, 1)]

  /** Where a process is in its loop.  The increment of the shared integer is a
      load and a store, with other processes free to run in between. */
  datatype Pc = Away | Entered | Loaded(tmp: int) | Stored | Leaving

  datatype Role = Reader | Writer {
    /** reader() passes the first three entries of its array only. */
    function Start(): seq<Sembuf> { if Reader? then START_READ[..3] else START_WRITE }
    function Stop(): seq<Sembuf> { if Reader? then STOP_READ else STOP_WRITE }
  }

  datatype Proc = Proc(role: Role, pc: Pc)

  datatype Line = Line(id: nat, role: Role, value: int)

  /** `stores` counts the increments done, `log` holds the lines printed. */
  datatype State = State(sems: seq<int>, value: int, procs: seq<Proc>, stores: nat, log: seq<Line>)

  /** Only semaphore 2 is set; a new set starts at zero. */
  function Initial(procs: seq<Proc>): State {
    State([0, 0, 1, 0], 0, procs, 0, [])
  }

  predicate Fresh(procs: seq<Proc>) {
    forall i | 0 <= i < |procs| :: procs[i].pc == Away
  }

  // ---------------------------------------------------------------- steps

  predicate Enabled(s: State, i: nat)
    requires |s.sems| == 4
  {
    && i < |s.procs|
    && (s.procs[i].pc == Away ==> Admissible(s.sems, s.procs[i].role.Start()))
    && (s.procs[i].pc == Leaving ==> Admissible(s.sems, s.procs[i].role.Stop()))
  }

  function Step(s: State, i: nat): (s': State)
    requires |s.sems| == 4 && Enabled(s, i)
    ensures |s'.sems| == 4 && |s'.procs| == |s.procs|
  {
    var p := s.procs[i];
    match p.pc
    case Away =>
      s.(sems := Effect(s.sems, p.role.Start()), procs := s.procs[i := p.(pc := Entered)])
    case Entered =>
      if p.role.Writer? then
        s.(procs := s.procs[i := p.(pc := Loaded(s.value))])
      else
        s.(log := s.log + [Line(i, Reader, s.value)], procs := s.procs[i := p.(pc := Leaving)])
    case Loaded(tmp) =>
      s.(value := tmp + 1, stores := s.stores + 1, procs := s.procs[i := p.(pc := Stored)])
    case Stored =>
      s.(log := s.log + [Line(i, Writer, s.value)], procs := s.procs[i := p.(pc := Leaving)])
    case Leaving =>
      s.(sems := Effect(s.sems, p.role.Stop()), procs := s.procs[i := p.(pc := Away)])
  }

  predicate Legal(s: State, schedule: seq<nat>)
    requires |s.sems| == 4
    decreases |schedule|
  {
    schedule == [] || (Enabled(s, schedule[0]) && Legal(Step(s, schedule[0]), schedule[1..]))
  }

  function After(s: State, schedule: seq<nat>): (s': State)
    requires |s.sems| == 4 && Legal(s, schedule)
    ensures |s'.sems| == 4
    decreases |schedule|
  {
    if schedule == [] then s else After(Step(s, schedule[0]), schedule[1..])
  }

  // ---------------------------------------------------------------- gates

  lemma ReadGates(sems: seq<int>)
    requires |sems| == 4
    ensures Admissible(sems, START_READ[..3]) <==> sems[WAIT_WRITER] == 0 && sems[AWRITER] == 0
    ensures Effect(sems, START_READ[..3]) == sems[READER := sems[READER] + 1]
    ensures Admissible(sems, STOP_READ) <==> sems[READER] >= 1
    ensures Effect(sems, STOP_READ) == sems[READER := sems[READER] - 1]
  {
    var ops := START_READ[..3];
    assert ops == [Sembuf(WAIT_WRITER, 0), Sembuf(AWRITER, 0), Sembuf(READER, 1)];
    assert forall s :: Net(ops, 1, s) == Net(ops, 0, s) == 0;
    assert forall s :: Net(ops, 2, s) == 0;
    assert forall s :: Net(ops, 3, s) == if s == READER then 1 else 0;
    assert PassesAt(sems, ops, 0) <==> sems[WAIT_WRITER] == 0;
    assert PassesAt(sems, ops, 1) <==> sems[AWRITER] == 0;
    assert PassesAt(sems, ops, 2);
    assert forall s :: Net(STOP_READ, 1, s) == Net(STOP_READ, 0, s) + if s == READER then -1 else 0;
    assert PassesAt(sems, STOP_READ, 0) <==> sems[READER] >= 1;
  }

  lemma WriteGates(sems: seq<int>)
    requires |sems| == 4
    ensures Admissible(sems, START_WRITE) <==>
      sems[READER] == 0 && sems[BIN_A_WRITER] >= 1 && sems[WAIT_WRITER] >= 0
    ensures Effect(sems, START_WRITE) ==
      sems[AWRITER := sems[AWRITER] + 1][BIN_A_WRITER := sems[BIN_A_WRITER] - 1]
    ensures Admissible(sems, STOP_WRITE) <==> sems[AWRITER] >= 1
    ensures Effect(sems, STOP_WRITE) ==
      sems[AWRITER := sems[AWRITER] - 1][BIN_A_WRITER := sems[BIN_A_WRITER] + 1]
  {
    var ops := START_WRITE;
    assert forall s :: Net(ops, 0, s) == 0;
    assert forall s :: Net(ops, 1, s) == if s == WAIT_WRITER then 1 else 0;
    assert forall s :: Net(ops, 2, s) == Net(ops, 1, s);
    assert forall s :: Net(ops, 3, s) == Net(ops, 2, s) + if s == BIN_A_WRITER then -1 else 0;
    assert forall s :: Net(ops, 4, s) == Net(ops, 3, s) + if s == AWRITER then 1 else 0;
    assert forall s :: Net(ops, 5, s) == Net(ops, 4, s) + if s == WAIT_WRITER then -1 else 0;
    assert PassesAt(sems, ops, 0) && PassesAt(sems, ops, 3);
    assert PassesAt(sems, ops, 1) <==> sems[READER] == 0;
    assert PassesAt(sems, ops, 2) <==> sems[BIN_A_WRITER] >= 1;
    assert PassesAt(sems, ops, 4) <==> sems[WAIT_WRITER] >= 0;
    StopWriteGate(sems);
  }

  lemma StopWriteGate(sems: seq<int>)
    requires |sems| == 4
    ensures Admissible(sems, STOP_WRITE) <==> sems[AWRITER] >= 1
    ensures Effect(sems, STOP_WRITE) ==
      sems[AWRITER := sems[AWRITER] - 1][BIN_A_WRITER := sems[BIN_A_WRITER] + 1]
  {
    var ops := STOP_WRITE;
    assert forall s :: Net(ops, 0, s) == 0;
    assert forall s :: Net(ops, 1, s) == if s == AWRITER then -1 else 0;
    assert forall s :: Net(ops, 2, s) == Net(ops, 1, s) + if s == BIN_A_WRITER then 1 else 0;
    assert PassesAt(sems, ops, 0) <==> sems[AWRITER] >= 1;
    assert PassesAt(sems, ops, 1);
  }

  // ------------------------------------------------------------ invariant

  function Reading(p: Proc): nat { if p.role.Reader? && p.pc != Away then 1 else 0 }
  function Writing(p: Proc): nat { if p.role.Writer? && p.pc != Away then 1 else 0 }
  /** A writer between its store and its line. */
  function Unprinted(p: Proc): nat { if p.role.Writer? && p.pc == Stored then 1 else 0 }

  ghost predicate Counts(s: State) {
    && |s.sems| == 4
    && s.sems[READER] == Sum(Reading, s.procs)
    && s.sems[AWRITER] == Sum(Writing, s.procs) <= 1
    && s.sems[BIN_A_WRITER] == 1 - s.sems[AWRITER]
    && s.sems[WAIT_WRITER] == 0
    && (s.sems[READER] == 0 || s.sems[AWRITER] == 0)
  }

  predicate Sound(p: Proc, value: int) {
    && (p.role.Reader? ==> p.pc == Away || p.pc == Entered || p.pc == Leaving)
    && (p.pc.Loaded? ==> p.pc.tmp == value)
  }

  ghost predicate Values(s: State) {
    && s.value == s.stores
    && forall i | 0 <= i < |s.procs| :: Sound(s.procs[i], s.value)
  }

  /** The writers' lines among the first `k`. */
  function Writes(log: seq<Line>, k: nat): nat
    requires k <= |log|
  {
    if k == 0 then 0 else Writes(log, k - 1) + if log[k - 1].role.Writer? then 1 else 0
  }

  /** Every line shows the number of writers' lines up to it: writers print
      1, 2, 3, ..., and a reader prints the last number written. */
  ghost predicate Printed(s: State) {
    && s.stores == Writes(s.log, |s.log|) + Sum(Unprinted, s.procs)
    && forall k | 0 <= k < |s.log| :: s.log[k].value == Writes(s.log, k + 1)
  }

  ghost predicate Inv(s: State) {
    Counts(s) && Values(s) && Printed(s)
  }

  lemma InitInv(procs: seq<Proc>)
    requires Fresh(procs)
    ensures Inv(Initial(procs))
  {
    SumToZero(Reading, procs, |procs|);
    SumToZero(Writing, procs, |procs|);
    SumToZero(Unprinted, procs, |procs|);
  }

  lemma StepSums(f: Proc -> nat, s: State, i: nat)
    requires |s.sems| == 4 && Enabled(s, i)
    ensures Sum(f, Step(s, i).procs) == Sum(f, s.procs) - f(s.procs[i]) + f(Step(s, i).procs[i])
  {
    SumUpdate(f, s.procs, i, Step(s, i).procs[i]);
  }

  lemma StepCounts(s: State, i: nat)
    requires Counts(s) && Enabled(s, i)
    ensures Counts(Step(s, i))
  {
    StepSums(Reading, s, i);
    StepSums(Writing, s, i);
    SumAtLeast(Reading, s.procs, i);
    SumAtLeast(Writing, s.procs, i);
    var p := s.procs[i];
    if p.role.Reader? {
      ReadGates(s.sems);
    } else {
      WriteGates(s.sems);
    }
  }

  lemma StepValues(s: State, i: nat)
    requires Counts(s) && Values(s) && Enabled(s, i)
    ensures Values(Step(s, i))
  {
    var s' := Step(s, i);
    assert Sound(s.procs[i], s.value);
    forall j | 0 <= j < |s.procs|
      ensures Sound(s'.procs[j], s'.value)
    {
      assert Sound(s.procs[j], s.value);
      if j != i && s.procs[i].pc.Loaded? {
        Exclusion(Writing, s.procs, i, j);
      }
    }
  }

  lemma {:induction false} WritesPrefix(log: seq<Line>, l: Line, k: nat)
    requires k <= |log|
    ensures Writes(log + [l], k) == Writes(log, k)
  {
    if k > 0 {
      WritesPrefix(log, l, k - 1);
    }
  }

  /** A reader or a writer in a state to print has no unprinted store beside it. */
  lemma NoOther(s: State, i: nat)
    requires Counts(s) && i < |s.procs| && Reading(s.procs[i]) + Writing(s.procs[i]) == 1
    ensures Sum(Unprinted, s.procs) == Unprinted(s.procs[i])
  {
    SumAtLeast(Reading, s.procs, i);
    if Writing(s.procs[i]) == 1 {
      OnlyOne(Unprinted, Writing, s.procs, |s.procs|, i);
    } else {
      forall j | 0 <= j < |s.procs|
        ensures Unprinted(s.procs[j]) == 0
      {
        SumAtLeast(Writing, s.procs, j);
      }
      SumToZero(Unprinted, s.procs, |s.procs|);
    }
  }

  lemma StepPrinted(s: State, i: nat)
    requires Inv(s) && Enabled(s, i)
    ensures Printed(Step(s, i))
  {
    var s' := Step(s, i);
    assert Sound(s.procs[i], s.value);
    StepSums(Unprinted, s, i);
    if s'.log != s.log {
      NoOther(s, i);
      var l := s'.log[|s.log|];
      assert s'.log == s.log + [l];
      WritesPrefix(s.log, l, |s.log|);
      forall k | 0 <= k < |s'.log|
        ensures s'.log[k].value == Writes(s'.log, k + 1)
      {
        if k < |s.log| {
          WritesPrefix(s.log, l, k + 1);
        }
      }
    }
  }

  lemma {:induction false} RunInv(s: State, schedule: seq<nat>)
    requires Inv(s) && Legal(s, schedule)
    ensures Inv(After(s, schedule))
    decreases |schedule|
  {
    if schedule != [] {
      StepCounts(s, schedule[0]);
      StepValues(s, schedule[0]);
      StepPrinted(s, schedule[0]);
      RunInv(Step(s, schedule[0]), schedule[1..]);
    }
  }

  // ------------------------------------------------------------- theorems

  ghost predicate Leads(procs: seq<Proc>, schedule: seq<nat>, s: State) {
    Legal(Initial(procs), schedule) && After(Initial(procs), schedule) == s
  }

  /** A state that some interleaving of the processes reaches. */
  ghost predicate Reachable(s: State, procs: seq<Proc>) {
    Fresh(procs) && exists schedule: seq<nat> :: Leads(procs, schedule, s)
  }

  lemma ReachableInv(s: State, procs: seq<Proc>)
    requires Reachable(s, procs)
    ensures Inv(s)
  {
    var schedule :| Leads(procs, schedule, s);
    InitInv(procs);
    RunInv(Initial(procs), schedule);
  }

  /** What the semaphores count, for any number of readers and writers: at most
      one writer is inside, and never together with a reader. */
  lemma SemaphoresCount(s: State, procs: seq<Proc>)
    requires Reachable(s, procs)
    ensures |s.sems| == 4
    ensures s.sems[READER] == Sum(Reading, s.procs) && s.sems[AWRITER] == Sum(Writing, s.procs)
    ensures s.sems[BIN_A_WRITER] == 1 - s.sems[AWRITER] >= 0 && s.sems[WAIT_WRITER] == 0
    ensures forall i, j | 0 <= i < |s.procs| && 0 <= j < |s.procs| && i != j && Writing(s.procs[i]) == 1 ::
      s.procs[j].pc == Away
  {
    ReachableInv(s, procs);
    forall i, j | 0 <= i < |s.procs| && 0 <= j < |s.procs| && i != j && Writing(s.procs[i]) == 1
      ensures s.procs[j].pc == Away
    {
      Exclusion(Writing, s.procs, i, j);
      SumAtLeast(Writing, s.procs, i);
      SumAtLeast(Reading, s.procs, j);
    }
  }

  /** No increment is lost: the shared value is the number of increments done,
      the writers print 1, 2, 3, ... in order, and each reader prints the
      number that was printed last by a writer. */
  lemma NoLostIncrement(s: State, procs: seq<Proc>)
    requires Reachable(s, procs)
    ensures s.value == s.stores
    ensures forall k | 0 <= k < |s.log| :: s.log[k].value == Writes(s.log, k + 1)
  {
    ReachableInv(s, procs);
  }

  ghost predicate ReaderInside(s: State) {
    exists i: nat :: i < |s.procs| && Reading(s.procs[i]) == 1
  }

  /** While any reader is inside, no step of any process changes the shared
      value, and a line printed by it shows that value. */
  lemma StableStep(s: State, j: nat)
    requires Inv(s) && ReaderInside(s) && Enabled(s, j)
    ensures Step(s, j).value == s.value && Step(s, j).stores == s.stores
    ensures Step(s, j).log == s.log || Step(s, j).log == s.log + [Line(j, Reader, s.value)]
  {
    var i: nat :| i < |s.procs| && Reading(s.procs[i]) == 1;
    SumAtLeast(Reading, s.procs, i);
    SumAtLeast(Writing, s.procs, j);
    assert Sound(s.procs[j], s.value);
  }

  /** Some reader is inside whenever a process moves: one that stays, takes its
      own steps, or hands over to the next. */
  ghost predicate ReadThroughout(s: State, schedule: seq<nat>)
    requires |s.sems| == 4 && Legal(s, schedule)
    decreases |schedule|
  {
    schedule != [] ==> ReaderInside(s) && ReadThroughout(Step(s, schedule[0]), schedule[1..])
  }

  /** The lines `more` are readers' lines that show `value`. */
  predicate AllShow(more: seq<Line>, value: int) {
    forall k | 0 <= k < |more| :: more[k].role.Reader? && more[k].value == value
  }

  /** Over any such run the shared value stays the same, and nothing is printed
      but that value. */
  lemma {:induction false} StableWhileReading(s: State, schedule: seq<nat>)
    requires Inv(s) && Legal(s, schedule) && ReadThroughout(s, schedule)
    ensures After(s, schedule).value == s.value && After(s, schedule).stores == s.stores
    ensures s.log <= After(s, schedule).log && AllShow(After(s, schedule).log[|s.log|..], s.value)
    decreases |schedule|
  {
    if schedule != [] {
      var j := schedule[0];
      StableStep(s, j);
      StepCounts(s, j);
      StepValues(s, j);
      StepPrinted(s, j);
      StableWhileReading(Step(s, j), schedule[1..]);
    }
  }

  /** Who is let in: a reader exactly when no writer is inside, a writer
      exactly when nobody is. */
  lemma Admission(s: State, procs: seq<Proc>, i: nat)
    requires Reachable(s, procs) && i < |s.procs| && s.procs[i].pc == Away
    ensures |s.sems| == 4
    ensures s.procs[i].role.Reader? ==>
      (Enabled(s, i) <==> forall j | 0 <= j < |s.procs| :: Writing(s.procs[j]) == 0)
    ensures s.procs[i].role.Writer? ==>
      (Enabled(s, i) <==> forall j | 0 <= j < |s.procs| :: s.procs[j].pc == Away)
  {
    ReachableInv(s, procs);
    ReadGates(s.sems);
    WriteGates(s.sems);
    NobodyThere(Writing, s.procs);
    NobodyThere(Reading, s.procs);
    assert (forall j | 0 <= j < |s.procs| :: s.procs[j].pc == Away) <==>
      (forall j | 0 <= j < |s.procs| :: Writing(s.procs[j]) == 0 && Reading(s.procs[j]) == 0);
  }

  lemma NobodyThere(f: Proc -> nat, ps: seq<Proc>)
    ensures Sum(f, ps) == 0 <==> forall j | 0 <= j < |ps| :: f(ps[j]) == 0
  {
    if Sum(f, ps) == 0 {
      forall j | 0 <= j < |ps|
        ensures f(ps[j]) == 0
      {
        SumAtLeast(f, ps, j);
      }
    } else if forall j | 0 <= j < |ps| :: f(ps[j]) == 0 {
      SumToZero(f, ps, |ps|);
    }
  }

  /** Whoever is inside can always go on, out included. */
  lemma InsideMoves(s: State, i: nat)
    requires Counts(s) && i < |s.procs| && s.procs[i].pc != Away
    ensures Enabled(s, i)
  {
    ReadGates(s.sems);
    WriteGates(s.sems);
    SumAtLeast(Reading, s.procs, i);
    SumAtLeast(Writing, s.procs, i);
  }

  /** No reachable state is stuck. */
  lemma NeverStuck(s: State, procs: seq<Proc>)
    requires Reachable(s, procs) && |s.procs| > 0
    ensures |s.sems| == 4 && exists i: nat :: Enabled(s, i)
  {
    ReachableInv(s, procs);
    if i: nat :| i < |s.procs| && s.procs[i].pc != Away {
      InsideMoves(s, i);
    } else {
      Admission(s, procs, 0);
      assert Enabled(s, 0);
    }
  }

  // ---------------------------------------------------------- rounds get done

  /** While a writer is inside, nobody else can move; its three steps to the way
      out store and print a value that is larger by one. */
  lemma WriterRound(s: State, i: nat)
    requires Inv(s) && i < |s.procs| && s.procs[i] == Proc(Writer, Entered)
    ensures forall j | j != i :: !Enabled(s, j)
    ensures Legal(s, [i, i, i])
    ensures After(s, [i, i, i]) ==
      State(s.sems, s.value + 1, s.procs[i := Proc(Writer, Leaving)], s.stores + 1,
            s.log + [Line(i, Writer, s.value + 1)])
  {
    forall j | j != i
      ensures !Enabled(s, j)
    {
      OthersWait(s, i, j);
    }
    var a := Step(s, i);
    var b := Step(a, i);
    assert Step(b, i).procs == s.procs[i := Proc(Writer, Leaving)];
    ThreeSteps(s, i);
  }

  lemma ThreeSteps(s: State, i: nat)
    requires |s.sems| == 4 && Enabled(s, i) && Enabled(Step(s, i), i) && Enabled(Step(Step(s, i), i), i)
    ensures Legal(s, [i, i, i]) && After(s, [i, i, i]) == Step(Step(Step(s, i), i), i)
  {
    var a := Step(s, i);
    var b := Step(a, i);
    assert [i, i, i][1..] == [i, i] && [i, i][1..] == [i] && [i][1..] == [];
    assert Legal(b, [i]) && After(b, [i]) == Step(b, i);
    assert Legal(a, [i, i]) && After(a, [i, i]) == Step(b, i);
  }

  lemma OthersWait(s: State, i: nat, j: nat)
    requires Counts(s) && i < |s.procs| && Writing(s.procs[i]) == 1 && j != i
    ensures !Enabled(s, j)
  {
    SumAtLeast(Writing, s.procs, i);
    ReadGates(s.sems);
    WriteGates(s.sems);
    if j < |s.procs| {
      Exclusion(Writing, s.procs, i, j);
      SumAtLeast(Reading, s.procs, j);
    }
  }

  /** How often a process has moved. */
  function Turns(schedule: seq<nat>, i: nat): nat {
    if schedule == [] then 0
    else Turns(schedule[..|schedule| - 1], i) + if schedule[|schedule| - 1] == i then 1 else 0
  }

  /** How many lines a process has printed. */
  function LinesBy(log: seq<Line>, i: nat): nat {
    if log == [] then 0
    else LinesBy(log[..|log| - 1], i) + if log[|log| - 1].id == i then 1 else 0
  }

  /** A reader prints with the second of its three steps, a writer stores with
      the third of its five and prints with the fourth. */
  predicate OnTurn(p: Proc, turns: nat) {
    if p.role.Reader? then
      match turns % 3 case 0 => p.pc == Away case 1 => p.pc == Entered case _ => p.pc == Leaving
    else
      match turns % 5
      case 0 => p.pc == Away
      case 1 => p.pc == Entered
      case 2 => p.pc.Loaded?
      case 3 => p.pc == Stored
      case _ => p.pc == Leaving
  }

  function LinesDue(role: Role, turns: nat): nat {
    if role.Reader? then (turns + 1) / 3 else (turns + 1) / 5
  }

  /** The increments that the first `n` processes have done. */
  function StoresDue(procs: seq<Proc>, schedule: seq<nat>, n: nat): nat
    requires n <= |procs|
  {
    if n == 0 then 0
    else StoresDue(procs, schedule, n - 1) + if procs[n - 1].role.Writer? then (Turns(schedule, n - 1) + 2) / 5 else 0
  }

  ghost predicate RightRoles(log: seq<Line>, procs: seq<Proc>) {
    forall k | 0 <= k < |log| :: log[k].id < |procs| && log[k].role == procs[log[k].id].role
  }

  ghost predicate ProgressOf(s: State, role: Role, i: nat, turns: nat)
    requires i < |s.procs|
  {
    s.procs[i].role == role && OnTurn(s.procs[i], turns) && LinesBy(s.log, i) == LinesDue(role, turns)
  }

  ghost predicate Progress(s: State, procs: seq<Proc>, schedule: seq<nat>) {
    && |s.procs| == |procs|
    && (forall i | 0 <= i < |procs| :: ProgressOf(s, procs[i].role, i, Turns(schedule, i)))
    && RightRoles(s.log, procs) && s.stores == StoresDue(procs, schedule, |procs|)
  }

  lemma TurnsMore(schedule: seq<nat>, j: nat, i: nat)
    ensures Turns(schedule + [j], i) == Turns(schedule, i) + if i == j then 1 else 0
  {
    assert (schedule + [j])[..|schedule|] == schedule;
  }

  lemma LinesMore(log: seq<Line>, l: Line, i: nat)
    ensures LinesBy(log + [l], i) == LinesBy(log, i) + if l.id == i then 1 else 0
  {
    assert (log + [l])[..|log|] == log;
  }

  lemma {:induction false} StoresMore(procs: seq<Proc>, schedule: seq<nat>, j: nat, n: nat)
    requires n <= |procs|
    ensures StoresDue(procs, schedule + [j], n) == StoresDue(procs, schedule, n)
      + if j < n && procs[j].role.Writer? && Turns(schedule, j) % 5 == 2 then 1 else 0
  {
    if n > 0 {
      StoresMore(procs, schedule, j, n - 1);
      TurnsMore(schedule, j, n - 1);
      ThirdOfFive(Turns(schedule, n - 1));
    }
  }

  lemma ThirdOfFive(turns: nat)
    ensures (turns + 1 + 2) / 5 == (turns + 2) / 5 + if turns % 5 == 2 then 1 else 0
  {
  }

  /** Whether a process prints with its next step. */
  predicate Prints(p: Proc) {
    if p.role.Reader? then p.pc == Entered else p.pc == Stored
  }

  lemma TurnOver(p: Proc, turns: nat)
    requires OnTurn(p, turns)
    ensures LinesDue(p.role, turns + 1) == LinesDue(p.role, turns) + if Prints(p) then 1 else 0
  {
    SecondOfThree(turns);
    FourthOfFive(turns);
    if p.role.Reader? {
      assert Prints(p) <==> turns % 3 == 1;
    } else {
      assert Prints(p) <==> turns % 5 == 3;
    }
  }

  lemma SecondOfThree(turns: nat)
    ensures (turns + 1 + 1) / 3 == (turns + 1) / 3 + if turns % 3 == 1 then 1 else 0
  {
  }

  lemma FourthOfFive(turns: nat)
    ensures (turns + 1 + 1) / 5 == (turns + 1) / 5 + if turns % 5 == 3 then 1 else 0
  {
  }

  lemma StepPrints(s: State, j: nat, i: nat)
    requires |s.sems| == 4 && Enabled(s, j) && (s.procs[j].role.Reader? ==> !s.procs[j].pc.Loaded? && s.procs[j].pc != Stored)
    ensures LinesBy(Step(s, j).log, i) == LinesBy(s.log, i) + if i == j && Prints(s.procs[j]) then 1 else 0
  {
    LinesMore(s.log, Line(j, s.procs[j].role, s.value), i);
  }

  lemma StepTurn(s: State, j: nat, turns: nat)
    requires |s.sems| == 4 && Enabled(s, j) && OnTurn(s.procs[j], turns)
    ensures OnTurn(Step(s, j).procs[j], turns + 1) && Step(s, j).procs[j].role == s.procs[j].role
  {
    NextOfThree(turns);
    NextOfFive(turns);
  }

  lemma NextOfThree(turns: nat)
    ensures (turns + 1) % 3 == if turns % 3 == 2 then 0 else turns % 3 + 1
  {
    var rounds := turns / 3;
    assert turns + 1 == 3 * rounds + (turns % 3 + 1);
  }

  lemma NextOfFive(turns: nat)
    ensures (turns + 1) % 5 == if turns % 5 == 4 then 0 else turns % 5 + 1
  {
    var rounds := turns / 5;
    assert turns + 1 == 5 * rounds + (turns % 5 + 1);
  }

  lemma ProgressStepOf(s: State, role: Role, j: nat, i: nat, turns: nat)
    requires |s.sems| == 4 && Enabled(s, j) && i < |s.procs| && ProgressOf(s, role, i, turns)
    requires s.procs[j].role.Reader? ==> !s.procs[j].pc.Loaded? && s.procs[j].pc != Stored
    ensures ProgressOf(Step(s, j), role, i, turns + if i == j then 1 else 0)
  {
    StepPrints(s, j, i);
    if i == j {
      StepTurn(s, j, turns);
      TurnOver(s.procs[j], turns);
    }
  }

  lemma ProgressStep(s: State, procs: seq<Proc>, schedule: seq<nat>, j: nat)
    requires |s.sems| == 4 && Progress(s, procs, schedule) && Enabled(s, j)
    ensures Progress(Step(s, j), procs, schedule + [j])
  {
    assert ProgressOf(s, procs[j].role, j, Turns(schedule, j));
    forall i | 0 <= i < |procs|
      ensures ProgressOf(Step(s, j), procs[i].role, i, Turns(schedule + [j], i))
    {
      TurnsMore(schedule, j, i);
      ProgressStepOf(s, procs[i].role, j, i, Turns(schedule, i));
    }
    StoresMore(procs, schedule, j, |procs|);
  }

  lemma {:induction false} ProgressRun(s: State, procs: seq<Proc>, past: seq<nat>, schedule: seq<nat>)
    requires |s.sems| == 4 && Progress(s, procs, past) && Legal(s, schedule)
    ensures Progress(After(s, schedule), procs, past + schedule)
    decreases |schedule|
  {
    if schedule == [] {
      assert past + schedule == past;
    } else {
      ProgressStep(s, procs, past, schedule[0]);
      ProgressRun(Step(s, schedule[0]), procs, past + [schedule[0]], schedule[1..]);
      assert (past + [schedule[0]]) + schedule[1..] == past + schedule;
    }
  }

  /** Over every run: each process has printed one line in each of its rounds,
      readers in three steps a round and writers in five; the shared value is
      the number of increments that the writers' steps make, one a round; and
      the lines show the numbers 1, 2, 3, ... that `NoLostIncrement` tells. */
  lemma RoundsDone(procs: seq<Proc>, schedule: seq<nat>)
    requires Fresh(procs) && Legal(Initial(procs), schedule)
    ensures var s := After(Initial(procs), schedule);
      && (forall i | 0 <= i < |procs| && procs[i].role.Reader? :: LinesBy(s.log, i) == (Turns(schedule, i) + 1) / 3)
      && (forall i | 0 <= i < |procs| && procs[i].role.Writer? :: LinesBy(s.log, i) == (Turns(schedule, i) + 1) / 5)
      && RightRoles(s.log, procs)
      && s.value == StoresDue(procs, schedule, |procs|)
  {
    var s := After(Initial(procs), schedule);
    ProgressMade(procs, schedule);
    forall i | 0 <= i < |procs|
      ensures LinesBy(s.log, i) == LinesDue(procs[i].role, Turns(schedule, i))
    {
      assert ProgressOf(s, procs[i].role, i, Turns(schedule, i));
    }
    InitInv(procs);
    RunInv(Initial(procs), schedule);
  }

  lemma ProgressMade(procs: seq<Proc>, schedule: seq<nat>)
    requires Fresh(procs) && Legal(Initial(procs), schedule)
    ensures Progress(After(Initial(procs), schedule), procs, schedule)
  {
    forall i | 0 <= i < |procs|
      ensures ProgressOf(Initial(procs), procs[i].role, i, Turns([], i))
    {
    }
    NoStores(procs, |procs|);
    ProgressRun(Initial(procs), procs, [], schedule);
    assert [] + schedule == schedule;
  }

  lemma {:induction false} NoStores(procs: seq<Proc>, n: nat)
    requires n <= |procs|
    ensures StoresDue(procs, [], n) == 0
  {
    if n > 0 {
      NoStores(procs, n - 1);
    }
  }
}
