/** The threads as they run: one step of one thread at a time changes the
    shared offset, the thread's stream or the output. */
module SharedOffsetMachine {
  import opened Offers
  import opened SharedOffset
  import opened Tallies

  lemma {:induction false} LegalAppend(s: State, file: seq<char>, size: nat, schedule: seq<Move>, m: Move)
    requires Legal(s, file, size, schedule) && Enabled(After(s, file, size, schedule), file, size, m.0, m.1)
    ensures Legal(s, file, size, schedule + [m])
    ensures After(s, file, size, schedule + [m]) == Step(After(s, file, size, schedule), file, size, m.0, m.1)
    decreases |schedule|
  {
    if schedule != [] {
      LegalAppend(Step(s, file, size, schedule[0].0, schedule[0].1), file, size, schedule[1..], m);
      assert (schedule + [m])[1..] == schedule[1..] + [m];
    } else {
      assert (schedule + [m])[1..] == [];
    }
  }

  class Machine {
    const file: seq<char>
    const size: nat  // of each stream's buffer
    var offset: nat
    var streams: seq<Stream>
    var printed: seq<Byte>
    ghost var chunks: seq<Chunk>

    ghost function Model(): State
      reads this
    {
      State(offset, streams, chunks, printed)
    }

    constructor (file: seq<char>, size: nat, threads: nat)
      ensures this.file == file && this.size == size && Model() == Initial(threads)
    {
      this.file, this.size := file, size;
      offset, streams, printed, chunks := 0, seq(threads, _ => OPENED), [], [];
    }

    /** read() of at most a buffer full: at least one byte, `wanted` of them if
        there are so many, none at the end of the file. */
    method Read(i: nat, wanted: nat) returns (n: nat)
      requires i < |streams| && NeedsRead(streams[i]) && !streams[i].ended && 1 <= wanted <= size
      modifies this
      ensures n == if old(offset) >= |file| then 0 else Min(wanted, |file| - old(offset))
      ensures Enabled(old(Model()), file, size, i, n) && Model() == Step(old(Model()), file, size, i, n)
    {
      n := if offset >= |file| then 0 else if offset + wanted <= |file| then wanted else |file| - offset;
      if n == 0 {
        streams := streams[i := streams[i].(ended := true)];
      } else {
        streams := streams[i := Stream(offset, file[offset..offset + n], 0, Nothing, false)];
        chunks := chunks + [Chunk(i, offset, offset + n)];
        offset := offset + n;
      }
    }

    /** The next step of thread `i`, unless it has ended. */
    method Move(i: nat, wanted: nat) returns (moved: bool, n: nat)
      requires i < |streams| && 1 <= wanted <= size
      modifies this
      ensures moved == !old(streams)[i].ended
      ensures n == Amount(old(Model()), file, i, wanted)
      ensures moved ==> Enabled(old(Model()), file, size, i, n) && Model() == Step(old(Model()), file, size, i, n)
      ensures !moved ==> Model() == old(Model())
    {
      var t := streams[i];
      moved, n := !t.ended, 0;
      if t.ended {
      } else if t.held.Char? {
        printed := printed + [Byte(i, t.base + t.pos - 1, t.held.c)];
        streams := streams[i := t.(held := Nothing)];
      } else if t.pos < |t.buff| {
        streams := streams[i := t.(held := Char(t.buff[t.pos]), pos := t.pos + 1)];
      } else {
        n := Read(i, wanted);
      }
    }

    /** Offers steps to the threads in the given order, with the number of bytes
        that a read at that moment would give if the file still has them: each
        thread moves unless it has ended.  `schedule` is who moved. */
    method Run(order: seq<SharedOffset.Move>) returns (moved: seq<bool>, schedule: seq<SharedOffset.Move>, ghost trace: seq<State>)
      requires forall k | 0 <= k < |order| :: order[k].0 < |streams| && 1 <= order[k].1 <= size
      modifies this
      ensures |trace| == |order| + 1 && Model() == trace[|order|]
      ensures Ran(OfferOf(file, size), old(Model()), order, moved, trace)
      ensures schedule == Chosen(Moves(file, order, trace), moved)
      ensures Legal(old(Model()), file, size, schedule) && Model() == After(old(Model()), file, size, schedule)
    {
      moved, schedule, trace := [], [], [Model()];
      for k := 0 to |order|
        invariant |streams| == old(|streams|)
        invariant Running(OfferOf(file, size), old(Model()), order, k, moved, trace, Model())
        invariant schedule == Chosen(Moves(file, order[..k], trace), moved)
      {
        ghost var now := Model();
        var m, n := Move(order[k].0, order[k].1);
        RunningMore(OfferOf(file, size), old(Model()), order, k, moved, trace, now, m, Model());
        MovesNext(file, order, k, trace, moved, m, Model());
        moved, trace := moved + [m], trace + [Model()];
        if m {
          schedule := schedule + [(order[k].0, n)];
        }
      }
      RunningEnds(OfferOf(file, size), old(Model()), order, moved, trace, Model());
      assert order[..|order|] == order;
      RanLegal(old(Model()), file, size, order, moved, trace);
    }
  }

  function Min(a: nat, b: nat): nat { if a <= b then a else b }

  /** What a read gives: as much as is wanted or as is left of the file. */
  function Amount(s: State, file: seq<char>, i: nat, wanted: nat): nat {
    if i < |s.streams| && NeedsRead(s.streams[i]) && !s.streams[i].ended && s.offset < |file|
    then Min(wanted, |file| - s.offset)
    else 0
  }

  /** One offer: the thread moves unless it has ended. */
  ghost predicate Offer(file: seq<char>, size: nat, s: State, o: Move, moved: bool, next: State) {
    var n := Amount(s, file, o.0, o.1);
    && o.0 < |s.streams| && (moved <==> !s.streams[o.0].ended)
    && (moved ==> Enabled(s, file, size, o.0, n))
    && next == if moved then Step(s, file, size, o.0, n) else s
  }

  ghost function OfferOf(file: seq<char>, size: nat): (State, Move, bool, State) -> bool {
    (s, o, moved, next) => Offer(file, size, s, o, moved, next)
  }

  /** The moves that are offered, with what each read gives. */
  ghost function Moves(file: seq<char>, order: seq<Move>, trace: seq<State>): (r: seq<Move>)
    requires |order| < |trace|
    ensures |r| == |order|
  {
    seq(|order|, k requires 0 <= k < |order| => (order[k].0, Amount(trace[k], file, order[k].0, order[k].1)))
  }

  lemma MovesNext(file: seq<char>, order: seq<Move>, k: nat, trace: seq<State>, moved: seq<bool>, m: bool, next: State)
    requires k < |order| && |moved| == k && |trace| == k + 1
    ensures Chosen(Moves(file, order[..k + 1], trace + [next]), moved + [m])
            == Chosen(Moves(file, order[..k], trace), moved)
               + if m then [(order[k].0, Amount(trace[k], file, order[k].0, order[k].1))] else []
  {
    var n := Amount(trace[k], file, order[k].0, order[k].1);
    assert Moves(file, order[..k + 1], trace + [next]) == Moves(file, order[..k], trace) + [(order[k].0, n)];
    ChosenMore(Moves(file, order[..k], trace), moved, (order[k].0, n), m);
  }

  /** Who moved is a legal schedule, and it leads to the last state. */
  lemma {:induction false} RanLegal(start: State, file: seq<char>, size: nat, order: seq<Move>, moved: seq<bool>,
                                    trace: seq<State>)
    requires Ran(OfferOf(file, size), start, order, moved, trace)
    ensures var schedule := Chosen(Moves(file, order, trace), moved);
      Legal(start, file, size, schedule) && After(start, file, size, schedule) == trace[|order|]
    decreases |order|
  {
    if order != [] {
      var n := |order| - 1;
      RanInit(OfferOf(file, size), start, order, moved, trace, n);
      RanLegal(start, file, size, order[..n], moved[..n], trace[..n + 1]);
      assert OfferOf(file, size)(trace[n], order[n], moved[n], trace[n + 1]);
      assert Moves(file, order, trace)[..n] == Moves(file, order[..n], trace[..n + 1]);
      LegalOffer(start, file, size, Chosen(Moves(file, order[..n], trace[..n + 1]), moved[..n]), order[n], moved[n],
                 trace[n + 1]);
    }
  }

  lemma LegalOffer(start: State, file: seq<char>, size: nat, schedule: seq<Move>, o: Move, moved: bool, next: State)
    requires Legal(start, file, size, schedule)
    requires Offer(file, size, After(start, file, size, schedule), o, moved, next)
    ensures var n := Amount(After(start, file, size, schedule), file, o.0, o.1);
      var more := schedule + if moved then [(o.0, n)] else [];
      Legal(start, file, size, more) && After(start, file, size, more) == next
  {
    if moved {
      LegalAppend(start, file, size, schedule, (o.0, Amount(After(start, file, size, schedule), file, o.0, o.1)));
    } else {
      assert schedule + [] == schedule;
    }
  }

  // ------------------------------------------------------------- fair orders

  /** The work left in a state, in steps. */
  ghost function Rest(s: State, file: seq<char>): nat {
    (if s.offset < |file| then 3 * (|file| - s.offset) else 0) + Sum(Left, s.streams)
  }

  ghost function WorkOf(trace: seq<State>, file: seq<char>): seq<nat> {
    seq(|trace|, k requires 0 <= k < |trace| => Rest(trace[k], file))
  }

  function Threads(order: seq<Move>): (r: seq<nat>)
    ensures |r| == |order|
  {
    seq(|order|, k requires 0 <= k < |order| => order[k].0)
  }

  lemma TraceReachable(file: seq<char>, size: nat, threads: nat, order: seq<Move>, moved: seq<bool>, trace: seq<State>, k: nat)
    requires Ran(OfferOf(file, size), Initial(threads), order, moved, trace) && k <= |order|
    ensures Reachable(trace[k], file, size, threads)
  {
    RanInit(OfferOf(file, size), Initial(threads), order, moved, trace, k);
    RanLegal(Initial(threads), file, size, order[..k], moved[..k], trace[..k + 1]);
    assert Leads(file, size, threads, Chosen(Moves(file, order[..k], trace[..k + 1]), moved[..k]), trace[k]);
  }

  lemma WorkDescends(file: seq<char>, size: nat, threads: nat, order: seq<Move>, moved: seq<bool>, trace: seq<State>)
    requires Ran(OfferOf(file, size), Initial(threads), order, moved, trace)
    ensures Descending(WorkOf(trace, file), moved)
  {
    var work := WorkOf(trace, file);
    forall k | 0 <= k < |moved|
      ensures if moved[k] then work[k + 1] < work[k] else work[k + 1] == work[k]
    {
      assert OfferOf(file, size)(trace[k], order[k], moved[k], trace[k + 1]);
      if moved[k] {
        var n := Amount(trace[k], file, order[k].0, order[k].1);
        TraceReachable(file, size, threads, order, moved, trace, k);
        ReachableInv(trace[k], file, size, threads);
        StepInv(trace[k], file, size, order[k].0, n);
        StepWork(trace[k], file, size, order[k].0, n);
      }
    }
  }

  lemma DoneIff(s: State, file: seq<char>)
    requires Inv(s, file) && |s.streams| > 0
    ensures Rest(s, file) == 0 <==> AllEnded(s)
  {
    if AllEnded(s) {
      forall i | 0 <= i < |s.streams|
        ensures Left(s.streams[i]) == 0 && s.offset == |file|
      {
        assert Sound(s.streams[i], file, s.offset);
      }
      SumToZero(Left, s.streams, |s.streams|);
      assert Sound(s.streams[0], file, s.offset);
    } else {
      var i :| 0 <= i < |s.streams| && !s.streams[i].ended;
      SumAtLeast(Left, s.streams, i);
    }
  }

  lemma SomebodyMoves(file: seq<char>, size: nat, threads: nat, order: seq<Move>, moved: seq<bool>, trace: seq<State>,
                      a: nat, b: nat)
    requires threads > 0 && Ran(OfferOf(file, size), Initial(threads), order, moved, trace)
    requires Covers(Threads(order), a, b, threads) && WorkOf(trace, file)[a] > 0
    ensures MovedIn(moved, a, b)
  {
    TraceReachable(file, size, threads, order, moved, trace, a);
    ReachableInv(trace[a], file, size, threads);
    DoneIff(trace[a], file);
    var i: nat :| i < threads && !trace[a].streams[i].ended;
    assert i in Threads(order)[a..b];
    var k :| a <= k < b && order[k].0 == i;
    assert OfferOf(file, size)(trace[k], order[k], moved[k], trace[k + 1]);
    if !MovedIn(moved, a, k) {
      forall j | 0 <= j < |moved| && !moved[j]
        ensures trace[j + 1] == trace[j]
      {
        assert OfferOf(file, size)(trace[j], order[j], moved[j], trace[j + 1]);
      }
      Still(trace, moved, a, k);
    }
  }

  /** Fair orders finish: rounds in which each thread gets a turn, as many as
      there are steps to make, lead to the end of all threads, and then each
      byte of the file was printed once. */
  lemma FairRunEnds(file: seq<char>, size: nat, threads: nat, order: seq<Move>, moved: seq<bool>, trace: seq<State>,
                    cuts: seq<nat>)
    requires threads > 0 && Ran(OfferOf(file, size), Initial(threads), order, moved, trace)
    requires Rounds(Threads(order), cuts, threads) && |cuts| > 3 * |file| + threads
    ensures AllEnded(trace[|order|])
    ensures forall x: nat | x < |file| :: Prints(trace[|order|].printed, x) == 1
  {
    var work, last := WorkOf(trace, file), |cuts| - 1;
    WorkDescends(file, size, threads, order, moved, trace);
    forall q | 0 < q < |cuts|
      ensures cuts[q - 1] <= cuts[q]
      ensures work[cuts[q - 1]] > 0 ==> MovedIn(moved, cuts[q - 1], cuts[q])
    {
      assert Covers(Threads(order), cuts[q - 1], cuts[q], threads);
      if work[cuts[q - 1]] > 0 {
        SomebodyMoves(file, size, threads, order, moved, trace, cuts[q - 1], cuts[q]);
      }
    }
    WorkEnds(work, moved, cuts, last);
    WorkFalls(work, moved, cuts[last], |order|);
    LeftAtStart(threads, threads);
    TraceReachable(file, size, threads, order, moved, trace, |order|);
    ReachableInv(trace[|order|], file, size, threads);
    DoneIff(trace[|order|], file);
    forall x: nat | x < |file|
      ensures Prints(trace[|order|].printed, x) == 1
    {
      EveryByteOnce(trace[|order|], file, size, threads, x);
    }
  }
}
