/** Threads that print one file through buffered streams of their own, all of
    them over one open file description and so over one file offset. */
module SharedOffset {
  import opened Tallies

  datatype Held = Nothing | Char(c: char)

  /** A stream: its buffer holds the bytes of the file from `base` on, `pos` of
      them are taken out; `held` is the byte between fscanf and fprintf. */
  datatype Stream = Stream(base: nat, buff: seq<char>, pos: nat, held: Held, ended: bool)

  /** One successful read(): bytes from..to went to stream `id`. */
  datatype Chunk = Chunk(id: nat, from: nat, to: nat)

  /** One printed byte, with the place in the file it came from. */
  datatype Byte = Byte(id: nat, index: int, c: char)

  datatype State = State(offset: nat, streams: seq<Stream>, chunks: seq<Chunk>, printed: seq<Byte>)

  const OPENED: Stream := Stream(0, [], 0, Nothing, false)

  function Initial(threads: nat): State {
    State(0, seq(threads, _ => OPENED), [], [])
  }

  // ---------------------------------------------------------------- steps

  /** `n` is what a read() returns: at least one byte and at most a buffer full,
      or none at the end of the file. */
  predicate ReadFits(file: seq<char>, size: nat, offset: nat, n: nat) {
    if offset >= |file| then n == 0 else 1 <= n <= size && offset + n <= |file|
  }

  predicate NeedsRead(t: Stream) {
    t.held.Nothing? && t.pos >= |t.buff|
  }

  predicate Enabled(s: State, file: seq<char>, size: nat, i: nat, n: nat) {
    && i < |s.streams| && !s.streams[i].ended
    && (NeedsRead(s.streams[i]) ==> ReadFits(file, size, s.offset, n))
  }

  /** What thread `i` does next: print the byte it holds, take one from its
      buffer, or read the next ones, atomically with the move of the offset. */
  function Step(s: State, file: seq<char>, size: nat, i: nat, n: nat): (s': State)
    requires Enabled(s, file, size, i, n)
    ensures |s'.streams| == |s.streams|
  {
    var t := s.streams[i];
    if t.held.Char? then
      s.(printed := s.printed + [Byte(i, t.base + t.pos - 1, t.held.c)],
         streams := s.streams[i := t.(held := Nothing)])
    else if t.pos < |t.buff| then
      s.(streams := s.streams[i := t.(held := Char(t.buff[t.pos]), pos := t.pos + 1)])
    else if n == 0 then
      s.(streams := s.streams[i := t.(ended := true)])
    else
      s.(offset := s.offset + n,
         chunks := s.chunks + [Chunk(i, s.offset, s.offset + n)],
         streams := s.streams[i := Stream(s.offset, file[s.offset..s.offset + n], 0, Nothing, false)])
  }

  /** A schedule: who moves, and what a read returns if the move is one. */
  type Move = (nat, nat)

  predicate Legal(s: State, file: seq<char>, size: nat, schedule: seq<Move>)
    decreases |schedule|
  {
    schedule == [] ||
    (Enabled(s, file, size, schedule[0].0, schedule[0].1) &&
     Legal(Step(s, file, size, schedule[0].0, schedule[0].1), file, size, schedule[1..]))
  }

  function After(s: State, file: seq<char>, size: nat, schedule: seq<Move>): (s': State)
    requires Legal(s, file, size, schedule)
    ensures |s'.streams| == |s.streams|
    decreases |schedule|
  {
    if schedule == [] then s
    else After(Step(s, file, size, schedule[0].0, schedule[0].1), file, size, schedule[1..])
  }

  // ------------------------------------------------------------ invariant

  /** Whether byte `x` is in the hands of a stream: buffered or held. */
  function InHand(t: Stream, x: nat): nat {
    if t.base + t.pos <= x < t.base + |t.buff| || (t.held.Char? && x == t.base + t.pos - 1) then 1 else 0
  }

  function Hand(x: nat): Stream -> nat {
    t => InHand(t, x)
  }

  function Prints(printed: seq<Byte>, x: nat): nat {
    if printed == [] then 0
    else Prints(printed[..|printed| - 1], x) + if printed[|printed| - 1].index == x then 1 else 0
  }

  /** Each byte of the file is in one place: not read yet, in the hands of one
      stream, or printed once. */
  ghost predicate Somewhere(s: State, file: seq<char>, x: nat) {
    (if x >= s.offset then 1 else 0) + Sum(Hand(x), s.streams) + Prints(s.printed, x) == 1
  }

  ghost predicate Conserved(s: State, file: seq<char>) {
    s.offset <= |file| && forall x: nat :: x < |file| ==> Somewhere(s, file, x)
  }

  /** A stream holds the piece of the file that it says. */
  ghost predicate Sound(t: Stream, file: seq<char>, offset: nat) {
    && t.pos <= |t.buff| && t.base + |t.buff| <= offset <= |file|
    && t.buff == file[t.base..t.base + |t.buff|]
    && (t.held.Char? ==> t.pos > 0 && t.held.c == t.buff[t.pos - 1])
    && (t.ended ==> t.held.Nothing? && t.pos == |t.buff| && offset == |file|)
  }

  ghost predicate AllSound(s: State, file: seq<char>) {
    forall i | 0 <= i < |s.streams| :: Sound(s.streams[i], file, s.offset)
  }

  /** The first byte that a stream has not printed. */
  function Upcoming(t: Stream): int {
    t.base + t.pos - if t.held.Char? then 1 else 0
  }

  /** Printed bytes are bytes of the file, and each thread's are in file order. */
  ghost predicate Ordered(s: State, file: seq<char>) {
    && (forall k | 0 <= k < |s.printed| ::
          var b := s.printed[k];
          0 <= b.index < |file| && b.c == file[b.index] && b.id < |s.streams| && b.index < Upcoming(s.streams[b.id]))
    && forall k, l | 0 <= k < l < |s.printed| && s.printed[k].id == s.printed[l].id ::
         s.printed[k].index < s.printed[l].index
  }

  /** The reads took one piece of the file after the other. */
  ghost predicate Partition(chunks: seq<Chunk>, offset: nat) {
    && (forall k | 0 <= k < |chunks| :: chunks[k].from < chunks[k].to)
    && (forall k | 0 < k < |chunks| :: chunks[k].from == chunks[k - 1].to)
    && (if chunks == [] then offset == 0 else chunks[0].from == 0 && chunks[|chunks| - 1].to == offset)
  }

  ghost predicate Mine(s: State, id: nat, x: int) {
    exists k :: 0 <= k < |s.chunks| && s.chunks[k].id == id && s.chunks[k].from <= x < s.chunks[k].to
  }

  /** What a thread has in hand or has printed, it has read itself. */
  ghost predicate Owned(s: State) {
    && (forall i, x: nat | 0 <= i < |s.streams| && s.streams[i].base <= x < s.streams[i].base + |s.streams[i].buff| ::
          Mine(s, i, x))
    && forall k | 0 <= k < |s.printed| :: Mine(s, s.printed[k].id, s.printed[k].index)
  }

  ghost predicate Inv(s: State, file: seq<char>) {
    AllSound(s, file) && Conserved(s, file) && Ordered(s, file) && Partition(s.chunks, s.offset) && Owned(s)
  }

  lemma InitInv(file: seq<char>, threads: nat)
    ensures Inv(Initial(threads), file)
  {
    var s := Initial(threads);
    forall x: nat | x < |file|
      ensures Somewhere(s, file, x)
    {
      SumToZero(Hand(x), s.streams, threads);
    }
  }

  lemma StepSound(s: State, file: seq<char>, size: nat, i: nat, n: nat)
    requires AllSound(s, file) && Enabled(s, file, size, i, n)
    ensures AllSound(Step(s, file, size, i, n), file)
  {
    var s' := Step(s, file, size, i, n);
    assert Sound(s.streams[i], file, s.offset);
    forall j | 0 <= j < |s'.streams|
      ensures Sound(s'.streams[j], file, s'.offset)
    {
      assert Sound(s.streams[j], file, s.offset);
    }
  }

  lemma PrintsAppend(printed: seq<Byte>, b: Byte, x: nat)
    ensures Prints(printed + [b], x) == Prints(printed, x) + if b.index == x then 1 else 0
  {
    assert (printed + [b])[..|printed|] == printed;
  }

  /** A step moves byte `x` from one place to another, or not at all. */
  lemma StepHand(s: State, file: seq<char>, size: nat, i: nat, n: nat, x: nat)
    requires AllSound(s, file) && Enabled(s, file, size, i, n)
    ensures var t, s' := s.streams[i], Step(s, file, size, i, n);
      InHand(s'.streams[i], x) == InHand(t, x)
        + (if s.offset <= x < s'.offset then 1 else 0)
        - (if t.held.Char? && x == t.base + t.pos - 1 then 1 else 0)
  {
    assert Sound(s.streams[i], file, s.offset);
  }

  lemma StepSomewhere(s: State, file: seq<char>, size: nat, i: nat, n: nat, x: nat)
    requires AllSound(s, file) && Enabled(s, file, size, i, n) && x < |file| && Somewhere(s, file, x)
    ensures Somewhere(Step(s, file, size, i, n), file, x)
  {
    var s' := Step(s, file, size, i, n);
    var t := s.streams[i];
    StepHand(s, file, size, i, n, x);
    SumUpdate(Hand(x), s.streams, i, s'.streams[i]);
    assert Sound(t, file, s.offset);
    if t.held.Char? {
      PrintsAppend(s.printed, Byte(i, t.base + t.pos - 1, t.held.c), x);
    }
  }

  lemma StepOrdered(s: State, file: seq<char>, size: nat, i: nat, n: nat)
    requires AllSound(s, file) && Enabled(s, file, size, i, n) && Ordered(s, file)
    ensures Ordered(Step(s, file, size, i, n), file)
  {
    var s' := Step(s, file, size, i, n);
    assert Sound(s.streams[i], file, s.offset);
    assert Upcoming(s.streams[i]) <= Upcoming(s'.streams[i]);
  }

  lemma StepOwned(s: State, file: seq<char>, size: nat, i: nat, n: nat)
    requires AllSound(s, file) && Enabled(s, file, size, i, n) && Owned(s)
    ensures Owned(Step(s, file, size, i, n))
  {
    var s' := Step(s, file, size, i, n);
    assert Sound(s.streams[i], file, s.offset);
    forall id: nat, x: int | Mine(s, id, x)
      ensures Mine(s', id, x)
    {
      var k :| 0 <= k < |s.chunks| && s.chunks[k].id == id && s.chunks[k].from <= x < s.chunks[k].to;
      assert s'.chunks[k] == s.chunks[k];
    }
    if s'.chunks != s.chunks {
      assert s'.chunks[|s.chunks|] == Chunk(i, s.offset, s.offset + n);
    }
  }

  lemma StepInv(s: State, file: seq<char>, size: nat, i: nat, n: nat)
    requires Inv(s, file) && Enabled(s, file, size, i, n)
    ensures Inv(Step(s, file, size, i, n), file)
  {
    StepSound(s, file, size, i, n);
    forall x: nat | x < |file|
      ensures Somewhere(Step(s, file, size, i, n), file, x)
    {
      StepSomewhere(s, file, size, i, n, x);
    }
    StepOrdered(s, file, size, i, n);
    StepOwned(s, file, size, i, n);
  }

  lemma {:induction false} RunInv(s: State, file: seq<char>, size: nat, schedule: seq<Move>)
    requires Inv(s, file) && Legal(s, file, size, schedule)
    ensures Inv(After(s, file, size, schedule), file)
    decreases |schedule|
  {
    if schedule != [] {
      StepInv(s, file, size, schedule[0].0, schedule[0].1);
      RunInv(Step(s, file, size, schedule[0].0, schedule[0].1), file, size, schedule[1..]);
    }
  }

  // ------------------------------------------------------------- theorems

  ghost predicate Leads(file: seq<char>, size: nat, threads: nat, schedule: seq<Move>, s: State) {
    Legal(Initial(threads), file, size, schedule) && After(Initial(threads), file, size, schedule) == s
  }

  /** A state that some schedule of the threads reaches. */
  ghost predicate Reachable(s: State, file: seq<char>, size: nat, threads: nat) {
    exists schedule: seq<Move> :: Leads(file, size, threads, schedule, s)
  }

  lemma ReachableInv(s: State, file: seq<char>, size: nat, threads: nat)
    requires Reachable(s, file, size, threads)
    ensures Inv(s, file) && |s.streams| == threads
  {
    var schedule :| Leads(file, size, threads, schedule, s);
    InitInv(file, threads);
    RunInv(Initial(threads), file, size, schedule);
  }

  lemma {:induction false} ChunkBefore(chunks: seq<Chunk>, offset: nat, k: nat, l: nat)
    requires Partition(chunks, offset) && k < l < |chunks|
    ensures chunks[k].to <= chunks[l].from
    decreases l
  {
    if k < l - 1 {
      ChunkBefore(chunks, offset, k, l - 1);
      assert chunks[l].from == chunks[l - 1].to && chunks[l - 1].from < chunks[l - 1].to;
    } else {
      assert chunks[l].from == chunks[l - 1].to;
    }
  }

  ghost predicate Covered(chunks: seq<Chunk>, x: nat) {
    exists k :: 0 <= k < |chunks| && chunks[k].from <= x < chunks[k].to
  }

  /** The chunks read are consecutive and disjoint, and cover what lies before
      the offset: each byte there is in exactly one of them. */
  lemma ChunksPartition(s: State, file: seq<char>, size: nat, threads: nat)
    requires Reachable(s, file, size, threads)
    ensures s.offset <= |file| && Partition(s.chunks, s.offset)
    ensures forall k, l | 0 <= k < l < |s.chunks| :: s.chunks[k].to <= s.chunks[l].from
    ensures forall x: nat | x < s.offset :: Covered(s.chunks, x)
  {
    ReachableInv(s, file, size, threads);
    forall k, l | 0 <= k < l < |s.chunks|
      ensures s.chunks[k].to <= s.chunks[l].from
    {
      ChunkBefore(s.chunks, s.offset, k, l);
    }
    forall x: nat | x < s.offset
      ensures Covered(s.chunks, x)
    {
      var k := ChunkOf(s.chunks, s.offset, x);
    }
  }

  lemma {:induction false} ChunkOf(chunks: seq<Chunk>, offset: nat, x: nat) returns (k: nat)
    requires Partition(chunks, offset) && x < offset
    ensures k < |chunks| && chunks[k].from <= x < chunks[k].to
    decreases |chunks|
  {
    var last := |chunks| - 1;
    if chunks[last].from <= x {
      k := last;
    } else {
      k := ChunkOf(chunks[..last], chunks[last].from, x);
    }
  }

  /** No read takes more than a buffer full. */
  ghost predicate Small(chunks: seq<Chunk>, size: nat) {
    forall k | 0 <= k < |chunks| :: chunks[k].to - chunks[k].from <= size
  }

  lemma {:induction false} ChunksFit(s: State, file: seq<char>, size: nat, schedule: seq<Move>)
    requires Legal(s, file, size, schedule) && Small(s.chunks, size)
    ensures Small(After(s, file, size, schedule).chunks, size)
    decreases |schedule|
  {
    if schedule != [] {
      ChunksFit(Step(s, file, size, schedule[0].0, schedule[0].1), file, size, schedule[1..]);
    }
  }

  /** What a thread prints are true bytes of the file, in file order, and all
      of them from chunks that it read itself. */
  lemma OwnBytesInOrder(s: State, file: seq<char>, size: nat, threads: nat)
    requires Reachable(s, file, size, threads)
    ensures forall k | 0 <= k < |s.printed| ::
      var b := s.printed[k];
      0 <= b.index < |file| && b.c == file[b.index] && Mine(s, b.id, b.index)
    ensures forall k, l | 0 <= k < l < |s.printed| && s.printed[k].id == s.printed[l].id ::
      s.printed[k].index < s.printed[l].index
  {
    ReachableInv(s, file, size, threads);
  }

  ghost predicate AllEnded(s: State) {
    forall i | 0 <= i < |s.streams| :: s.streams[i].ended
  }

  /** At no time is a byte printed twice, and once all threads have ended each
      byte of the file was printed once, by one of them. */
  lemma EveryByteOnce(s: State, file: seq<char>, size: nat, threads: nat, x: nat)
    requires Reachable(s, file, size, threads) && x < |file|
    ensures Prints(s.printed, x) <= 1
    ensures AllEnded(s) && threads > 0 ==> Prints(s.printed, x) == 1
  {
    ReachableInv(s, file, size, threads);
    assert Somewhere(s, file, x);
    if AllEnded(s) && threads > 0 {
      assert Sound(s.streams[0], file, s.offset);
      forall i | 0 <= i < |s.streams|
        ensures Hand(x)(s.streams[i]) == 0
      {
        assert Sound(s.streams[i], file, s.offset);
      }
      SumToZero(Hand(x), s.streams, |s.streams|);
    }
  }

  /** A thread that has not ended can always go on. */
  lemma NeverStuck(s: State, file: seq<char>, size: nat, threads: nat, i: nat)
    requires Reachable(s, file, size, threads) && size > 0
    requires i < |s.streams| && !s.streams[i].ended
    ensures exists n: nat :: Enabled(s, file, size, i, n)
  {
    ReachableInv(s, file, size, threads);
    if s.offset >= |file| {
      assert Enabled(s, file, size, i, 0);
    } else {
      assert Enabled(s, file, size, i, 1);
    }
  }

  /** The steps a stream can still make without another read that succeeds. */
  function Left(t: Stream): nat {
    (if t.ended then 0 else 1) + (if t.held.Char? then 1 else 0)
    + if t.pos < |t.buff| then 2 * (|t.buff| - t.pos) else 0
  }

  lemma StepWork(s: State, file: seq<char>, size: nat, i: nat, n: nat)
    requires AllSound(s, file) && s.offset <= |file| && Enabled(s, file, size, i, n)
    ensures var s' := Step(s, file, size, i, n);
      3 * (|file| - s'.offset) + Sum(Left, s'.streams) < 3 * (|file| - s.offset) + Sum(Left, s.streams)
  {
    assert Sound(s.streams[i], file, s.offset);
    SumUpdate(Left, s.streams, i, Step(s, file, size, i, n).streams[i]);
  }

  lemma {:induction false} WorkShrinks(s: State, file: seq<char>, size: nat, schedule: seq<Move>)
    requires Inv(s, file) && Legal(s, file, size, schedule)
    ensures |schedule| + 3 * (|file| - After(s, file, size, schedule).offset)
              + Sum(Left, After(s, file, size, schedule).streams)
            <= 3 * (|file| - s.offset) + Sum(Left, s.streams)
    decreases |schedule|
  {
    if schedule != [] {
      StepWork(s, file, size, schedule[0].0, schedule[0].1);
      StepInv(s, file, size, schedule[0].0, schedule[0].1);
      WorkShrinks(Step(s, file, size, schedule[0].0, schedule[0].1), file, size, schedule[1..]);
    }
  }

  lemma {:induction false} LeftAtStart(threads: nat, n: nat)
    requires n <= threads
    ensures SumTo(Left, Initial(threads).streams, n) == n
  {
    if n > 0 {
      LeftAtStart(threads, n - 1);
    }
  }

  /** Termination: no schedule is longer than three steps a byte and one for
      each thread's end of file. */
  lemma Terminates(file: seq<char>, size: nat, threads: nat, schedule: seq<Move>)
    requires Legal(Initial(threads), file, size, schedule)
    ensures |schedule| <= 3 * |file| + threads
  {
    InitInv(file, threads);
    RunInv(Initial(threads), file, size, schedule);
    WorkShrinks(Initial(threads), file, size, schedule);
    LeftAtStart(threads, threads);
  }
}
