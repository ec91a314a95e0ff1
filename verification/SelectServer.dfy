/** A server that waits with select() on its listening socket and on a fixed
    table of client sockets. */
module SelectServer {

  /** What the system answers in one round: whether select() works, which
      descriptors it leaves in the set, what accept() returns, and how many
      bytes recv() gives for a descriptor. */
  datatype Input = Input(selected: bool, ready: set<int>, accepted: int, bytes: int -> int)

  /** What the clients of the server are after a round, and whether it goes on. */
  datatype State = State(open: set<int>, running: bool)

  // ---------------------------------------------------------- specification

  /** The clients that a round reads from. */
  function Served(open: set<int>, master: int, n: nat, input: Input): set<int> {
    if Exits(open, master, n, input) then {} else input.ready * open
  }

  /** The clients that turn out to have closed the connection. */
  function Gone(open: set<int>, input: Input): set<int> {
    set fd | fd in open && fd in input.ready && input.bytes(fd) == 0
  }

  /** select() or accept() fails, or a client more than the table holds comes. */
  predicate Exits(open: set<int>, master: int, n: nat, input: Input) {
    !input.selected || (master in input.ready && (input.accepted == -1 || |open| >= n))
  }

  function Next(s: State, master: int, n: nat, input: Input): State {
    if !s.running || Exits(s.open, master, n, input) then State(s.open, false)
    else
      var newcomer := if master in input.ready then {input.accepted} else {};
      State(s.open + newcomer - Gone(s.open, input), true)
  }

  /** The state after the first rounds. */
  function After(s: State, master: int, n: nat, inputs: seq<Input>): State {
    if inputs == [] then s
    else Next(After(s, master, n, inputs[..|inputs| - 1]), master, n, inputs[|inputs| - 1])
  }

  /** What the system guarantees: select() only clears members of the set it
      was given, and accept() fails or returns a descriptor not in use. */
  ghost predicate Honest(open: set<int>, master: int, input: Input) {
    && input.ready <= open + {master}
    && (input.accepted == -1 || (input.accepted > 0 && input.accepted != master && input.accepted !in open))
  }

  ghost predicate HonestRun(s: State, master: int, n: nat, inputs: seq<Input>) {
    forall r | 0 <= r < |inputs| :: Honest(After(s, master, n, inputs[..r]).open, master, inputs[r])
  }

  // ------------------------------------------------------------- the table

  function NonZero(slots: seq<int>): set<int> {
    set i | 0 <= i < |slots| && slots[i] != 0 :: slots[i]
  }

  /** No client is in the table twice. */
  ghost predicate Table(slots: seq<int>) {
    && (forall i | 0 <= i < |slots| :: slots[i] >= 0)
    && forall i, j | 0 <= i < j < |slots| && slots[i] != 0 :: slots[i] != slots[j]
  }

  lemma {:induction false} TableSize(slots: seq<int>)
    requires Table(slots)
    ensures |NonZero(slots)| <= |slots|
    ensures |NonZero(slots)| == |slots| <==> 0 !in slots
  {
    if slots != [] {
      var init, last := slots[..|slots| - 1], slots[|slots| - 1];
      TableSize(init);
      assert forall i | 0 <= i < |init| :: init[i] == slots[i];
      if last == 0 {
        assert NonZero(slots) == NonZero(init);
      } else {
        assert NonZero(slots) == NonZero(init) + {last};
        assert 0 in slots <==> 0 in init;
      }
    }
  }

  lemma TableAdd(slots: seq<int>, i: nat, fd: int)
    requires Table(slots) && i < |slots| && slots[i] == 0 && fd > 0 && fd !in NonZero(slots)
    ensures Table(slots[i := fd]) && NonZero(slots[i := fd]) == NonZero(slots) + {fd}
  {
    var now := slots[i := fd];
    assert now[i] == fd;
    forall x | x in NonZero(slots)
      ensures x in NonZero(now)
    {
      var j :| 0 <= j < |slots| && slots[j] != 0 && slots[j] == x;
      assert now[j] == x;
    }
  }

  lemma TableDrop(slots: seq<int>, i: nat)
    requires Table(slots) && i < |slots| && slots[i] != 0
    ensures Table(slots[i := 0]) && NonZero(slots[i := 0]) == NonZero(slots) - {slots[i]}
  {
    var now := slots[i := 0];
    forall x | x in NonZero(slots) && x != slots[i]
      ensures x in NonZero(now)
    {
      var j :| 0 <= j < |slots| && slots[j] != 0 && slots[j] == x;
      assert now[j] == x;
    }
  }

  // ------------------------------------------------------------ the server

  class Server {
    const master: int
    const clients: array<int>
    var running: bool
    ghost var open: set<int>  // client descriptors accepted and not closed

    constructor (listener: int, n: nat)
      requires listener >= 0
      ensures Valid() && running && open == {} && master == listener && clients.Length == n && fresh(clients)
    {
      master := listener;
      clients := new int[n](_ => 0);
      running, open := true, {};
    }

    /** The non-zero slots are exactly the open clients, each once. */
    ghost predicate Valid()
      reads this, clients
    {
      master >= 0 && Table(clients[..]) && NonZero(clients[..]) == open
    }

    /** The set given to select(), and the largest descriptor in it. */
    method WatchSet() returns (fds: set<int>, maxSd: int)
      requires Valid()
      ensures fds == open + {master}
      ensures maxSd in fds && forall fd | fd in fds :: fd <= maxSd
    {
      fds, maxSd := {master}, master;
      for i := 0 to clients.Length
        invariant fds == NonZero(clients[..i]) + {master}
        invariant maxSd in fds && forall fd | fd in fds :: fd <= maxSd
      {
        NonZeroStep(clients[..], i);
        if clients[i] > 0 {
          fds := fds + {clients[i]};
        }
        if clients[i] > maxSd {
          maxSd := clients[i];
        }
      }
      assert clients[..clients.Length] == clients[..];
    }

    /** Accepts a client into the first free slot.  A failure, or a full table,
        ends the program. */
    method HandleConnection(sd: int)
      requires Valid() && running && (sd == -1 || (sd > 0 && sd !in open))
      modifies clients, this`running, this`open
      ensures Valid()
      ensures running <==> sd != -1 && |old(open)| < clients.Length
      ensures open == if running then old(open) + {sd} else old(open)
      ensures if running then FirstFree(old(clients[..]), clients[..], sd) else clients[..] == old(clients[..])
    {
      TableSize(clients[..]);
      if sd == -1 {
        running := false;
        return;
      }
      for i := 0 to clients.Length
        invariant forall j | 0 <= j < i :: clients[j] != 0
        invariant clients[..] == old(clients[..])
      {
        if clients[i] == 0 {
          assert clients[..][i] == 0;
          assert FirstFreeAt(clients[..], i);
          TableAdd(clients[..], i, sd);
          clients[i] := sd;
          assert clients[..] == old(clients[..])[i := sd];
          open := open + {sd};
          return;
        }
      }
      assert 0 !in clients[..];
      running := false;
    }

    /** Reads from the client in slot `i`, and closes it at its end. */
    method HandleClient(i: nat, bytes: int)
      requires Valid() && i < clients.Length && clients[i] != 0
      modifies clients, this`open
      ensures Valid()
      ensures clients[..] == if bytes == 0 then old(clients[..])[i := 0] else old(clients[..])
      ensures open == if bytes == 0 then old(open) - {old(clients[i])} else old(open)
    {
      if bytes == 0 {
        TableDrop(clients[..], i);
        open := open - {clients[i]};
        clients[i] := 0;
        assert clients[..] == old(clients[..])[i := 0];
      }
    }

    /** Reads from the client in slot `i`, if there is one and it is ready. */
    method ServeSlot(i: nat, input: Input) returns (ready: bool)
      requires Valid() && i < clients.Length
      modifies clients, this`open
      ensures Valid() && ready == (old(clients[i]) != 0 && old(clients[i]) in input.ready)
      ensures clients[..] == if ready && input.bytes(old(clients[i])) == 0 then old(clients[..])[i := 0] else old(clients[..])
      ensures open == if ready && input.bytes(old(clients[i])) == 0 then old(open) - {old(clients[i])} else old(open)
    {
      ready := clients[i] != 0 && clients[i] in input.ready;
      if ready {
        HandleClient(i, input.bytes(clients[i]));
      }
    }

    /** Goes through the table and reads from the clients that are ready. */
    method ServeReady(input: Input) returns (served: seq<int>)
      requires Valid()
      modifies clients, this`open
      ensures Valid() && open == old(open) - Gone(old(open), input)
      ensures EachOnce(served, input.ready * old(open)) && served == ReadyIn(old(clients[..]), input.ready)
    {
      served := [];
      ghost var was := clients[..];
      ghost var all := open;
      for i := 0 to clients.Length
        invariant Valid() && clients[i..] == was[i..]
        invariant open == all - Gone(NonZero(was[..i]), input)
        invariant served == ReadyIn(was[..i], input.ready)
      {
        var fd := clients[i];
        assert fd == clients[i..][0] == was[i];
        ghost var gone := Gone(NonZero(was[..i]), input);
        SlotStep(was, i, input);
        var ready := ServeSlot(i, input);
        MinusBoth(all, gone, if ready && input.bytes(fd) == 0 then {fd} else {});
        if ready {
          served := served + [fd];
        }
        assert clients[i + 1..] == was[i + 1..];
      }
      assert was[..clients.Length] == was;
      ReadyOnce(was, input);
    }

    ghost function Now(): State
      reads this
    {
      State(open, running)
    }

    /** The part of a round behind accept(): in this round the newcomer, which
        was not in the set given to select(), is neither read from nor closed. */
    method ServeOthers(input: Input, ghost before: set<int>, ghost newcomer: set<int>) returns (served: seq<int>)
      requires Valid() && open == before + newcomer && input.ready !! newcomer
      modifies clients, this`open
      ensures Valid() && open == before + newcomer - Gone(before, input)
      ensures EachOnce(served, input.ready * before)
    {
      served := ServeReady(input);
      assert input.ready * (before + newcomer) == input.ready * before;
      assert Gone(before + newcomer, input) == Gone(before, input);
    }

    /** One round of the main loop.  Only clients that this select() reported
        are read from, each of them once, also when one more was accepted in
        the same round. */
    method Round(input: Input) returns (served: seq<int>)
      requires Valid() && running && Honest(open, master, input)
      modifies this, clients
      ensures Valid() && Now() == Next(old(Now()), master, clients.Length, input)
      ensures EachOnce(served, Served(old(open), master, clients.Length, input))
      ensures running <==>
        input.selected && (master in input.ready ==> input.accepted != -1 && |old(open)| < clients.Length)
      ensures running ==> forall fd :: fd in open <==>
        (fd in old(open) && !(fd in input.ready && input.bytes(fd) == 0)) || (fd == input.accepted && master in input.ready)
      ensures !running ==> open == old(open) && served == []
      ensures running ==> forall fd :: fd in served <==> fd in input.ready && fd in old(open)
    {
      served := [];
      ghost var before := open;
      var readfds, maxSd := WatchSet();
      if !input.selected {
        running := false;
        return;
      }
      readfds := input.ready;
      ghost var newcomer: set<int> := {};
      if master in readfds {
        HandleConnection(input.accepted);
        if !running {
          return;
        }
        newcomer := {input.accepted};
      }
      assert !Exits(before, master, clients.Length, input);
      served := ServeOthers(input, before, newcomer);
    }

    /** The whole run: round after round until the program ends. */
    method Serve(inputs: seq<Input>) returns (served: seq<seq<int>>)
      requires Valid() && HonestRun(Now(), master, clients.Length, inputs)
      modifies this, clients
      ensures Valid() && Now() == After(old(Now()), master, clients.Length, inputs)
      ensures RightlySoFar(old(Now()), master, clients.Length, inputs, served)
      ensures RoundsMade(old(Now()), master, clients.Length, inputs, |served|)
    {
      served := [];
      ghost var start, n := Now(), clients.Length;
      var r := 0;
      assert inputs[..0] == [];
      while r < |inputs| && running
        invariant Valid() && |served| == r
        invariant r <= |inputs| && Now() == After(start, master, n, inputs[..r])
        invariant RightlySoFar(start, master, n, inputs, served)
        invariant AllRunning(start, master, n, inputs, r)
      {
        ghost var before := Now();
        assert Honest(After(start, master, n, inputs[..r]).open, master, inputs[r]);
        var fds := Round(inputs[r]);
        AfterOne(start, master, n, inputs, r);
        RightlyMore(start, master, n, inputs, served, fds, before);
        served := served + [fds];
        r := r + 1;
      }
      Stopped(start, master, n, inputs, r);
    }
  }

  /** The slot at `i` is free, and none before it. */
  ghost predicate FirstFreeAt(slots: seq<int>, i: nat) {
    i < |slots| && slots[i] == 0 && forall j | 0 <= j < i :: slots[j] != 0
  }

  ghost predicate FirstFree(was: seq<int>, now: seq<int>, sd: int) {
    exists i: nat :: FirstFreeAt(was, i) && now == was[i := sd]
  }

  /** The clients of the table that are ready, slot by slot. */
  function ReadyIn(slots: seq<int>, ready: set<int>): seq<int> {
    if slots == [] then []
    else
      var last := slots[|slots| - 1];
      ReadyIn(slots[..|slots| - 1], ready) + if last != 0 && last in ready then [last] else []
  }

  lemma ReadyMore(slots: seq<int>, i: nat, ready: set<int>)
    requires i < |slots|
    ensures ReadyIn(slots[..i + 1], ready)
            == if slots[i] != 0 && slots[i] in ready then ReadyIn(slots[..i], ready) + [slots[i]] else ReadyIn(slots[..i], ready)
  {
    assert slots[..i + 1][..i] == slots[..i];
  }

  lemma {:induction false} ReadyOnce(slots: seq<int>, input: Input)
    requires Table(slots)
    ensures EachOnce(ReadyIn(slots, input.ready), input.ready * NonZero(slots))
  {
    if slots != [] {
      var n := |slots| - 1;
      assert forall i | 0 <= i < n :: slots[..n][i] == slots[i];
      ReadyOnce(slots[..n], input);
      assert slots[..n + 1] == slots;
      ReadyMore(slots, n, input.ready);
      NonZeroStep(slots, n);
      if slots[n] != 0 {
        NotYet(slots, n);
        OneMore(NonZero(slots[..n]), slots[n], input);
        if slots[n] in input.ready {
          EachOnceMore(ReadyIn(slots[..n], input.ready), input.ready * NonZero(slots[..n]), slots[n]);
        }
      }
    }
  }

  lemma RightlyMore(s: State, master: int, n: nat, inputs: seq<Input>, served: seq<seq<int>>, fds: seq<int>, before: State)
    requires RightlySoFar(s, master, n, inputs, served) && |served| < |inputs|
    requires before == After(s, master, n, inputs[..|served|])
    requires EachOnce(fds, Served(before.open, master, n, inputs[|served|]))
    ensures RightlySoFar(s, master, n, inputs, served + [fds])
  {
    assert Rightly(s, master, n, inputs, |served|, fds);
  }

  /** All the rounds of a run up to now were served as they should be. */
  ghost predicate RightlySoFar(s: State, master: int, n: nat, inputs: seq<Input>, served: seq<seq<int>>) {
    |served| <= |inputs| && forall r | 0 <= r < |served| :: Rightly(s, master, n, inputs, r, served[r])
  }

  ghost predicate AllRunning(s: State, master: int, n: nat, inputs: seq<Input>, r: nat)
    requires r <= |inputs|
  {
    forall q: nat | q < r :: After(s, master, n, inputs[..q]).running
  }

  /** The first `r` rounds were made, each with the program still running before
      it, and no more only because the program had ended. */
  ghost predicate RoundsMade(s: State, master: int, n: nat, inputs: seq<Input>, r: nat) {
    && r <= |inputs| && AllRunning(s, master, n, inputs, r)
    && (r < |inputs| ==> !After(s, master, n, inputs[..r]).running)
  }

  /** In round `r` of a run, exactly the clients that were open and that this
      round's select() reported are read from, each once. */
  ghost predicate Rightly(s: State, master: int, n: nat, inputs: seq<Input>, r: nat, served: seq<int>)
    requires r < |inputs|
  {
    EachOnce(served, Served(After(s, master, n, inputs[..r]).open, master, n, inputs[r]))
  }

  lemma AfterOne(s: State, master: int, n: nat, inputs: seq<Input>, r: nat)
    requires r < |inputs|
    ensures After(s, master, n, inputs[..r + 1]) == Next(After(s, master, n, inputs[..r]), master, n, inputs[r])
  {
    assert inputs[..r + 1][..r] == inputs[..r];
  }

  /** A program that has ended stays as it is. */
  lemma {:induction false} Stopped(s: State, master: int, n: nat, inputs: seq<Input>, r: nat)
    requires r <= |inputs| && (r < |inputs| ==> !After(s, master, n, inputs[..r]).running)
    ensures After(s, master, n, inputs) == After(s, master, n, inputs[..r])
    decreases |inputs|
  {
    if r < |inputs| {
      var init := inputs[..|inputs| - 1];
      assert init[..r] == inputs[..r];
      Stopped(s, master, n, init, r);
    } else {
      assert inputs[..r] == inputs;
    }
  }

  /** Over a whole run, the table never holds more clients than it has slots. */
  lemma {:induction false} NeverTooMany(s: State, master: int, n: nat, inputs: seq<Input>)
    requires |s.open| <= n
    ensures |After(s, master, n, inputs).open| <= n
    decreases |inputs|
  {
    if inputs != [] {
      var init, last := inputs[..|inputs| - 1], inputs[|inputs| - 1];
      NeverTooMany(s, master, n, init);
      var before := After(s, master, n, init);
      var after := Next(before, master, n, last);
      var newcomer := if master in last.ready then {last.accepted} else {};
      if after.running {
        SubsetSize(after.open, before.open + newcomer);
      }
    }
  }

  lemma {:induction false} SubsetSize<T>(a: set<T>, b: set<T>)
    requires a <= b
    ensures |a| <= |b|
    decreases |a|
  {
    if a != {} {
      var x :| x in a;
      SubsetSize(a - {x}, b - {x});
    }
  }

  /** A list of the members of a set, without repetition. */
  ghost predicate EachOnce(fds: seq<int>, s: set<int>) {
    (forall k, l | 0 <= k < l < |fds| :: fds[k] != fds[l]) && forall fd :: fd in fds <==> fd in s
  }

  lemma EachOnceMore(fds: seq<int>, s: set<int>, fd: int)
    requires EachOnce(fds, s) && fd !in s
    ensures EachOnce(fds + [fd], s + {fd})
  {
  }

  lemma OneMore(open: set<int>, fd: int, input: Input)
    ensures input.ready * (open + {fd}) == input.ready * open + if fd in input.ready then {fd} else {}
    ensures Gone(open + {fd}, input) ==
      Gone(open, input) + if fd in input.ready && input.bytes(fd) == 0 then {fd} else {}
  {
  }

  lemma NotYet(slots: seq<int>, i: nat)
    requires Table(slots) && i < |slots| && slots[i] != 0
    ensures slots[i] !in NonZero(slots[..i])
  {
  }

  lemma MinusBoth(a: set<int>, b: set<int>, c: set<int>)
    ensures a - (b + c) == (a - b) - c
  {
  }

  /** What slot `i` adds to the clients read from and to those gone. */
  lemma SlotStep(slots: seq<int>, i: nat, input: Input)
    requires Table(slots) && i < |slots|
    ensures var fd, ready := slots[i], slots[i] != 0 && slots[i] in input.ready;
      && Gone(NonZero(slots[..i + 1]), input)
         == Gone(NonZero(slots[..i]), input) + (if ready && input.bytes(fd) == 0 then {fd} else {})
      && ReadyIn(slots[..i + 1], input.ready)
         == if ready then ReadyIn(slots[..i], input.ready) + [fd] else ReadyIn(slots[..i], input.ready)
  {
    NonZeroStep(slots, i);
    ReadyMore(slots, i, input.ready);
    if slots[i] != 0 {
      OneMore(NonZero(slots[..i]), slots[i], input);
    }
  }

  lemma NonZeroStep(slots: seq<int>, i: nat)
    requires i < |slots|
    ensures NonZero(slots[..i + 1]) == NonZero(slots[..i]) + if slots[i] != 0 then {slots[i]} else {}
  {
    var less, more := slots[..i], slots[..i + 1];
    assert forall j | 0 <= j < i :: less[j] == more[j] == slots[j];
    assert more[i] == slots[i];
    forall x | x in NonZero(less)
      ensures x in NonZero(more)
    {
      var j :| 0 <= j < |less| && less[j] != 0 && less[j] == x;
      assert more[j] == x;
    }
  }
}
