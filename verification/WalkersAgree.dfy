/** The two directory walkers on the same tree. */
module WalkersAgree {
  import opened Common
  import opened DirTree
  import SW = StackWalk
  import DP = DoPath

  // ------------------------------------------------------------- failures

  /** Everything below can be examined and opened. */
  ghost predicate Clean(t: Tree)
    decreases t, 1
  {
    !t.Unknown? && (t.Dir? ==> t.readable && CleanAll(t.entries))
  }

  ghost predicate CleanAll(es: seq<Entry>)
    decreases es, 0
  {
    es == [] || ((IsDot(es[0].name) || Clean(es[0].tree)) && CleanAll(es[1..]))
  }

  lemma {:induction false} CleanMeansNoFailure(t: Tree, name: string, depth: nat)
    ensures Clean(t) <==> DP.Failed !in DP.Events(t, name, depth)
    decreases t, 1
  {
    if t.Dir? && t.readable {
      CleanAllMeansNoFailure(t.entries, depth + 1);
      DP.DirectoryEvents(t, name, depth, []);
    } else if t.Unknown? {
      assert DP.Events(t, name, depth)[0] == DP.Failed;
    } else if t.Dir? {
      assert DP.Events(t, name, depth)[1] == DP.Failed;
    }
  }

  lemma {:induction false} CleanAllMeansNoFailure(es: seq<Entry>, depth: nat)
    ensures CleanAll(es) <==> DP.Failed !in DP.EventsAll(es, depth)
    decreases es, 0
  {
    if es != [] {
      if !IsDot(es[0].name) {
        CleanMeansNoFailure(es[0].tree, es[0].name, depth);
      }
      CleanAllMeansNoFailure(es[1..], depth);
    }
  }

  // -------------------------------------------------------------- counters

  lemma {:induction false} TallyEvents(t: Tree, name: string, depth: nat, what: What)
    ensures DP.Tally(DP.Events(t, name, depth), what) == One(t, what) + Below(t, what)
    decreases t, 1
  {
    match t
    case Unknown => TallyOne(DP.Failed, what);
    case File(kind, _) => TallyOne(DP.Seen(depth, name, Plain(kind)), what);
    case Dir(_, readable, entries) =>
      var head := DP.Seen(depth, name, Directory);
      TallyOne(head, what);
      TallyOne(DP.Failed, what);
      DP.TallyAppend([head], if readable then DP.EventsAll(entries, depth + 1) else [DP.Failed], what);
      if readable {
        TallyEventsAll(entries, depth + 1, what);
      }
  }

  lemma TallyOne(e: DP.Event, what: What)
    ensures DP.Tally([e], what) == if e.Seen? && e.what == what && what != Plain(OtherKind) then 1 else 0
  {
    assert [e][..0] == [];
  }

  lemma {:induction false} TallyEventsAll(es: seq<Entry>, depth: nat, what: What)
    ensures DP.Tally(DP.EventsAll(es, depth), what) == BelowAll(es, what)
    decreases es, 0
  {
    if es != [] {
      var first := if IsDot(es[0].name) then [] else DP.Events(es[0].tree, es[0].name, depth);
      DP.TallyAppend(first, DP.EventsAll(es[1..], depth), what);
      TallyEventsAll(es[1..], depth, what);
      if !IsDot(es[0].name) {
        TallyEvents(es[0].tree, es[0].name, depth, what);
      }
    }
  }

  /** The visits that the recursive walker never makes. */
  function Missed(events: seq<DP.Event>): seq<DP.Event> {
    if events == [] then []
    else if events[0].Failed? then events[1..]
    else Missed(events[1..])
  }

  lemma {:induction false} TallySplit(events: seq<DP.Event>, what: What)
    ensures DP.Tally(events, what) == DP.Tally(DP.Prefix(events), what) + DP.Tally(Missed(events), what)
    decreases |events|
  {
    if events != [] {
      var rest := events[1..];
      assert events == [events[0]] + rest;
      TallyOne(events[0], what);
      DP.TallyAppend([events[0]], rest, what);
      if !events[0].Failed? {
        DP.TallyAppend([events[0]], DP.Prefix(rest), what);
        TallySplit(rest, what);
      }
    }
  }

  lemma {:induction false} MissedNothing(events: seq<DP.Event>)
    requires DP.Failed !in events
    ensures Missed(events) == []
    decreases |events|
  {
    if events != [] {
      assert events[0] in events;
      MissedNothing(events[1..]);
    }
  }

  /** A visit that no counter shows. */
  predicate Uncounted(e: DP.Event) {
    e.Failed? || e.what == Plain(OtherKind)
  }

  ghost predicate AllUncounted(events: seq<DP.Event>) {
    forall i | 0 <= i < |events| :: Uncounted(events[i])
  }

  ghost predicate NoTally(events: seq<DP.Event>) {
    forall what :: DP.Tally(events, what) == 0
  }

  lemma {:induction false} UncountedIff(events: seq<DP.Event>)
    ensures NoTally(events) <==> AllUncounted(events)
    decreases |events|
  {
    if events != [] {
      var init, last := events[..|events| - 1], events[|events| - 1];
      UncountedIff(init);
      if !Uncounted(last) {
        assert DP.Tally(events, last.what) > 0;
      } else {
        assert forall what :: DP.Tally(events, what) == DP.Tally(init, what);
        assert AllUncounted(events) <==> AllUncounted(init);
      }
    }
  }

  /** Opening the tree shows nothing that is counted. */
  predicate NothingIn(t: Tree) {
    t.Dir? && t.readable ==> NothingAmong(t.entries)
  }

  predicate NothingAmong(es: seq<Entry>) {
    forall i | 0 <= i < |es| :: NotCounted(es[i])
  }

  predicate NotCounted(e: Entry) {
    IsDot(e.name) || e.tree.Unknown? || (e.tree.File? && e.tree.kind == OtherKind)
  }

  ghost predicate NothingBelow(es: seq<Entry>) {
    forall what :: BelowAll(es, what) == 0
  }

  lemma {:induction false} NothingAmongIff(es: seq<Entry>)
    ensures NothingBelow(es) <==> NothingAmong(es)
  {
    if es != [] {
      var e, rest := es[0], es[1..];
      NothingAmongIff(rest);
      assert es == [e] + rest;
      if !NotCounted(e) {
        assert BelowAll(es, if e.tree.Dir? then Directory else Plain(e.tree.kind)) > 0;
      } else {
        assert forall what :: BelowAll(es, what) == BelowAll(rest, what);
        assert NothingAmong(es) <==> NothingAmong(rest);
      }
    }
  }

  /** What the walkers count from zero.  Only the iterative one opens a root
      that is a link. */
  ghost predicate StackCounts(c: Counters, w: World) {
    forall what :: c.Of(what) == Below(Behind(w), what)
  }

  ghost predicate PathCounts(c: Counters, t: Tree, name: string, depth: nat) {
    forall what :: c.Of(what) == DP.Tally(DP.Prefix(DP.Events(t, name, depth)), what)
  }

  /** Every visit behind the first failure fails too, or has no counter. */
  ghost predicate NothingMissed(t: Tree, name: string, depth: nat) {
    AllUncounted(Missed(DP.Events(t, name, depth)))
  }

  /** The root is not a link to an openable directory that has something
      countable in it. */
  predicate NothingLinked(w: World) {
    IsLink(w.tree) && w.target.Some? ==> NothingIn(w.target.value)
  }

  /** The walkers agree, but for the root which only the recursive one counts,
      exactly when nothing countable is left behind the first failure or behind
      a link given as the root. */
  lemma AgreeIff(w: World, name: string, depth: nat, stack: Counters, path: Counters)
    requires StackCounts(stack, w) && PathCounts(path, w.tree, name, depth)
    ensures path == stack.Count(w.tree) <==> NothingMissed(w.tree, name, depth) && NothingLinked(w)
  {
    var missed := Missed(DP.Events(w.tree, name, depth));
    CountAddsOne(stack, w.tree);
    UncountedIff(missed);
    if IsLink(w.tree) && w.target.Some? {
      LinkCounts(w, name, depth, stack, path);
    } else {
      Difference(w.tree, name, depth, stack, path);
      if NoTally(missed) {
        SameCounters(path, stack.Count(w.tree));
      }
    }
  }

  /** What the recursive walker lacks is what it missed. */
  lemma Difference(t: Tree, name: string, depth: nat, stack: Counters, path: Counters)
    requires (forall what :: stack.Of(what) == Below(t, what)) && PathCounts(path, t, name, depth)
    ensures forall what :: stack.Count(t).Of(what) == path.Of(what) + DP.Tally(Missed(DP.Events(t, name, depth)), what)
  {
    CountAddsOne(stack, t);
    forall what
      ensures stack.Count(t).Of(what) == path.Of(what) + DP.Tally(Missed(DP.Events(t, name, depth)), what)
    {
      TallyEvents(t, name, depth, what);
      TallySplit(DP.Events(t, name, depth), what);
    }
  }

  /** A link is one visit to the recursive walker; the iterative one counts all
      that is behind it. */
  lemma LinkCounts(w: World, name: string, depth: nat, stack: Counters, path: Counters)
    requires StackCounts(stack, w) && PathCounts(path, w.tree, name, depth)
    requires IsLink(w.tree) && w.target.Some?
    ensures path == ZERO.(nslink := 1)
    ensures NothingMissed(w.tree, name, depth)
    ensures path == stack.Count(w.tree) <==> NothingIn(w.target.value)
  {
    DP.SingleEvents(w.tree, name, depth);
    forall what
      ensures path.Of(what) == ZERO.(nslink := 1).Of(what)
    {
      TallyOne(DP.Seen(depth, name, Plain(Symlink)), what);
    }
    SameCounters(path, ZERO.(nslink := 1));
    MissedNothing(DP.Events(w.tree, name, depth));
    ZeroIff(stack, w.target.value);
  }

  lemma ZeroIff(c: Counters, t: Tree)
    requires forall what :: c.Of(what) == Below(t, what)
    ensures c == ZERO <==> NothingIn(t)
  {
    assert forall what :: ZERO.Of(what) == 0;
    if t.Dir? && t.readable {
      NothingAmongIff(t.entries);
      assert forall what :: Below(t, what) == BelowAll(t.entries, what);
      if c == ZERO {
        forall what
          ensures BelowAll(t.entries, what) == 0
        {
          assert c.Of(what) == Below(t, what);
        }
      }
    }
    if NothingIn(t) {
      SameCounters(c, ZERO);
    }
  }

  /** The recursive walker counts a link to a directory as the link it is; the
      iterative one counts the file in the directory instead. */
  lemma LinkDiffers(w: World, name: string, file: string, inode: nat, stack: Counters, path: Counters)
    requires StackCounts(stack, w) && PathCounts(path, w.tree, name, 0)
    requires IsLink(w.tree) && !IsDot(file)
    requires w.target == Some(Dir(inode, true, [Entry(file, File(Regular, inode))]))
    ensures path == ZERO.(nslink := 1) && stack == ZERO.(nreg := 1)
  {
    LinkCounts(w, name, 0, stack, path);
    var e := Entry(file, File(Regular, inode));
    forall what
      ensures stack.Of(what) == ZERO.(nreg := 1).Of(what)
    {
      assert BelowAll([e], what) == One(e.tree, what) + Below(e.tree, what) + BelowAll([e][1..], what);
    }
    SameCounters(stack, ZERO.(nreg := 1));
  }

  /** On a directory tree without failures all counters are equal, but for one
      directory more in the recursive walk. */
  lemma AgreeOnClean(w: World, name: string, depth: nat, stack: Counters, path: Counters)
    requires StackCounts(stack, w) && PathCounts(path, w.tree, name, depth) && Clean(w.tree) && w.tree.Dir?
    ensures path == stack.(ndir := stack.ndir + 1)
  {
    CleanMeansNoFailure(w.tree, name, depth);
    MissedNothing(DP.Events(w.tree, name, depth));
    AgreeIff(w, name, depth, stack, path);
  }

  // --------------------------------------------------------- printed places

  /** How often an entry is printed at a depth, under a name. */
  function LineCount(lines: seq<SW.Line>, depth: nat, name: string): nat {
    if lines == [] then 0
    else (if lines[0].level == depth && lines[0].name == name then 1 else 0) + LineCount(lines[1..], depth, name)
  }

  function SeenCount(events: seq<DP.Event>, depth: nat, name: string): nat {
    if events == [] then 0
    else
      (if events[0].Seen? && events[0].depth == depth && events[0].name == name then 1 else 0)
      + SeenCount(events[1..], depth, name)
  }

  lemma {:induction false} LineCountAppend(a: seq<SW.Line>, b: seq<SW.Line>, depth: nat, name: string)
    ensures LineCount(a + b, depth, name) == LineCount(a, depth, name) + LineCount(b, depth, name)
    decreases |a|
  {
    if a == [] {
      assert a + b == b;
    } else {
      assert (a + b)[0] == a[0] && (a + b)[1..] == a[1..] + b;
      LineCountAppend(a[1..], b, depth, name);
    }
  }

  lemma {:induction false} SeenCountAppend(a: seq<DP.Event>, b: seq<DP.Event>, depth: nat, name: string)
    ensures SeenCount(a + b, depth, name) == SeenCount(a, depth, name) + SeenCount(b, depth, name)
    decreases |a|
  {
    if a == [] {
      assert a + b == b;
    } else {
      assert (a + b)[0] == a[0] && (a + b)[1..] == a[1..] + b;
      SeenCountAppend(a[1..], b, depth, name);
    }
  }

  /** Though in another order, both walks list the same entries at the same
      depths; the recursive one up to its first failure only. */
  lemma {:induction false} SamePlaces(t: Tree, root: string, level: nat, depth: nat, name: string)
    requires !t.Unknown?
    ensures LineCount(SW.Out(t, root, level), depth, name) == SeenCount(DP.Events(t, root, level), depth, name)
    decreases t, 1
  {
    if t.Dir? {
      var header := [SW.Line(level, root, SW.Inode(t))];
      var head := [DP.Seen(level, root, Directory)];
      if t.readable {
        LineCountAppend(header, SW.Leaves(t.entries, level + 1) + SW.Subs(t.entries, level + 1), depth, name);
        LineCountAppend(SW.Leaves(t.entries, level + 1), SW.Subs(t.entries, level + 1), depth, name);
        SeenCountAppend(head, DP.EventsAll(t.entries, level + 1), depth, name);
        SamePlacesAll(t.entries, level + 1, depth, name);
      } else {
        SeenCountAppend(head, [DP.Failed], depth, name);
        assert header + [] == header;
      }
    }
  }

  lemma {:induction false} SamePlacesAll(es: seq<Entry>, level: nat, depth: nat, name: string)
    ensures LineCount(SW.Leaves(es, level), depth, name) + LineCount(SW.Subs(es, level), depth, name)
            == SeenCount(DP.EventsAll(es, level), depth, name)
    decreases es, 0
  {
    if es != [] {
      var e, rest := es[0], es[1..];
      SamePlacesAll(rest, level, depth, name);
      var line := if SW.IsLeaf(e) then [SW.Line(level, e.name, SW.Inode(e.tree))] else [];
      var sub := if SW.IsSub(e) then SW.Out(e.tree, e.name, level) else [];
      var events := if IsDot(e.name) then [] else DP.Events(e.tree, e.name, level);
      LineCountAppend(line, SW.Leaves(rest, level), depth, name);
      LineCountAppend(SW.Subs(rest, level), sub, depth, name);
      SeenCountAppend(events, DP.EventsAll(rest, level), depth, name);
      if SW.IsSub(e) {
        SamePlaces(e.tree, e.name, level, depth, name);
      }
    }
  }

  // ------------------------------------------------------- the order of both

  /** Leaves come in the order of the listing, subdirectories in the opposite
      one; the recursive walk takes all entries in the order of the listing. */
  lemma {:induction false} OrderOfListing(a: seq<Entry>, b: seq<Entry>, level: nat)
    ensures SW.Leaves(a + b, level) == SW.Leaves(a, level) + SW.Leaves(b, level)
    ensures SW.Subs(a + b, level) == SW.Subs(b, level) + SW.Subs(a, level)
    ensures DP.EventsAll(a + b, level) == DP.EventsAll(a, level) + DP.EventsAll(b, level)
    decreases |a|
  {
    if a == [] {
      assert a + b == b;
      assert SW.Subs(b, level) + [] == SW.Subs(b, level);
    } else {
      var e, rest := a[0], a[1..];
      assert (a + b)[0] == e && (a + b)[1..] == rest + b;
      OrderOfListing(rest, b, level);
      var line := if SW.IsLeaf(e) then [SW.Line(level, e.name, SW.Inode(e.tree))] else [];
      var sub := if SW.IsSub(e) then SW.Out(e.tree, e.name, level) else [];
      var events := if IsDot(e.name) then [] else DP.Events(e.tree, e.name, level);
      Associative(line, SW.Leaves(rest, level), SW.Leaves(b, level));
      Associative(SW.Subs(b, level), SW.Subs(rest, level), sub);
      Associative(events, DP.EventsAll(rest, level), DP.EventsAll(b, level));
    }
  }

  /** A directory with a file "f", a directory "d" with a pipe "g" in it, a link
      "h", and a directory "e" with a socket "i" in it. */
  const SAMPLE: seq<Entry> := [
    Entry(".", Dir(1, true, [])), Entry("f", File(Regular, 2)), Entry("d", Dir(3, true, [Entry("g", File(Fifo, 4))])),
    Entry("h", File(Symlink, 5)), Entry("e", Dir(6, true, [Entry("i", File(Socket, 7))]))]

  lemma OneEntry(e: Entry, level: nat)
    ensures SW.Leaves([e], level) == if SW.IsLeaf(e) then [SW.Line(level, e.name, SW.Inode(e.tree))] else []
    ensures SW.Subs([e], level) == if SW.IsSub(e) then SW.Out(e.tree, e.name, level) else []
    ensures DP.EventsAll([e], level) == if IsDot(e.name) then [] else DP.Events(e.tree, e.name, level)
  {
    assert [e][1..] == [];
  }

  lemma OneFileDir(inode: nat, name: string, f: string, kind: Kind, fileInode: nat, level: nat)
    requires !IsDot(f)
    ensures var t := Dir(inode, true, [Entry(f, File(kind, fileInode))]);
      && SW.Out(t, name, level) == [SW.Line(level, name, inode), SW.Line(level + 1, f, fileInode)]
      && DP.Events(t, name, level) == [DP.Seen(level, name, Directory), DP.Seen(level + 1, f, Plain(kind))]
  {
    OneEntry(Entry(f, File(kind, fileInode)), level + 1);
  }

  /** What the two walkers print for it. */
  lemma SampleWalks()
    ensures SW.Leaves(SAMPLE, 1) == [SW.Line(1, "f", 2), SW.Line(1, "h", 5)]
    ensures SW.Subs(SAMPLE, 1) ==
      [SW.Line(1, "e", 6), SW.Line(2, "i", 7), SW.Line(1, "d", 3), SW.Line(2, "g", 4)]
    ensures DP.EventsAll(SAMPLE, 1) ==
      [DP.Seen(1, "f", Plain(Regular)), DP.Seen(1, "d", Directory), DP.Seen(2, "g", Plain(Fifo)),
       DP.Seen(1, "h", Plain(Symlink)), DP.Seen(1, "e", Directory), DP.Seen(2, "i", Plain(Socket))]
  {
    SampleLeaves();
    SampleSubs();
    SampleEvents();
  }

  lemma SampleLeaves()
    ensures SW.Leaves(SAMPLE, 1) == [SW.Line(1, "f", 2), SW.Line(1, "h", 5)]
  {
    LeafFrom(4);
    LeafFrom(3);
    LeafFrom(2);
    LeafFrom(1);
    LeafFrom(0);
    assert SAMPLE[0..] == SAMPLE && SAMPLE[5..] == [];
    assert SW.Leaves(SAMPLE[3..], 1) == [SW.Line(1, "h", 5)];
  }

  lemma SampleSubs()
    ensures SW.Subs(SAMPLE, 1) ==
      [SW.Line(1, "e", 6), SW.Line(2, "i", 7), SW.Line(1, "d", 3), SW.Line(2, "g", 4)]
  {
    OneFileDir(3, "d", "g", Fifo, 4, 1);
    OneFileDir(6, "e", "i", Socket, 7, 1);
    SubFrom(4);
    SubFrom(3);
    SubFrom(2);
    SubFrom(1);
    SubFrom(0);
    assert SAMPLE[0..] == SAMPLE && SAMPLE[5..] == [];
  }

  lemma SampleEvents()
    ensures DP.EventsAll(SAMPLE, 1) ==
      [DP.Seen(1, "f", Plain(Regular)), DP.Seen(1, "d", Directory), DP.Seen(2, "g", Plain(Fifo)),
       DP.Seen(1, "h", Plain(Symlink)), DP.Seen(1, "e", Directory), DP.Seen(2, "i", Plain(Socket))]
  {
    OneFileDir(3, "d", "g", Fifo, 4, 1);
    OneFileDir(6, "e", "i", Socket, 7, 1);
    EventsFrom(4);
    EventsFrom(3);
    EventsFrom(2);
    EventsFrom(1);
    EventsFrom(0);
    assert SAMPLE[0..] == SAMPLE && SAMPLE[5..] == [];
  }

  lemma LeafFrom(k: nat)
    requires k < 5
    ensures var e := SAMPLE[k];
      SW.Leaves(SAMPLE[k..], 1)
      == (if SW.IsLeaf(e) then [SW.Line(1, e.name, SW.Inode(e.tree))] else []) + SW.Leaves(SAMPLE[k + 1..], 1)
  {
    assert SAMPLE[k..][0] == SAMPLE[k] && SAMPLE[k..][1..] == SAMPLE[k + 1..];
  }

  lemma SubFrom(k: nat)
    requires k < 5
    ensures var e := SAMPLE[k];
      SW.Subs(SAMPLE[k..], 1)
      == SW.Subs(SAMPLE[k + 1..], 1) + (if SW.IsSub(e) then SW.Out(e.tree, e.name, 1) else [])
  {
    assert SAMPLE[k..][0] == SAMPLE[k] && SAMPLE[k..][1..] == SAMPLE[k + 1..];
  }

  lemma EventsFrom(k: nat)
    requires k < 5
    ensures var e := SAMPLE[k];
      DP.EventsAll(SAMPLE[k..], 1)
      == (if IsDot(e.name) then [] else DP.Events(e.tree, e.name, 1)) + DP.EventsAll(SAMPLE[k + 1..], 1)
  {
    assert SAMPLE[k..][0] == SAMPLE[k] && SAMPLE[k..][1..] == SAMPLE[k + 1..];
  }

  // ---------------------------------------------------------- both together

  /** A path name as the iterative walker meets it. */
  function WorldOf(fs: DP.FileSystem, cwd: DP.Place, path: string): World {
    var place := DP.Locate(fs, cwd, path);
    World(path, DP.Stat(fs, cwd, path),
          if place.Some? && place.value in fs.links then DP.At(fs.tree, fs.links[place.value]) else None)
  }

  /** What opening a path name shows is what the same path name with a slash at
      its end stands for, which has any link followed. */
  lemma OpensWithSlash(fs: DP.FileSystem, cwd: DP.Place, path: string)
    requires path != ""
    ensures var shown, slashed := Behind(WorldOf(fs, cwd, path)), DP.Stat(fs, cwd, path + "/");
      if slashed.Dir? then shown == slashed else !shown.Dir?
  {
    DP.LocateJoin(fs, cwd, path, "");
    assert path + ("/" + "") == path + "/";
  }

  /** Both programs on one path name, from fresh counters. */
  method WalkBoth(fs: DP.FileSystem, cwd: DP.Place, path: string) returns (sc: Counters, pc: Counters)
    requires WellFormed(DP.Stat(fs, cwd, path)) && WellFormed(Behind(WorldOf(fs, cwd, path)))
    ensures var w := WorldOf(fs, cwd, path);
      if w.tree.Unknown? then sc == pc == ZERO
      else
        && StackCounts(sc, w) && PathCounts(pc, w.tree, path, 0)
        && (pc == sc.Count(w.tree) <==> NothingMissed(w.tree, path, 0) && NothingLinked(w))
        && (Clean(w.tree) && w.tree.Dir? ==> pc == sc.(ndir := sc.ndir + 1))
  {
    var w := WorldOf(fs, cwd, path);
    var sw := new SW.Walker(w);
    var r := sw.MyftwN();
    sc := sw.counters;
    var dp := new DP.Walker(fs, cwd);
    r := dp.Dopath(path, 0, w.tree);
    pc := dp.counters;
    ghost var seen := DP.Prefix(DP.Events(w.tree, path, 0));
    assert [] + seen == seen;
    if w.tree.Unknown? {
      SameCounters(pc, ZERO);
    } else {
      assert StackCounts(sc, w) && PathCounts(pc, w.tree, path, 0);
      AgreeIff(w, path, 0, sc, pc);
      if Clean(w.tree) && w.tree.Dir? {
        AgreeOnClean(w, path, 0, sc, pc);
      }
    }
  }
}
