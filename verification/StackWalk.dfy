/** The iterative directory walker: directories wait on a linked stack until
    their listing is printed. */
module StackWalk {
  import opened Common
  import opened DirTree
  import opened LinkedStack

  /** One printed line. */
  datatype Line = Line(level: nat, name: string, inode: nat)

  // ---------------------------------------------------------- specification

  function Inode(t: Tree): nat {
    if t.Unknown? then 0 else t.inode
  }

  predicate IsLeaf(e: Entry) { !IsDot(e.name) && e.tree.File? }

  predicate IsSub(e: Entry) { !IsDot(e.name) && e.tree.Dir? }

  /** The lines of the entries that are not directories, in read order. */
  function Leaves(es: seq<Entry>, level: nat): seq<Line> {
    if es == [] then []
    else (if IsLeaf(es[0]) then [Line(level, es[0].name, Inode(es[0].tree))] else []) + Leaves(es[1..], level)
  }

  /** The recursive walk: the header of a tree, its leaves in read order, then
      its subdirectories in reverse read order, each at its own depth. */
  ghost function Out(t: Tree, name: string, level: nat): seq<Line>
    decreases t, 2
  {
    [Line(level, name, Inode(t))] + Inside(t, level)
  }

  /** The walk without the header: what opening the tree yields. */
  ghost function Inside(t: Tree, level: nat): seq<Line>
    decreases t, 1
  {
    if t.Dir? && t.readable then Leaves(t.entries, level + 1) + Subs(t.entries, level + 1) else []
  }

  ghost function Subs(es: seq<Entry>, level: nat): seq<Line>
    decreases es, 0
  {
    if es == [] then []
    else Subs(es[1..], level) + if IsSub(es[0]) then Out(es[0].tree, es[0].name, level) else []
  }

  /** How often a line is due: once for each tree that can be reached without
      passing "." or "..", at its depth, with its own name and number. */
  ghost function Due(t: Tree, name: string, level: nat, line: Line): nat
    decreases t, 1
  {
    if t.Unknown? then 0
    else
      (if line.level == level && line.name == name && line.inode == t.inode then 1 else 0)
      + if t.Dir? && t.readable then DueAll(t.entries, level + 1, line) else 0
  }

  ghost function DueAll(es: seq<Entry>, level: nat, line: Line): nat
    decreases es, 0
  {
    if es == [] then 0
    else
      (if es[0].name == "." || es[0].name == ".." then 0 else Due(es[0].tree, es[0].name, level, line))
      + DueAll(es[1..], level, line)
  }

  function Times(lines: seq<Line>, line: Line): nat {
    if lines == [] then 0 else (if lines[0] == line then 1 else 0) + Times(lines[1..], line)
  }

  lemma {:induction false} TimesAppend(a: seq<Line>, b: seq<Line>, line: Line)
    ensures Times(a + b, line) == Times(a, line) + Times(b, line)
    decreases |a|
  {
    if a == [] {
      assert a + b == b;
    } else {
      assert (a + b)[0] == a[0] && (a + b)[1..] == a[1..] + b;
      TimesAppend(a[1..], b, line);
    }
  }

  /** The walk prints each line as often as it is due. */
  lemma {:induction false} OutDue(t: Tree, name: string, level: nat, line: Line)
    requires !t.Unknown?
    ensures Times(Out(t, name, level), line) == Due(t, name, level, line)
    decreases t, 1
  {
    TimesAppend([Line(level, name, Inode(t))], Inside(t, level), line);
    assert [Line(level, name, Inode(t))][1..] == [];
    if t.Dir? && t.readable {
      TimesAppend(Leaves(t.entries, level + 1), Subs(t.entries, level + 1), line);
      OutDueAll(t.entries, level + 1, line);
    }
  }

  lemma {:induction false} OutDueAll(es: seq<Entry>, level: nat, line: Line)
    ensures Times(Leaves(es, level), line) + Times(Subs(es, level), line) == DueAll(es, level, line)
    decreases es, 0
  {
    if es != [] {
      var e, rest := es[0], es[1..];
      OutDueAll(rest, level, line);
      var leaf := if IsLeaf(e) then [Line(level, e.name, Inode(e.tree))] else [];
      var sub := if IsSub(e) then Out(e.tree, e.name, level) else [];
      TimesAppend(leaf, Leaves(rest, level), line);
      TimesAppend(Subs(rest, level), sub, line);
      assert IsLeaf(e) ==> leaf[1..] == [];
      if IsSub(e) {
        OutDue(e.tree, e.name, level, line);
      }
    }
  }

  ghost function Size(t: Tree): nat
    decreases t, 1
  {
    1 + if t.Dir? then SizeAll(t.entries) else 0
  }

  ghost function SizeAll(es: seq<Entry>): nat
    decreases es, 0
  {
    if es == [] then 0 else Size(es[0].tree) + SizeAll(es[1..])
  }

  /** An item on the stack leads to a tree of the file system. */
  ghost predicate Stands(w: World, item: Item) {
    OpenAt(w, item.data).Some? && WellFormed(OpenAt(w, item.data).value)
  }

  ghost predicate AllStand(w: World, items: seq<Item>) {
    forall i | 0 <= i < |items| :: Stands(w, items[i])
  }

  /** The listing that an item stands for. */
  ghost function ItemOut(w: World, item: Item): seq<Line>
    requires Stands(w, item)
  {
    [Line(item.level, BaseName(item.data), item.inode)] + Inside(OpenAt(w, item.data).value, item.level)
  }

  /** What is still to be printed, counted and visited for a stack. */
  ghost function Pending(w: World, items: seq<Item>): seq<Line>
    requires AllStand(w, items)
  {
    if items == [] then []
    else ItemOut(w, items[0]) + Pending(w, items[1..])
  }

  ghost function PendingCount(w: World, items: seq<Item>, what: What): nat
    requires AllStand(w, items)
  {
    if items == [] then 0
    else Below(OpenAt(w, items[0].data).value, what) + PendingCount(w, items[1..], what)
  }

  ghost function Weight(w: World, items: seq<Item>): nat
    requires AllStand(w, items)
  {
    if items == [] then 0
    else Size(OpenAt(w, items[0].data).value) + Weight(w, items[1..])
  }

  // ------------------------------------------- one directory, entry by entry

  /** What is still to be printed and counted while a directory is read: its
      entries `es` are still to come, `items` are on the stack. */
  ghost function RestOut(w: World, es: seq<Entry>, level: nat, items: seq<Item>): seq<Line>
    requires AllStand(w, items)
  {
    Leaves(es, level) + (Subs(es, level) + Pending(w, items))
  }

  ghost function RestCount(w: World, es: seq<Entry>, items: seq<Item>, what: What): nat
    requires AllStand(w, items)
  {
    BelowAll(es, what) + PendingCount(w, items, what)
  }

  ghost function RestWeight(w: World, es: seq<Entry>, items: seq<Item>): nat
    requires AllStand(w, items)
  {
    SizeAll(es) + Weight(w, items)
  }

  /** What an entry puts on the stack, prints and counts. */
  ghost function EntryItems(path: string, e: Entry, level: nat): seq<Item> {
    if IsSub(e) then [Item(JoinPath(path, e.name), level, e.tree.inode)] else []
  }

  function EntryLines(e: Entry, level: nat): seq<Line> {
    if IsLeaf(e) then [Line(level, e.name, e.tree.inode)] else []
  }

  function EntryCount(e: Entry, what: What): nat {
    if IsDot(e.name) then 0 else One(e.tree, what)
  }

  /** A subdirectory found under a path stands for itself on the stack. */
  lemma ChildStands(w: World, path: string, es: seq<Entry>, k: nat)
    requires OpenAt(w, path).Some? && var t := OpenAt(w, path).value; t.Dir? && WellFormed(t) && t.entries == es
    requires k < |es|
    ensures Known(w, path, es[k])
  {
    LookupJoin(w, path, es[k].name);
    FindEntry(es, k);
    LastPartJoin(path, es[k].name);
  }

  /** The entry `e` of the directory at `path`, as the file system knows it. */
  ghost predicate Known(w: World, path: string, e: Entry) {
    && Lookup(w, JoinPath(path, e.name)) == Some(e.tree) == OpenAt(w, JoinPath(path, e.name))
    && WellFormed(e.tree) && BaseName(JoinPath(path, e.name)) == e.name
  }

  lemma PushedStand(w: World, path: string, e: Entry, level: nat, items: seq<Item>)
    requires Known(w, path, e) && AllStand(w, items)
    ensures AllStand(w, EntryItems(path, e, level) + items)
  {
  }

  /** Handling one entry moves it from what is to come to what is done. */
  lemma EntryOut(w: World, path: string, es: seq<Entry>, level: nat, items: seq<Item>)
    requires es != [] && Known(w, path, es[0]) && AllStand(w, items)
    requires AllStand(w, EntryItems(path, es[0], level) + items)
    ensures EntryLines(es[0], level) + RestOut(w, es[1..], level, EntryItems(path, es[0], level) + items)
            == RestOut(w, es, level, items)
  {
    var e, rest, more := es[0], es[1..], EntryItems(path, es[0], level);
    var pending := Pending(w, items);
    if IsSub(e) {
      var out := Out(e.tree, e.name, level);
      assert (more + items)[1..] == items;
      assert Pending(w, more + items) == out + pending;
      Associate(EntryLines(e, level), Leaves(rest, level), Subs(rest, level), out, pending);
    } else {
      assert more + items == items;
      Associate(EntryLines(e, level), Leaves(rest, level), Subs(rest, level), [], pending);
      assert [] + pending == pending;
    }
  }

  lemma Associate(a: seq<Line>, b: seq<Line>, c: seq<Line>, d: seq<Line>, e: seq<Line>)
    ensures a + (b + (c + (d + e))) == (a + b) + ((c + d) + e)
  {
  }

  lemma EntryTally(w: World, path: string, es: seq<Entry>, level: nat, items: seq<Item>, what: What)
    requires es != [] && Known(w, path, es[0]) && AllStand(w, items)
    requires AllStand(w, EntryItems(path, es[0], level) + items)
    ensures EntryCount(es[0], what) + RestCount(w, es[1..], EntryItems(path, es[0], level) + items, what)
            == RestCount(w, es, items, what)
    ensures RestWeight(w, es[1..], EntryItems(path, es[0], level) + items) <= RestWeight(w, es, items)
  {
    var more := EntryItems(path, es[0], level);
    if IsSub(es[0]) {
      assert (more + items)[1..] == items;
      assert PendingCount(w, more + items, what) == Below(es[0].tree, what) + PendingCount(w, items, what);
      assert Weight(w, more + items) == Size(es[0].tree) + Weight(w, items);
    } else {
      assert !es[0].tree.Dir? ==> Below(es[0].tree, what) == 0;
      assert more + items == items;
    }
  }

  /** A moment of the walk: entries to come, stack, printed lines, counters. */
  datatype Stage = Stage(es: seq<Entry>, items: seq<Item>, out: seq<Line>, counters: Counters)

  /** Nothing is lost, doubled or reordered between two moments. */
  ghost predicate Kept(w: World, level: nat, a: Stage, b: Stage) {
    && AllStand(w, a.items) && AllStand(w, b.items)
    && b.out + RestOut(w, b.es, level, b.items) == a.out + RestOut(w, a.es, level, a.items)
    && (forall what :: b.counters.Of(what) + RestCount(w, b.es, b.items, what)
                       == a.counters.Of(what) + RestCount(w, a.es, a.items, what))
    && RestWeight(w, b.es, b.items) <= RestWeight(w, a.es, a.items)
  }

  /** The moment after one more entry. */
  ghost function NextStage(path: string, level: nat, s: Stage): Stage
    requires s.es != []
  {
    var e := s.es[0];
    Stage(s.es[1..], EntryItems(path, e, level) + s.items, s.out + EntryLines(e, level),
          if IsDot(e.name) then s.counters else s.counters.Count(e.tree))
  }

  lemma StageOf(path: string, level: nat, s: Stage)
    requires s.es != []
    ensures var e, next := s.es[0], NextStage(path, level, s);
      if IsDot(e.name) then next == Stage(s.es[1..], s.items, s.out, s.counters)
      else
        && next.items == (if e.tree.Dir? then [Item(JoinPath(path, e.name), level, e.tree.inode)] else []) + s.items
        && next.out == s.out + (if e.tree.File? then [Line(level, e.name, e.tree.inode)] else [])
        && next.counters == s.counters.Count(e.tree)
  {
    assert [] + s.items == s.items && s.out + [] == s.out;
  }

  lemma KeptStep(w: World, path: string, level: nat, a: Stage, b: Stage)
    requires Kept(w, level, a, b) && b.es != [] && Known(w, path, b.es[0])
    ensures Kept(w, level, a, NextStage(path, level, b))
  {
    var c := NextStage(path, level, b);
    PushedStand(w, path, b.es[0], level, b.items);
    EntryOut(w, path, b.es, level, b.items);
    Associative(b.out, EntryLines(b.es[0], level), RestOut(w, c.es, level, c.items));
    CountAddsOne(b.counters, b.es[0].tree);
    forall what
      ensures c.counters.Of(what) + RestCount(w, c.es, c.items, what)
              == b.counters.Of(what) + RestCount(w, b.es, b.items, what)
    {
      EntryTally(w, path, b.es, level, b.items, what);
    }
    EntryTally(w, path, b.es, level, b.items, Directory);
  }

  /** The moment after a directory is printed, before it is read. */
  ghost function Opening(w: World, item: Item, s: Stage): Stage
    requires Stands(w, item)
  {
    Stage(Listed(OpenAt(w, item.data).value), s.items,
          s.out + [Line(item.level, BaseName(item.data), item.inode)], s.counters)
  }

  // ------------------------------------------------------------- the walker

  class Walker {
    const world: World
    var counters: Counters
    var out: seq<Line>
    ghost var pushes: nat  // nodes put on the stack
    ghost var frees: nat  // nodes taken off it and freed

    constructor (w: World)
      ensures world == w && counters == ZERO && out == [] && pushes == frees == 0
    {
      world, counters, out, pushes, frees := w, ZERO, [], 0, 0;
    }

    /** What a step does to the nodes: it only puts new ones on, and none of
        those on the stack goes missing. */
    twostate predicate Grown(stk: Stack)
      reads this, stk
    {
      && (forall n: Node | n in stk.nodes :: fresh(n) || n in old(stk.nodes))
      && pushes - |stk.nodes| == old(pushes) - |old(stk.nodes)|
      && frees == old(frees)
    }

    /** Puts a directory on the stack. */
    method PushDir(stk: Stack, path: string, level: nat, inode: nat)
      requires stk.Valid()
      modifies this`pushes, stk
      ensures stk.Valid() && Grown(stk)
      ensures stk.Items() == [Item(path, level, inode)] + old(stk.Items())
    {
      var n := new Node(path, level, inode);
      stk.Push(n);
      pushes := pushes + 1;
    }

    /** Handles one entry of a listing. */
    method ProcEntry(stk: Stack, level: nat, currPath: string, currFile: string)
      requires stk.Valid()
      requires Lookup(world, JoinPath(currPath, currFile)).Some?
      modifies this, stk
      ensures stk.Valid() && Grown(stk)
      ensures var t := Lookup(world, JoinPath(currPath, currFile)).value;
        && counters == old(counters).Count(t)
        && out == old(out) + (if t.File? then [Line(level, currFile, t.inode)] else [])
        && stk.Items() == (if t.Dir? then [Item(JoinPath(currPath, currFile), level, t.inode)] else []) + old(stk.Items())
    {
      var path := JoinPath(currPath, currFile);
      var t := Lookup(world, path).value;
      counters := counters.Count(t);
      match t {
        case Unknown =>
        case File(_, inode) =>
          out := out + [Line(level, currFile, inode)];
        case Dir(inode, _, _) =>
          PushDir(stk, path, level, inode);
      }
    }

    /** The moment the walker is at, with entries `es` still to come. */
    ghost function Now(stk: Stack, es: seq<Entry>): Stage
      reads this, stk, stk.nodes
    {
      Stage(es, stk.Items(), out, counters)
    }

    /** One round of the reading loop: "." and ".." are passed over. */
    method ProcListed(stk: Stack, level: nat, path: string, ghost es: seq<Entry>, name: string)
      requires stk.Valid()
      requires es != [] && es[0].name == name && Known(world, path, es[0])
      modifies this, stk
      ensures stk.Valid() && Grown(stk)
      ensures Now(stk, es[1..]) == NextStage(path, level, old(Now(stk, es)))
    {
      StageOf(path, level, Now(stk, es));
      if name != "." && name != ".." {
        ProcEntry(stk, level, path, name);
      }
    }

    /** The reading loop. */
    method ReadAll(stk: Stack, path: string, level: nat, es: seq<Entry>)
      requires stk.Valid() && AllStand(world, stk.Items())
      requires OpenAt(world, path).Some?
      requires var t := OpenAt(world, path).value; WellFormed(t) && t.Dir? && t.entries == es
      modifies this, stk
      ensures stk.Valid() && Grown(stk)
      ensures Kept(world, level, old(Now(stk, es)), Now(stk, []))
    {
      ghost var start := Now(stk, es);
      assert es[0..] == es;
      for k := 0 to |es|
        invariant stk.Valid() && Grown(stk)
        invariant Kept(world, level, start, Now(stk, es[k..]))
      {
        ghost var rest := es[k..];
        ChildStands(world, path, es, k);
        KeptStep(world, path, level, start, Now(stk, rest));
        ProcListed(stk, level, path, rest, es[k].name);
        assert rest[1..] == es[k + 1..];
      }
      assert es[|es|..] == [];
    }

    /** Reads one directory, if it can be opened.  Opening follows a link, which
        only the root can be. */
    method ProcDir(stk: Stack, path: string, level: nat)
      requires stk.Valid() && AllStand(world, stk.Items())
      requires OpenAt(world, path).Some? && WellFormed(OpenAt(world, path).value)
      modifies this, stk
      ensures stk.Valid() && Grown(stk)
      ensures Kept(world, level + 1, old(Now(stk, Listed(OpenAt(world, path).value))), Now(stk, []))
    {
      var t := OpenAt(world, path).value;
      if t.Dir? && t.readable {
        ReadAll(stk, path, level + 1, t.entries);
      }
    }

    /** Prints a directory that was just taken off, and reads it. */
    method Visit(stk: Stack, data: string, level: nat, inode: nat)
      requires stk.Valid() && AllStand(world, stk.Items())
      requires Stands(world, Item(data, level, inode))
      modifies this, stk
      ensures stk.Valid() && Grown(stk)
      ensures Kept(world, level + 1, Opening(world, Item(data, level, inode), old(Now(stk, []))), Now(stk, []))
    {
      out := out + [Line(level, BaseName(data), inode)];
      ProcDir(stk, data, level);
    }

    /** The same, seen from the moment before the directory was taken off. */
    method Process(stk: Stack, item: Item, ghost start: Stage)
      requires stk.Valid() && AllStand(world, start.items)
      requires start.items != [] && start.items[0] == item && Now(stk, []) == start.(items := start.items[1..])
      modifies this, stk
      ensures stk.Valid() && Grown(stk)
      ensures Settled(world, start, Now(stk, []))
    {
      ghost var mid := Opening(world, item, Now(stk, []));
      Visit(stk, item.data, item.level, item.inode);
      ghost var end := Now(stk, []);
      Opened(world, start, mid, end);
    }

    /** One round of the main loop: takes the top directory off, prints and
        reads it, and frees its node. */
    method VisitTop(stk: Stack)
      requires stk.Valid() && AllStand(world, stk.Items()) && stk.nodes != []
      modifies this, stk, stk.top`freed
      ensures stk.Valid()
      ensures forall n: Node | n in stk.nodes :: fresh(n) || n in old(stk.nodes)
      ensures pushes - frees - |stk.nodes| == old(pushes - frees - |stk.nodes|)
      ensures Settled(world, old(Now(stk, [])), Now(stk, []))
    {
      ghost var start := Now(stk, []);
      var node := stk.Pop(true);
      Process(stk, Item(node.data, node.level, node.inode), start);
      assert node !in stk.nodes;
      Release(stk, node);
    }

    /** Frees a node that is off the stack. */
    method Release(stk: Stack, node: Node)
      requires stk.Valid() && node !in stk.nodes && !node.freed
      modifies node`freed, this`frees
      ensures node.freed && stk.Valid() && Now(stk, []) == old(Now(stk, [])) && frees == old(frees) + 1
    {
      node.Free();
      frees := frees + 1;
    }

    /** The main loop: until the stack is free. */
    method Drain(stk: Stack)
      requires stk.Valid() && AllStand(world, stk.Items())
      modifies this, stk, stk.nodes
      ensures stk.Valid() && stk.nodes == []
      ensures pushes - frees == old(pushes - frees - |stk.nodes|)
      ensures out == old(out) + Pending(world, old(stk.Items()))
      ensures forall what :: counters.Of(what) == old(counters).Of(what) + PendingCount(world, old(stk.Items()), what)
    {
      ghost var start := Now(stk, []);
      var free := stk.IsFree();
      while !free
        invariant stk.Valid() && free == (stk.nodes == [])
        invariant forall n: Node | n in stk.nodes :: fresh(n) || n in old(stk.nodes)
        invariant pushes - frees - |stk.nodes| == old(pushes - frees - |stk.nodes|)
        invariant Steady(world, start, Now(stk, []))
        decreases Weight(world, stk.Items())
      {
        ghost var before := Now(stk, []);
        assert stk.nodes[0] in stk.nodes;
        assert fresh(stk.nodes[0]) || stk.nodes[0] in old(stk.nodes);
        VisitTop(stk);
        ghost var after := Now(stk, []);
        SteadyStep(world, start, before, after);
        free := stk.IsFree();
      }
      Drained(world, start, Now(stk, []));
    }

    /** The whole walk.  Everything printed and counted is what the recursive
        specification says of the tree that opening the root leads to, under a
        header for the root itself, and every node put on the stack was taken
        off and freed. */
    method MyftwN() returns (ret: nat)
      requires WellFormed(Behind(world))
      modifies this
      ensures ret == 1
      ensures world.tree.Unknown? ==> out == old(out) && counters == old(counters)
      ensures !world.tree.Unknown? ==>
        out == old(out) + ([Line(0, BaseName(world.root), Inode(world.tree))] + Inside(Behind(world), 0))
      ensures !world.tree.Unknown? ==>
        forall what :: counters.Of(what) == old(counters).Of(what) + Below(Behind(world), what)
      ensures pushes - frees == old(pushes) - old(frees)
    {
      var stk := new Stack();
      if world.tree.Unknown? {
        return 1;
      }
      PushDir(stk, world.root, 0, Inode(world.tree));
      assert forall n: Node | n in stk.nodes :: fresh(n);
      PendingRoot(world, stk.Items());
      Drain(stk);
      stk.FreeAll();
      return 1;
    }
  }

  /** Between two rounds nothing is lost, doubled or reordered, and the work
      left has shrunk. */
  ghost predicate Settled(w: World, a: Stage, b: Stage) {
    && AllStand(w, a.items) && AllStand(w, b.items)
    && b.out + Pending(w, b.items) == a.out + Pending(w, a.items)
    && (forall what :: b.counters.Of(what) + PendingCount(w, b.items, what)
                       == a.counters.Of(what) + PendingCount(w, a.items, what))
    && Weight(w, b.items) < Weight(w, a.items)
  }

  lemma TakenOut(w: World, a: Stage)
    requires a.items != [] && AllStand(w, a.items)
    ensures var item := a.items[0];
      var mid := Opening(w, item, a.(items := a.items[1..]));
      AllStand(w, mid.items) && mid.out + RestOut(w, mid.es, item.level + 1, mid.items) == a.out + Pending(w, a.items)
  {
    var item := a.items[0];
    var t, mid := OpenAt(w, item.data).value, Opening(w, item, a.(items := a.items[1..]));
    var header, level := [Line(item.level, BaseName(item.data), item.inode)], item.level + 1;
    Reassociate(a.out, header, Leaves(mid.es, level), Subs(mid.es, level), Pending(w, mid.items));
    assert ItemOut(w, item) == header + (Leaves(mid.es, level) + Subs(mid.es, level));
  }

  lemma Reassociate(a: seq<Line>, b: seq<Line>, c: seq<Line>, d: seq<Line>, e: seq<Line>)
    ensures (a + b) + (c + (d + e)) == a + ((b + (c + d)) + e)
  {
  }

  lemma TakenTallies(w: World, items: seq<Item>)
    requires items != [] && AllStand(w, items)
    ensures AllStand(w, items[1..])
    ensures var es := Listed(OpenAt(w, items[0].data).value);
      && (forall what :: RestCount(w, es, items[1..], what) == PendingCount(w, items, what))
      && RestWeight(w, es, items[1..]) < Weight(w, items)
  {
    var t := OpenAt(w, items[0].data).value;
    var es := Listed(t);
    assert Weight(w, items) == Size(t) + Weight(w, items[1..]);
    assert Size(t) > SizeAll(es);
    forall what
      ensures RestCount(w, es, items[1..], what) == PendingCount(w, items, what)
    {
      assert Below(t, what) == BelowAll(es, what);
    }
  }

  /** A round of the main loop, from its parts. */
  lemma Opened(w: World, a: Stage, mid: Stage, b: Stage)
    requires a.items != [] && AllStand(w, a.items) && b.es == []
    requires mid == Opening(w, a.items[0], a.(items := a.items[1..]))
    requires Kept(w, a.items[0].level + 1, mid, b)
    ensures Settled(w, a, b)
  {
    TakenOut(w, a);
    TakenTallies(w, a.items);
    EmptyRest(w, a.items[0].level + 1, b.items);
  }

  lemma EmptyRest(w: World, level: nat, items: seq<Item>)
    requires AllStand(w, items)
    ensures RestOut(w, [], level, items) == Pending(w, items)
    ensures forall what :: RestCount(w, [], items, what) == PendingCount(w, items, what)
    ensures RestWeight(w, [], items) == Weight(w, items)
  {
    var pending := Pending(w, items);
    assert [] + ([] + pending) == pending;
  }

  /** What is printed, counted and pending together never changes. */
  ghost predicate Steady(w: World, a: Stage, b: Stage) {
    && AllStand(w, a.items) && AllStand(w, b.items)
    && b.out + Pending(w, b.items) == a.out + Pending(w, a.items)
    && forall what :: b.counters.Of(what) + PendingCount(w, b.items, what)
                      == a.counters.Of(what) + PendingCount(w, a.items, what)
  }

  lemma SteadyStep(w: World, a: Stage, b: Stage, c: Stage)
    requires Steady(w, a, b) && Settled(w, b, c)
    ensures Steady(w, a, c)
  {
  }

  lemma Drained(w: World, a: Stage, b: Stage)
    requires Steady(w, a, b) && b.items == []
    ensures b.out == a.out + Pending(w, a.items)
    ensures forall what :: b.counters.Of(what) == a.counters.Of(what) + PendingCount(w, a.items, what)
  {
    assert b.out + [] == b.out;
    forall what
      ensures b.counters.Of(what) == a.counters.Of(what) + PendingCount(w, a.items, what)
    {
      assert PendingCount(w, b.items, what) == 0;
    }
  }

  /** What is pending for the root alone is the whole specification. */
  lemma PendingRoot(w: World, items: seq<Item>)
    requires WellFormed(Behind(w)) && items == [Item(w.root, 0, Inode(w.tree))]
    ensures AllStand(w, items)
    ensures Pending(w, items) == [Line(0, BaseName(w.root), Inode(w.tree))] + Inside(Behind(w), 0)
    ensures forall what :: PendingCount(w, items, what) == Below(Behind(w), what)
  {
    assert w.root[|w.root|..] == "";
    assert Stands(w, items[0]);
    assert items[1..] == [];
    forall what
      ensures PendingCount(w, items, what) == Below(Behind(w), what)
    {
      assert PendingCount(w, items[1..], what) == 0;
    }
  }
}
