/** The recursive directory walker: it moves into each directory, counts in
    preorder, and stops at the first entry it cannot examine. */
module DoPath {
  import opened Common
  import opened DirTree

  // ---------------------------------------------------------- specification

  /** A visit: a line printed and counted, or a failure. */
  datatype Event = Seen(depth: nat, name: string, what: What) | Failed

  /** The visits of a whole tree in preorder, failures included. */
  ghost function Events(t: Tree, name: string, depth: nat): seq<Event>
    decreases t, 1
  {
    match t
    case Unknown => [Failed]
    case File(kind, _) => [Seen(depth, name, Plain(kind))]
    case Dir(_, readable, entries) =>
      [Seen(depth, name, Directory)] + if readable then EventsAll(entries, depth + 1) else [Failed]
  }

  ghost function EventsAll(es: seq<Entry>, depth: nat): seq<Event>
    decreases es, 0
  {
    if es == [] then []
    else (if IsDot(es[0].name) then [] else Events(es[0].tree, es[0].name, depth)) + EventsAll(es[1..], depth)
  }

  /** The visits before the first failure. */
  function Prefix(events: seq<Event>): seq<Event> {
    if events == [] || events[0].Failed? then [] else [events[0]] + Prefix(events[1..])
  }

  /** The number of visits of one sort of entry. */
  function Tally(events: seq<Event>, what: What): nat {
    if events == [] then 0
    else
      var last := events[|events| - 1];
      Tally(events[..|events| - 1], what)
      + if last.Seen? && last.what == what && what != Plain(OtherKind) then 1 else 0
  }

  lemma {:induction false} PrefixStops(a: seq<Event>, b: seq<Event>)
    requires Failed in a
    ensures Prefix(a + b) == Prefix(a)
    decreases |a|
  {
    assert (a + b)[0] == a[0];
    if !a[0].Failed? {
      assert (a + b)[1..] == a[1..] + b;
      PrefixStops(a[1..], b);
    }
  }

  lemma {:induction false} PrefixGoesOn(a: seq<Event>, b: seq<Event>)
    requires Failed !in a
    ensures Prefix(a) == a && Prefix(a + b) == a + Prefix(b)
    decreases |a|
  {
    if a == [] {
      assert a + b == b && a + Prefix(b) == Prefix(b);
    } else {
      assert (a + b)[0] == a[0] && (a + b)[1..] == a[1..] + b;
      PrefixGoesOn(a[1..], b);
      assert a == [a[0]] + a[1..];
      assert [a[0]] + (a[1..] + Prefix(b)) == ([a[0]] + a[1..]) + Prefix(b);
    }
  }

  lemma {:induction false} TallyAppend(a: seq<Event>, b: seq<Event>, what: What)
    ensures Tally(a + b, what) == Tally(a, what) + Tally(b, what)
    decreases |b|
  {
    if b == [] {
      assert a + b == a;
    } else {
      var init := b[..|b| - 1];
      assert (a + b)[..|a + b| - 1] == a + init && (a + b)[|a + b| - 1] == b[|b| - 1];
      TallyAppend(a, init, what);
    }
  }

  // ---------------------------------------------------- working directories

  /** A place in the file system: the names from the root to it.  No name in it
      is a link, "." or "..". */
  type Place = seq<string>

  /** A tree, and the places that the symbolic links in it lead to. */
  datatype FileSystem = FileSystem(tree: Tree, links: map<Place, Place>)

  /** The tree at a list of names. */
  function At(t: Tree, names: seq<string>): Option<Tree>
    decreases |names|
  {
    if names == [] then Some(t)
    else
      match Child(t, names[0])
      case None => None
      case Some(c) => At(c, names[1..])
  }

  lemma {:induction false} AtAppend(t: Tree, names: seq<string>, name: string)
    requires At(t, names).Some?
    ensures At(t, names + [name]) == Child(At(t, names).value, name)
    decreases |names|
  {
    if names == [] {
      assert (names + [name])[1..] == [];
    } else {
      assert (names + [name])[1..] == names[1..] + [name];
      AtAppend(Child(t, names[0]).value, names[1..], name);
    }
  }

  function Parent(place: Place): Place {
    if place == [] then [] else place[..|place| - 1]
  }

  predicate IsDir(fs: FileSystem, place: Place) {
    At(fs.tree, place).Some? && At(fs.tree, place).value.Dir?
  }

  /** Where a link leads, if a place is one that leads somewhere. */
  function Followed(fs: FileSystem, place: Place): Place {
    var t := At(fs.tree, place);
    if t.Some? && IsLink(t.value) && place in fs.links then fs.links[place] else place
  }

  /** What one component of a path name leads to, the last link unfollowed. */
  function Next(place: Place, part: string): Place {
    if part == "" || part == "." then place
    else if part == ".." then Parent(place)
    else place + [part]
  }

  /** The components of a path name. */
  function Parts(path: string): (parts: seq<string>)
    ensures parts != []
    decreases |path|
  {
    var part := Component(path);
    if |part| == |path| then [part] else [part] + Parts(path[|part| + 1..])
  }

  /** All components but the last lead through directories, links followed. */
  function Resolve(fs: FileSystem, place: Place, parts: seq<string>): Option<Place>
    requires parts != []
    decreases |parts|
  {
    var next := Next(place, parts[0]);
    if |parts| == 1 then Some(next)
    else if IsDir(fs, Followed(fs, next)) then Resolve(fs, Followed(fs, next), parts[1..])
    else None
  }

  /** The place that a path name stands for in a working directory. */
  function Locate(fs: FileSystem, cwd: Place, path: string): Option<Place> {
    if path == "" then None else Resolve(fs, if path[0] == '/' then [] else cwd, Parts(path))
  }

  /** lstat(): a path name that leads nowhere cannot be examined. */
  function Stat(fs: FileSystem, cwd: Place, path: string): Tree {
    var place := Locate(fs, cwd, path);
    if place.Some? && At(fs.tree, place.value).Some? then At(fs.tree, place.value).value else Unknown
  }

  /** The name of an entry, taken in its own directory. */
  lemma StatEntry(fs: FileSystem, cwd: Place, es: seq<Entry>, k: nat)
    requires At(fs.tree, cwd).Some? && At(fs.tree, cwd).value.Dir? && At(fs.tree, cwd).value.entries == es
    requires WellFormed(At(fs.tree, cwd).value) && k < |es| && !IsDot(es[k].name)
    ensures Locate(fs, cwd, es[k].name) == Some(cwd + [es[k].name])
    ensures Stat(fs, cwd, es[k].name) == es[k].tree
  {
    ComponentAll(es[k].name);
    AtAppend(fs.tree, cwd, es[k].name);
    FindEntry(es, k);
  }

  // ------------------------------------------------ what path names stand for

  function Joined(parts: seq<string>): string
    requires parts != []
  {
    if |parts| == 1 then parts[0] else parts[0] + ("/" + Joined(parts[1..]))
  }

  /** The components, with slashes between them, are the path name. */
  lemma {:induction false} PartsJoined(path: string)
    ensures Joined(Parts(path)) == path
    ensures forall i | 0 <= i < |Parts(path)| :: '/' !in Parts(path)[i]
    decreases |path|
  {
    var part := Component(path);
    if |part| < |path| {
      var rest := path[|part| + 1..];
      PartsJoined(rest);
      assert Parts(path)[1..] == Parts(rest);
      assert path == part + ("/" + rest);
    }
  }

  lemma PartsCons(part: string, rest: string)
    requires '/' !in part
    ensures Parts(part + ("/" + rest)) == [part] + Parts(rest)
  {
    ComponentAppend(part, "/" + rest);
    ComponentAll(part);
    assert (part + ("/" + rest))[|part| + 1..] == rest;
  }

  lemma Regroup(path: string, part: string, rest: string, more: string)
    requires part <= path && |part| < |path| && path[|part|] == '/' && rest == path[|part| + 1..]
    ensures path + more == part + ("/" + (rest + more))
  {
    assert path == part + ("/" + rest);
  }

  lemma {:induction false} PartsAppend(path: string, more: string)
    ensures Parts(path + ("/" + more)) == Parts(path) + Parts(more)
    decreases |path|
  {
    var part := Component(path);
    if |part| == |path| {
      assert path == part;
      PartsCons(path, more);
    } else {
      var rest := path[|part| + 1..];
      PartsAppend(rest, more);
      Regroup(path, part, rest, "/" + more);
      PartsCons(part, rest + ("/" + more));
      Associative([part], Parts(rest), Parts(more));
    }
  }

  lemma {:induction false} ResolveAppend(fs: FileSystem, place: Place, a: seq<string>, b: seq<string>)
    requires a != [] && b != []
    ensures Resolve(fs, place, a + b) ==
      match Resolve(fs, place, a)
      case None => None
      case Some(p) => if IsDir(fs, Followed(fs, p)) then Resolve(fs, Followed(fs, p), b) else None
    decreases |a|
  {
    assert (a + b)[0] == a[0] && (a + b)[1..] == a[1..] + b;
    if |a| == 1 {
      assert a[1..] + b == b;
    } else if IsDir(fs, Followed(fs, Next(place, a[0]))) {
      ResolveAppend(fs, Followed(fs, Next(place, a[0])), a[1..], b);
    }
  }

  /** One more component is looked up in the directory that the path before it
      leads to, a link followed. */
  lemma LocateJoin(fs: FileSystem, cwd: Place, path: string, name: string)
    requires path != "" && '/' !in name
    ensures Locate(fs, cwd, path + ("/" + name)) ==
      match Locate(fs, cwd, path)
      case None => None
      case Some(p) => if IsDir(fs, Followed(fs, p)) then Some(Next(Followed(fs, p), name)) else None
  {
    PartsAppend(path, name);
    ComponentAll(name);
    ResolveAppend(fs, if path[0] == '/' then [] else cwd, Parts(path), [name]);
  }

  /** A path that begins with a slash stands for the same place wherever the
      program is. */
  lemma AbsolutePath(fs: FileSystem, cwd: Place, here: Place, path: string)
    requires path != "" && path[0] == '/'
    ensures Locate(fs, cwd, path) == Locate(fs, here, path)
    ensures Stat(fs, cwd, path) == Stat(fs, here, path)
  {
  }

  /** "/a" is the entry "a" of the root, and "/a/b" what is called "b" in it or,
      if it is a link to a directory, in what it leads to. */
  lemma FromRoot(fs: FileSystem, cwd: Place, a: string, b: string)
    requires fs.tree.Dir? && GoodName(a) && GoodName(b) && !IsDot(a) && !IsDot(b)
    ensures Locate(fs, cwd, "/" + a) == Some([a])
    ensures IsDir(fs, [a]) ==> Locate(fs, cwd, ("/" + a) + ("/" + b)) == Some([a, b])
    ensures LeadsTo(fs, [a]) ==> Locate(fs, cwd, ("/" + a) + ("/" + b)) == Some(fs.links[[a]] + [b])
  {
    var path := "/" + a;
    assert Component(path) == "" && path[1..] == a;
    ComponentAll(a);
    assert Parts(path) == [""] + [a];
    ResolveAppend(fs, [], [""], [a]);
    assert [] + [a] == [a] && [a] + [b] == [a, b];
    LocateJoin(fs, cwd, path, b);
  }

  /** Below a directory, "a/b" stands for its entry "b"; below a link that leads
      to a directory, for the entry "b" of what the link leads to. */
  lemma BelowFirst(fs: FileSystem, cwd: Place, a: string, b: string)
    requires GoodName(a) && GoodName(b) && !IsDot(a) && !IsDot(b)
    ensures IsDir(fs, cwd + [a]) ==> Locate(fs, cwd, a + ("/" + b)) == Some(cwd + [a, b])
    ensures LeadsTo(fs, cwd + [a]) ==> Locate(fs, cwd, a + ("/" + b)) == Some(fs.links[cwd + [a]] + [b])
  {
    ComponentAll(a);
    assert Locate(fs, cwd, a) == Some(cwd + [a]);
    LocateJoin(fs, cwd, a, b);
    assert (cwd + [a]) + [b] == cwd + [a, b];
  }

  /** The place is a link, and what it leads to is a directory. */
  predicate LeadsTo(fs: FileSystem, place: Place) {
    && At(fs.tree, place).Some? && IsLink(At(fs.tree, place).value)
    && place in fs.links && IsDir(fs, fs.links[place])
  }

  /** A name that the directory does not list cannot be examined. */
  lemma StatMissing(fs: FileSystem, cwd: Place, name: string)
    requires IsDir(fs, cwd) && '/' !in name && !IsDot(name) && name != ""
    requires forall k | 0 <= k < |At(fs.tree, cwd).value.entries| :: At(fs.tree, cwd).value.entries[k].name != name
    ensures Stat(fs, cwd, name) == Unknown
  {
    ComponentAll(name);
    AtAppend(fs.tree, cwd, name);
    NotFound(At(fs.tree, cwd).value.entries, name);
  }

  lemma {:induction false} NotFound(es: seq<Entry>, name: string)
    requires forall k | 0 <= k < |es| :: es[k].name != name
    ensures Find(es, name) == None
  {
    if es != [] {
      NotFound(es[1..], name);
    }
  }

  // ------------------------------------- the working directory after a visit

  /** A visit goes into the directories it can open. */
  predicate Enters(fs: FileSystem, cwd: Place, path: string) {
    Stat(fs, cwd, path).Dir? && Stat(fs, cwd, path).readable
  }

  /** chdir(path), and, when the listing is read, chdir(".."). */
  function CwdAfter(fs: FileSystem, cwd: Place, path: string): Place {
    if Enters(fs, cwd, path) then Parent(Locate(fs, cwd, path).value) else cwd
  }

  /** The working directory is restored exactly when what was entered is a
      direct child of it, or both are the root. */
  lemma RestoredIff(fs: FileSystem, cwd: Place, path: string)
    requires Enters(fs, cwd, path)
    ensures var place := Locate(fs, cwd, path).value;
      CwdAfter(fs, cwd, path) == cwd <==> (place == cwd == [] || (place != [] && place == cwd + [place[|place| - 1]]))
  {
    var place := Locate(fs, cwd, path).value;
    if place != [] {
      assert place == place[..|place| - 1] + [place[|place| - 1]];
      assert (cwd + [place[|place| - 1]])[..|cwd|] == cwd;
    }
  }

  /** For a name of one component: exactly when it is not "." or "..", or when
      the working directory is the root. */
  lemma RestoredOne(fs: FileSystem, cwd: Place, name: string)
    requires Enters(fs, cwd, name) && '/' !in name
    ensures CwdAfter(fs, cwd, name) == cwd <==> !IsDot(name) || cwd == []
  {
    ComponentAll(name);
    assert |cwd| > 0 ==> |Parent(cwd)| < |cwd|;
  }

  /** For several: a relative path name that meets no link and names no "." or
      ".." leaves all but its last component behind. */
  lemma RestoredPlain(fs: FileSystem, cwd: Place, path: string)
    requires Enters(fs, cwd, path) && path[0] != '/' && Straight(fs, cwd, Parts(path))
    ensures CwdAfter(fs, cwd, path) == cwd + Parts(path)[..|Parts(path)| - 1]
    ensures CwdAfter(fs, cwd, path) == cwd <==> '/' !in path
  {
    ResolvePlain(fs, cwd, Parts(path));
    OnePart(path);
    assert |CwdAfter(fs, cwd, path)| == |cwd| + |Parts(path)| - 1;
    assert cwd + [] == cwd;
  }

  /** No part is "", "." or "..", and no part but the last is a link. */
  predicate Straight(fs: FileSystem, place: Place, parts: seq<string>)
    decreases |parts|
  {
    parts == [] ||
    var next := place + [parts[0]];
    && !IsDot(parts[0]) && parts[0] != ""
    && (|parts| > 1 ==> Followed(fs, next) == next && Straight(fs, next, parts[1..]))
  }

  lemma {:induction false} ResolvePlain(fs: FileSystem, place: Place, parts: seq<string>)
    requires parts != [] && Resolve(fs, place, parts).Some? && Straight(fs, place, parts)
    ensures Resolve(fs, place, parts).value == place + parts
    decreases |parts|
  {
    if |parts| > 1 {
      ResolvePlain(fs, place + [parts[0]], parts[1..]);
      assert place + [parts[0]] + parts[1..] == place + parts;
    }
  }

  lemma OnePart(path: string)
    ensures '/' !in path <==> |Parts(path)| == 1
  {
    if '/' !in path {
      ComponentAll(path);
    }
  }

  predicate Openable(fs: FileSystem, place: Place) {
    IsDir(fs, place) && At(fs.tree, place).value.readable
  }

  /** The program called with "." ends one directory above where it began, with
      ".." two above. */
  lemma DotNotRestored(fs: FileSystem, a: string, b: string)
    requires Openable(fs, [a])
    ensures Enters(fs, [a], ".") && CwdAfter(fs, [a], ".") == []
    ensures Enters(fs, [a, b], "..") && CwdAfter(fs, [a, b], "..") == []
  {
    ComponentAll(".");
    ComponentAll("..");
    assert Parent([a]) == [] && Parent([a, b]) == [a];
  }

  // ------------------------------------------------------------- the walker

  class Walker {
    const fs: FileSystem
    var cwd: Place
    var counters: Counters
    var log: seq<Event>  // the lines printed

    constructor (files: FileSystem, start: Place)
      ensures fs == files && cwd == start && counters == ZERO && log == [] && Consistent()
    {
      fs, cwd, counters, log := files, start, ZERO, [];
    }

    /** The counters are those of the printed lines. */
    ghost predicate Consistent()
      reads this
    {
      forall what :: counters.Of(what) == Tally(log, what)
    }

    /** counter() for an entry that is printed and counted. */
    method Counter(name: string, depth: nat, t: Tree, ghost what: What)
      requires Consistent() && !t.Unknown?
      requires what == if t.Dir? then Directory else Plain(t.kind)
      modifies this`counters, this`log
      ensures Consistent() && log == old(log) + [Seen(depth, name, what)]
    {
      counters := counters.Count(t);
      log := log + [Seen(depth, name, if t.Dir? then Directory else Plain(t.kind))];
      CountAddsOne(old(counters), t);
      assert log[..|log| - 1] == old(log);
    }

    /** Visits the tree at a path name.  The counters and the printed lines are
        those of the preorder up to the first failure, and the result is -1 if
        there is one.  A visit that went in leaves the working directory at the
        parent of the place it entered. */
    method Dopath(filename: string, depth: nat, ghost t: Tree) returns (ret: int)
      requires t == Stat(fs, cwd, filename) && WellFormed(t) && Consistent()
      modifies this
      ensures Consistent()
      ensures ret == if Failed in Events(t, filename, depth) then -1 else 0
      ensures log == old(log) + Prefix(Events(t, filename, depth))
      ensures cwd == CwdAfter(fs, old(cwd), filename)
      ensures Enters(fs, old(cwd), filename) && '/' !in filename ==>
        (cwd == old(cwd) <==> !IsDot(filename) || old(cwd) == [])
      decreases t, 4
    {
      SingleEvents(t, filename, depth);
      if Enters(fs, cwd, filename) && '/' !in filename {
        RestoredOne(fs, cwd, filename);
      }
      var statbuf := Stat(fs, cwd, filename);
      if statbuf.Unknown? {
        return -1;
      }
      if !statbuf.Dir? {
        Counter(filename, depth, statbuf, Plain(statbuf.kind));
        return 0;
      }
      ret := EnterDirectory(filename, depth, statbuf);
    }

    /** The part for a directory: count it, open it, read it. */
    method EnterDirectory(filename: string, depth: nat, t: Tree) returns (ret: int)
      requires t == Stat(fs, cwd, filename) && WellFormed(t) && Consistent() && t.Dir?
      modifies this
      ensures Consistent()
      ensures ret == if Failed in Events(t, filename, depth) then -1 else 0
      ensures log == old(log) + Prefix(Events(t, filename, depth))
      ensures cwd == CwdAfter(fs, old(cwd), filename)
      decreases t, 3
    {
      Counter(filename, depth, t, Directory);
      DirectoryEvents(t, filename, depth, old(log));
      if !t.readable {
        return -1;
      }
      ret := ReadInside(filename, t.entries, depth + 1, t);
    }

    /** chdir() in, the reading loop, chdir("..") out. */
    method ReadInside(filename: string, es: seq<Entry>, depth: nat, ghost t: Tree) returns (ret: int)
      requires t == Stat(fs, cwd, filename) && WellFormed(t) && Consistent()
      requires t.Dir? && t.entries == es
      modifies this
      ensures Consistent()
      ensures ret == if Failed in EventsAll(es, depth) then -1 else 0
      ensures log == old(log) + Prefix(EventsAll(es, depth))
      ensures cwd == Parent(Locate(fs, old(cwd), filename).value)
      decreases t, 2
    {
      cwd := Locate(fs, cwd, filename).value;
      ret := Entries(es, depth, t);
      cwd := Parent(cwd);
    }

    /** The reading loop, in the directory just entered. */
    method Entries(es: seq<Entry>, depth: nat, ghost t: Tree) returns (ret: int)
      requires At(fs.tree, cwd) == Some(t) && t.Dir? && t.entries == es && WellFormed(t) && Consistent()
      modifies this
      ensures Consistent()
      ensures ret == if Failed in EventsAll(es, depth) then -1 else 0
      ensures log == old(log) + Prefix(EventsAll(es, depth))
      ensures cwd == old(cwd)
      decreases t, 1
    {
      ret := 0;
      var k := 0;
      assert es[0..] == es;
      while k < |es| && ret == 0
        invariant k <= |es| && cwd == old(cwd) && Consistent()
        invariant Partly(es, depth, k, ret, old(log), log)
      {
        ghost var before := log;
        ret := OneEntry(es, k, depth, t);
        PartlyStep(es, depth, k, ret, old(log), before, log);
        k := k + 1;
      }
      assert es[|es|..] == [];
    }

    /** One round of the loop: "." and ".." are passed over. */
    method OneEntry(es: seq<Entry>, k: nat, depth: nat, ghost t: Tree) returns (ret: int)
      requires At(fs.tree, cwd) == Some(t) && t.Dir? && t.entries == es && WellFormed(t) && Consistent()
      requires k < |es|
      modifies this
      ensures Consistent()
      ensures ret == if Failed in EntryEvents(es[k], depth) then -1 else 0
      ensures log == old(log) + Prefix(EntryEvents(es[k], depth))
      ensures cwd == old(cwd)
      decreases t, 0
    {
      ret := 0;
      if es[k].name != "." && es[k].name != ".." {
        StatEntry(fs, cwd, es, k);
        ret := Dopath(es[k].name, depth, es[k].tree);
      }
    }
  }

  lemma SingleEvents(t: Tree, name: string, depth: nat)
    ensures t.Unknown? ==> Prefix(Events(t, name, depth)) == [] && Failed in Events(t, name, depth)
    ensures t.File? ==>
      Prefix(Events(t, name, depth)) == [Seen(depth, name, Plain(t.kind))] && Failed !in Events(t, name, depth)
  {
    if t.File? {
      PrefixGoesOn([Seen(depth, name, Plain(t.kind))], []);
    }
  }

  lemma DirectoryEvents(t: Tree, name: string, depth: nat, log: seq<Event>)
    requires t.Dir?
    ensures t.readable ==>
      var rest := EventsAll(t.entries, depth + 1);
      && (log + [Seen(depth, name, Directory)]) + Prefix(rest) == log + Prefix(Events(t, name, depth))
      && (Failed in Events(t, name, depth) <==> Failed in rest)
    ensures !t.readable ==>
      && log + [Seen(depth, name, Directory)] == log + Prefix(Events(t, name, depth))
      && Failed in Events(t, name, depth)
  {
    var head, rest := [Seen(depth, name, Directory)], if t.readable then EventsAll(t.entries, depth + 1) else [Failed];
    assert Events(t, name, depth) == head + rest;
    PrefixGoesOn(head, rest);
    Associative(log, head, Prefix(rest));
    assert !t.readable ==> Prefix(rest) == [];
  }

  /** The visits of the entry at `k`. */
  ghost function EntryEvents(e: Entry, depth: nat): seq<Event> {
    if IsDot(e.name) then [] else Events(e.tree, e.name, depth)
  }

  /** Visits `a` done, `b` to come. */
  lemma Continue(a: seq<Event>, b: seq<Event>, all: seq<Event>, log0: seq<Event>, log1: seq<Event>)
    requires log1 + Prefix(a + b) == log0 + Prefix(all) && (Failed in a + b <==> Failed in all)
    ensures Failed in a ==> Failed in all && log1 + Prefix(a) == log0 + Prefix(all)
    ensures Failed !in a ==>
      && (Failed in b <==> Failed in all)
      && (log1 + Prefix(a)) + Prefix(b) == log0 + Prefix(all)
  {
    if Failed in a {
      PrefixStops(a, b);
    } else {
      PrefixGoesOn(a, b);
      Associative(log1, a, Prefix(b));
    }
  }

  lemma PartlyStep(es: seq<Entry>, depth: nat, k: nat, ret: int, log0: seq<Event>, log1: seq<Event>, log2: seq<Event>)
    requires k < |es| && Partly(es, depth, k, 0, log0, log1)
    requires log2 == log1 + Prefix(EntryEvents(es[k], depth))
    requires ret == if Failed in EntryEvents(es[k], depth) then -1 else 0
    ensures Partly(es, depth, k + 1, ret, log0, log2)
  {
    var a, b := EntryEvents(es[k], depth), EventsAll(es[k + 1..], depth);
    assert es[k..][0] == es[k] && es[k..][1..] == es[k + 1..];
    assert EventsAll(es[k..], depth) == a + b;
    Continue(a, b, EventsAll(es, depth), log0, log1);
  }

  /** The loop has handled the entries before `k`. */
  ghost predicate Partly(es: seq<Entry>, depth: nat, k: nat, ret: int, log0: seq<Event>, log: seq<Event>)
    requires k <= |es|
  {
    && (ret == 0 || ret == -1)
    && (ret == 0 ==> (Failed in EventsAll(es[k..], depth) <==> Failed in EventsAll(es, depth)))
    && (ret == 0 ==> log + Prefix(EventsAll(es[k..], depth)) == log0 + Prefix(EventsAll(es, depth)))
    && (ret == -1 ==> Failed in EventsAll(es, depth) && log == log0 + Prefix(EventsAll(es, depth)))
  }
}
