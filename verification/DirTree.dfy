/** A file system as the directory walkers see it: a finite tree, reached by
    path names or, name by name, from a working directory. */
module DirTree {
  import opened Common

  datatype Kind = Regular | BlockDevice | CharDevice | Fifo | Symlink | Socket | OtherKind

  /** `Unknown` is an entry that lstat() fails on.  The entries of a directory
      are in the order of readdir(), "." and ".." included. */
  datatype Tree =
    | Unknown
    | File(kind: Kind, inode: nat)
    | Dir(inode: nat, readable: bool, entries: seq<Entry>)

  datatype Entry = Entry(name: string, tree: Tree)

  /** The two entries that every walker passes over. */
  predicate IsDot(name: string) { name == "." || name == ".." }

  predicate GoodName(name: string) { name != "" && '/' !in name }

  /** Names are what a file system allows, and differ within a directory. */
  ghost predicate WellFormed(t: Tree) {
    t.Dir? ==> WellFormedAll(t.entries)
  }

  ghost predicate WellFormedAll(es: seq<Entry>) {
    && (forall i | 0 <= i < |es| :: GoodName(es[i].name) && WellFormed(es[i].tree))
    && (forall i, j | 0 <= i < j < |es| :: es[i].name != es[j].name)
  }

  /** The entries that a walker gets to see. */
  function Listed(t: Tree): seq<Entry> {
    if t.Dir? && t.readable then t.entries else []
  }

  function Find(es: seq<Entry>, name: string): Option<Tree> {
    if es == [] then None
    else if es[0].name == name then Some(es[0].tree)
    else Find(es[1..], name)
  }

  lemma {:induction false} FindEntry(es: seq<Entry>, i: nat)
    requires i < |es| && forall j, k | 0 <= j < k < |es| :: es[j].name != es[k].name
    ensures Find(es, es[i].name) == Some(es[i].tree)
  {
    if i > 0 {
      FindEntry(es[1..], i - 1);
    }
  }

  function Child(t: Tree, name: string): Option<Tree> {
    if t.Dir? then Find(t.entries, name) else None
  }

  // ------------------------------------------------------------ path names

  /** Up to the next slash. */
  function Component(path: string): (c: string)
    ensures |c| <= |path| && '/' !in c && path[..|c|] == c
    ensures |c| < |path| ==> path[|c|] == '/'
  {
    if path == "" || path[0] == '/' then "" else [path[0]] + Component(path[1..])
  }

  /** Follows "/a/b/..." from a tree. */
  function Follow(t: Tree, path: string): Option<Tree>
    decreases |path|
  {
    if path == "" then Some(t)
    else if path[0] != '/' then None
    else
      var name := Component(path[1..]);
      match Child(t, name)
      case None => None
      case Some(c) => Follow(c, path[1 + |name|..])
  }

  /** What lstat() finds at the path name `root`, and, where that is a symbolic
      link that leads somewhere, the tree it leads to. */
  datatype World = World(root: string, tree: Tree, target: Option<Tree>)

  predicate IsLink(t: Tree) { t.File? && t.kind == Symlink }

  /** What opendir() works on at the root: it follows a link. */
  function Behind(w: World): Tree {
    if IsLink(w.tree) && w.target.Some? then w.target.value else w.tree
  }

  /** What a path name leads to when links are followed. */
  function OpenAt(w: World, path: string): Option<Tree> {
    if w.root <= path then Follow(Behind(w), path[|w.root|..]) else None
  }

  /** What lstat() finds: it does not follow a link that the path ends in. */
  function Lookup(w: World, path: string): Option<Tree> {
    if path == w.root then Some(w.tree) else OpenAt(w, path)
  }

  function JoinPath(base: string, file: string): string {
    base + "/" + file
  }

  lemma {:induction false} ComponentAppend(path: string, more: string)
    requires more != "" && more[0] == '/'
    ensures Component(path + more) == Component(path)
    decreases |path|
  {
    if path == "" || path[0] == '/' {
    } else {
      assert (path + more)[1..] == path[1..] + more;
      ComponentAppend(path[1..], more);
    }
  }

  lemma {:induction false} ComponentAll(name: string)
    requires '/' !in name
    ensures Component(name) == name
  {
    if name != "" {
      ComponentAll(name[1..]);
    }
  }

  /** One more component leads to the child of that name. */
  lemma {:induction false} FollowJoin(t: Tree, path: string, name: string)
    requires GoodName(name) && Follow(t, path).Some?
    ensures Follow(t, path + ("/" + name)) == Child(Follow(t, path).value, name)
    decreases |path|
  {
    var more := "/" + name;
    if path == "" {
      assert path + more == more && more[1..] == name;
      ComponentAll(name);
      assert more[1 + |name|..] == "";
    } else {
      assert (path + more)[1..] == path[1..] + more;
      ComponentAppend(path[1..], more);
      var first := Component(path[1..]);
      assert (path + more)[1 + |first|..] == path[1 + |first|..] + more;
      FollowJoin(Child(t, first).value, path[1 + |first|..], name);
    }
  }

  /** The path made for an entry leads to that child, and to nothing else. */
  lemma LookupJoin(w: World, path: string, name: string)
    requires GoodName(name) && OpenAt(w, path).Some?
    ensures Lookup(w, JoinPath(path, name)) == Child(OpenAt(w, path).value, name)
    ensures OpenAt(w, JoinPath(path, name)) == Child(OpenAt(w, path).value, name)
  {
    var rest := path[|w.root|..];
    assert JoinPath(path, name)[|w.root|..] == rest + ("/" + name);
    FollowJoin(Behind(w), rest, name);
  }

  /** What follows the last slash; all of a path without one. */
  function BaseName(path: string): string {
    if '/' in path then LastPart(path) else path
  }

  function LastPart(path: string): string {
    if path == "" || path[|path| - 1] == '/' then "" else LastPart(path[..|path| - 1]) + [path[|path| - 1]]
  }

  lemma {:induction false} LastPartJoin(base: string, name: string)
    requires '/' !in name
    ensures LastPart(base + "/" + name) == name
    decreases |name|
  {
    var path := base + "/" + name;
    if name != "" {
      assert path[..|path| - 1] == base + "/" + name[..|name| - 1];
      LastPartJoin(base, name[..|name| - 1]);
    }
  }

  /** A path is what is in front of its last slash, the slash, and its base name;
      a path without a slash is its own base name. */
  lemma BaseNameSplits(path: string) returns (base: string)
    ensures '/' !in BaseName(path)
    ensures '/' !in path ==> BaseName(path) == path
    ensures '/' in path ==> path == (base + "/") + BaseName(path)
  {
    base := "";
    if '/' in path {
      base := LastPartSplits(path);
    }
  }

  lemma {:induction false} LastPartSplits(path: string) returns (base: string)
    requires '/' in path
    ensures '/' !in LastPart(path) && path == (base + "/") + LastPart(path)
  {
    var init, last := path[..|path| - 1], path[|path| - 1];
    assert path == init + [last];
    if last == '/' {
      base := init;
      assert LastPart(path) == "";
    } else {
      assert '/' in init;
      base := LastPartSplits(init);
      assert ((base + "/") + LastPart(init)) + [last] == (base + "/") + (LastPart(init) + [last]);
    }
  }

  // ------------------------------------------------------------- counting

  /** The counters of a walker. */
  datatype Counters = Counters(
    nreg: nat, ndir: nat, nblk: nat, nchr: nat, nfifo: nat, nslink: nat, nsock: nat)
  {
    /** The counter for one sort of entry. */
    function Of(what: What): nat {
      match what
      case Directory => ndir
      case Plain(Regular) => nreg
      case Plain(BlockDevice) => nblk
      case Plain(CharDevice) => nchr
      case Plain(Fifo) => nfifo
      case Plain(Symlink) => nslink
      case Plain(Socket) => nsock
      case Plain(OtherKind) => 0
    }

    function Total(): nat {
      nreg + ndir + nblk + nchr + nfifo + nslink + nsock
    }

    /** The counters after a tree was met. */
    function Count(t: Tree): Counters {
      match t
      case Unknown => this
      case Dir(_, _, _) => this.(ndir := ndir + 1)
      case File(Regular, _) => this.(nreg := nreg + 1)
      case File(BlockDevice, _) => this.(nblk := nblk + 1)
      case File(CharDevice, _) => this.(nchr := nchr + 1)
      case File(Fifo, _) => this.(nfifo := nfifo + 1)
      case File(Symlink, _) => this.(nslink := nslink + 1)
      case File(Socket, _) => this.(nsock := nsock + 1)
      case File(OtherKind, _) => this
    }
  }

  const ZERO: Counters := Counters(0, 0, 0, 0, 0, 0, 0)

  /** A sort of entry that is counted. */
  datatype What = Directory | Plain(kind: Kind)

  /** Whether a tree itself is of a sort. */
  function One(t: Tree, what: What): nat {
    match t
    case Unknown => 0
    case File(kind, _) => if what == Plain(kind) && kind != OtherKind then 1 else 0
    case Dir(_, _, _) => if what.Directory? then 1 else 0
  }

  lemma CountAddsOne(c: Counters, t: Tree)
    ensures forall what :: c.Count(t).Of(what) == c.Of(what) + One(t, what)
  {
  }

  /** What main() adds up grows by one for every entry that has a counter. */
  lemma CountTotal(c: Counters, t: Tree)
    ensures c.Count(t).Total() ==
      c.Total() + if t.Unknown? || (t.File? && t.kind == OtherKind) then 0 else 1
  {
  }

  lemma SameCounters(c: Counters, d: Counters)
    requires forall what :: c.Of(what) == d.Of(what)
    ensures c == d
  {
    assert c.Of(Directory) == d.Of(Directory) && c.Of(Plain(Regular)) == d.Of(Plain(Regular));
    assert c.Of(Plain(BlockDevice)) == d.Of(Plain(BlockDevice)) && c.Of(Plain(CharDevice)) == d.Of(Plain(CharDevice));
    assert c.Of(Plain(Fifo)) == d.Of(Plain(Fifo)) && c.Of(Plain(Symlink)) == d.Of(Plain(Symlink));
    assert c.Of(Plain(Socket)) == d.Of(Plain(Socket));
  }

  /** How many of a sort there are below a tree. */
  ghost function Below(t: Tree, what: What): nat
    decreases t, 1
  {
    if t.Dir? && t.readable then BelowAll(t.entries, what) else 0
  }

  ghost function BelowAll(es: seq<Entry>, what: What): nat
    decreases es, 0
  {
    if es == [] then 0
    else
      (if IsDot(es[0].name) then 0 else One(es[0].tree, what) + Below(es[0].tree, what)) + BelowAll(es[1..], what)
  }
}
