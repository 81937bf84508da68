/**
 A tree of directories as path look-ups see it: files that may have several names, symbolic links, and rename(2).
 Realpath is a walk from the root; what a move of one entry can do to such walks is proved here.
 */
module DirTree {
  import opened Wrappers

  type Inode = nat
  const ROOT: Inode := 0
  const MAX_LINKS: nat := 40

  /** A path from the root, or the text of a link, as its list of names. */
  type Path = seq<string>

  datatype Place = Place(parent: Path, name: string)

  /** A name in a real directory, as that directory tells names apart. */
  datatype Entry = Entry(dir: Inode, name: string)

  datatype Kind = File | Directory | Link(absolute: bool, text: Path)

  datatype Tree = Tree(names: map<Entry, Inode>, kinds: map<Inode, Kind>)

  function KindOf(t: Tree, i: Inode): Kind {
    if i == ROOT then Directory else if i in t.kinds then t.kinds[i] else File
  }

  // ---------------------------------------------------------------- look-up

  /** One step down from a directory; a trail of them leads from the root to an inode along real names. */
  datatype Hop = Hop(name: string, inode: Inode)
  type Trail = seq<Hop>

  function End(at: Trail): Inode {
    if at == [] then ROOT else at[|at| - 1].inode
  }

  function Up(at: Trail): Trail {
    if at == [] then [] else at[..|at| - 1]
  }

  function Names(at: Trail): Path {
    seq(|at|, i requires 0 <= i < |at| => at[i].name)
  }

  datatype Outcome = Resolved(at: Trail) | Missing(entry: Entry) | Broken

  /** Realpath: `Missing` is ENOENT at that entry, `Broken` is ENOTDIR or ELOOP. */
  function Walk(t: Tree, at: Trail, path: Path, links: nat): Outcome
    decreases links, |path|
  {
    if path == [] then Resolved(at)
    else if KindOf(t, End(at)) != Directory then Broken
    else if path[0] == ".." then Walk(t, Up(at), path[1..], links)
    else
      var entry := Entry(End(at), path[0]);
      if entry !in t.names then Missing(entry)
      else
        match KindOf(t, t.names[entry])
        case Link(absolute, text) =>
          if links == 0 then Broken
          else Walk(t, if absolute then [] else at, text + path[1..], links - 1)
        case _ => Walk(t, at + [Hop(path[0], t.names[entry])], path[1..], links)
  }

  function RealPath(t: Tree, path: Path): Outcome {
    Walk(t, [], path, MAX_LINKS)
  }

  /** The directory a path leads to. */
  function DirOf(t: Tree, path: Path): Option<Trail> {
    match RealPath(t, path)
    case Resolved(at) => if KindOf(t, End(at)) == Directory then Some(at) else None
    case _ => None
  }

  datatype Spot = At(entry: Entry) | Nowhere | Unreachable

  /** Where `lstat` and `rename` look: the parent is followed through links, the last name is not. */
  function Locate(t: Tree, place: Place): Spot {
    match RealPath(t, place.parent)
    case Resolved(at) => if KindOf(t, End(at)) == Directory then At(Entry(End(at), place.name)) else Unreachable
    case Missing(_) => Nowhere
    case Broken => Unreachable
  }

  predicate Present(t: Tree, place: Place) {
    Locate(t, place).At? && Locate(t, place).entry in t.names
  }

  function InodeAt(t: Tree, place: Place): Inode
    requires Present(t, place)
  {
    t.names[Locate(t, place).entry]
  }

  // ---------------------------------------------------------------- rename

  predicate Passes(at: Trail, i: Inode) {
    exists k :: 0 <= k < |at| && at[k].inode == i
  }

  predicate IsEmpty(t: Tree, dir: Inode) {
    forall e :: e in t.names ==> e.dir != dir
  }

  /** A directory replaces only an empty directory, anything else only what is no directory. */
  predicate MayReplace(t: Tree, i: Inode, replaced: Inode) {
    if KindOf(t, i) == Directory then KindOf(t, replaced) == Directory && IsEmpty(t, replaced)
    else KindOf(t, replaced) != Directory
  }

  /** No directory is moved into itself. */
  predicate StaysATree(t: Tree, i: Inode, target: Place) {
    KindOf(t, i) == Directory ==> DirOf(t, target.parent).Some? && !Passes(DirOf(t, target.parent).value, i)
  }

  predicate SameInode(t: Tree, source: Place, target: Place) {
    Present(t, source) && Present(t, target) && InodeAt(t, source) == InodeAt(t, target)
  }

  predicate RenameThrows(t: Tree, source: Place, target: Place) {
    || !Present(t, source)
    || !Locate(t, target).At?
    || (!SameInode(t, source, target)
        && !(StaysATree(t, InodeAt(t, source), target)
             && (Present(t, target) ==> MayReplace(t, InodeAt(t, source), InodeAt(t, target)))))
  }

  /**
   rename(2) throws if and only if there is nothing to rename or no directory to rename into, or, unless both names
   are names of one inode, if a directory would get into itself, or if what is replaced is a directory and what
   replaces it is none, or the other way round, or a directory that holds anything.
   */
  lemma RenameThrowsIff(t: Tree, source: Place, target: Place)
    ensures RenameThrows(t, source, target) <==>
              || !Present(t, source) || DirOf(t, target.parent).None?
              || (!(Present(t, target) && InodeAt(t, target) == InodeAt(t, source))
                  && (var i, at := InodeAt(t, source), DirOf(t, target.parent).value;
                      || (KindOf(t, i).Directory? && exists k :: 0 <= k < |at| && at[k].inode == i)
                      || (Present(t, target) && KindOf(t, InodeAt(t, target)).Directory? != KindOf(t, i).Directory?)
                      || (Present(t, target) && KindOf(t, i).Directory?
                          && exists name :: Entry(InodeAt(t, target), name) in t.names)))
  {
    if Present(t, target) {
      var j := InodeAt(t, target);
      assert IsEmpty(t, j) <==> !exists name :: Entry(j, name) in t.names by {
        if e :| e in t.names && e.dir == j {
          assert Entry(j, e.name) in t.names;
        }
      }
    }
  }

  predicate Moves(t: Tree, source: Place, target: Place) {
    !RenameThrows(t, source, target) && !SameInode(t, source, target)
  }

  function Moved(t: Tree, from: Entry, to: Entry): Tree
    requires from in t.names
  {
    t.(names := (t.names - {from})[to := t.names[from]])
  }

  /** rename(2), which leaves two names of one file alone. */
  function Renamed(t: Tree, source: Place, target: Place): Tree {
    if Moves(t, source, target) then Moved(t, Locate(t, source).entry, Locate(t, target).entry) else t
  }

  predicate Overwrites(t: Tree, source: Place, target: Place) {
    Moves(t, source, target) && Present(t, target)
  }

  // ---------------------------------------------------------------- real paths

  /** Each directory stands in the tree once, and the root nowhere. */
  ghost predicate UniqueDirs(t: Tree) {
    && (forall e :: e in t.names ==> t.names[e] != ROOT)
    && (forall e, f :: e in t.names && f in t.names && t.names[e] == t.names[f] && KindOf(t, t.names[e]) == Directory
          ==> e == f)
  }

  predicate LeadsTo(t: Tree, at: Trail)
    decreases |at|
  {
    at == [] ||
    (&& LeadsTo(t, Up(at))
     && KindOf(t, End(Up(at))) == Directory
     && Entry(End(Up(at)), at[|at| - 1].name) in t.names
     && t.names[Entry(End(Up(at)), at[|at| - 1].name)] == End(at))
  }

  lemma LeadsDown(t: Tree, at: Trail, name: string)
    requires LeadsTo(t, at) && KindOf(t, End(at)) == Directory && Entry(End(at), name) in t.names
    ensures LeadsTo(t, at + [Hop(name, t.names[Entry(End(at), name)])])
  {
    assert Up(at + [Hop(name, t.names[Entry(End(at), name)])]) == at;
  }

  lemma {:induction false} WalkLeadsTo(t: Tree, at: Trail, path: Path, links: nat)
    requires LeadsTo(t, at)
    ensures Walk(t, at, path, links).Resolved? ==> LeadsTo(t, Walk(t, at, path, links).at)
    decreases links, |path|
  {
    if path != [] && KindOf(t, End(at)) == Directory {
      var entry := Entry(End(at), path[0]);
      if path[0] == ".." {
        WalkLeadsTo(t, Up(at), path[1..], links);
      } else if entry in t.names {
        match KindOf(t, t.names[entry])
        case Link(absolute, text) =>
          if links > 0 {
            WalkLeadsTo(t, if absolute then [] else at, text + path[1..], links - 1);
          }
        case _ =>
          LeadsDown(t, at, path[0]);
          WalkLeadsTo(t, at + [Hop(path[0], t.names[entry])], path[1..], links);
      }
    }
  }

  /** A directory has one real path. */
  lemma {:induction false} RealPathIsUnique(t: Tree, a: Trail, b: Trail)
    requires UniqueDirs(t) && LeadsTo(t, a) && LeadsTo(t, b)
    requires End(a) == End(b) && KindOf(t, End(a)) == Directory
    ensures a == b
    decreases |a|
  {
    if a != [] && b != [] {
      RealPathIsUnique(t, Up(a), Up(b));
      assert a == Up(a) + [a[|a| - 1]] && b == Up(b) + [b[|b| - 1]];
    }
  }

  /** Two paths lead to one directory if and only if they have one real path. */
  lemma DirsByRealPath(t: Tree, p: Path, q: Path)
    requires UniqueDirs(t) && DirOf(t, p).Some? && DirOf(t, q).Some?
    requires End(DirOf(t, p).value) == End(DirOf(t, q).value)
    ensures Names(DirOf(t, p).value) == Names(DirOf(t, q).value)
  {
    WalkLeadsTo(t, [], p, MAX_LINKS);
    WalkLeadsTo(t, [], q, MAX_LINKS);
    RealPathIsUnique(t, DirOf(t, p).value, DirOf(t, q).value);
  }

  // ---------------------------------------------------------------- what a move does to look-ups

  /** The walk looks `e` up, whether it is there or not. */
  predicate Visits(t: Tree, e: Entry, at: Trail, path: Path, links: nat)
    decreases links, |path|
  {
    path != [] && KindOf(t, End(at)) == Directory &&
    if path[0] == ".." then Visits(t, e, Up(at), path[1..], links)
    else
      var entry := Entry(End(at), path[0]);
      entry == e ||
      (entry in t.names &&
       match KindOf(t, t.names[entry])
       case Link(absolute, text) =>
         links > 0 && Visits(t, e, if absolute then [] else at, text + path[1..], links - 1)
       case _ => Visits(t, e, at + [Hop(path[0], t.names[entry])], path[1..], links))
  }

  /** A walk that went to the entry ends there after a move; any other goes as before, unless it ended at `to`. */
  lemma {:induction false} WalkAfterMove(t: Tree, from: Entry, to: Entry, at: Trail, path: Path, links: nat)
    requires from in t.names && to !in t.names
    ensures
      var was := Walk(t, at, path, links);
      var now := Walk(Moved(t, from, to), at, path, links);
      if Visits(t, from, at, path, links) then now == Missing(from) else now == was || was == Missing(to)
    decreases links, |path|
  {
    if path != [] && KindOf(t, End(at)) == Directory {
      var entry := Entry(End(at), path[0]);
      if path[0] == ".." {
        WalkAfterMove(t, from, to, Up(at), path[1..], links);
      } else if entry in t.names && entry != from {
        match KindOf(t, t.names[entry])
        case Link(absolute, text) =>
          if links > 0 {
            WalkAfterMove(t, from, to, if absolute then [] else at, text + path[1..], links - 1);
          }
        case _ => WalkAfterMove(t, from, to, at + [Hop(path[0], t.names[entry])], path[1..], links);
      }
    }
  }

  /** A new name leaves every path that led somewhere as it was. */
  lemma {:induction false} WalkAfterAdd(t: Tree, e: Entry, i: Inode, at: Trail, path: Path, links: nat)
    requires e !in t.names && Walk(t, at, path, links).Resolved?
    ensures Walk(t.(names := t.names[e := i]), at, path, links) == Walk(t, at, path, links)
    decreases links, |path|
  {
    if path != [] {
      if path[0] == ".." {
        WalkAfterAdd(t, e, i, Up(at), path[1..], links);
      } else {
        var entry := Entry(End(at), path[0]);
        match KindOf(t, t.names[entry])
        case Link(absolute, text) => WalkAfterAdd(t, e, i, if absolute then [] else at, text + path[1..], links - 1);
        case _ => WalkAfterAdd(t, e, i, at + [Hop(path[0], t.names[entry])], path[1..], links);
      }
    }
  }

  /** A path that ended where a plain file is now does not lead to a directory. */
  lemma {:induction false} FileOpensNoWay(t: Tree, from: Entry, to: Entry, at: Trail, path: Path, links: nat)
    requires from in t.names && to !in t.names && KindOf(t, t.names[from]).File?
    requires Walk(t, at, path, links) == Missing(to)
    ensures
      var now := Walk(Moved(t, from, to), at, path, links);
      now.Resolved? ==> KindOf(t, End(now.at)).File?
    decreases links, |path|
  {
    if path != [] && KindOf(t, End(at)) == Directory {
      var entry := Entry(End(at), path[0]);
      if path[0] == ".." {
        FileOpensNoWay(t, from, to, Up(at), path[1..], links);
      } else if entry == to {
        FileIsTheEnd(Moved(t, from, to), at + [Hop(path[0], t.names[from])], path[1..], links);
      } else if entry in t.names && entry != from {
        match KindOf(t, t.names[entry])
        case Link(absolute, text) =>
          if links > 0 {
            FileOpensNoWay(t, from, to, if absolute then [] else at, text + path[1..], links - 1);
          }
        case Directory => FileOpensNoWay(t, from, to, at + [Hop(path[0], t.names[entry])], path[1..], links);
        case File =>
      }
    }
  }

  lemma FileIsTheEnd(t: Tree, at: Trail, path: Path, links: nat)
    requires KindOf(t, End(at)).File?
    ensures Walk(t, at, path, links) == if path == [] then Resolved(at) else Broken
  {
  }

  /** One name more, below a directory. */
  lemma {:induction false} WalkOn(t: Tree, at: Trail, path: Path, name: string, links: nat)
    requires name != ".."
    ensures var was := Walk(t, at, path, links);
            var now := Walk(t, at, path + [name], links);
            if !was.Resolved? then now == was
            else if KindOf(t, End(was.at)) != Directory then now.Broken?
            else if Entry(End(was.at), name) !in t.names then now == Missing(Entry(End(was.at), name))
            else KindOf(t, t.names[Entry(End(was.at), name)]) == Directory ==>
                   now == Resolved(was.at + [Hop(name, t.names[Entry(End(was.at), name)])])
    decreases links, |path|
  {
    if path == [] {
      assert [] + [name] == [name] && [name][1..] == [];
    } else if KindOf(t, End(at)) == Directory {
      assert (path + [name])[1..] == path[1..] + [name];
      var entry := Entry(End(at), path[0]);
      if path[0] == ".." {
        WalkOn(t, Up(at), path[1..], name, links);
      } else if entry in t.names {
        match KindOf(t, t.names[entry])
        case Link(absolute, text) =>
          if links > 0 {
            assert text + (path[1..] + [name]) == (text + path[1..]) + [name];
            WalkOn(t, if absolute then [] else at, text + path[1..], name, links - 1);
          }
        case _ => WalkOn(t, at + [Hop(path[0], t.names[entry])], path[1..], name, links);
      }
    }
  }

  predicate Opens(before: Tree, after: Tree, path: Path) {
    DirOf(before, path).None? && DirOf(after, path).Some?
  }

  /** What a move can do to the directory a path leads to: nothing, close the way, or open it. */
  lemma DirAfterMove(t: Tree, from: Entry, to: Entry, path: Path)
    requires from in t.names && to !in t.names
    ensures
      var t' := Moved(t, from, to);
      || DirOf(t', path) == DirOf(t, path)
      || DirOf(t', path).None?
      || (Opens(t, t', path) && RealPath(t, path) == Missing(to) && !KindOf(t, t.names[from]).File?)
  {
    WalkAfterMove(t, from, to, [], path, MAX_LINKS);
    if RealPath(t, path) == Missing(to) && KindOf(t, t.names[from]).File? {
      FileOpensNoWay(t, from, to, [], path, MAX_LINKS);
    }
  }

  /** A walk that neither goes to what moves nor ends where it will be finds the same place and the same inode. */
  lemma LocateAfterMove(t: Tree, from: Entry, to: Entry, place: Place)
    requires from in t.names && to !in t.names && !Visits(t, from, [], place.parent, MAX_LINKS)
    requires RealPath(t, place.parent) != Missing(to)
    ensures Locate(Moved(t, from, to), place) == Locate(t, place)
  {
    WalkAfterMove(t, from, to, [], place.parent, MAX_LINKS);
  }

  /** The path of its destination leads to a moved folder, unless it goes through what is moved. */
  lemma FolderAfterMove(t: Tree, source: Place, target: Place)
    requires Moves(t, source, target) && !Present(t, target) && target.name != ".."
    requires KindOf(t, InodeAt(t, source)) == Directory
    ensures DirOf(Renamed(t, source, target), target.parent + [target.name]) ==
            if Visits(t, Locate(t, source).entry, [], target.parent, MAX_LINKS) then None
            else Some(DirOf(t, target.parent).value + [Hop(target.name, InodeAt(t, source))])
  {
    var from, to := Locate(t, source).entry, Locate(t, target).entry;
    WalkAfterMove(t, from, to, [], target.parent, MAX_LINKS);
    WalkOn(Moved(t, from, to), [], target.parent, target.name, MAX_LINKS);
  }

  /** The entries of a moved folder are neither the one it had nor the one it gets. */
  lemma FolderHoldsNeither(t: Tree, source: Place, target: Place, name: string)
    requires UniqueDirs(t) && Moves(t, source, target) && KindOf(t, InodeAt(t, source)) == Directory
    ensures Entry(InodeAt(t, source), name) != Locate(t, source).entry
    ensures Entry(InodeAt(t, source), name) != Locate(t, target).entry
  {
    var i := InodeAt(t, source);
    var a, b := DirOf(t, source.parent).value, DirOf(t, target.parent).value;
    WalkLeadsTo(t, [], source.parent, MAX_LINKS);
    if End(a) == i {
      assert a != [] && End(Up(a)) == Locate(t, source).entry.dir;
      RealPathIsUnique(t, a, Up(a));
    }
    assert !Passes(b, i) && (b == [] || b[|b| - 1].inode != i);
  }

  lemma MoveKeepsUniqueDirs(t: Tree, from: Entry, to: Entry)
    requires UniqueDirs(t) && from in t.names
    ensures UniqueDirs(Moved(t, from, to))
  {
    var t' := Moved(t, from, to);
    forall e, f | e in t'.names && f in t'.names && t'.names[e] == t'.names[f]
                  && KindOf(t', t'.names[e]) == Directory
      ensures e == f
    {
      var e0 := if e == to then from else e;
      var f0 := if f == to then from else f;
      assert t.names[e0] == t'.names[e] && t.names[f0] == t'.names[f];
    }
  }

  /** A move onto a free entry keeps every file and directory in the tree. */
  lemma MoveKeepsInodes(t: Tree, from: Entry, to: Entry)
    requires from in t.names && to !in t.names
    ensures Moved(t, from, to).names.Values == t.names.Values
  {
    var t' := Moved(t, from, to);
    forall i | i in t.names.Values
      ensures i in t'.names.Values
    {
      var e :| e in t.names && t.names[e] == i;
      assert t'.names[if e == from then to else e] == i;
    }
  }
}
