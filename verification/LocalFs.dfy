/**
 A small file system: paths name inodes, inodes hold a kind, bytes and a modification time.
 `clock` and `nextIno` only grow, so modification times and inode numbers are never reused.
 */
module LocalFs {

  type byte = x: int | 0 <= x < 256
  type Path = seq<string>

  datatype Kind = Directory | File | Other
  datatype Inode = Inode(kind: Kind, bytes: seq<byte>, mtime: nat, mode: nat)

  /** What `lstat` can tell inodes apart by: device and inode numbers, only birth times, or nothing. */
  datatype Identities = Stable | BirthTimeOnly | Unavailable

  datatype Fs = Fs(names: map<Path, nat>, inodes: map<nat, Inode>, nextIno: nat, clock: nat,
                   identities: Identities, maxDepth: nat, maxSize: nat)

  function Parent(p: Path): Path
    requires p != []
  {
    p[..|p| - 1]
  }

  predicate IsDir(fs: Fs, p: Path) {
    p in fs.names && fs.names[p] in fs.inodes && fs.inodes[fs.names[p]].kind.Directory?
  }

  predicate IsFile(fs: Fs, p: Path) {
    p in fs.names && fs.names[p] in fs.inodes && fs.inodes[fs.names[p]].kind.File?
  }

  predicate WellFormed(fs: Fs) {
    && (forall p | p in fs.names :: fs.names[p] in fs.inodes && |p| <= fs.maxDepth)
    && (forall p {:trigger Parent(p)} | p in fs.names :: p != [] ==> IsDir(fs, Parent(p)))
    && (forall i | i in fs.inodes :: i < fs.nextIno && fs.inodes[i].mtime < fs.clock
                                     && |fs.inodes[i].bytes| <= fs.maxSize)
  }

  // ---------------------------------------------------------------- operations

  predicate CanCreate(fs: Fs, p: Path) {
    p != [] && p !in fs.names && IsDir(fs, Parent(p)) && |p| <= fs.maxDepth
  }

  /** mkdir, and open with the exclusive flag, give the path a new empty inode. */
  function Create(fs: Fs, p: Path, kind: Kind): Fs
    requires CanCreate(fs, p)
  {
    fs.(names := fs.names[p := fs.nextIno], inodes := fs.inodes[fs.nextIno := Inode(kind, [], fs.clock, 0)],
        nextIno := fs.nextIno + 1, clock := fs.clock + 1)
  }

  function Link(fs: Fs, source: Path, p: Path): Fs
    requires CanCreate(fs, p) && source in fs.names
  {
    fs.(names := fs.names[p := fs.names[source]])
  }

  /** Overwrites from `at` on; a gap before `at` reads as zeros. */
  function Splice(bytes: seq<byte>, at: nat, data: seq<byte>): seq<byte> {
    var padded := if |bytes| < at then bytes + seq(at - |bytes|, _ => 0) else bytes;
    padded[..at] + data + (if at + |data| < |padded| then padded[at + |data|..] else [])
  }

  function WriteAt(fs: Fs, ino: nat, at: nat, data: seq<byte>): Fs
    requires ino in fs.inodes
  {
    var inode := fs.inodes[ino].(bytes := Splice(fs.inodes[ino].bytes, at, data), mtime := fs.clock);
    fs.(inodes := fs.inodes[ino := inode], clock := fs.clock + 1)
  }

  function Remove(fs: Fs, p: Path): Fs {
    fs.(names := fs.names - {p})
  }

  predicate HasChildren(fs: Fs, p: Path) {
    exists q {:trigger Parent(q)} | q in fs.names :: q != [] && Parent(q) == p
  }

  /** The names directly inside a directory. */
  function Children(fs: Fs, p: Path): set<string> {
    set q | q in fs.names && q != [] && Parent(q) == p :: q[|q| - 1]
  }

  lemma CreateWellFormed(fs: Fs, p: Path, kind: Kind)
    requires WellFormed(fs) && CanCreate(fs, p)
    ensures WellFormed(Create(fs, p, kind))
  {
  }

  lemma LinkWellFormed(fs: Fs, source: Path, p: Path)
    requires WellFormed(fs) && CanCreate(fs, p) && source in fs.names
    ensures WellFormed(Link(fs, source, p))
  {
  }

  lemma WriteWellFormed(fs: Fs, ino: nat, at: nat, data: seq<byte>)
    requires WellFormed(fs) && ino in fs.inodes && at + |data| <= fs.maxSize
    ensures WellFormed(WriteAt(fs, ino, at, data))
  {
  }

  lemma RemoveWellFormed(fs: Fs, p: Path)
    requires WellFormed(fs) && !HasChildren(fs, p)
    ensures WellFormed(Remove(fs, p))
  {
  }

  /** Whatever another process may have done in between: anything, but new inodes and new times are new. */
  predicate ThirdParty(fs: Fs, fs': Fs) {
    && WellFormed(fs')
    && fs.nextIno <= fs'.nextIno && fs.clock <= fs'.clock
    && fs.identities == fs'.identities && fs.maxDepth == fs'.maxDepth && fs.maxSize == fs'.maxSize
    && (forall i | i in fs.inodes :: i in fs'.inodes && fs'.inodes[i].kind == fs.inodes[i].kind
          && (fs'.inodes[i] == fs.inodes[i] || fs.clock <= fs'.inodes[i].mtime))
    && (forall i | i in fs'.inodes :: i in fs.inodes || fs.nextIno <= i)
  }
}
