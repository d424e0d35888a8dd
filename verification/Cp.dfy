/** cp between two canonical paths (src/builtins.c, do_cp). */
module Cp {
  import opened Disk
  import opened PathText
  import opened Inode
  import opened Ownership
  import opened BlockOps
  import opened Ifile
  import opened Growth
  import opened Directories
  import opened Paths
  import Copy
  import DirFile
  import opened Volume
  import opened FileDesc
  import Reachable

  /** Create the destination, open the source, copy. */
  function CopyPath(s: Store, source: Path, dest: Path): (Store, bool) {
    var (t, d) := CreateFile(s, dest, File);
    if d <= 0 then (t, false)
    else
      var i := InumberOfPath(t, source);
      if i == 0 then (t, false) else (Copy.CopyFile(t, i, d), true)
  }

  /** Creation changes no file but the directory. */
  lemma CreateFileKeeps(s: Store, path: Path, kind: Kind, j: nat)
    requires TreeOk(s) && (Absolute(path) ==> NulFree(Basename(path)))
    requires IsIno(s, j) && (Absolute(path) ==> j != InumberOfPath(s, Dirname(path)))
    ensures FileKept(s, CreateFile(s, path, kind).0, j)
  {
    assert Creates(s, path) ==> Absolute(path);
    hide TreeOk, Creates, CreateFile, FileKept;
    CreateFileSpec(s, path, kind);
    if Creates(s, path) { CreateSteps(s, path, kind); } else { FileKeptRefl(s, j); }
  }

  lemma FileKeptRefl(s: Store, j: nat)
    ensures FileKept(s, s, j)
  {}

  lemma NewIsEmpty(s: Store, i: nat, kind: Kind)
    requires Get(s, i) == NewInode(kind, 0)
    ensures IsIno(s, i) && Shape(s, i, 0) && (IsDir(s, i) <==> kind == Directory) && Load(s, i, 0) == ZeroBytes()
  {}

  /** cp succeeds exactly when its destination can be created and its source
      then leads somewhere: where it did, or to the new file. If the destination
      cannot be created, that is all that has happened; if the source leads
      nowhere, the destination is there, empty, and nothing else has changed. */
  lemma CopyPathOutcome(s: Store, source: Path, dest: Path)
    requires TreeOk(s) && (Absolute(dest) ==> NulFree(Basename(dest)))
    ensures var (t, d) := CreateFile(s, dest, File); var (u, ok) := CopyPath(s, source, dest);
      && (ok <==> Creates(s, dest) && EntryRoom(s, dest) && InumberOfPath(t, source) != 0)
      && (!Creates(s, dest) ==> u == s)
      && (d == RETURN_FAILURE ==> u == t && forall q: Path :: InumberOfPath(u, q) == InumberOfPath(s, q))
      && (!ok ==> u == t)
      && (!ok && d != RETURN_FAILURE && CutFree(s, dest) ==>
            && InumberOfPath(s, source) == 0 && TreeOk(u) && Get(u, d) == NewInode(File, 0)
            && (forall q: Path :: InumberOfPath(u, q) ==
                  if Absolute(q) && Components(q) == EntryPath(dest) then d else InumberOfPath(s, q))
            && (forall j: nat :: IsIno(s, j) && j != InumberOfPath(s, Dirname(dest)) ==> FileKept(s, u, j)))
      && (Creates(s, dest) && EntryRoom(s, dest) && CutFree(s, dest) ==>
            (ok <==> InumberOfPath(s, source) != 0 || (Absolute(source) && Components(source) == EntryPath(dest))))
  {
    assert Creates(s, dest) ==> Absolute(dest);
    hide TreeOk, Creates, CreateFile, FileKept, EntryRoom, CutFree, InumberOfPath, Components, Walkable;
    CreateFileSpec(s, dest, File);
    if Creates(s, dest) {
      CreateSteps(s, dest, File);
      CreateMayKeep(s, dest);
      if InumberOfPath(s, source) != 0 { SourceKept(s, source, dest); }
    }
  }

  lemma CreateMayKeep(s: Store, dest: Path)
    requires Absolute(dest)
    ensures EntryRoom(s, dest) && CutFree(s, dest) ==> KeepsTree(s, dest)
  {}

  /** The copy is found where its entry was made, with the first w bytes of the
      source as it is once the entry is there: all of them, and its size, exactly
      when the blocks for them are free, and otherwise what fits, although cp
      succeeds. Every other path leads where it did. A source that is not the
      directory of the copy is as before. */
  lemma CopyPathSpec(s: Store, source: Path, dest: Path) returns (w: nat)
    requires TreeOk(s) && Absolute(dest) && NulFree(Basename(dest)) && InumberOfPath(s, source) != 0
    requires Creates(s, dest) && EntryRoom(s, dest) && CutFree(s, dest)
    requires SizeOf(Get(CreateFile(s, dest, File).0, InumberOfPath(s, source))) < MAX_BYTES
    ensures var (t, d) := CreateFile(s, dest, File); var (u, ok) := CopyPath(s, source, dest);
      var i := InumberOfPath(s, source); var size := SizeOf(Get(t, i));
      && ok && TreeOk(u) && d > 0 && d != i && IsIno(u, d) && Get(u, d).kind == File
      && w <= size + 1 && (w == size + 1 <==> NeedBytes(size + 1) <= t.free) && (w < size + 1 ==> w % BLOC_SIZE == 0)
      && Get(u, d).size == (if w == 0 then 0 else w - 1) && Bytes(u, d)[..w] == Bytes(t, i)[..w]
      && Bytes(u, i) == Bytes(t, i) && SizeOf(Get(u, i)) == size
      && (i != InumberOfPath(s, Dirname(dest)) ==> Bytes(t, i) == Bytes(s, i) && size == SizeOf(Get(s, i)))
      && (forall q: Path :: InumberOfPath(u, q) ==
            if Absolute(q) && Components(q) == EntryPath(dest) then d else InumberOfPath(s, q))
  {
    hide TreeOk, CreateFile, InumberOfPath, FileKept, Shape, NeedBytes, Copy.CopyFile, IsDir, Bytes,
         Creates, EntryRoom, CutFree, Walkable, Components;
    var i := InumberOfPath(s, source);
    TreeIsValid(s);
    PathIsIno(s, source);
    CreateFileSpec(s, dest, File);
    var (t, r) := CreateFile(s, dest, File);
    var d: nat := r;
    TreeIsValid(t);
    SourceKept(s, source, dest);
    PathIsIno(t, source);
    NewIsEmpty(t, d, File);
    w := Copy.CopyFileSpec(t, i, d);
    var u := Copy.CopyFile(t, i, d);
    assert FileKept(t, u, i);
    FileKeptBytes(t, u, i);
    KeptInode(t, u, i);
    FileNotDir(u, d);
    FileNotDir(t, d);
    Reachable.FileKeepsTree(t, u, d);
    if i != InumberOfPath(s, Dirname(dest)) {
      CreateFileKeeps(s, dest, File, i);
      FileKeptBytes(s, t, i);
      KeptInode(s, t, i);
    }
  }

  /** The path of the source is not that of the new entry. */
  lemma SourceKept(s: Store, source: Path, dest: Path)
    requires TreeOk(s) && Absolute(dest) && Creates(s, dest) && InumberOfPath(s, source) != 0
    ensures CutFree(s, dest) ==> Components(source) != EntryPath(dest)
  {
    hide LinkedOnce;
    WalkLast(s, Root(s), Components(Dirname(dest)), CutName(Basename(dest)));
  }

  lemma FileNotDir(s: Store, d: nat)
    requires IsIno(s, d) && Get(s, d).kind == File
    ensures !IsDir(s, d)
  {}

  /** do_cp, once its two paths are canonical. The source may be the file that
      is being created. */
  method Run(v: Volume, source: Path, dest: Path) returns (ok: bool)
    requires TreeOk(v.St()) && (Absolute(dest) ==> NulFree(Basename(dest)))
    requires var (t, d) := CreateFile(v.St(), dest, File); var i := InumberOfPath(t, source);
      d > 0 && i != 0 ==> SizeOf(Get(t, i)) < MAX_BYTES
    modifies v, v.disk
    ensures (v.St(), ok) == CopyPath(old(v.St()), source, dest)
  {
    hide TreeOk, CreateFile, InumberOfPath, Valid, Copy.CopyFile, Creates, EntryRoom, Cuts, Components;
    TreeIsValid(v.St());
    CreateFileSpec(v.St(), dest, File);
    var d := DirFile.CreateFile(v, dest, File);
    if d <= 0 { return false; }
    NewIsEmpty(v.St(), d, File);
    var i := DirFile.InumberOfPath(v, source);
    if i == 0 { return false; }
    PathIsIno(v.St(), source);
    WalkableIsValid(v.St());
    var sfd := new FileDesc();
    var dfd := new FileDesc();
    CopyFile(v, sfd, dfd, i, d);
    ok := true;
  }

  lemma WalkableIsValid(s: Store)
    requires Walkable(s)
    ensures Valid(s)
  {}
}
