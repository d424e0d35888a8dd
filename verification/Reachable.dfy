/** Whole runs: a file from creation to deletion, and the directory tree while
    files are open (src/file.c, src/ifile.c). */
module Reachable {
  import opened Disk
  import opened PathText
  import opened Inode
  import opened Ownership
  import opened Partition
  import opened BlockOps
  import opened Ifile
  import opened Directories
  import opened Paths
  import opened Sessions

  /** Open a file, do any operations on it and close it. */
  function Edit(s: Store, i: nat, ops: seq<Op>): Store {
    var (t, f, _) := Run(s, Open(s, i), ops);
    Close(t, f)
  }

  /** The file is what a run on a flat file makes of it. */
  ghost predicate EditIs(s: Store, i: nat, ops: seq<Op>, t: Store) {
    exists f: Flat, outs: seq<Out> ::
      FRun(Flat(Bytes(s, i), SizeOf(Get(s, i)), 0), s.free, ops, f, t.free, outs)
      && Bytes(t, i) == f.bytes && SizeOf(Get(t, i)) == f.size
  }

  lemma EditSpec(s: Store, i: nat, ops: seq<Op>)
    requires Valid(s) && IsIno(s, i)
    ensures var t := Edit(s, i, ops);
      && Valid(t) && OthersKept(s, t, i) && Conserved(s, t, i) && IsIno(t, i)
      && EditIs(s, i, ops, t)
  {
    hide Run, Close, Valid, OthersKept, Conserved, View, Load;
    OpenSpec(s, i);
    RunRefines(s, Open(s, i), ops);
    var (t, f, outs) := Run(s, Open(s, i), ops);
    CloseSpec(t, f);
    assert FRun(Flat(Bytes(s, i), SizeOf(Get(s, i)), 0), s.free, ops, Abs(t, f), t.free, outs);
    OthersKeptTrans(s, t, Close(t, f), i);
    ConservedTrans(s, t, Close(t, f), i);
  }

  /** Create, fill by any sequence of operations, and delete: the set of free
      blocks is what it was. */
  lemma CreateEditDelete(s: Store, kind: Kind, ops: seq<Op>)
    requires Valid(s) && s.free > 0
    ensures var (t, i) := CreateInode(s, kind); var u := DeleteInode(Edit(t, i, ops), i);
      FreeSet(u) == FreeSet(s) && u.free == s.free
  {
    hide Valid, Edit, OthersKept, Conserved, DeleteInode, FreeSet;
    CreateSpec(s, kind);
    var (t, i) := CreateInode(s, kind);
    EditSpec(t, i, ops);
    CreateFillDelete(s, kind, Edit(t, i, ops));
  }

  // ----- runs on the directory tree, with open files -----

  datatype TreeOp =
    | Make(path: Path, kind: Kind)
    | Unlink(path: Path)
    | OpenPath(path: Path)
    | UseFile(i: nat, op: Op)
    | CloseFd(i: nat)

  /** Directories are not opened as files. */
  function ApplyTree(w: Sys, op: TreeOp): Sys {
    match op
    case Make(path, kind) => w.(store := CreateFile(w.store, path, kind).0)
    case Unlink(path) => w.(store := DeleteFile(w.store, path).0)
    case OpenPath(path) =>
      var i := InumberOfPath(w.store, path);
      if i != 0 && !IsDir(w.store, i) then Act(w, OpenFile(i)).0 else w
    case UseFile(i, o) => Act(w, Use(i, o)).0
    case CloseFd(i) => Act(w, CloseFile(i)).0
  }

  /** The strings that C passes hold no NUL. */
  predicate IsCPath(op: TreeOp) {
    op.Make? ==> NulFree(op.path)
  }

  /** Each creation of the run finds room for its entry once it has its inode,
      or would append a record that lies in one block; and no name, once cut,
      is taken. */
  ghost predicate Roomy(w: Sys, ops: seq<TreeOp>)
    decreases |ops|
  {
    ops == [] || ((ops[0].Make? ==> KeepsTree(w.store, ops[0].path)) && Roomy(ApplyTree(w, ops[0]), ops[1..]))
  }

  /** The tree is well formed, and every descriptor good, in every state of the
      run. */
  ghost predicate AlwaysTree(w: Sys, ops: seq<TreeOp>)
    decreases |ops|
  {
    FilesOpen(w) && TreeOk(w.store) && (ops == [] || AlwaysTree(ApplyTree(w, ops[0]), ops[1..]))
  }

  /** Descriptors are good, and none is on a directory. */
  ghost predicate FilesOpen(w: Sys) {
    SysInv(w) && forall i: nat {:trigger w.open[i]} :: i in w.open ==> !IsDir(w.store, i)
  }

  /** A change to one file that is not a directory leaves the tree alone. */
  lemma FileKeepsTree(s: Store, t: Store, i: nat)
    requires TreeOk(s) && Valid(t) && OthersKept(s, t, i) && IsIno(s, i) && IsIno(t, i) && !IsDir(s, i) && !IsDir(t, i)
    ensures TreeOk(t) && forall q: Path :: InumberOfPath(t, q) == InumberOfPath(s, q)
  {
    hide Valid, FileKept, TableLinks, TableNames, LinkedOnce, InumberOfPath;
    OtherTables(s, t, i);
    NotDirectory(s, i);
    NotDirectory(t, i);
    SamePaths(s, t);
  }

  /** The path operations keep every descriptor as it is, and what it shows. */
  lemma OpenFilesKept(w: Sys, t: Store, d: nat)
    requires FilesOpen(w) && Valid(t) && forall j: nat :: IsIno(w.store, j) && j != d ==> FileKept(w.store, t, j)
    requires IsDir(w.store, d)
    ensures FilesOpen(w.(store := t))
    ensures forall j: nat :: j in w.open ==> |w.open[j].buf| == BLOC_SIZE && Abs(t, w.open[j]) == Abs(w.store, w.open[j])
  {
    hide Valid, FdOk, FileKept, Abs;
    forall j: nat | j in w.open
      ensures |w.open[j].buf| == BLOC_SIZE && FdOk(t, w.open[j]) && Abs(t, w.open[j]) == Abs(w.store, w.open[j])
      ensures !IsDir(t, j)
    {
      FdFile(w.store, w.open[j]);
      assert FileKept(w.store, t, j);
      FdKept(w.store, t, w.open[j]);
      KeptInode(w.store, t, j);
    }
  }

  /** The tree stays as it is, or as the path operation says; the descriptors
      of other files show what they did. */
  ghost predicate StepKept(w: Sys, op: TreeOp) {
    var v := ApplyTree(w, op);
    && FilesOpen(v)
    && (forall j: nat :: j in w.open && op != CloseFd(j) && !(op.UseFile? && op.i == j) ==>
          j in v.open && v.open[j] == w.open[j] && |v.open[j].buf| == BLOC_SIZE
          && Abs(v.store, v.open[j]) == Abs(w.store, w.open[j]))
    && (TreeOk(v.store) <==> (op.Make? ==> KeepsTree(w.store, op.path)))
    && (!op.Make? && !op.Unlink? ==> forall q: Path :: InumberOfPath(v.store, q) == InumberOfPath(w.store, q))
  }

  /** The operation on its own file or path: where every path leads after a
      creation or a deletion, and the flat file that is opened, used or closed. */
  ghost predicate StepDoes(w: Sys, op: TreeOp) {
    var v := ApplyTree(w, op);
    match op
    case Make(path, kind) =>
      var made := Creates(w.store, path) && EntryRoom(w.store, path);
      KeepsTree(w.store, path) ==>
        (forall q: Path :: InumberOfPath(v.store, q) ==
           if made && Absolute(q) && Components(q) == EntryPath(path) then CreateInode(w.store, kind).1
           else InumberOfPath(w.store, q))
    case Unlink(path) =>
      var gone := Absolute(path) && Basename(path) != [] && InumberOfPath(w.store, path) != 0;
      forall q: Path :: InumberOfPath(v.store, q) ==
        if gone && Absolute(q) && Components(path) <= Components(q) then 0 else InumberOfPath(w.store, q)
    case OpenPath(path) =>
      var i := InumberOfPath(w.store, path);
      if i != 0 && !IsDir(w.store, i) then
        FAct(Files(w), w.store.free, OpenFile(i), Files(v), v.store.free, NOTHING) && v.store == w.store && i in v.open
      else v == w
    case UseFile(i, o) => FAct(Files(w), w.store.free, Use(i, o), Files(v), v.store.free, Act(w, Use(i, o)).1)
    case CloseFd(i) =>
      FAct(Files(w), w.store.free, CloseFile(i), Files(v), v.store.free, NOTHING) && i !in v.open
  }

  lemma OpDoes(w: Sys, op: TreeOp)
    requires FilesOpen(w) && TreeOk(w.store) && IsCPath(op)
    ensures StepDoes(w, op)
  {
    hide TreeOk, FdOk, InumberOfPath, Step, Close, Open, FAct, Files, KeepsTree, CreateFile, DeleteFile, Creates,
         EntryRoom, Components, CreateInode, Valid;
    match op {
      case Make(path, kind) =>
        if Creates(w.store, path) { CreatesIsAbsolute(w.store, path); }
        BasenameNulFree(path);
        CreateFileSpec(w.store, path, kind);
      case Unlink(path) => DeleteFileSpec(w.store, path);
      case OpenPath(path) =>
        var i := InumberOfPath(w.store, path);
        if i != 0 && !IsDir(w.store, i) {
          ActRefines(w, OpenFile(i));
          TreeIsValid(w.store);
          PathIsIno(w.store, path);
        }
      case UseFile(i, o) => ActRefines(w, Use(i, o));
      case CloseFd(i) => ActRefines(w, CloseFile(i));
    }
  }

  lemma MakeKept(w: Sys, path: Path, kind: Kind)
    requires FilesOpen(w) && TreeOk(w.store) && NulFree(path)
    ensures StepKept(w, Make(path, kind))
  {
    hide TreeOk, CreateFile, SysInv, FileKept, Creates, KeepsTree, Abs, FdOk, FilesOpen;
    BasenameNulFree(path);
    CreateFileSpec(w.store, path, kind);
    if Creates(w.store, path) {
      CreatesIsAbsolute(w.store, path);
      CreateSteps(w.store, path, kind);
      OpenFilesKept(w, CreateFile(w.store, path, kind).0, InumberOfPath(w.store, Dirname(path)));
    } else {
      SameSys(w);
    }
  }

  lemma CreatesIsAbsolute(s: Store, path: Path)
    requires Creates(s, path)
    ensures Absolute(path)
  {}

  lemma SameSys(w: Sys)
    requires FilesOpen(w)
    ensures forall j: nat :: j in w.open ==> |w.open[j].buf| == BLOC_SIZE
  {
    forall j: nat | j in w.open ensures |w.open[j].buf| == BLOC_SIZE { FdFile(w.store, w.open[j]); }
  }

  lemma UnlinkKept(w: Sys, path: Path)
    requires FilesOpen(w) && TreeOk(w.store)
    ensures StepKept(w, Unlink(path))
  {
    hide TreeOk, DeleteFile, SysInv, FileKept, Abs, FdOk, FilesOpen, InumberOfPath, Components;
    DeleteFileSpec(w.store, path);
    var (t, r) := DeleteFile(w.store, path);
    SameSys(w);
    if r != RETURN_FAILURE {
      TreeIsValid(t);
      OpenFilesKept(w, t, InumberOfPath(w.store, Dirname(path)));
    }
  }

  lemma OpenKept(w: Sys, path: Path)
    requires FilesOpen(w) && TreeOk(w.store)
    ensures StepKept(w, OpenPath(path))
  {
    hide TreeOk, Abs, FdOk, InumberOfPath, Valid, Open, FAct, Files, KeepsTree;
    SameSys(w);
    var i := InumberOfPath(w.store, path);
    if i != 0 && !IsDir(w.store, i) { ActRefines(w, OpenFile(i)); }
  }

  lemma UseKept(w: Sys, i: nat, op: Op)
    requires FilesOpen(w) && TreeOk(w.store)
    ensures StepKept(w, UseFile(i, op))
  {
    hide TreeOk, Abs, FdOk, InumberOfPath, Valid, Step, OthersKept, Conserved, FStep, FAct, Files, KeepsTree, IsDir,
         IsIno, Get;
    SameSys(w);
    if i in w.open {
      ActRefines(w, Use(i, op));
      StepRefines(w.store, w.open[i], op);
      StepKeepsKind(w.store, w.open[i], op);
      OtherFile(w, ApplyTree(w, UseFile(i, op)).store, i);
    }
  }

  lemma CloseKept(w: Sys, i: nat)
    requires FilesOpen(w) && TreeOk(w.store)
    ensures StepKept(w, CloseFd(i))
  {
    hide TreeOk, Abs, FdOk, InumberOfPath, Valid, Close, OthersKept, Conserved, FAct, Files, KeepsTree, Bytes, View;
    SameSys(w);
    if i in w.open {
      ActRefines(w, CloseFile(i));
      CloseSpec(w.store, w.open[i]);
      FdFile(w.store, w.open[i]);
      OtherFile(w, ApplyTree(w, CloseFd(i)).store, i);
    }
  }

  lemma OtherFile(w: Sys, t: Store, i: nat)
    requires FilesOpen(w) && TreeOk(w.store) && i in w.open && Valid(t) && OthersKept(w.store, t, i)
    requires IsIno(t, i) && IsIno(w.store, i) && Get(t, i).kind == Get(w.store, i).kind
    ensures TreeOk(t) && forall q: Path :: InumberOfPath(t, q) == InumberOfPath(w.store, q)
    ensures forall j: nat :: j in w.open && j != i ==>
      |w.open[j].buf| == BLOC_SIZE && Abs(t, w.open[j]) == Abs(w.store, w.open[j]) && !IsDir(t, j)
    ensures !IsDir(t, i)
  {
    hide TreeOk, Abs, FdOk, InumberOfPath, Valid, OthersKept, Bytes;
    FileKeepsTree(w.store, t, i);
    OthersGoOn(w, t, i);
    SameSys(w);
  }

  lemma OpKept(w: Sys, op: TreeOp)
    requires FilesOpen(w) && TreeOk(w.store) && IsCPath(op)
    ensures StepKept(w, op)
  {
    match op {
      case Make(path, kind) => MakeKept(w, path, kind);
      case Unlink(path) => UnlinkKept(w, path);
      case OpenPath(path) => OpenKept(w, path);
      case UseFile(i, o) => UseKept(w, i, o);
      case CloseFd(i) => CloseKept(w, i);
    }
  }

  /** In a run of creations, deletions and operations on open files the tree
      keeps unique, well-formed names and single links in every state exactly
      when each creation finds room, or fails at no block boundary, and cuts no
      name to one that is taken. */
  lemma {:induction false} RunsKeepTree(w: Sys, ops: seq<TreeOp>)
    requires FilesOpen(w) && TreeOk(w.store) && forall op <- ops :: IsCPath(op)
    ensures AlwaysTree(w, ops) <==> Roomy(w, ops)
    decreases |ops|
  {
    hide TreeOk, FilesOpen, ApplyTree, KeepsTree;
    if ops != [] {
      assert IsCPath(ops[0]);
      OpKept(w, ops[0]);
      if TreeOk(ApplyTree(w, ops[0]).store) { RunsKeepTree(ApplyTree(w, ops[0]), ops[1..]); }
    }
  }

  lemma BasenameNulFree(path: Path)
    requires NulFree(path)
    ensures Absolute(path) ==> NulFree(Basename(path))
  {
    if Absolute(path) {
      forall k: nat | k < |Basename(path)| ensures Basename(path)[k] != 0 {
        assert Basename(path)[k] == path[LastSlash(path) + 1 + k];
      }
    }
  }
}
