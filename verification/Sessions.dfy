/** A volume with any number of open descriptors, one for a file, while other
    files come and go (src/ifile.c, src/inode.c). */
module Sessions {
  import opened Disk
  import opened Inode
  import opened Ownership
  import opened Partition
  import opened BlockOps
  import opened Ifile

  datatype Sys = Sys(store: Store, open: map<nat, Fd>)

  datatype FileOp =
    | NewFile(kind: Kind)
    | Remove(i: nat)
    | OpenFile(i: nat)
    | Use(i: nat, op: Op)
    | CloseFile(i: nat)

  const NOTHING: Out := Out(0, [])

  /** One operation; nothing happens without the file or the descriptor, and an
      open file is neither opened again nor removed. */
  function Act(w: Sys, op: FileOp): (Sys, Out) {
    match op
    case NewFile(kind) =>
      var (t, i) := CreateInode(w.store, kind);
      (w.(store := t), Out(i, []))
    case Remove(i) =>
      (if IsIno(w.store, i) && i !in w.open then w.(store := DeleteInode(w.store, i)) else w, NOTHING)
    case OpenFile(i) =>
      (if IsIno(w.store, i) && i !in w.open then w.(open := w.open[i := Open(w.store, i)]) else w, NOTHING)
    case Use(i, o) =>
      if i in w.open then
        var (t, f, out) := Step(w.store, w.open[i], o);
        (Sys(t, w.open[i := f]), out)
      else (w, NOTHING)
    case CloseFile(i) =>
      (if i in w.open then Sys(Close(w.store, w.open[i]), w.open - {i}) else w, NOTHING)
  }

  function Acts(w: Sys, ops: seq<FileOp>): (Sys, seq<Out>)
    decreases |ops|
  {
    if ops == [] then (w, [])
    else
      var (v, out) := Act(w, ops[0]);
      var (u, outs) := Acts(v, ops[1..]);
      (u, [out] + outs)
  }

  /** The volume is sound and each descriptor is good for its file. */
  ghost predicate SysInv(w: Sys) {
    Valid(w.store) && forall i: nat {:trigger w.open[i]} :: i in w.open ==> FdOk(w.store, w.open[i]) && w.open[i].inum == i
  }

  // ----- the volume as a map of flat files -----

  datatype FlatFile = Closed(kind: Kind, size: nat, bytes: seq<byte>) | Opened(kind: Kind, flat: Flat)

  function KindOf(x: Block): Kind {
    if x.Inode? then x.kind else File
  }

  ghost function FileAt(w: Sys, i: nat): FlatFile {
    if i in w.open && |w.open[i].buf| == BLOC_SIZE then Opened(KindOf(Get(w.store, i)), Abs(w.store, w.open[i]))
    else Closed(KindOf(Get(w.store, i)), SizeOf(Get(w.store, i)), Bytes(w.store, i))
  }

  ghost function Files(w: Sys): (m: map<nat, FlatFile>)
    ensures forall i: nat :: i in m <==> IsIno(w.store, i)
    ensures forall i: nat :: i in m ==> m[i] == FileAt(w, i)
  {
    map i: nat | i < |w.store.blocks| && IsIno(w.store, i) :: FileAt(w, i)
  }

  function Blank(): seq<byte> {
    seq(MAX_BYTES, _ => 0)
  }

  /** The same operation on the map, with a free blocks before and b after. */
  ghost predicate FAct(m: map<nat, FlatFile>, a: int, op: FileOp, n: map<nat, FlatFile>, b: int, out: Out) {
    match op
    case NewFile(kind) =>
      if a == 0 then n == m && b == a && out == NOTHING
      else out.r > 0 && out.r !in m && n == m[out.r := Closed(kind, 0, Blank())] && b == a - 1
    case Remove(i) =>
      out == NOTHING && if i in m && m[i].Closed? then n == m - {i} && b > a else n == m && b == a
    case OpenFile(i) =>
      && out == NOTHING && b == a
      && n == if i in m && m[i].Closed? then m[i := Opened(m[i].kind, Flat(m[i].bytes, m[i].size, 0))] else m
    case Use(i, o) =>
      if i in m && m[i].Opened? then
        i in n && n[i].Opened? && FStep(m[i].flat, a, o, n[i].flat, b, out) && n == m[i := Opened(m[i].kind, n[i].flat)]
      else n == m && b == a && out == NOTHING
    case CloseFile(i) =>
      && out == NOTHING && b == a
      && n == if i in m && m[i].Opened? then m[i := Closed(m[i].kind, m[i].flat.size, m[i].flat.bytes)] else m
  }

  ghost predicate FActs(m: map<nat, FlatFile>, a: int, ops: seq<FileOp>, n: map<nat, FlatFile>, b: int, outs: seq<Out>)
    decreases |ops|
  {
    if ops == [] then m == n && outs == [] && a == b
    else |outs| > 0 && exists l: map<nat, FlatFile>, c: int ::
      FAct(m, a, ops[0], l, c, outs[0]) && FActs(l, c, ops[1..], n, b, outs[1..])
  }

  // ----- one operation -----

  /** Other descriptors than that of i, and other files, do not notice. */
  lemma OthersGoOn(w: Sys, t: Store, i: nat)
    requires SysInv(w) && Valid(t) && OthersKept(w.store, t, i)
    ensures forall j: nat :: j in w.open && j != i ==> FdOk(t, w.open[j]) && Abs(t, w.open[j]) == Abs(w.store, w.open[j])
    ensures forall j: nat :: j != i ==> (IsIno(t, j) <==> IsIno(w.store, j))
    ensures forall j: nat :: j != i && IsIno(t, j) ==> Get(t, j) == Get(w.store, j) && Bytes(t, j) == Bytes(w.store, j)
  {
    hide FdOk, FileKept, Valid, Abs, Bytes;
    forall j: nat | j in w.open && j != i
      ensures |w.open[j].buf| == BLOC_SIZE && FdOk(t, w.open[j]) && Abs(t, w.open[j]) == Abs(w.store, w.open[j])
    {
      FdFile(w.store, w.open[j]);
      assert FileKept(w.store, t, j);
      FdKept(w.store, t, w.open[j]);
    }
    forall j: nat | IsIno(w.store, j) && j != i
      ensures Get(t, j) == Get(w.store, j) && Bytes(t, j) == Bytes(w.store, j)
    {
      assert FileKept(w.store, t, j);
      KeptGet(w.store, t, j);
      FileKeptBytes(w.store, t, j);
    }
  }

  lemma FdFile(s: Store, fd: Fd)
    requires FdOk(s, fd)
    ensures Valid(s) && IsIno(s, fd.inum) && |fd.buf| == BLOC_SIZE
  {}

  lemma KeptGet(s: Store, t: Store, j: nat)
    requires FileKept(s, t, j)
    ensures Get(t, j) == Get(s, j)
  {}

  /** The map of files changes at i only. */
  lemma FilesChange(w: Sys, v: Sys, i: nat)
    requires SysInv(w) && Valid(v.store) && OthersKept(w.store, v.store, i)
    requires forall j: nat :: j != i ==> (j in v.open <==> j in w.open) && (j in v.open ==> v.open[j] == w.open[j])
    requires i in v.open ==> FdOk(v.store, v.open[i]) && v.open[i].inum == i
    ensures SysInv(v)
    ensures Files(v) == if IsIno(v.store, i) then Files(w)[i := FileAt(v, i)] else Files(w) - {i}
  {
    hide FdOk, Valid, Abs, Bytes, OthersKept;
    OthersGoOn(w, v.store, i);
    forall j: nat | j in Files(v) && j != i ensures FileAt(v, j) == FileAt(w, j) {}
  }

  lemma NewSpec(w: Sys, kind: Kind)
    requires SysInv(w)
    ensures var (v, out) := Act(w, NewFile(kind));
      SysInv(v) && FAct(Files(w), w.store.free, NewFile(kind), Files(v), v.store.free, out)
  {
    hide FdOk, Valid, OthersKept, CreateInode;
    var (v, out) := Act(w, NewFile(kind));
    CreateSpec(w.store, kind);
    if out.r != 0 {
      var i: nat := out.r;
      FreeIsClosed(w, i);
      FilesChange(w, v, i);
      NewBytes(v.store, i, kind);
    } else {
      assert v == w;
    }
  }

  lemma FreeIsClosed(w: Sys, i: nat)
    requires SysInv(w) && i in FreeSet(w.store)
    ensures !IsIno(w.store, i) && i !in w.open && i > 0
  {
    if i in w.open { FdFile(w.store, w.open[i]); }
    BlocksPartitioned(w.store, i);
  }

  lemma NewBytes(s: Store, i: nat, kind: Kind)
    requires Get(s, i) == NewInode(kind, 0) && forall q: Place :: InRange(q) ==> At(s, i, q) == 0
    ensures Bytes(s, i) == Blank() && IsIno(s, i)
  {
    forall p: nat | p < MAX_BYTES ensures Bytes(s, i)[p] == 0 {
      assert InRange(PlaceOf(BlocOf(p)));
    }
  }

  lemma RemoveSpec(w: Sys, i: nat)
    requires SysInv(w)
    ensures var (v, out) := Act(w, Remove(i));
      SysInv(v) && FAct(Files(w), w.store.free, Remove(i), Files(v), v.store.free, out)
  {
    hide FdOk, Valid, OthersKept, DeleteInode, OwnedSet;
    var v := Act(w, Remove(i)).0;
    OpenIsOpened(w, i);
    if IsIno(w.store, i) && i !in w.open {
      DeleteSpec(w.store, i);
      FilesChange(w, v, i);
      assert OwnedSet(w.store, i) != {} by { OwnsItself(w.store, i); }
    }
  }

  lemma OwnsItself(s: Store, i: nat)
    requires Valid(s) && IsIno(s, i)
    ensures i in OwnedSet(s, i)
  {
    var l :| Inv(s, l);
    assert RoleOk(s, l, i);
    OwnedIsRooted(s, l, i);
  }

  lemma OpenIsOpened(w: Sys, i: nat)
    requires SysInv(w)
    ensures i in Files(w) && Files(w)[i].Opened? <==> i in w.open
    ensures i in w.open ==> |w.open[i].buf| == BLOC_SIZE && Files(w)[i].flat == Abs(w.store, w.open[i])
  {
    hide Valid, Abs;
    if i in w.open { FdFile(w.store, w.open[i]); }
  }

  lemma OpenFileSpec(w: Sys, i: nat)
    requires SysInv(w)
    ensures var (v, out) := Act(w, OpenFile(i));
      SysInv(v) && FAct(Files(w), w.store.free, OpenFile(i), Files(v), v.store.free, out)
  {
    hide FdOk, Valid, Abs, Bytes, Open, OthersKept;
    var v := Act(w, OpenFile(i)).0;
    OpenIsOpened(w, i);
    if IsIno(w.store, i) && i !in w.open {
      OpenSpec(w.store, i);
      SameStore(w.store, i);
      OpenNamed(w.store, i);
      FilesChange(w, v, i);
    }
  }

  lemma OpenNamed(s: Store, i: nat)
    ensures Open(s, i).inum == i && |Open(s, i).buf| == BLOC_SIZE
  {}

  lemma SameStore(s: Store, i: nat)
    requires Valid(s) && IsIno(s, i)
    ensures OthersKept(s, s, i)
  {
    OnlyFileRefl(s, i);
  }

  lemma UseSpec(w: Sys, i: nat, op: Op)
    requires SysInv(w)
    ensures var (v, out) := Act(w, Use(i, op));
      SysInv(v) && FAct(Files(w), w.store.free, Use(i, op), Files(v), v.store.free, out)
  {
    hide Valid, Abs, Bytes, Step, OthersKept, Conserved, FStep, FdOk;
    var (v, out) := Act(w, Use(i, op));
    OpenIsOpened(w, i);
    if i in w.open {
      var fd := w.open[i];
      StepRefines(w.store, fd, op);
      StepKeepsKind(w.store, fd, op);
      FdFile(v.store, v.open[i]);
      FilesChange(w, v, i);
      OpenIsOpened(v, i);
    }
  }

  lemma CloseFileSpec(w: Sys, i: nat)
    requires SysInv(w)
    ensures var (v, out) := Act(w, CloseFile(i));
      SysInv(v) && FAct(Files(w), w.store.free, CloseFile(i), Files(v), v.store.free, out)
  {
    hide Valid, View, Bytes, Close, OthersKept, Conserved, FdOk;
    var v := Act(w, CloseFile(i)).0;
    OpenIsOpened(w, i);
    if i in w.open {
      CloseSpec(w.store, w.open[i]);
      FilesChange(w, v, i);
    }
  }

  /** The volume with its descriptors behaves as a map of flat files: an
      operation on one leaves every other as it is, open or not, even with
      bytes that are not on disk yet. */
  lemma ActRefines(w: Sys, op: FileOp)
    requires SysInv(w)
    ensures var (v, out) := Act(w, op); SysInv(v) && FAct(Files(w), w.store.free, op, Files(v), v.store.free, out)
  {
    match op {
      case NewFile(kind) => NewSpec(w, kind);
      case Remove(i) => RemoveSpec(w, i);
      case OpenFile(i) => OpenFileSpec(w, i);
      case Use(i, o) => UseSpec(w, i, o);
      case CloseFile(i) => CloseFileSpec(w, i);
    }
  }

  lemma ActKeepsSize(w: Sys, op: FileOp)
    requires SysInv(w)
    ensures |Act(w, op).0.store.blocks| == |w.store.blocks|
  {
    hide Valid, Step, Close, Abs, Conserved, FStep, CreateInode, DeleteInode;
    match op {
      case NewFile(kind) => CreateSpec(w.store, kind);
      case Remove(i) => if IsIno(w.store, i) { DeleteSpec(w.store, i); }
      case OpenFile(i) =>
      case Use(i, o) => if i in w.open { StepRefines(w.store, w.open[i], o); }
      case CloseFile(i) => if i in w.open { CloseSpec(w.store, w.open[i]); }
    }
  }

  // ----- runs -----

  /** Any interleaving of sessions on different files, creations and deletions
      behaves, output by output, as on a map of flat files. */
  lemma {:induction false} ActsRefine(w: Sys, ops: seq<FileOp>)
    requires SysInv(w)
    ensures var (v, outs) := Acts(w, ops);
      && SysInv(v) && |v.store.blocks| == |w.store.blocks|
      && FActs(Files(w), w.store.free, ops, Files(v), v.store.free, outs)
    decreases |ops|
  {
    hide SysInv, Act, FAct, Files;
    if ops != [] {
      ActRefines(w, ops[0]);
      ActKeepsSize(w, ops[0]);
      var (v, out) := Act(w, ops[0]);
      ActsRefine(v, ops[1..]);
      var (u, outs) := Acts(v, ops[1..]);
      assert ([out] + outs)[1..] == outs;
      assert FAct(Files(w), w.store.free, ops[0], Files(v), v.store.free, out);
      assert FActs(Files(v), v.store.free, ops[1..], Files(u), u.store.free, outs);
    }
  }

  /** What the others do does not show: a file that the run neither uses,
      closes, opens nor removes is the same flat file after it. */
  lemma {:induction false} Untouched(m: map<nat, FlatFile>, a: int, ops: seq<FileOp>, n: map<nat, FlatFile>, b: int,
                                     outs: seq<Out>, j: nat)
    requires FActs(m, a, ops, n, b, outs) && j in m
    requires forall op <- ops :: op.NewFile? || op.i != j
    ensures j in n && n[j] == m[j]
    decreases |ops|
  {
    hide FStep;
    if ops != [] {
      var l: map<nat, FlatFile>, c: int :| FAct(m, a, ops[0], l, c, outs[0]) && FActs(l, c, ops[1..], n, b, outs[1..]);
      assert ops[0].NewFile? || ops[0].i != j;
      Untouched(l, c, ops[1..], n, b, outs[1..], j);
    }
  }

  /** What the run does with the descriptor of j, and what that returns. */
  function Mine(ops: seq<FileOp>, outs: seq<Out>, j: nat): seq<(Op, Out)>
    decreases |ops|
  {
    if ops == [] || outs == [] then []
    else (if ops[0].Use? && ops[0].i == j then [(ops[0].op, outs[0])] else []) + Mine(ops[1..], outs[1..], j)
  }

  /** Those operations on a flat file of its own; the free blocks are shared. */
  ghost predicate FOwn(f: Flat, mine: seq<(Op, Out)>, g: Flat)
    decreases |mine|
  {
    if mine == [] then f == g
    else exists h: Flat, a: int, b: int :: FStep(f, a, mine[0].0, h, b, mine[0].1) && FOwn(h, mine[1..], g)
  }

  /** Whatever is interleaved with a session, the session is a run on a flat
      file of its own. */
  lemma {:induction false} OwnRun(m: map<nat, FlatFile>, a: int, ops: seq<FileOp>, n: map<nat, FlatFile>, b: int,
                                  outs: seq<Out>, j: nat)
    requires FActs(m, a, ops, n, b, outs) && j in m && m[j].Opened? && CloseFile(j) !in ops
    ensures j in n && n[j].Opened? && n[j].kind == m[j].kind
    ensures FOwn(m[j].flat, Mine(ops, outs, j), n[j].flat)
    decreases |ops|
  {
    hide FStep;
    if ops != [] {
      var l: map<nat, FlatFile>, c: int :| FAct(m, a, ops[0], l, c, outs[0]) && FActs(l, c, ops[1..], n, b, outs[1..]);
      assert ops[0] != CloseFile(j);
      OwnRun(l, c, ops[1..], n, b, outs[1..], j);
      var mine, rest := Mine(ops, outs, j), Mine(ops[1..], outs[1..], j);
      if ops[0].Use? && ops[0].i == j {
        assert mine == [(ops[0].op, outs[0])] + rest && mine[1..] == rest;
        assert FStep(m[j].flat, a, mine[0].0, l[j].flat, c, mine[0].1);
      } else {
        assert mine == rest;
      }
    }
  }

  // ----- sizes -----

  predicate Sized(f: FlatFile) {
    (if f.Opened? then f.flat.size else f.size) < MAX_BYTES
  }

  lemma {:induction false} WritesSized(f: Flat, bs: seq<byte>)
    requires f.size < MAX_BYTES && (bs != [] ==> f.pos + |bs| <= MAX_BYTES)
    ensures FWrites(f, bs).size < MAX_BYTES
    decreases |bs|
  {
    if bs != [] {
      NextPos(f.pos);
      WritesSized(FWritec(f, bs[0]), bs[1..]);
    }
  }

  lemma {:induction false} ReadsSized(f: Flat, n: nat)
    ensures FReadLoop(f, n).0.size == f.size
    decreases n
  {
    if n > 0 && f.pos <= f.size { ReadsSized(FSeek(f, 1), n - 1); }
  }

  lemma StepSized(f: Flat, a: int, op: Op, g: Flat, b: int, out: Out)
    requires FStep(f, a, op, g, b, out) && f.size < MAX_BYTES
    ensures g.size < MAX_BYTES
  {
    match op {
      case DoRead(n) => ReadsSized(f, n);
      case DoWrite(bs) =>
        var w: nat :| FWrote(f, a, bs, w, g, b, out);
        WritesSized(f, bs[..w]);
      case _ =>
    }
  }

  /** The largest index of a file stays within the largest file: the copy loop
      of cp, which stops past it, ends. */
  lemma {:induction false} AlwaysSized(m: map<nat, FlatFile>, a: int, ops: seq<FileOp>, n: map<nat, FlatFile>, b: int,
                                       outs: seq<Out>)
    requires FActs(m, a, ops, n, b, outs) && forall i: nat :: i in m ==> Sized(m[i])
    ensures forall i: nat :: i in n ==> Sized(n[i])
    decreases |ops|
  {
    hide FStep;
    if ops != [] {
      var l: map<nat, FlatFile>, c: int :| FAct(m, a, ops[0], l, c, outs[0]) && FActs(l, c, ops[1..], n, b, outs[1..]);
      if ops[0].Use? && ops[0].i in m && m[ops[0].i].Opened? {
        var i := ops[0].i;
        StepSized(m[i].flat, a, ops[0].op, l[i].flat, c, outs[0]);
      }
      AlwaysSized(l, c, ops[1..], n, b, outs[1..]);
    }
  }

  /** In every state reached from formatting, with any files open, each block
      1..n-1 is either on the free chain or in the tree of exactly one inode,
      and named by one slot at most. */
  lemma ReachablePartition(n: nat, ops: seq<FileOp>, b: nat)
    requires 2 <= n <= 0x1_0000_0000 && 0 < b < n
    ensures var s := Acts(Sys(InitSuper(n), map[]), ops).0.store;
      && (b in FreeSet(s) <==> !exists i: nat :: IsIno(s, i) && b in OwnedSet(s, i))
      && (forall i: nat, j: nat :: IsIno(s, i) && IsIno(s, j) && b in OwnedSet(s, i) && b in OwnedSet(s, j) ==> i == j)
      && (forall h: nat, k: nat, g: nat, j: nat :: Names(s, h, k, b) && Names(s, g, j, b) ==> h == g && k == j)
  {
    hide Valid, Acts, InitSuper, OwnedSet, FreeSet, FActs;
    InitSuperSpec(n);
    ActsRefine(Sys(InitSuper(n), map[]), ops);
    var s := Acts(Sys(InitSuper(n), map[]), ops).0.store;
    BlocksPartitioned(s, b);
    NamedOnce(s, b);
  }
}
