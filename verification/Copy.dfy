/** Reading back what was written, and the copy loop (src/ifile.c,
    src/builtins.c, do_cp). */
module Copy {
  import opened Disk
  import opened Inode
  import opened Ownership
  import opened Partition
  import opened BlockOps
  import opened Ifile
  import opened Growth

  // ----- sequences of bytes in a flat file -----

  function Splice(a: seq<byte>, p: nat, bs: seq<byte>): seq<byte>
    requires p + |bs| <= |a|
  {
    a[..p] + bs + a[p + |bs|..]
  }

  lemma SpliceStep(a: seq<byte>, p: nat, bs: seq<byte>)
    requires p + |bs| <= |a| && bs != []
    ensures Splice(a[p := bs[0]], p + 1, bs[1..]) == Splice(a, p, bs)
  {
    var l, r := Splice(a[p := bs[0]], p + 1, bs[1..]), Splice(a, p, bs);
    forall x: nat | x < |a| ensures l[x] == r[x] {
      if p < x < p + |bs| { assert bs[1..][x - p - 1] == bs[x - p]; }
    }
  }

  /** Writing a sequence overwrites exactly its range. */
  lemma {:induction false} FWritesAt(f: Flat, bs: seq<byte>)
    requires f.pos + |bs| <= |f.bytes| == MAX_BYTES
    ensures FWrites(f, bs) ==
      Flat(Splice(f.bytes, f.pos, bs), if bs == [] then f.size else Max(f.size, f.pos + |bs| - 1), f.pos + |bs|)
    decreases |bs|
  {
    if bs == [] {
      assert Splice(f.bytes, f.pos, bs) == f.bytes;
    } else {
      SpliceStep(f.bytes, f.pos, bs);
      assert (f.pos + 1) % WORD == f.pos + 1;
      FWritesAt(FWritec(f, bs[0]), bs[1..]);
    }
  }

  lemma FirstOfSlice(a: seq<byte>, p: nat, q: nat)
    requires p < q <= |a|
    ensures a[p..q] == [a[p]] + a[p + 1..q]
  {}

  /** Reading returns the bytes from the cursor, up to the last index. */
  lemma {:induction false} FReadsAt(f: Flat, n: nat)
    requires f.pos <= f.size + 1 <= |f.bytes| == MAX_BYTES
    ensures var k := if n < f.size + 1 - f.pos then n else f.size + 1 - f.pos;
      FReadLoop(f, n) == (f.(pos := f.pos + k), f.bytes[f.pos..f.pos + k])
    decreases n
  {
    if n > 0 && f.pos <= f.size {
      assert (f.pos + 1) % WORD == f.pos + 1;
      var g := f.(pos := f.pos + 1);
      assert FSeek(f, 1) == g;
      hide FSeek;
      FReadsAt(g, n - 1);
      var k := if n < f.size + 1 - f.pos then n else f.size + 1 - f.pos;
      assert g.pos + (k - 1) == f.pos + k;
      FirstOfSlice(f.bytes, f.pos, f.pos + k);
    } else {
      assert f.bytes[f.pos..f.pos] == [];
    }
  }

  /** What is written to a new file and closed is read back, byte for byte,
      by reopening and reading until the end of file. */
  lemma RoundTrip(s: Store, i: nat, bs: seq<byte>, n: nat)
    requires Valid(s) && IsIno(s, i) && Get(s, i).size < |bs| < n
    requires WriteLoop(s, Open(s, i), bs).2
    ensures var (t, f, _) := WriteLoop(s, Open(s, i), bs);
      var u := Close(t, f);
      && Valid(u) && IsIno(u, i) && Get(u, i).size == |bs| - 1
      && ReadLoop(u, Open(u, i), n).2 == bs
  {
    hide WriteLoop, ReadLoop, Valid, View, OnlyFile, Load, Vmap, Close;
    OpenSpec(s, i);
    var w := WriteLoopSpec(s, Open(s, i), bs);
    assert bs[..w] == bs;
    FWritesAt(Abs(s, Open(s, i)), bs);
    var (t, f, _) := WriteLoop(s, Open(s, i), bs);
    CloseSpec(t, f);
    var u := Close(t, f);
    OpenSpec(u, i);
    ReadLoopSpec(u, Open(u, i), n);
    FReadsAt(Abs(u, Open(u, i)), n);
    assert Splice(Bytes(s, i), 0, bs)[0..|bs|] == bs;
  }

  // ----- cp -----

  /** At most n turns of the loop of do_cp. */
  function CopyLoop(s: Store, sfd: Fd, dfd: Fd, n: nat): (Store, Fd, Fd)
    decreases n
  {
    if n == 0 then (s, sfd, dfd)
    else
      var (t, f, c) := Readc(s, sfd);
      if c < 0 || c >= 256 then (t, f, dfd)
      else
        var (u, g, _) := Writec(t, dfd, c);
        CopyLoop(u, f, g, n - 1)
  }

  /** Copy the content of src to dst: the loop of do_cp, and the two closes. */
  function CopyFile(s: Store, src: nat, dst: nat): Store {
    var (t, f, g) := CopyLoop(s, Open(s, src), Open(s, dst), SizeOf(Get(s, src)) + 2);
    Close(Close(t, g), f)
  }

  /** Reading through a clean descriptor leaves the disk alone. */
  lemma ReadcClean(s: Store, fd: Fd)
    requires !fd.dirty
    ensures Readc(s, fd).0 == s && !Readc(s, fd).1.dirty && Readc(s, fd).1.inum == fd.inum
  {
  }

  /** Both descriptors at the same position, the second of a file that grows. */
  ghost predicate Copying(s: Store, sfd: Fd, dfd: Fd) {
    && FdOk(s, sfd) && !sfd.dirty && Growing(s, dfd) && sfd.inum != dfd.inum
    && sfd.pos == dfd.pos <= sfd.size + 1 <= MAX_BYTES
  }

  /** The next byte needs a block, and there is none. */
  ghost predicate Full(s: Store, dfd: Fd) {
    FdOk(s, dfd) && !dfd.dirty && s.free == 0 && dfd.pos < MAX_BYTES && Vmap(s, dfd.inum, BlocOf(dfd.pos)) == 0
  }

  function Lacks(sfd: Fd, dfd: Fd): int {
    NeedBytes(sfd.size + 1) - NeedBytes(dfd.pos)
  }

  lemma CopyStep(s: Store, sfd: Fd, dfd: Fd)
    requires Copying(s, sfd, dfd) && sfd.pos <= sfd.size
    ensures 0 <= Readc(s, sfd).2 < 256
    ensures var (_, f, c) := Readc(s, sfd); var (u, g, r) := Writec(s, dfd, c);
         && FdOk(u, f) && !f.dirty && f.inum == sfd.inum && f.size == sfd.size && f.pos == sfd.pos + 1
         && Readc(s, sfd).0 == s && OnlyFile(s, u, dfd.inum)
         && Abs(u, f) == FSeek(Abs(s, sfd), 1) && c == View(s, sfd)[sfd.pos]
         && (r != RETURN_FAILURE ==>
               Copying(u, f, g) && g.inum == dfd.inum && Abs(u, g) == FWritec(Abs(s, dfd), c)
               && s.free - u.free == Lacks(sfd, dfd) - Lacks(f, g))
         && (r == RETURN_FAILURE ==>
               Full(u, dfd) && g == dfd && Abs(u, g) == Abs(s, dfd) && Lacks(sfd, dfd) > s.free && IblocOf(dfd.pos) == 0)
  {
    hide NeedBytes, Shape, Writec, Readc, Valid, Cost, Vmap, Load, View, PlaceOf, BlocOf, IblocOf, OnlyFile, Full, FileKept;
    ReadcSpec(s, sfd);
    ReadcClean(s, sfd);
    var (_, f, c) := Readc(s, sfd);
    NextPos(sfd.pos);
    NeedBytesMonotone(dfd.pos + 1, sfd.size + 1);
    WritecNeed(s, dfd, c);
    WritecSpec(s, dfd, c);
    var (u, g, r) := Writec(s, dfd, c);
    OtherKept(s, u, dfd.inum, f.inum);
    FdKept(s, u, f);
    if r == RETURN_FAILURE {
      WritecTakes(s, dfd, c);
      FailedIsFull(s, dfd, c);
      if IblocOf(dfd.pos) != 0 { SameNeed(dfd.pos); }
    }
  }

  lemma SameNeed(p: nat)
    requires IblocOf(p) != 0
    ensures NeedBytes(p + 1) == NeedBytes(p)
  {
    assert BlocsFor(p + 1) == BlocsFor(p);
  }

  /** After a write that finds no room, the next one finds none either. */
  lemma FailedIsFull(s: Store, fd: Fd, c: byte)
    requires FdOk(s, fd) && fd.pos < MAX_BYTES && Writec(s, fd, c).2 == RETURN_FAILURE
    ensures Full(Writec(s, fd, c).0, fd) && Writec(s, fd, c).1 == fd
  {
    hide View, Load, Valid, Cost, PlaceOf, At, OnlyFile, EnsureAt;
    WritecSpec(s, fd, c);
    WritecTakes(s, fd, c);
    AllocateSpec(s, fd.inum, BlocOf(fd.pos));
    BlocArith(fd.pos, fd.pos);
  }

  lemma FullFails(s: Store, fd: Fd, c: byte)
    requires Full(s, fd)
    ensures Writec(s, fd, c).2 == RETURN_FAILURE
  {
    BlocArith(fd.pos, fd.pos);
    hide Writec, Valid, View, Load, Vmap, OnlyFile;
    WritecSpec(s, fd, c);
    HoleCosts(s, fd.inum, BlocOf(fd.pos));
  }

  lemma HoleCosts(s: Store, i: nat, fb: nat)
    requires fb < NB_FBLOCS && Vmap(s, i, fb) == 0
    ensures Cost(s, i, PlaceOf(fb)) > 0
  {}

  /** Once the disk is full the rest of the source is read, and lost. */
  lemma {:induction false} CopyLoopFull(s: Store, sfd: Fd, dfd: Fd, n: nat)
    requires FdOk(s, sfd) && !sfd.dirty && sfd.inum != dfd.inum && Full(s, dfd)
    requires sfd.pos <= sfd.size + 1 <= MAX_BYTES && n > sfd.size + 1 - sfd.pos
    ensures var (t, f, g) := CopyLoop(s, sfd, dfd, n);
      && FdOk(t, f) && !f.dirty && f.inum == sfd.inum && f.size == sfd.size
      && g == dfd && FdOk(t, g) && Abs(t, g) == Abs(s, dfd) && OnlyFile(s, t, dfd.inum) && t.free == 0
    decreases n
  {
    hide Writec, Readc, Valid, Vmap, Load, View, OnlyFile, FileKept;
    ReadcSpec(s, sfd);
    ReadcClean(s, sfd);
    if sfd.pos > sfd.size {
      OnlyFileRefl(s, dfd.inum);
    } else {
      var (_, f, c) := Readc(s, sfd);
      NextPos(sfd.pos);
      FullFails(s, dfd, c);
      FailedIsFull(s, dfd, c);
      WritecSpec(s, dfd, c);
      var u := Writec(s, dfd, c).0;
      OtherKept(s, u, dfd.inum, f.inum);
      FdKept(s, u, f);
      CopyLoopFull(u, f, dfd, n - 1);
      OnlyFileTrans(s, u, CopyLoop(u, f, dfd, n - 1).0, dfd.inum);
    }
  }

  lemma OtherKept(s: Store, t: Store, i: nat, j: nat)
    requires OnlyFile(s, t, i) && IsIno(s, j) && j != i
    ensures FileKept(s, t, j)
  {}

  /** The loop copies the rest of the source, exactly when the blocks for it are
      free; otherwise what fits, up to the end of a block, and fills the disk. */
  lemma {:induction false} CopyLoopSpec(s: Store, sfd: Fd, dfd: Fd, n: nat) returns (w: nat)
    requires Copying(s, sfd, dfd) && n > sfd.size + 1 - sfd.pos
    ensures var (t, f, g) := CopyLoop(s, sfd, dfd, n); var all := sfd.size + 1 - sfd.pos;
      && FdOk(t, f) && !f.dirty && f.inum == sfd.inum && f.size == sfd.size
      && FdOk(t, g) && g.inum == dfd.inum && OnlyFile(s, t, dfd.inum)
      && w <= all && (w == all <==> Lacks(sfd, dfd) <= s.free)
      && Abs(t, g) == FWrites(Abs(s, dfd), View(s, sfd)[sfd.pos..sfd.pos + w])
      && (w == all ==> t.free == s.free - Lacks(sfd, dfd))
      && (w < all ==> t.free == 0 && IblocOf(sfd.pos + w) == 0)
    decreases n
  {
    hide Need, BlocsFor, Shape, Writec, Readc, Valid, Vmap, Load, View, OnlyFile, BlocOf, IblocOf, Full;
    ReadcSpec(s, sfd);
    FreeCount(s);
    if sfd.pos > sfd.size {
      ReadcClean(s, sfd);
      OnlyFileRefl(s, dfd.inum);
      w := 0;
    } else {
      CopyStep(s, sfd, dfd);
      var (_, f, c) := Readc(s, sfd);
      var (u, g, r) := Writec(s, dfd, c);
      if r == RETURN_FAILURE {
        w := 0;
        CopyLoopFull(u, f, g, n - 1);
        assert View(s, sfd)[sfd.pos..sfd.pos] == [];
      } else {
        var w' := CopyLoopSpec(u, f, g, n - 1);
        w := w' + 1;
        var rest := View(s, sfd)[sfd.pos..sfd.pos + w];
        assert rest[0] == c && rest[1..] == View(u, f)[f.pos..f.pos + w'];
      }
      OnlyFileTrans(s, u, CopyLoop(u, f, g, n - 1).0, dfd.inum);
    }
  }

  lemma CopyStart(s: Store, src: nat, dst: nat)
    requires Valid(s) && IsIno(s, src) && IsIno(s, dst) && src != dst && Get(s, src).size < MAX_BYTES
    requires Get(s, dst).size == 0 && Shape(s, dst, 0)
    ensures Copying(s, Open(s, src), Open(s, dst)) && NeedBytes(0) == 0
  {
    OpenSpec(s, src);
    OpenSpec(s, dst);
  }

  /** The copy has the first w bytes of the source: all of them, and its size,
      exactly when the blocks for them are free; otherwise whole blocks, and the
      disk is full. The source and every other file are untouched. */
  lemma CopyFileSpec(s: Store, src: nat, dst: nat) returns (w: nat)
    requires Valid(s) && IsIno(s, src) && IsIno(s, dst) && src != dst && Get(s, src).size < MAX_BYTES
    requires Get(s, dst).size == 0 && Shape(s, dst, 0)
    ensures var t := CopyFile(s, src, dst); var size := Get(s, src).size;
      && Valid(t) && IsIno(t, dst) && w <= size + 1 && (w == size + 1 <==> NeedBytes(size + 1) <= s.free)
      && Get(t, dst).size == (if w == 0 then 0 else w - 1)
      && Bytes(t, dst)[..w] == Bytes(s, src)[..w] && Bytes(t, dst)[w..] == Bytes(s, dst)[w..]
      && OthersKept(s, t, dst) && Get(t, dst).kind == Get(s, dst).kind
      && (w == size + 1 ==> t.free == s.free - NeedBytes(size + 1))
      && (w < size + 1 ==> t.free == 0 && w % BLOC_SIZE == 0)
  {
    hide NeedBytes, Shape, CopyLoop, Valid, Load, Close, View, Bytes, OnlyFile, FileKept, Growing;
    var size := Get(s, src).size;
    CopyStart(s, src, dst);
    OpenSpec(s, src);
    OpenSpec(s, dst);
    w := CopyLoopSpec(s, Open(s, src), Open(s, dst), size + 2);
    var (t, f, g) := CopyLoop(s, Open(s, src), Open(s, dst), size + 2);
    var bs := Bytes(s, src)[0..w];
    FWritesAt(Abs(s, Open(s, dst)), bs);
    assert Splice(Bytes(s, dst), 0, bs)[..w] == bs == Bytes(s, src)[..w];
    assert Splice(Bytes(s, dst), 0, bs)[w..] == Bytes(s, dst)[w..];
    CloseBoth(s, t, f, g);
  }

  lemma CloseBoth(s: Store, t: Store, f: Fd, g: Fd)
    requires FdOk(t, f) && !f.dirty && FdOk(t, g) && f.inum != g.inum && OnlyFile(s, t, g.inum)
    requires IsIno(s, f.inum) && f.size == Get(s, f.inum).size
    ensures var u := Close(Close(t, g), f);
      && Valid(u) && IsIno(u, g.inum) && Get(u, g.inum).size == g.size && Bytes(u, g.inum) == View(t, g)
      && OthersKept(s, u, g.inum) && Get(u, g.inum).kind == Get(s, g.inum).kind && u.free == t.free
  {
    CloseSpec(t, g);
    var u := Close(t, g);
    assert FileKept(s, t, f.inum) && FileKept(t, u, f.inum);
    assert Get(u, f.inum) == Get(s, f.inum).(size := f.size);
    assert Close(u, f) == u;
    OthersKeptTrans(s, t, u, g.inum);
  }
}
