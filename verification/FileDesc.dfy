/** File descriptors with a one-block buffer, updated in place
    (src/ifile.c). Each method is proved to do what the function of the same
    name in Ifile says. */
module FileDesc {
  import opened Disk
  import Inode
  import opened Ownership
  import opened BlockOps
  import Ifile
  import opened Volume
  import Copy

  class FileDesc {
    var inum: nat
    var size: nat
    var pos: nat
    const buf: array<byte>
    var dirty: bool

    ghost function Val(): Ifile.Fd
      reads this, buf
    {
      Ifile.Fd(inum, size, pos, buf[..], dirty)
    }

    ghost predicate Ok(v: Volume)
      reads this, buf, v, v.disk
    {
      Ifile.FdOk(v.St(), Val())
    }

    constructor ()
      ensures buf.Length == BLOC_SIZE && fresh(buf)
    {
      inum, size, pos, dirty := 0, 0, 0, false;
      buf := new byte[BLOC_SIZE](_ => 0);
    }

    /** The buffer receives file block fb: zeros for a hole. */
    method LoadBuf(v: Volume, fb: nat)
      requires buf.Length == BLOC_SIZE && Valid(v.St()) && Inode.IsIno(v.St(), inum)
      modifies buf, v, v.disk
      ensures v.St() == old(v.St()) && buf[..] == Ifile.Load(v.St(), inum, fb)
    {
      ghost var s := v.St();
      LoadReady(s, inum, fb);
      var b := v.Vbloc(inum, fb, false);
      var i := 0;
      while i < BLOC_SIZE
        invariant 0 <= i <= BLOC_SIZE && v.St() == s
        invariant forall k: nat :: k < i ==> buf[k] == Ifile.Load(s, inum, fb)[k]
        modifies buf
      {
        buf[i] := if b == 0 then 0 else v.disk[b].bytes[i];
        i := i + 1;
      }
    }

    method Open(v: Volume, i: nat)
      requires buf.Length == BLOC_SIZE && Valid(v.St()) && Inode.IsIno(v.St(), i)
      modifies this, buf, v, v.disk
      ensures v.St() == old(v.St()) && Val() == Ifile.Open(v.St(), i) && Ok(v)
    {
      InodeReady(v.St(), i);
      inum, size, pos := i, v.disk[i].size, 0;
      LoadBuf(v, 0);
      dirty := false;
      Ifile.OpenSpec(v.St(), i);
    }

    method Flush(v: Volume)
      requires Ok(v)
      modifies this, buf, v, v.disk
      ensures (v.St(), Val()) == Ifile.Flush(old(v.St()), old(Val())) && Ok(v)
    {
      ghost var s, fd := v.St(), Val();
      Ifile.FlushSpec(s, fd);
      if dirty {
        AllocateSpec(s, inum, Ifile.BlocOf(pos));
        LoadReady(s, inum, Ifile.BlocOf(pos));
        var b := v.Vbloc(inum, Ifile.BlocOf(pos), true);
        v.disk[b] := Data(buf[..]);
        dirty := false;
      }
    }

    method Close(v: Volume)
      requires Ok(v)
      modifies this, buf, v, v.disk
      ensures v.St() == Ifile.Close(old(v.St()), old(Val())) && Valid(v.St())
    {
      Ifile.CloseSpec(v.St(), Val());
      Flush(v);
      InodeReady(v.St(), inum);
      v.disk[inum] := v.disk[inum].(size := size);
    }

    /** Move the cursor; the buffer is flushed at the old position when the
        cursor leaves its block. */
    method Seek(v: Volume, offset: int)
      requires Ok(v)
      modifies this, buf, v, v.disk
      ensures (v.St(), Val()) == Ifile.Seek(old(v.St()), old(Val()), offset) && Ok(v)
    {
      hide Ifile.View, Ifile.Load, Ifile.OnlyFile, Valid;
      ghost var s, fd := v.St(), Val();
      var target := (pos + offset) % Ifile.WORD;
      Ifile.MoveSpec(s, fd, target);
      if Ifile.BlocOf(target) != Ifile.BlocOf(pos) {
        Flush(v);
        LoadBuf(v, Ifile.BlocOf(target));
      }
      pos := target;
    }

    method Seek2(v: Volume, offset: int)
      requires Ok(v)
      modifies this, buf, v, v.disk
      ensures (v.St(), Val()) == Ifile.Seek2(old(v.St()), old(Val()), offset) && Ok(v)
    {
      Seek(v, offset - pos);
    }

    method Readc(v: Volume) returns (c: int)
      requires Ok(v)
      modifies this, buf, v, v.disk
      ensures (v.St(), Val(), c) == Ifile.Readc(old(v.St()), old(Val())) && Ok(v)
    {
      if pos > size { return Ifile.READ_EOF; }
      c := buf[Ifile.IblocOf(pos)];
      Seek(v, 1);
    }

    /** Write one byte at the cursor. The block is allocated first, so that a
        full disk leaves the file as it was. */
    method Writec(v: Volume, c: byte) returns (r: int)
      requires Ok(v)
      modifies this, buf, v, v.disk
      ensures (v.St(), Val(), r) == Ifile.Writec(old(v.St()), old(Val()), c) && Ok(v)
    {
      hide Ifile.Store1, Ifile.View, Ifile.Load, Ifile.OnlyFile, Inode.PlaceOf, Inode.Cost;
      Ifile.WritecSpec(v.St(), Val(), c);
      if !dirty {
        Ifile.EnsureView(v.St(), Val());
        var b := v.Vbloc(inum, Ifile.BlocOf(pos), true);
        if b == 0 { return Ifile.RETURN_FAILURE; }
      }
      r := pos;
      Store1(v, c);
    }

    /** Put c in the buffer; write it back when it is full. */
    method Store1(v: Volume, c: byte)
      requires Ok(v) && Inode.Vmap(v.St(), inum, Ifile.BlocOf(pos)) != 0
      modifies this, buf, v, v.disk
      ensures (v.St(), Val()) == Ifile.Store1(old(v.St()), old(Val()), c)
    {
      var ib := Ifile.IblocOf(pos);
      buf[ib] := c;
      dirty := true;
      assert buf[..] == old(buf[..])[ib := c];
      if ib == BLOC_SIZE - 1 { WriteThrough(v, Ifile.BlocOf(pos)); }
      if size < pos { size := pos; }
      pos := (pos + 1) % Ifile.WORD;
    }

    /** The buffer is full: write it to its block and load the next one. */
    method WriteThrough(v: Volume, fb: nat)
      requires Valid(v.St()) && Inode.IsIno(v.St(), inum) && buf.Length == BLOC_SIZE
      requires Inode.Vmap(v.St(), inum, fb) != 0 && fb == Ifile.BlocOf(pos) && Ifile.IblocOf(pos) == BLOC_SIZE - 1
      modifies this`dirty, buf, v, v.disk
      ensures v.St() == Put(old(v.St()), Inode.Vmap(old(v.St()), inum, fb), Data(old(buf[..])))
      ensures buf[..] == Ifile.Load(v.St(), inum, Ifile.BlocOf(pos + 1)) && !dirty
    {
      ghost var s := v.St();
      LoadReady(s, inum, fb);
      Ifile.WriteBackSpec(s, inum, fb, buf[..]);
      var b := v.Vbloc(inum, fb, false);
      v.disk[b] := Data(buf[..]);
      LoadBuf(v, Ifile.BlocOf(pos + 1));
      dirty := false;
    }

    method Read(v: Volume, n: nat) returns (bs: seq<byte>, r: int)
      requires Ok(v)
      modifies this, buf, v, v.disk
      ensures (v.St(), Val(), bs, r) == Ifile.Read(old(v.St()), old(Val()), n) && Ok(v)
    {
      hide Ifile.Readc, Ifile.ReadLoop, Ifile.FdOk, Rest;
      bs := [];
      if pos >= size { return bs, Ifile.READ_EOF; }
      ghost var s, fd := v.St(), Val();
      RestStart(s, fd, n);
      var i := 0;
      while i < n
        invariant 0 <= i <= n && |bs| == i && Ok(v)
        invariant Rest(Ifile.ReadLoop(s, fd, n), bs, v.St(), Val(), n - i)
      {
        RestStep(Ifile.ReadLoop(s, fd, n), bs, v.St(), Val(), n - i);
        var c := Readc(v);
        if c == Ifile.READ_EOF { return bs, i; }
        bs := bs + [c as byte];
        i := i + 1;
      }
      RestEnd(Ifile.ReadLoop(s, fd, n), bs, v.St(), Val());
      r := i;
    }

    method Write(v: Volume, bs: seq<byte>) returns (r: int)
      requires Ok(v)
      modifies this, buf, v, v.disk
      ensures (v.St(), Val(), r) == Ifile.Write(old(v.St()), old(Val()), bs) && Ok(v)
    {
      ghost var all := Ifile.WriteLoop(v.St(), Val(), bs);
      var i := 0;
      while i < |bs|
        invariant 0 <= i <= |bs| && Ok(v)
        invariant Ifile.WriteLoop(v.St(), Val(), bs[i..]) == all
      {
        assert bs[i..][0] == bs[i] && bs[i..][1..] == bs[i + 1..];
        var c := Writec(v, bs[i]);
        if c == Ifile.RETURN_FAILURE { return Ifile.RETURN_FAILURE; }
        i := i + 1;
      }
      r := |bs|;
    }
  }

  // ----- the loop of read_ifile -----

  /** What was read, bs, followed by k more calls, makes up the whole result. */
  ghost predicate Rest(all: (Store, Ifile.Fd, seq<byte>), bs: seq<byte>, s: Store, fd: Ifile.Fd, k: nat) {
    var (t, f, more) := Ifile.ReadLoop(s, fd, k);
    all == (t, f, bs + more)
  }

  lemma RestStart(s: Store, fd: Ifile.Fd, n: nat)
    ensures Rest(Ifile.ReadLoop(s, fd, n), [], s, fd, n)
  {
    assert [] + Ifile.ReadLoop(s, fd, n).2 == Ifile.ReadLoop(s, fd, n).2;
  }

  lemma RestStep(all: (Store, Ifile.Fd, seq<byte>), bs: seq<byte>, s: Store, fd: Ifile.Fd, k: nat)
    requires k > 0 && Rest(all, bs, s, fd, k) && Ifile.FdOk(s, fd)
    ensures var (t, f, c) := Ifile.Readc(s, fd);
      && (c == Ifile.READ_EOF || 0 <= c < 256)
      && (c == Ifile.READ_EOF ==> all == (t, f, bs))
      && (c != Ifile.READ_EOF ==> Rest(all, bs + [c as byte], t, f, k - 1))
  {
    hide Ifile.Readc, Ifile.View, Ifile.Load, Ifile.OnlyFile, Valid;
    Ifile.ReadcSpec(s, fd);
    var (t, f, c) := Ifile.Readc(s, fd);
    if c == Ifile.READ_EOF {
      assert bs + [] == bs;
    } else {
      var more := Ifile.ReadLoop(t, f, k - 1).2;
      assert bs + ([c as byte] + more) == bs + [c as byte] + more;
    }
  }

  lemma RestEnd(all: (Store, Ifile.Fd, seq<byte>), bs: seq<byte>, s: Store, fd: Ifile.Fd)
    requires Rest(all, bs, s, fd, 0)
    ensures all == (s, fd, bs)
  {
    assert bs + [] == bs;
  }

  /** The block that vbloc_of_fbloc names is a data block of the volume. */
  lemma LoadReady(s: Store, i: nat, fb: nat)
    requires Valid(s) && Inode.IsIno(s, i)
    ensures Inode.Vmap(s, i, fb) < |s.blocks|
    ensures Inode.Vmap(s, i, fb) != 0 ==> IsData(s.blocks[Inode.Vmap(s, i, fb)])
  {
    var l :| Inv(s, l);
    if fb < NB_FBLOCS { PathRoles(s, l, i, Inode.PlaceOf(fb)); }
  }

  // ----- cp -----

  /** Descriptors of two files, or two at the start of one that is empty. */
  ghost predicate Pair(s: Store, sfd: Ifile.Fd, dfd: Ifile.Fd) {
    sfd.inum == dfd.inum ==>
      && sfd.size == dfd.size == 0 && dfd.pos <= sfd.pos <= 1
      && dfd.buf == ZeroBytes() == Ifile.Load(s, sfd.inum, 0)
  }

  /** One turn of the copy loop leaves both descriptors usable. */
  lemma CopyTurn(s: Store, sfd: Ifile.Fd, dfd: Ifile.Fd)
    requires Ifile.FdOk(s, sfd) && !sfd.dirty && Ifile.FdOk(s, dfd) && Pair(s, sfd, dfd)
    requires sfd.pos <= sfd.size < Ifile.MAX_BYTES
    ensures var (t, f, c) := Ifile.Readc(s, sfd);
      && t == s && 0 <= c < 256 && f.inum == sfd.inum && f.size == sfd.size && f.pos == sfd.pos + 1 && !f.dirty
      && var (u, g, _) := Ifile.Writec(t, dfd, c);
         Ifile.FdOk(u, f) && g.inum == dfd.inum && Pair(u, f, g)
  {
    hide Ifile.Readc, Ifile.Writec, Ifile.View, Ifile.Load, Valid, Inode.Cost, Inode.PlaceOf;
    Ifile.ReadcSpec(s, sfd);
    Copy.ReadcClean(s, sfd);
    var (_, f, c) := Ifile.Readc(s, sfd);
    Ifile.NextPos(sfd.pos);
    Ifile.WritecSpec(s, dfd, c);
    if sfd.inum == dfd.inum {
      CopyOnto(s, sfd, dfd);
    } else {
      var u := Ifile.Writec(s, dfd, c).0;
      assert FileKept(s, u, sfd.inum);
      Ifile.FdKept(s, u, f);
    }
  }

  /** The one turn of a copy of an empty file onto itself writes a zero. */
  lemma CopyOnto(s: Store, sfd: Ifile.Fd, dfd: Ifile.Fd)
    requires Ifile.FdOk(s, sfd) && !sfd.dirty && Ifile.FdOk(s, dfd) && Pair(s, sfd, dfd)
    requires sfd.inum == dfd.inum && sfd.pos == 0
    ensures var (_, f, c) := Ifile.Readc(s, sfd); var (u, g, _) := Ifile.Writec(s, dfd, 0);
      c == 0 && Ifile.FdOk(u, f) && Pair(u, f, g)
  {
    hide Ifile.View, Ifile.Load, Valid, Inode.Cost, Inode.PlaceOf, Inode.Vbloc, Inode.Vmap, Ifile.OnlyFile;
    assert ZeroBytes()[0 := 0] == ZeroBytes();
    if !dfd.dirty { Ifile.EnsureView(s, dfd); }
  }

  /** Closing one leaves a clean descriptor usable. */
  lemma CloseOther(s: Store, sfd: Ifile.Fd, dfd: Ifile.Fd)
    requires Ifile.FdOk(s, sfd) && !sfd.dirty && Ifile.FdOk(s, dfd) && Pair(s, sfd, dfd)
    ensures Ifile.FdOk(Ifile.Close(s, dfd), sfd)
  {
    hide Ifile.Load, Ifile.Close, Inode.Vmap, Valid;
    Ifile.CloseSpec(s, dfd);
    var t := Ifile.Close(s, dfd);
    if sfd.inum == dfd.inum {
      var now := Ifile.Load(t, sfd.inum, 0);
      forall k: nat | k < BLOC_SIZE ensures now[k] == 0 {
        assert Ifile.Bytes(t, sfd.inum)[k] == Ifile.View(s, dfd)[k];
      }
      assert now == ZeroBytes();
    } else {
      assert FileKept(s, t, sfd.inum);
      Ifile.FdKept(s, t, sfd);
    }
  }

  /** The copy loop of do_cp on two open files, and the two closes. As written,
      failing writes are ignored. An empty file may be copied onto itself. */
  method CopyFile(v: Volume, sfd: FileDesc, dfd: FileDesc, src: nat, dst: nat)
    requires Valid(v.St()) && Inode.IsIno(v.St(), src) && Inode.IsIno(v.St(), dst)
    requires src == dst ==> Get(v.St(), src).size == 0 && Ifile.Load(v.St(), src, 0) == ZeroBytes()
    requires sfd != dfd && sfd.buf != dfd.buf && sfd.buf.Length == dfd.buf.Length == BLOC_SIZE
    requires Get(v.St(), src).size < Ifile.MAX_BYTES
    modifies sfd, sfd.buf, dfd, dfd.buf, v, v.disk
    ensures v.St() == Copy.CopyFile(old(v.St()), src, dst)
  {
    hide Ifile.Readc, Ifile.Writec, Ifile.View, Ifile.Load, Valid, Ifile.Close, Ifile.FdOk;
    dfd.Open(v, dst);
    sfd.Open(v, src);
    ghost var n := sfd.size + 2;
    ghost var all := Copy.CopyLoop(v.St(), sfd.Val(), dfd.Val(), n);
    while true
      invariant sfd.Ok(v) && dfd.Ok(v) && !sfd.dirty && Pair(v.St(), sfd.Val(), dfd.Val())
      invariant sfd.size < Ifile.MAX_BYTES && sfd.pos <= sfd.size + 1 && n > sfd.size + 1 - sfd.pos
      invariant Copy.CopyLoop(v.St(), sfd.Val(), dfd.Val(), n) == all
      decreases n
    {
      ghost var s := v.St();
      Copy.ReadcClean(s, sfd.Val());
      Ifile.ReadcSpec(s, sfd.Val());
      if sfd.pos <= sfd.size { CopyTurn(s, sfd.Val(), dfd.Val()); }
      var c := sfd.Readc(v);
      if c == Ifile.READ_EOF { break; }
      var r := dfd.Writec(v, c);
      n := n - 1;
    }
    CloseOther(v.St(), sfd.Val(), dfd.Val());
    dfd.Close(v);
    sfd.Close(v);
  }
}
