/** When a write finds room: its bytes, its blocks and the free ones
    (src/ifile.c, src/inode.c). */
module Room {
  import opened Disk
  import opened Inode
  import opened Ownership
  import opened Partition
  import opened BlockOps
  import opened Ifile
  import opened Growth

  /** Position pos is in reach, and `free` blocks cover what it lacks. */
  predicate Fits(s: Store, i: nat, pos: nat, free: int) {
    pos < MAX_BYTES && Cost(s, i, PlaceOf(BlocOf(pos))) <= free
  }

  // ----- blocks stay allocated -----

  /** Blocks allocated before a write still are, after a successful one so are
      those it covers, and no other. */
  lemma {:induction false} WriteMaps(s: Store, fd: Fd, bs: seq<byte>)
    requires FdOk(s, fd)
    ensures var (t, _, ok) := WriteLoop(s, fd, bs);
      && (forall fb: nat :: Vmap(s, fd.inum, fb) != 0 ==> Vmap(t, fd.inum, fb) != 0)
      && (ok ==> forall p: nat :: fd.pos <= p < fd.pos + |bs| ==> Vmap(t, fd.inum, BlocOf(p)) != 0)
      && (forall fb: nat :: (forall p: nat :: fd.pos <= p < fd.pos + |bs| ==> BlocOf(p) != fb) ==>
            Vmap(t, fd.inum, fb) == Vmap(s, fd.inum, fb))
    decreases |bs|
  {
    hide Writec, Valid, View, OnlyFile, Load, Vmap, Cost, PlaceOf, BlocOf;
    if bs != [] {
      WritecSpec(s, fd, bs[0]);
      var (t, f, r) := Writec(s, fd, bs[0]);
      WritecMaps(s, fd, bs[0]);
      NextPos(fd.pos);
      if r != RETURN_FAILURE { WriteMaps(t, f, bs[1..]); }
    }
  }

  lemma WritecMaps(s: Store, fd: Fd, c: byte)
    requires FdOk(s, fd)
    ensures var (t, _, r) := Writec(s, fd, c);
      && (r != RETURN_FAILURE ==> Vmap(t, fd.inum, BlocOf(fd.pos)) != 0)
      && (forall fb: nat :: Vmap(s, fd.inum, fb) != 0 ==> Vmap(t, fd.inum, fb) != 0)
      && (forall fb: nat :: fb != BlocOf(fd.pos) ==> Vmap(t, fd.inum, fb) == Vmap(s, fd.inum, fb))
  {
    var i := fd.inum;
    var (t, v) := if fd.dirty then (s, 1) else Vbloc(s, i, BlocOf(fd.pos), true);
    if !fd.dirty {
      AllocateSpec(s, i, BlocOf(fd.pos));
      forall fb: nat
        ensures Vmap(s, i, fb) != 0 ==> Vmap(t, i, fb) != 0
        ensures fb != BlocOf(fd.pos) ==> Vmap(t, i, fb) == Vmap(s, i, fb)
      {
        if Vmap(s, i, fb) != 0 { MapGrows(s, i, BlocOf(fd.pos), fb); }
        if fb != BlocOf(fd.pos) { OtherMaps(s, i, BlocOf(fd.pos), fb); }
      }
    }
    if v != 0 {
      WritecPtrs(s, fd, c);
      assert forall fb: nat :: Vmap(Writec(s, fd, c).0, i, fb) == Vmap(t, i, fb);
    }
  }

  lemma BlocMonotone(p: nat, q: nat)
    requires p <= q
    ensures BlocOf(p) <= BlocOf(q)
  {
  }

  /** Overwriting allocated blocks never fails, and allocates nothing. */
  lemma {:induction false} MappedWriteOk(s: Store, fd: Fd, bs: seq<byte>)
    requires FdOk(s, fd) && forall q: nat :: fd.pos <= q < fd.pos + |bs| ==> Vmap(s, fd.inum, BlocOf(q)) != 0
    ensures var (t, f, ok) := WriteLoop(s, fd, bs);
      && ok && t.free == s.free && SamePtrs(s, t)
      && FdOk(t, f) && f.inum == fd.inum && f.pos == fd.pos + |bs|
    decreases |bs|
  {
    hide Writec, Valid, View, OnlyFile, Load, Vmap, Cost, PlaceOf, BlocOf;
    if bs != [] {
      WritecSpec(s, fd, bs[0]);
      WritecMaps(s, fd, bs[0]);
      MappedWritec(s, fd, bs[0]);
      NextPos(fd.pos);
      var (t, f, _) := Writec(s, fd, bs[0]);
      MappedWriteOk(t, f, bs[1..]);
    }
  }

  lemma MappedWritec(s: Store, fd: Fd, c: byte)
    requires FdOk(s, fd) && Vmap(s, fd.inum, BlocOf(fd.pos)) != 0
    ensures var (t, _, r) := Writec(s, fd, c);
      fd.pos < MAX_BYTES && r != RETURN_FAILURE && t.free == s.free && SamePtrs(s, t)
  {
    hide Writec, View, OnlyFile, Load;
    MappedInRange(s, fd.inum, BlocOf(fd.pos));
    BlocArith(fd.pos, fd.pos);
    CostOfMapped(s, fd.inum, PlaceOf(BlocOf(fd.pos)));
    FreeCount(s);
    WritecSpec(s, fd, c);
    WritecPtrs(s, fd, c);
    AllocateSpec(s, fd.inum, BlocOf(fd.pos));
  }

  lemma OtherMaps(s: Store, i: nat, gb: nat, fb: nat)
    requires Valid(s) && IsIno(s, i) && fb != gb
    ensures Vmap(Vbloc(s, i, gb, true).0, i, fb) == Vmap(s, i, fb)
  {
    if fb < NB_FBLOCS {
      if PlaceOf(fb) == PlaceOf(gb) { PlaceInjective(fb, gb); }
      OtherPlace(s, i, gb, PlaceOf(fb));
    }
  }

  lemma MapGrows(s: Store, i: nat, gb: nat, fb: nat)
    requires Valid(s) && IsIno(s, i) && Vmap(s, i, fb) != 0
    ensures Vmap(Vbloc(s, i, gb, true).0, i, fb) != 0
  {
    AllocateSpec(s, i, gb);
    if PlaceOf(fb) != PlaceOf(gb) { OtherPlace(s, i, gb, PlaceOf(fb)); }
  }

  // ----- exactly when a write succeeds -----

  /** Within one block, all the bytes are written or none, as there is room for
      the first; the block is paid once. */
  lemma {:induction false} WriteInBloc(s: Store, fd: Fd, bs: seq<byte>)
    requires FdOk(s, fd) && bs != [] && BlocOf(fd.pos + |bs| - 1) == BlocOf(fd.pos)
    ensures var (t, _, ok) := WriteLoop(s, fd, bs);
      && (ok <==> Fits(s, fd.inum, fd.pos, s.free))
      && (ok ==> t.free == s.free - Cost(s, fd.inum, PlaceOf(BlocOf(fd.pos))))
    decreases |bs|
  {
    hide Writec, Valid, View, OnlyFile, Load, Vmap, Cost, PlaceOf;
    WritecSpec(s, fd, bs[0]);
    WritecMaps(s, fd, bs[0]);
    NextPos(fd.pos);
    var (t, f, r) := Writec(s, fd, bs[0]);
    if r != RETURN_FAILURE && |bs| > 1 {
      BlocMonotone(fd.pos, fd.pos + 1);
      BlocMonotone(fd.pos + 1, fd.pos + |bs| - 1);
      PaidOnce(t, f);
      WriteInBloc(t, f, bs[1..]);
    }
  }

  lemma PaidOnce(s: Store, fd: Fd)
    requires FdOk(s, fd) && Vmap(s, fd.inum, BlocOf(fd.pos)) != 0
    ensures Cost(s, fd.inum, PlaceOf(BlocOf(fd.pos))) == 0 && Fits(s, fd.inum, fd.pos, s.free)
  {
    MappedInRange(s, fd.inum, BlocOf(fd.pos));
    BlocArith(fd.pos, fd.pos);
    CostOfMapped(s, fd.inum, PlaceOf(BlocOf(fd.pos)));
    FreeCount(s);
  }

  lemma {:induction false} WriteSplit(s: Store, fd: Fd, a: seq<byte>, b: seq<byte>)
    ensures var (t, f, ok) := WriteLoop(s, fd, a);
      WriteLoop(s, fd, a + b) == if ok then WriteLoop(t, f, b) else (t, f, false)
    decreases |a|
  {
    hide Writec;
    if a == [] {
      assert a + b == b;
    } else {
      assert (a + b)[0] == a[0] && (a + b)[1..] == a[1..] + b;
      var (t, f, r) := Writec(s, fd, a[0]);
      if r != RETURN_FAILURE { WriteSplit(t, f, a[1..], b); }
    }
  }

  lemma SameCost(s: Store, t: Store, i: nat, p: Place)
    requires SamePtrs(s, t)
    ensures Cost(t, i, p) == Cost(s, i, p)
  {
  }

  /** At most a block long, starting in an allocated block unless it lies in
      one: the bytes are written exactly when there is room for the last. */
  lemma WriteRoom(s: Store, fd: Fd, bs: seq<byte>)
    requires FdOk(s, fd) && 0 < |bs| <= BLOC_SIZE
    requires BlocOf(fd.pos + |bs| - 1) == BlocOf(fd.pos) || Vmap(s, fd.inum, BlocOf(fd.pos)) != 0
    ensures var (t, _, ok) := WriteLoop(s, fd, bs); var last := fd.pos + |bs| - 1;
      && (ok <==> Fits(s, fd.inum, last, s.free))
      && (ok ==> t.free == s.free - Cost(s, fd.inum, PlaceOf(BlocOf(last))))
  {
    hide WriteLoop, Valid, View, OnlyFile, Load, Vmap, Cost, PlaceOf, SamePtrs, BlocOf, IblocOf, FdOk;
    var p, last := fd.pos, fd.pos + |bs| - 1;
    if BlocOf(last) == BlocOf(p) {
      WriteInBloc(s, fd, bs);
      SameReach(p, last);
    } else {
      var m := BLOC_SIZE - IblocOf(p);
      CutAtBloc(p, last);
      MappedWriteOk(s, fd, bs[..m]);
      var (t, f, _) := WriteLoop(s, fd, bs[..m]);
      assert bs == bs[..m] + bs[m..];
      WriteSplit(s, fd, bs[..m], bs[m..]);
      WriteInBloc(t, f, bs[m..]);
      SameCost(s, t, fd.inum, PlaceOf(BlocOf(last)));
      SameReach(p + m, last);
    }
  }

  lemma SameReach(p: nat, q: nat)
    requires BlocOf(p) == BlocOf(q)
    ensures p < MAX_BYTES <==> q < MAX_BYTES
  {
    BlocArith(p, q);
    BlocArith(q, p);
  }

  lemma CutAtBloc(p: nat, last: nat)
    requires p <= last < p + BLOC_SIZE && BlocOf(last) != BlocOf(p)
    ensures var m := BLOC_SIZE - IblocOf(p);
      && p + m <= last && BlocOf(p + m) == BlocOf(last) && IblocOf(p + m) == 0
      && forall q: nat :: p <= q < p + m ==> BlocOf(q) == BlocOf(p)
  {
  }
}
