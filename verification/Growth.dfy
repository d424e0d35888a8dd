/** How many blocks a sequentially written file takes (src/inode.c,
    src/ifile.c, src/superbloc.c). */
module Growth {
  import opened Disk
  import opened Inode
  import opened Ownership
  import opened Allocation
  import opened BlockOps
  import opened Ifile

  /** The number of file blocks that hold n bytes. */
  function BlocsFor(n: nat): nat {
    (n + BLOC_SIZE - 1) / BLOC_SIZE
  }

  /** Data blocks and index tables of a file of k blocks. */
  function Need(k: nat): nat {
    k + (if k > NB_DIRECTS then 1 else 0)
    + (if k > NB_DIRECTS + NB_PTRS then 1 + (k - NB_DIRECTS - NB_PTRS + NB_PTRS - 1) / NB_PTRS else 0)
  }

  function SubTable(s: Store, i: nat, m: nat): nat {
    Ptr(s, Ptr(s, i, NB_DIRECTS + 1), m)
  }

  /** The first k file blocks are mapped, with the tables they need, and
      nothing else. */
  ghost predicate Shape(s: Store, i: nat, k: nat) {
    && (forall fb: nat :: fb < NB_FBLOCS ==> (Vmap(s, i, fb) != 0 <==> fb < k))
    && (Ptr(s, i, NB_DIRECTS) != 0 <==> k > NB_DIRECTS)
    && (Ptr(s, i, NB_DIRECTS + 1) != 0 <==> k > NB_DIRECTS + NB_PTRS)
    && (forall m: nat :: m < NB_PTRS ==> (SubTable(s, i, m) != 0 <==> k > NB_DIRECTS + NB_PTRS + m * NB_PTRS))
  }

  // ----- which tables an allocation adds -----

  /** One slot filled, seen from any slot. */
  lemma StepPtr(s: Store, l: Layout, h: nat, k: nat, g: nat, j: nat)
    requires Inv(s, l) && 0 < h < |s.blocks| && k < SlotCount(l.roles[h])
    ensures var (t, v) := Ensure(s, h, k, ZeroFor(Child(l.roles[h], h, k)));
      v != 0 ==> Ptr(t, g, j) == if g == h && j == k then v
                                 else if Ptr(s, h, k) == 0 && g == v then 0 else Ptr(s, g, j)
  {
    if Ptr(s, h, k) == 0 && s.first != 0 { PtrEffect(s, l, h, k, g, j); }
  }

  ghost predicate TablesSpec(s: Store, t: Store, i: nat, p: Place) {
    && (Ptr(t, i, NB_DIRECTS) != 0 <==> Ptr(s, i, NB_DIRECTS) != 0 || p.Single?)
    && (Ptr(t, i, NB_DIRECTS + 1) != 0 <==> Ptr(s, i, NB_DIRECTS + 1) != 0 || p.Double?)
    && (forall m: nat :: m < NB_PTRS ==>
          (SubTable(t, i, m) != 0 <==> SubTable(s, i, m) != 0 || (p.Double? && p.k == m)))
  }

  ghost predicate TablesStep(s: Store, h: nat, k: nat, t: Store, v: nat, i: nat) {
    && Ptr(t, i, NB_DIRECTS) == (if h == i && k == NB_DIRECTS then v else Ptr(s, i, NB_DIRECTS))
    && Ptr(t, i, NB_DIRECTS + 1) == (if h == i && k == NB_DIRECTS + 1 then v else Ptr(s, i, NB_DIRECTS + 1))
    && (forall m: nat :: m < NB_PTRS ==>
          SubTable(t, i, m) == if h == Ptr(s, i, NB_DIRECTS + 1) && k == m then v else SubTable(s, i, m))
  }

  lemma StepTables(s: Store, l: Layout, h: nat, k: nat, i: nat)
    requires Inv(s, l) && IsIno(s, i) && 0 < h < |s.blocks| && k < SlotCount(l.roles[h])
    ensures var (t, v) := Ensure(s, h, k, ZeroFor(Child(l.roles[h], h, k)));
      v != 0 ==> TablesStep(s, h, k, t, v, i)
  {
    assert RoleOk(s, l, i) && SlotOk(s, l, i, NB_DIRECTS + 1);
    var (t, v) := Ensure(s, h, k, ZeroFor(Child(l.roles[h], h, k)));
    if |l.stack| > 0 { assert StackOk(s, l, |l.stack| - 1); }
    StepPtr(s, l, h, k, i, NB_DIRECTS);
    StepPtr(s, l, h, k, i, NB_DIRECTS + 1);
    if v != 0 {
      forall m: nat | m < NB_PTRS
        ensures SubTable(t, i, m) == if h == Ptr(s, i, NB_DIRECTS + 1) && k == m then v else SubTable(s, i, m)
      {
        StepPtr(s, l, h, k, Ptr(s, i, NB_DIRECTS + 1), m);
        StepPtr(s, l, h, k, v, m);
      }
    }
  }

  lemma TablesDirect(s: Store, l: Layout, i: nat, p: Place)
    requires Inv(s, l) && IsIno(s, i) && InRange(p) && p.Direct? && EnsureAt(s, i, p).1 != 0
    ensures TablesSpec(s, EnsureAt(s, i, p).0, i, p)
  {
    assert RoleOk(s, l, i) && SlotOk(s, l, i, NB_DIRECTS + 1);
    assert ZeroFor(Child(l.roles[i], i, p.k)) == ZERO_DATA;
    StepTables(s, l, i, p.k, i);
  }

  lemma TablesSingle(s: Store, l: Layout, i: nat, p: Place)
    requires Inv(s, l) && IsIno(s, i) && InRange(p) && p.Single? && EnsureAt(s, i, p).1 != 0
    ensures TablesSpec(s, EnsureAt(s, i, p).0, i, p)
  {
    assert RoleOk(s, l, i) && SlotOk(s, l, i, NB_DIRECTS + 1);
    StepTables(s, l, i, NB_DIRECTS, i);
    var m := TableStep(s, l, i, NB_DIRECTS);
    var (t, a) := Ensure(s, i, NB_DIRECTS, ZERO_TABLE);
    assert IsIno(t, i);
    assert RoleOk(t, m, i) && SlotOk(t, m, i, NB_DIRECTS + 1);
    StepTables(t, m, a, p.k, i);
  }

  /** Slot p.k of the double table a, then slot p.j of table b. */
  lemma TwoSteps(s: Store, u: Store, t: Store, i: nat, p: Place, a: nat, b: nat, v: nat)
    requires p.Double? && a == Ptr(s, i, NB_DIRECTS + 1) != 0 && b != 0 && i != a && i != b && a != b
    requires TablesStep(s, a, p.k, u, b, i) && TablesStep(u, b, p.j, t, v, i)
    ensures TablesSpec(s, t, i, p)
  {}

  /** When the double table is there. */
  lemma TablesUnder(s: Store, l: Layout, i: nat, p: Place)
    requires Inv(s, l) && IsIno(s, i) && InRange(p) && p.Double? && EnsureAt(s, i, p).1 != 0
    requires Ptr(s, i, NB_DIRECTS + 1) != 0
    ensures TablesSpec(s, EnsureAt(s, i, p).0, i, p)
  {
    hide TablesStep, TablesSpec;
    assert RoleOk(s, l, i) && SlotOk(s, l, i, NB_DIRECTS + 1);
    var a := Ptr(s, i, NB_DIRECTS + 1);
    StepTables(s, l, a, p.k, i);
    var n := TableStep(s, l, a, p.k);
    var (u, b) := Ensure(s, a, p.k, ZERO_TABLE);
    assert IsIno(u, i) && RoleOk(u, n, i);
    StepTables(u, n, b, p.j, i);
    TwoSteps(s, u, EnsureAt(s, i, p).0, i, p, a, b, EnsureAt(s, i, p).1);
  }

  lemma TablesDouble(s: Store, l: Layout, i: nat, p: Place)
    requires Inv(s, l) && IsIno(s, i) && InRange(p) && p.Double? && EnsureAt(s, i, p).1 != 0
    ensures TablesSpec(s, EnsureAt(s, i, p).0, i, p)
  {
    assert RoleOk(s, l, i) && SlotOk(s, l, i, NB_DIRECTS + 1);
    StepTables(s, l, i, NB_DIRECTS + 1, i);
    var m := TableStep(s, l, i, NB_DIRECTS + 1);
    var t := Ensure(s, i, NB_DIRECTS + 1, ZERO_TABLE).0;
    assert IsIno(t, i) && EnsureAt(t, i, p) == EnsureAt(s, i, p);
    TablesUnder(t, m, i, p);
  }

  lemma TablesOfEnsure(s: Store, i: nat, p: Place)
    requires Valid(s) && IsIno(s, i) && InRange(p) && EnsureAt(s, i, p).1 != 0
    ensures TablesSpec(s, EnsureAt(s, i, p).0, i, p)
  {
    var l :| Inv(s, l);
    match p {
      case Direct(_) => TablesDirect(s, l, i, p);
      case Single(_) => TablesSingle(s, l, i, p);
      case Double(_, _) => TablesDouble(s, l, i, p);
    }
  }

  // ----- sequential growth -----

  lemma NeedStep(k: nat)
    requires k < NB_FBLOCS
    ensures Need(k + 1) - Need(k) ==
      match PlaceOf(k)
      case Direct(_) => 1
      case Single(j) => if j == 0 then 2 else 1
      case Double(m, j) => 1 + (if m == 0 && j == 0 then 1 else 0) + (if j == 0 then 1 else 0)
      case Beyond => 0
  {
  }

  lemma {:induction false} NeedMonotone(k: nat, m: nat)
    requires k <= m
    ensures Need(k) <= Need(m)
    decreases m
  {
    if k < m {
      NeedMonotone(k, m - 1);
      var q := m - NB_DIRECTS - 1;
      assert (q - 1) / NB_PTRS <= q / NB_PTRS;
    }
  }

  /** The cost of the next block of a sequentially written file. */
  lemma CostOfNext(s: Store, i: nat, k: nat)
    requires Shape(s, i, k) && k < NB_FBLOCS
    ensures Cost(s, i, PlaceOf(k)) == Need(k + 1) - Need(k)
  {
    NeedStep(k);
    assert Vmap(s, i, k) == 0;
    var p := PlaceOf(k);
    if p.Double? {
      assert SubTable(s, i, p.k) != 0 <==> k > NB_DIRECTS + NB_PTRS + p.k * NB_PTRS;
      assert k == NB_DIRECTS + NB_PTRS + p.k * NB_PTRS + p.j;
    }
  }

  lemma NextSubTable(k: nat, m: nat)
    requires k < NB_FBLOCS
    ensures (k + 1 > NB_DIRECTS + NB_PTRS + m * NB_PTRS) <==>
            (k > NB_DIRECTS + NB_PTRS + m * NB_PTRS || (PlaceOf(k).Double? && PlaceOf(k) == Double(m, 0)))
    ensures PlaceOf(k).Double? && PlaceOf(k).k == m ==> k + 1 > NB_DIRECTS + NB_PTRS + m * NB_PTRS
  {
  }

  lemma OtherPlace(s: Store, i: nat, k: nat, q: Place)
    requires Valid(s) && IsIno(s, i) && InRange(q) && q != PlaceOf(k)
    ensures At(Vbloc(s, i, k, true).0, i, q) == At(s, i, q)
  {
    AllocateSpec(s, i, k);
    assert Kept(s, Vbloc(s, i, k, true).0, i, q);
  }

  lemma ThisPlace(s: Store, i: nat, k: nat)
    requires Valid(s) && IsIno(s, i)
    ensures Vmap(Vbloc(s, i, k, true).0, i, k) == Vbloc(s, i, k, true).1
  {
    AllocateSpec(s, i, k);
  }

  lemma NextShape(s: Store, i: nat, k: nat)
    requires Valid(s) && IsIno(s, i) && Shape(s, i, k) && k < NB_FBLOCS && Vbloc(s, i, k, true).1 != 0
    ensures Shape(Vbloc(s, i, k, true).0, i, k + 1)
  {
    var t := Vbloc(s, i, k, true).0;
    TablesOfEnsure(s, i, PlaceOf(k));
    forall fb: nat | fb < NB_FBLOCS ensures Vmap(t, i, fb) != 0 <==> fb < k + 1 {
      assert Vmap(s, i, fb) != 0 <==> fb < k;
      if fb == k {
        ThisPlace(s, i, k);
      } else {
        if PlaceOf(fb) == PlaceOf(k) { PlaceInjective(fb, k); }
        OtherPlace(s, i, k, PlaceOf(fb));
      }
    }
    forall m: nat | m < NB_PTRS
      ensures SubTable(t, i, m) != 0 <==> k + 1 > NB_DIRECTS + NB_PTRS + m * NB_PTRS
    {
      NextSubTable(k, m);
      assert SubTable(s, i, m) != 0 <==> k > NB_DIRECTS + NB_PTRS + m * NB_PTRS;
    }
  }

  lemma SameShape(s: Store, t: Store, i: nat, k: nat)
    requires SamePtrs(s, t) && Shape(s, i, k)
    ensures Shape(t, i, k)
  {
    forall fb: nat | fb < NB_FBLOCS ensures Vmap(t, i, fb) != 0 <==> fb < k {
      assert Vmap(t, i, fb) == Vmap(s, i, fb);
    }
    forall m: nat | m < NB_PTRS ensures SubTable(t, i, m) != 0 <==> k > NB_DIRECTS + NB_PTRS + m * NB_PTRS {
      assert SubTable(t, i, m) == SubTable(s, i, m);
    }
  }

  /** What a successful write does to the pointers of the file. */
  lemma WritecPtrs(s: Store, fd: Fd, c: byte)
    requires FdOk(s, fd) && Writec(s, fd, c).2 != RETURN_FAILURE
    ensures SamePtrs(if fd.dirty then s else Vbloc(s, fd.inum, BlocOf(fd.pos), true).0, Writec(s, fd, c).0)
  {
    var (t, v) := if fd.dirty then (s, 1) else Vbloc(s, fd.inum, BlocOf(fd.pos), true);
    if !fd.dirty { EnsureView(s, fd); }
    if IblocOf(fd.pos) == BLOC_SIZE - 1 {
      WriteBackSpec(t, fd.inum, BlocOf(fd.pos), fd.buf[IblocOf(fd.pos) := c]);
    }
  }

  lemma NextBloc(s: Store, fd: Fd, c: byte)
    requires FdOk(s, fd) && fd.pos < MAX_BYTES && Shape(s, fd.inum, BlocOf(fd.pos))
    requires Writec(s, fd, c).2 != RETURN_FAILURE
    ensures Shape(Writec(s, fd, c).0, fd.inum, BlocOf(fd.pos) + 1)
  {
    var i, fb := fd.inum, BlocOf(fd.pos);
    BlocArith(fd.pos, fd.pos);
    assert Vmap(s, i, fb) == 0;
    NextShape(s, i, fb);
    WritecPtrs(s, fd, c);
    SameShape(Vbloc(s, i, fb, true).0, Writec(s, fd, c).0, i, fb + 1);
  }

  lemma SameBloc(s: Store, fd: Fd, c: byte)
    requires FdOk(s, fd) && fd.pos < MAX_BYTES && Shape(s, fd.inum, BlocOf(fd.pos) + 1)
    requires Writec(s, fd, c).2 != RETURN_FAILURE
    ensures Shape(Writec(s, fd, c).0, fd.inum, BlocOf(fd.pos) + 1)
  {
    var i, fb := fd.inum, BlocOf(fd.pos);
    BlocArith(fd.pos, fd.pos);
    assert Vmap(s, i, fb) != 0;
    AllocateSpec(s, i, fb);
    WritecPtrs(s, fd, c);
    SameShape(s, Writec(s, fd, c).0, i, fb + 1);
  }

  lemma BlocsForNext(p: nat)
    ensures BlocsFor(p) == BlocOf(p) || BlocsFor(p) == BlocOf(p) + 1
    ensures BlocsFor(p + 1) == BlocOf(p) + 1
  {
  }

  /** One more byte: a new block is needed only at the start of a block. */
  lemma NextByte(s: Store, fd: Fd, c: byte)
    requires FdOk(s, fd) && Shape(s, fd.inum, BlocsFor(fd.pos)) && fd.pos < MAX_BYTES
    ensures Cost(s, fd.inum, PlaceOf(BlocOf(fd.pos))) == Need(BlocsFor(fd.pos + 1)) - Need(BlocsFor(fd.pos))
    ensures Writec(s, fd, c).2 != RETURN_FAILURE ==> Shape(Writec(s, fd, c).0, fd.inum, BlocsFor(fd.pos + 1))
  {
    var i, fb := fd.inum, BlocOf(fd.pos);
    BlocArith(fd.pos, fd.pos);
    BlocsForNext(fd.pos);
    if BlocsFor(fd.pos) == fb {
      CostOfNext(s, i, fb);
      if Writec(s, fd, c).2 != RETURN_FAILURE { NextBloc(s, fd, c); }
    } else {
      assert Vmap(s, i, fb) != 0;
      CostOfMapped(s, i, PlaceOf(fb));
      if Writec(s, fd, c).2 != RETURN_FAILURE { SameBloc(s, fd, c); }
    }
  }

  lemma BlocsForMonotone(p: nat, q: nat)
    requires p <= q
    ensures BlocsFor(p) <= BlocsFor(q)
  {
  }

  function NeedBytes(n: nat): nat {
    Need(BlocsFor(n))
  }

  ghost predicate Growing(s: Store, fd: Fd) {
    FdOk(s, fd) && fd.pos <= MAX_BYTES && Shape(s, fd.inum, BlocsFor(fd.pos))
  }

  lemma WritecNeed(s: Store, fd: Fd, c: byte)
    requires Growing(s, fd)
    ensures var (t, f, r) := Writec(s, fd, c); var more := NeedBytes(fd.pos + 1) - NeedBytes(fd.pos);
      && (r == RETURN_FAILURE <==> fd.pos == MAX_BYTES || more > s.free)
      && (r != RETURN_FAILURE ==> Growing(t, f) && f.inum == fd.inum && f.pos == fd.pos + 1 && t.free == s.free - more)
  {
    hide Need, BlocsFor, Shape, Writec, Valid, OnlyFile, Cost, Vmap, Load, View, PlaceOf, BlocOf;
    WritecSpec(s, fd, c);
    BlocArith(fd.pos, fd.pos);
    if fd.pos < MAX_BYTES { NextByte(s, fd, c); }
  }

  lemma NeedBytesMonotone(p: nat, q: nat)
    requires p <= q
    ensures NeedBytes(p) <= NeedBytes(q)
  {
    BlocsForMonotone(p, q);
    NeedMonotone(BlocsFor(p), BlocsFor(q));
  }

  /** Writing on from a file of p bytes succeeds exactly when the file does not
      become too large and the blocks it lacks are free; it takes exactly those. */
  lemma {:induction false} WriteLoopNeed(s: Store, fd: Fd, bs: seq<byte>)
    requires Growing(s, fd) && bs != []
    ensures var (t, f, ok) := WriteLoop(s, fd, bs); var more := NeedBytes(fd.pos + |bs|) - NeedBytes(fd.pos);
      && (ok <==> fd.pos + |bs| <= MAX_BYTES && more <= s.free)
      && (ok ==> t.free == s.free - more)
    decreases |bs|
  {
    hide Need, BlocsFor, Shape, Writec, FdOk;
    var (t, f, r) := Writec(s, fd, bs[0]);
    WritecNeed(s, fd, bs[0]);
    NeedBytesMonotone(fd.pos + 1, fd.pos + |bs|);
    if r != RETURN_FAILURE && |bs| > 1 {
      WriteLoopNeed(t, f, bs[1..]);
    }
  }

  /** Writing n bytes to a new file takes k = ceil(n / 512) data blocks, plus a
      table if k > 124, plus 1 + ceil((k - 252) / 128) tables if k > 252, and
      succeeds exactly when these are free and k <= 16636. */
  lemma FreshFileCost(s: Store, kind: Kind, bs: seq<byte>)
    requires Valid(s) && s.free > 0 && bs != []
    ensures var (t, i) := CreateInode(s, kind); var (u, f, ok) := WriteLoop(t, Open(t, i), bs);
      var k := (|bs| + 511) / 512;
      var need := k + (if k > 124 then 1 else 0) + (if k > 252 then 1 + (k - 252 + 127) / 128 else 0);
      && (ok <==> k <= 124 + 128 + 128 * 128 && need <= t.free)
      && (ok ==> u.free == t.free - need)
  {
    CreateSpec(s, kind);
    var (t, i) := CreateInode(s, kind);
    OpenSpec(t, i);
    forall fb: nat | fb < NB_FBLOCS ensures Vmap(t, i, fb) == 0 {}
    assert Ptr(t, i, NB_DIRECTS) == 0 && Ptr(t, i, NB_DIRECTS + 1) == 0;
    assert Shape(t, i, 0);
    WriteLoopNeed(t, Open(t, i), bs);
  }
}
