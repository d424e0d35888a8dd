/** Lines of the source taken literally where the other modules follow their
    stated contract: an input on which each one fails, and exactly when it
    meets the contract. */
module AsWritten {
  import opened Disk
  import opened Superbloc
  import opened Inode
  import opened Ownership
  import opened Partition
  import opened BlockOps
  import opened Ifile
  import opened Copy
  import Paths
  import opened Semaphores

  // ----- free_bloc: the link goes into the old head -----

  function WithNext(x: Block, next: nat): Block {
    if x.FreeLink? then FreeLink(next) else x
  }

  function FreeBlocAsWritten(s: Store, b: nat): Store {
    if b == 0 then s
    else Save(Put(s, s.first, WithNext(Get(s, b), s.first)).(first := b, free := s.free + 1))
  }

  lemma ValidHead(s: Store)
    requires Valid(s)
    ensures s.first != 0 ==> s.first < |s.blocks| && Get(s, s.first).FreeLink?
  {
    var l: Layout :| Ownership.Inv(s, l);
    if s.first != 0 { assert StackOk(s, l, |l.stack| - 1); }
  }

  /** Freeing a block in use always breaks the chain: the block becomes the
      head without being a link. Only the refusal of block 0 is right. */
  lemma FreeBlocOnlyRefuses(s: Store, b: nat)
    requires Valid(s) && !Get(s, b).FreeLink?
    ensures Valid(FreeBlocAsWritten(s, b)) <==> b == 0
  {
    var t := FreeBlocAsWritten(s, b);
    if b != 0 {
      ValidHead(s);
      assert t.first == b && !Get(t, b).FreeLink?;
      if Valid(t) { ValidHead(t); }
    }
  }

  /** Freeing the root directory of a volume of three blocks. */
  lemma FreeBlocExample()
    ensures Valid(InitSuper(3)) && !Valid(FreeBlocAsWritten(InitSuper(3), 1))
  {
    InitSuperSpec(3);
    FreeBlocOnlyRefuses(InitSuper(3), 1);
  }

  // ----- new_bloc in vbloc_of_fbloc: no test for a full disk -----

  function EnsureAsWritten(s: Store, h: nat, k: nat, z: Block): (Store, nat) {
    if Ptr(s, h, k) != 0 then (s, Ptr(s, h, k))
    else
      var (t, a) := NewBloc(s);
      var u := Put(t, a, z);
      (Put(u, h, SetPtr(Get(u, h), k, a)), a)
  }

  lemma ValidSuper(s: Store)
    requires Valid(s)
    ensures |s.blocks| > 0 && Get(s, 0).Super?
  {
    var l: Layout :| Ownership.Inv(s, l);
  }

  /** vbloc_of_fbloc with allocation, each level without a test. */
  function VblocAsWritten(s: Store, i: nat, p: Place): (Store, nat) {
    match p
    case Direct(k) => EnsureAsWritten(s, i, k, ZERO_DATA)
    case Single(k) =>
      var (t, a) := EnsureAsWritten(s, i, NB_DIRECTS, ZERO_TABLE);
      EnsureAsWritten(t, a, k, ZERO_DATA)
    case Double(k, j) =>
      var (t, a) := EnsureAsWritten(s, i, NB_DIRECTS + 1, ZERO_TABLE);
      var (u, b) := EnsureAsWritten(t, a, k, ZERO_TABLE);
      EnsureAsWritten(u, b, j, ZERO_DATA)
    case Beyond => (s, 0)
  }

  /** The disk is full and its super block is gone. */
  predicate Spoiled(s: Store) {
    |s.blocks| > 0 && s.first == 0 && !Get(s, 0).Super?
  }

  lemma SlotNeedsRoom(s: Store, h: nat, k: nat, z: Block)
    requires |s.blocks| > 0 && !z.Super?
    ensures Ensure(s, h, k, z).1 != 0 ==> EnsureAsWritten(s, h, k, z) == Ensure(s, h, k, z)
    ensures Ensure(s, h, k, z).1 == 0 || Spoiled(s) ==> Spoiled(EnsureAsWritten(s, h, k, z).0)
  {
  }

  lemma LevelsNeedRoom(s: Store, i: nat, p: Place)
    requires |s.blocks| > 0 && !p.Beyond?
    ensures if EnsureAt(s, i, p).1 != 0 then VblocAsWritten(s, i, p) == EnsureAt(s, i, p)
            else Spoiled(VblocAsWritten(s, i, p).0)
  {
    hide Ensure, EnsureAsWritten, Spoiled;
    match p {
      case Direct(k) => SlotNeedsRoom(s, i, k, ZERO_DATA);
      case Single(k) =>
        SlotNeedsRoom(s, i, NB_DIRECTS, ZERO_TABLE);
        var (t, a) := EnsureAsWritten(s, i, NB_DIRECTS, ZERO_TABLE);
        KeepsLength(s, i, NB_DIRECTS, ZERO_TABLE);
        SlotNeedsRoom(t, a, k, ZERO_DATA);
      case Double(k, j) =>
        SlotNeedsRoom(s, i, NB_DIRECTS + 1, ZERO_TABLE);
        var (t, a) := EnsureAsWritten(s, i, NB_DIRECTS + 1, ZERO_TABLE);
        KeepsLength(s, i, NB_DIRECTS + 1, ZERO_TABLE);
        SlotNeedsRoom(t, a, k, ZERO_TABLE);
        var (u, b) := EnsureAsWritten(t, a, k, ZERO_TABLE);
        KeepsLength(t, a, k, ZERO_TABLE);
        SlotNeedsRoom(u, b, j, ZERO_DATA);
    }
  }

  lemma KeepsLength(s: Store, h: nat, k: nat, z: Block)
    ensures |EnsureAsWritten(s, h, k, z).0.blocks| == |s.blocks|
  {
  }

  /** Mapping a file block at any of the three levels is right exactly when the
      blocks it lacks are free: without them block 0, the super block, is
      overwritten. */
  lemma EnsureNeedsRoom(s: Store, i: nat, fb: nat)
    requires Valid(s) && IsIno(s, i)
    ensures var p := PlaceOf(fb); var enough := fb >= NB_FBLOCS || Cost(s, i, p) <= s.free;
      && (Valid(VblocAsWritten(s, i, p).0) <==> enough)
      && (enough ==> VblocAsWritten(s, i, p) == EnsureAt(s, i, p))
  {
    hide VblocAsWritten, EnsureAt, Cost;
    ValidSuper(s);
    AllocateSpec(s, i, fb);
    if fb < NB_FBLOCS {
      LevelsNeedRoom(s, i, PlaceOf(fb));
      var t := VblocAsWritten(s, i, PlaceOf(fb)).0;
      if Spoiled(t) && Valid(t) { ValidSuper(t); }
    } else {
      assert VblocAsWritten(s, i, Beyond) == EnsureAt(s, i, Beyond) == (s, 0) by { BeyondIsNothing(s, i); }
    }
  }

  lemma BeyondIsNothing(s: Store, i: nat)
    ensures VblocAsWritten(s, i, Beyond) == EnsureAt(s, i, Beyond) == (s, 0)
  {
  }

  /** The first byte of the root of a volume of two blocks. */
  lemma EnsureExample()
    ensures Valid(InitSuper(2)) && !Valid(VblocAsWritten(InitSuper(2), 1, Direct(0)).0)
  {
    InitSuperSpec(2);
    EnsureNeedsRoom(InitSuper(2), 1, 0);
  }

  // ----- NB_BLOCS_BY_BLOC*NB_BLOCS_BY_BLOC without parentheses -----

  const HDA_SECTORSIZE: nat := 512
  const DOUBLE_AS_WRITTEN: nat := HDA_SECTORSIZE / 4 - 4 + 4 * (HDA_SECTORSIZE / 4) - 4 + 4

  function PlaceAsWritten(fb: nat): Place {
    if fb < NB_DIRECTS then Direct(fb)
    else if fb - NB_DIRECTS < NB_PTRS then Single(fb - NB_DIRECTS)
    else if fb - NB_DIRECTS - NB_PTRS < DOUBLE_AS_WRITTEN then
      var q := fb - NB_DIRECTS - NB_PTRS;
      Double(q / NB_PTRS, q % NB_PTRS)
    else Beyond
  }

  /** Files stop at block 888, where the double table holds 16384 blocks. */
  lemma DoubleTooSmall(fb: nat)
    ensures PlaceAsWritten(fb) == PlaceOf(fb) <==> fb < 888 || fb >= NB_FBLOCS
    ensures PlaceAsWritten(888) == Beyond && PlaceOf(888) == Double(4, 124)
  {
    assert DOUBLE_AS_WRITTEN == 636;
  }

  // ----- readc_ifile: a signed char -----

  function SignedChar(c: byte): int {
    if c < 128 then c else c - 256
  }

  /** What a loop on readc_ifile collects before it sees READ_EOF. */
  function UntilEof(f: Flat): seq<byte>
    decreases f.size - f.pos
  {
    if f.pos > f.size || f.pos >= |f.bytes| || SignedChar(f.bytes[f.pos]) == READ_EOF then []
    else [f.bytes[f.pos]] + UntilEof(f.(pos := f.pos + 1))
  }

  /** The loop reads the file to its end exactly when no byte is 0xFE. */
  lemma {:induction false} ReadsToTheEnd(f: Flat)
    requires f.pos <= f.size + 1 && f.size < |f.bytes|
    ensures UntilEof(f) == f.bytes[f.pos..f.size + 1] <==> 0xFE !in f.bytes[f.pos..f.size + 1]
    ensures UntilEof(f) <= f.bytes[f.pos..f.size + 1]
    decreases f.size + 1 - f.pos
  {
    if f.pos <= f.size {
      var bs := f.bytes[f.pos..f.size + 1];
      FirstOfSlice(f.bytes, f.pos, f.size + 1);
      ReadsToTheEnd(f.(pos := f.pos + 1));
    }
  }

  lemma ReadExample()
    ensures UntilEof(Flat([1, 0xFE, 2], 2, 0)) == [1]
  {
    assert UntilEof(Flat([1, 0xFE, 2], 2, 1)) == [];
  }

  // ----- writec_ifile: the buffer first -----

  function WritecAsWritten(s: Store, fd: Fd, c: byte): (Store, Fd, int) {
    var ib := IblocOf(fd.pos);
    var buf := if ib < |fd.buf| then fd.buf[ib := c] else fd.buf;
    var (t, v) := if fd.dirty then (s, 1) else Vbloc(s, fd.inum, BlocOf(fd.pos), true);
    if v == 0 then (t, fd.(buf := buf), RETURN_FAILURE) else Writec(s, fd, c)
  }

  /** A write that finds no room for its block fails, and leaves the file as it
      was exactly when the byte was already there. */
  lemma FailedWriteShows(s: Store, fd: Fd, c: byte)
    requires FdOk(s, fd) && fd.pos < MAX_BYTES && !fd.dirty && Cost(s, fd.inum, PlaceOf(BlocOf(fd.pos))) > s.free
    ensures var (t, f, r) := WritecAsWritten(s, fd, c);
      r == RETURN_FAILURE && (View(t, f) == View(s, fd) <==> View(s, fd)[fd.pos] == c)
  {
    EnsureView(s, fd);
    var (t, f, _) := WritecAsWritten(s, fd, c);
    assert View(t, fd) == View(s, fd);
    assert View(t, f)[fd.pos] == c;
    if View(s, fd)[fd.pos] == c {
      assert fd.buf[IblocOf(fd.pos) := c] == fd.buf;
    }
  }

  // ----- seek_ifile: the flush comes after the move -----

  function MoveAsWritten(s: Store, fd: Fd, pos: nat): (Store, Fd) {
    if BlocOf(pos) == BlocOf(fd.pos) then (s, fd.(pos := pos))
    else
      var (t, f) := Flush(s, fd.(pos := pos));
      (t, f.(buf := Load(t, fd.inum, BlocOf(pos))))
  }

  /** What a seek promises: the same bytes, another cursor. */
  ghost predicate OnlyMoves(s: Store, fd: Fd, pos: nat, t: Store, f: Fd)
    requires |fd.buf| == BLOC_SIZE
  {
    FdOk(t, f) && Abs(t, f) == Abs(s, fd).(pos := pos)
  }

  predicate CanHold(s: Store, i: nat, pos: nat) {
    pos < MAX_BYTES && Cost(s, i, PlaceOf(BlocOf(pos))) <= s.free
  }

  /** The disk before the buffer is written at its new place. */
  lemma AllocatedLoads(s: Store, i: nat, pos: nat)
    requires Valid(s) && IsIno(s, i) && pos < WORD
    ensures var (t, v) := Vbloc(s, i, BlocOf(pos), true);
      && Valid(t) && IsIno(t, i) && (v != 0 <==> CanHold(s, i, pos))
      && (v != 0 ==> v == Vmap(t, i, BlocOf(pos)))
      && forall p: nat :: p < MAX_BYTES ==> Load(t, i, BlocOf(p))[IblocOf(p)] == Load(s, i, BlocOf(p))[IblocOf(p)]
  {
    hide PlaceOf, BlocOf, IblocOf, At, End, Cost;
    var fd := Fd(i, 0, pos, Load(s, i, BlocOf(pos)), false);
    EnsureView(s, fd);
    AllocateSpec(s, i, BlocOf(pos));
    var t := Vbloc(s, i, BlocOf(pos), true).0;
    forall p: nat | p < MAX_BYTES
      ensures Load(t, i, BlocOf(p))[IblocOf(p)] == Load(s, i, BlocOf(p))[IblocOf(p)]
    {
      assert View(t, fd)[p] == View(s, fd)[p];
    }
  }

  /** The bytes seen once the buffer is in the block of pos. */
  ghost predicate Misplaced(s: Store, fd: Fd, pos: nat, t: Store, f: Fd)
    requires |f.buf| == |fd.buf| == BLOC_SIZE
  {
    forall p: nat :: p < MAX_BYTES ==>
      (View(t, f)[p] ==
         if BlocOf(p) == BlocOf(pos) then fd.buf[IblocOf(p)] else Load(s, fd.inum, BlocOf(p))[IblocOf(p)])
  }

  /** The buffer lands in the block the cursor moves to. */
  lemma LateFlush(s: Store, fd: Fd, pos: nat)
    requires FdOk(s, fd) && fd.dirty && BlocOf(pos) != BlocOf(fd.pos) && pos < WORD && CanHold(s, fd.inum, pos)
    ensures var (t, f) := MoveAsWritten(s, fd, pos);
      FdOk(t, f) && f.pos == pos && f.size == fd.size && Misplaced(s, fd, pos, t, f)
  {
    hide PlaceOf, BlocOf, IblocOf, At, End, Cost, Valid;
    AllocatedLoads(s, fd.inum, pos);
    var t := Vbloc(s, fd.inum, BlocOf(pos), true).0;
    WriteBackSpec(t, fd.inum, BlocOf(pos), fd.buf);
  }

  /** Without room for that block, the buffer lands on the super block. */
  lemma FlushOnSuper(s: Store, fd: Fd, pos: nat)
    requires FdOk(s, fd) && fd.dirty && BlocOf(pos) != BlocOf(fd.pos) && pos < WORD && !CanHold(s, fd.inum, pos)
    ensures !Valid(MoveAsWritten(s, fd, pos).0)
  {
    hide PlaceOf, BlocOf, IblocOf, At, End, Cost;
    AllocatedLoads(s, fd.inum, pos);
    var (t, f) := MoveAsWritten(s, fd, pos);
    ValidSuper(Vbloc(s, fd.inum, BlocOf(pos), true).0);
    assert Get(t, 0) == Data(fd.buf);
    if Valid(t) { ValidSuper(t); }
  }

  /** The bytes of one block decide, when they all are in range. */
  lemma BlocBytes(fb: nat, one: seq<byte>, other: seq<byte>)
    requires |one| == |other| == BLOC_SIZE && fb < NB_FBLOCS
    requires forall p: nat :: p < MAX_BYTES && BlocOf(p) == fb ==> one[IblocOf(p)] == other[IblocOf(p)]
    ensures one == other
  {
    forall k: nat | k < BLOC_SIZE ensures one[k] == other[k] {
      assert BlocOf(fb * BLOC_SIZE + k) == fb && IblocOf(fb * BLOC_SIZE + k) == k;
    }
  }

  /** Seeking to another block with a dirty buffer is right only when nothing
      depends on where the buffer goes: it holds what both blocks already hold,
      and there is room for the second. */
  lemma SeekNeedsClean(s: Store, fd: Fd, pos: nat)
    requires FdOk(s, fd) && pos < WORD
    ensures OnlyMoves(s, fd, pos, MoveAsWritten(s, fd, pos).0, MoveAsWritten(s, fd, pos).1) <==>
      || !fd.dirty || BlocOf(pos) == BlocOf(fd.pos)
      || (CanHold(s, fd.inum, pos)
          && fd.buf == Load(s, fd.inum, BlocOf(fd.pos)) == Load(s, fd.inum, BlocOf(pos)))
  {
    hide PlaceOf, IblocOf, At, End, Cost, Valid;
    if !fd.dirty || BlocOf(pos) == BlocOf(fd.pos) {
      assert MoveAsWritten(s, fd, pos) == Move(s, fd, pos);
      MoveSpec(s, fd, pos);
    } else if !CanHold(s, fd.inum, pos) {
      FlushOnSuper(s, fd, pos);
    } else {
      LateFlush(s, fd, pos);
      BlocArith(fd.pos, pos);
      BlocArith(pos, pos);
      MappedInRange(s, fd.inum, BlocOf(fd.pos));
      LateViews(s, fd, pos);
    }
  }

  /** A byte just written, then a seek out of its block: the byte is lost. */
  lemma SeekLosesByte(s: Store, fd: Fd, c: byte, pos: nat)
    requires FdOk(s, fd) && !fd.dirty && IblocOf(fd.pos) < BLOC_SIZE - 1
    requires fd.buf[IblocOf(fd.pos)] != c && Writec(s, fd, c).2 != RETURN_FAILURE
    requires pos < WORD && BlocOf(pos) != BlocOf(fd.pos)
    ensures var (t, f, _) := Writec(s, fd, c);
      FdOk(t, f) && !OnlyMoves(t, f, pos, MoveAsWritten(t, f, pos).0, MoveAsWritten(t, f, pos).1)
  {
    hide PlaceOf, BlocOf, At, End, Cost, Valid, Load, View, OnlyMoves, MoveAsWritten, OnlyFile, FWritec, EnsureAt;
    EnsureView(s, fd);
    WritecSpec(s, fd, c);
    BlocArith(fd.pos, fd.pos);
    var (t, f, _) := Writec(s, fd, c);
    assert f.dirty && BlocOf(f.pos) == BlocOf(fd.pos);
    assert f.buf[IblocOf(fd.pos)] == c != fd.buf[IblocOf(fd.pos)];
    assert fd.buf == Load(t, fd.inum, BlocOf(fd.pos));
    SeekNeedsClean(t, f, pos);
  }

  /** On a volume of three blocks: byte 7 at the start of the root, which was
      empty, then a seek to its second block. */
  lemma SeekExample()
    ensures var s := InitSuper(3); var (t, f, r) := Writec(s, Open(s, 1), 7);
      var (u, g) := MoveAsWritten(t, f, BLOC_SIZE);
      r == 0 && FdOk(t, f) && !OnlyMoves(t, f, BLOC_SIZE, u, g)
  {
    hide InitSuper, Valid, Writec, OnlyMoves, MoveAsWritten;
    InitSuperSpec(3);
    var s := InitSuper(3);
    OpenSpec(s, 1);
    assert PlaceOf(0) == Direct(0) && Cost(s, 1, Direct(0)) == 1 && Load(s, 1, 0) == ZeroBytes();
    WritecSpec(s, Open(s, 1), 7);
    SeekLosesByte(s, Open(s, 1), 7, BLOC_SIZE);
  }

  lemma LateViews(s: Store, fd: Fd, pos: nat)
    requires FdOk(s, fd) && fd.dirty && BlocOf(pos) != BlocOf(fd.pos) && pos < MAX_BYTES
    requires BlocOf(fd.pos) < NB_FBLOCS && BlocOf(pos) < NB_FBLOCS
    requires var (t, f) := MoveAsWritten(s, fd, pos); |f.buf| == BLOC_SIZE && Misplaced(s, fd, pos, t, f)
    ensures var (t, f) := MoveAsWritten(s, fd, pos);
      View(t, f) == View(s, fd) <==> fd.buf == Load(s, fd.inum, BlocOf(fd.pos)) == Load(s, fd.inum, BlocOf(pos))
  {
    hide PlaceOf, BlocOf, IblocOf, At, End, Valid, Load;
    var (t, f) := MoveAsWritten(s, fd, pos);
    var mine, theirs := Load(s, fd.inum, BlocOf(fd.pos)), Load(s, fd.inum, BlocOf(pos));
    if View(t, f) == View(s, fd) {
      forall p: nat | p < MAX_BYTES && BlocOf(p) == BlocOf(fd.pos) ensures fd.buf[IblocOf(p)] == mine[IblocOf(p)] {
        assert View(t, f)[p] == View(s, fd)[p];
      }
      BlocBytes(BlocOf(fd.pos), fd.buf, mine);
      forall p: nat | p < MAX_BYTES && BlocOf(p) == BlocOf(pos) ensures fd.buf[IblocOf(p)] == theirs[IblocOf(p)] {
        assert View(t, f)[p] == View(s, fd)[p];
      }
      BlocBytes(BlocOf(pos), fd.buf, theirs);
    }
    if fd.buf == mine == theirs {
      assert forall p: nat :: p < MAX_BYTES ==> View(t, f)[p] == View(s, fd)[p];
    }
  }

  // ----- sem_up: the counter rises and a waiter goes -----

  function UpAsWritten<C(==)>(p: Pool<C>, s: nat): Pool<C>
    requires s < |p.sems|
  {
    var m := p.sems[s];
    var up := m.compteur + 1;
    if m.blocked == [] then p.(sems := p.sems[s := m.(compteur := up)])
    else Pool(p.states[m.blocked[0] := Activable], p.sems[s := Sem(up, m.blocked[1..])])
  }

  /** With a waiter, one up lets two contexts through: the waiter and whoever
      goes down next. Handing the unit over lets only the waiter through. */
  lemma OneUnitTwoTakers<C>(p: Pool<C>, s: nat, c: C)
    requires Semaphores.Inv(p) && s < |p.sems| && Runnable(p, c)
    ensures UpAsWritten(p, s) == Up(p, s) <==> p.sems[s].blocked == []
    ensures var b := p.sems[s].blocked;
      b != [] ==>
        && Runnable(Down(UpAsWritten(p, s), c, s), c) && Runnable(Down(UpAsWritten(p, s), c, s), b[0])
        && !Runnable(Down(Up(p, s), c, s), c) && Runnable(Down(Up(p, s), c, s), b[0])
  {
    var b := p.sems[s].blocked;
    if b != [] {
      assert b[0] in p.states && p.states[b[0]] == Blocked && b[0] != c;
      assert UpAsWritten(p, s).sems[s].compteur != Up(p, s).sems[s].compteur;
    }
  }

  /** Context 0 waits, context 1 gives one unit back: then both go through. */
  lemma UpExample()
    ensures var p := Pool(map[0 := Blocked, 1 := Ready], [Sem(0, [0])]);
      var q := Down(UpAsWritten(p, 0), 1, 0);
      Semaphores.Inv(p) && Runnable(q, 0) && Runnable(q, 1)
  {
    var p := Pool(map[0 := Blocked, 1 := Ready], [Sem(0, [0])]);
    forall c, s: nat ensures Waits(p, c, s) <==> c == 0 && s == 0 { }
    assert Waits(p, 0, 0);
    assert Semaphores.Inv(p) by {
      forall c <- p.states | p.states[c] == Blocked ensures exists s: nat :: Waits(p, c, s) { assert c == 0; }
    }
    OneUnitTwoTakers(p, 0, 1);
  }

  // ----- delete_file: only the entry goes -----

  /** What a deleted path led to is still an inode with its blocks and its
      bytes, a directory with its entries, though no path need lead to it. */
  lemma DeletedStays(s: Store, path: seq<byte>)
    requires Paths.TreeOk(s) && Paths.DeleteFile(s, path).1 != RETURN_FAILURE
    ensures var (t, _) := Paths.DeleteFile(s, path); var i := Paths.InumberOfPath(s, path);
      && Paths.InumberOfPath(t, path) == 0
      && IsIno(t, i) && Get(t, i) == Get(s, i) && OwnedSet(t, i) == OwnedSet(s, i) && Bytes(t, i) == Bytes(s, i)
  {
    hide FileKept, OwnedSet, Bytes, Paths.TreeOk, Paths.InumberOfPath, Paths.DeleteFile;
    var i := Paths.InumberOfPath(s, path);
    Paths.TreeIsValid(s);
    Paths.DeleteFileSpec(s, path);
    Paths.PathIsIno(s, path);
    Paths.ParentDiffers(s, path);
    var t := Paths.DeleteFile(s, path).0;
    assert FileKept(s, t, i);
    KeptAll(s, t, i);
    FileKeptBytes(s, t, i);
  }

  lemma KeptAll(s: Store, t: Store, i: nat)
    requires FileKept(s, t, i)
    ensures Get(t, i) == Get(s, i) && OwnedSet(t, i) == OwnedSet(s, i)
  {}
}
