/** Buffered file descriptors (src/ifile.c) and the flat files they refine. */
module Ifile {
  import opened Disk
  import opened Inode
  import opened Ownership
  import opened Allocation
  import opened Partition
  import opened BlockOps

  const WORD: nat := 0x1_0000_0000        // positions are unsigned 32-bit
  const MAX_BYTES: nat := 8517632         // NB_FBLOCS * BLOC_SIZE
  const READ_EOF: int := -2
  const RETURN_FAILURE: int := -1

  datatype Fd = Fd(inum: nat, size: nat, pos: nat, buf: seq<byte>, dirty: bool)

  function BlocOf(p: nat): nat { p / BLOC_SIZE }

  function IblocOf(p: nat): (r: nat)
    ensures r < BLOC_SIZE
  {
    p % BLOC_SIZE
  }

  function SizeOf(x: Block): nat {
    if x.Inode? then x.size else 0
  }

  /** The content of block v; block 0 stands for zeros. */
  function ReadBloc(s: Store, v: nat): (r: seq<byte>)
    ensures |r| == BLOC_SIZE
  {
    if v != 0 && IsData(Get(s, v)) then Get(s, v).bytes else ZeroBytes()
  }

  function Load(s: Store, i: nat, fb: nat): (r: seq<byte>)
    ensures |r| == BLOC_SIZE
  {
    ReadBloc(s, Vbloc(s, i, fb, false).1)
  }

  // ----- the operations -----

  function Open(s: Store, i: nat): Fd {
    Fd(i, SizeOf(Get(s, i)), 0, Load(s, i, 0), false)
  }

  function Flush(s: Store, fd: Fd): (Store, Fd) {
    if fd.dirty then
      var (t, v) := Vbloc(s, fd.inum, BlocOf(fd.pos), true);
      (Put(t, v, Data(fd.buf)), fd.(dirty := false))
    else (s, fd)
  }

  function Close(s: Store, fd: Fd): Store {
    SetSize(Flush(s, fd).0, fd.inum, fd.size)
  }

  function Move(s: Store, fd: Fd, pos: nat): (Store, Fd) {
    if BlocOf(pos) == BlocOf(fd.pos) then (s, fd.(pos := pos))
    else
      var (t, f) := Flush(s, fd);
      (t, f.(pos := pos, buf := Load(t, fd.inum, BlocOf(pos))))
  }

  function Seek(s: Store, fd: Fd, offset: int): (Store, Fd) {
    Move(s, fd, (fd.pos + offset) % WORD)
  }

  function Seek2(s: Store, fd: Fd, offset: int): (Store, Fd) {
    Seek(s, fd, offset - fd.pos)
  }

  function Readc(s: Store, fd: Fd): (Store, Fd, int) {
    if fd.pos > fd.size then (s, fd, READ_EOF)
    else
      var c := if IblocOf(fd.pos) < |fd.buf| then fd.buf[IblocOf(fd.pos)] else 0;
      var (t, f) := Seek(s, fd, 1);
      (t, f, c)
  }

  function Max(a: nat, b: nat): nat { if a < b then b else a }

  /** The buffer with byte c at the cursor, written back when it is full. */
  function Store1(s: Store, fd: Fd, c: byte): (Store, Fd) {
    var ib := IblocOf(fd.pos);
    var buf := if ib < |fd.buf| then fd.buf[ib := c] else fd.buf;
    var f := fd.(size := Max(fd.size, fd.pos), pos := (fd.pos + 1) % WORD);
    if ib == BLOC_SIZE - 1 then
      var t := Put(s, Vbloc(s, fd.inum, BlocOf(fd.pos), false).1, Data(buf));
      (t, f.(buf := Load(t, fd.inum, BlocOf(fd.pos + 1)), dirty := false))
    else (s, f.(buf := buf, dirty := true))
  }

  function Writec(s: Store, fd: Fd, c: byte): (Store, Fd, int) {
    var (t, v) := if fd.dirty then (s, 1) else Vbloc(s, fd.inum, BlocOf(fd.pos), true);
    if v == 0 then (t, fd, RETURN_FAILURE)
    else
      var (u, f) := Store1(t, fd, c);
      (u, f, fd.pos)
  }

  /** Up to n calls of readc_ifile, stopping at the end of file. */
  function ReadLoop(s: Store, fd: Fd, n: nat): (Store, Fd, seq<byte>)
    decreases n
  {
    if n == 0 then (s, fd, [])
    else
      var (t, f, c) := Readc(s, fd);
      if c < 0 || c >= 256 then (t, f, [])
      else
        var (u, g, rest) := ReadLoop(t, f, n - 1);
        (u, g, [c as byte] + rest)
  }

  function Read(s: Store, fd: Fd, n: nat): (Store, Fd, seq<byte>, int) {
    if fd.pos >= fd.size then (s, fd, [], READ_EOF)
    else var (t, f, bs) := ReadLoop(s, fd, n); (t, f, bs, |bs|)
  }

  /** writec_ifile over bs, stopping at the first failure. */
  function WriteLoop(s: Store, fd: Fd, bs: seq<byte>): (Store, Fd, bool)
    decreases |bs|
  {
    if bs == [] then (s, fd, true)
    else
      var (t, f, r) := Writec(s, fd, bs[0]);
      if r == RETURN_FAILURE then (t, f, false) else WriteLoop(t, f, bs[1..])
  }

  function Write(s: Store, fd: Fd, bs: seq<byte>): (Store, Fd, int) {
    var (t, f, ok) := WriteLoop(s, fd, bs);
    (t, f, if ok then |bs| else RETURN_FAILURE)
  }

  // ----- the flat file -----

  /** A file as an array of bytes, zeros where nothing was written, with the
      highest written index (0 for an empty file) and a cursor. */
  datatype Flat = Flat(bytes: seq<byte>, size: nat, pos: nat)

  function Bytes(s: Store, i: nat): (r: seq<byte>)
    ensures |r| == MAX_BYTES
  {
    seq(MAX_BYTES, (p: nat) => Load(s, i, BlocOf(p))[IblocOf(p)])
  }

  function View(s: Store, fd: Fd): (r: seq<byte>)
    requires |fd.buf| == BLOC_SIZE
    ensures |r| == MAX_BYTES
  {
    seq(MAX_BYTES, (p: nat) =>
      if BlocOf(p) == BlocOf(fd.pos) then fd.buf[IblocOf(p)] else Load(s, fd.inum, BlocOf(p))[IblocOf(p)])
  }

  function Abs(s: Store, fd: Fd): Flat
    requires |fd.buf| == BLOC_SIZE
  {
    Flat(View(s, fd), fd.size, fd.pos)
  }

  function FSeek(f: Flat, offset: int): Flat {
    f.(pos := (f.pos + offset) % WORD)
  }

  function FReadc(f: Flat): (Flat, int) {
    if f.pos > f.size then (f, READ_EOF)
    else (FSeek(f, 1), if f.pos < |f.bytes| then f.bytes[f.pos] else 0)
  }

  function FWritec(f: Flat, c: byte): Flat {
    Flat(if f.pos < |f.bytes| then f.bytes[f.pos := c] else f.bytes, Max(f.size, f.pos), (f.pos + 1) % WORD)
  }

  /** The buffer images the block of the cursor; it may differ from the disk
      only when dirty, and then the block is allocated. */
  ghost predicate FdOk(s: Store, fd: Fd) {
    && Valid(s) && IsIno(s, fd.inum) && |fd.buf| == BLOC_SIZE && fd.pos < WORD
    && (fd.dirty ==> Vmap(s, fd.inum, BlocOf(fd.pos)) != 0)
    && (!fd.dirty ==> fd.buf == Load(s, fd.inum, BlocOf(fd.pos)))
  }

  /** Only file i changed, and not its kind nor its size field. */
  ghost predicate OnlyFile(s: Store, t: Store, i: nat) {
    && Valid(t) && OthersKept(s, t, i) && Conserved(s, t, i)
    && IsIno(s, i) && IsIno(t, i) && Get(t, i).kind == Get(s, i).kind && Get(t, i).size == Get(s, i).size
  }

  lemma MappedInRange(s: Store, i: nat, fb: nat)
    requires Vmap(s, i, fb) != 0
    ensures fb < NB_FBLOCS
  {
  }

  lemma OnlyFileRefl(s: Store, i: nat)
    requires Valid(s) && IsIno(s, i)
    ensures OnlyFile(s, s, i)
  {
  }

  lemma OnlyFileTrans(s: Store, t: Store, u: Store, i: nat)
    requires IsIno(s, i) && OnlyFile(s, t, i) && OnlyFile(t, u, i)
    ensures OnlyFile(s, u, i)
  {
    OthersKeptTrans(s, t, u, i);
  }

  lemma KeptLoads(s: Store, t: Store, i: nat, fb: nat)
    requires fb < NB_FBLOCS ==> Kept(s, t, i, PlaceOf(fb))
    ensures Load(t, i, fb) == Load(s, i, fb)
  {
  }

  lemma FileKeptBytes(s: Store, t: Store, i: nat)
    requires FileKept(s, t, i)
    ensures Bytes(t, i) == Bytes(s, i)
  {
    forall p: nat | p < MAX_BYTES ensures Load(t, i, BlocOf(p)) == Load(s, i, BlocOf(p)) {
      assert Kept(s, t, i, PlaceOf(BlocOf(p)));
      KeptLoads(s, t, i, BlocOf(p));
    }
  }

  /** A change that keeps the file of a descriptor, dirty or not, keeps what
      the descriptor shows. */
  lemma FdKept(s: Store, t: Store, fd: Fd)
    requires FdOk(s, fd) && FileKept(s, t, fd.inum) && Valid(t)
    ensures FdOk(t, fd) && Abs(t, fd) == Abs(s, fd)
  {
    forall fb: nat ensures Load(t, fd.inum, fb) == Load(s, fd.inum, fb) && Vmap(t, fd.inum, fb) == Vmap(s, fd.inum, fb) {
      if fb < NB_FBLOCS { assert Kept(s, t, fd.inum, PlaceOf(fb)); }
    }
    assert View(t, fd) == View(s, fd);
  }

  lemma OpenSpec(s: Store, i: nat)
    requires Valid(s) && IsIno(s, i)
    ensures FdOk(s, Open(s, i)) && Abs(s, Open(s, i)) == Flat(Bytes(s, i), Get(s, i).size, 0)
  {
  }

  lemma CostOfMapped(s: Store, i: nat, p: Place)
    requires At(s, i, p) != 0
    ensures Cost(s, i, p) == 0
  {
  }

  /** What the blocks of file i hold, apart from block fb. */
  lemma OtherLoads(s: Store, t: Store, i: nat, fb: nat)
    requires forall q: Place {:trigger Kept(s, t, i, q)} :: InRange(q) && q != PlaceOf(fb) ==> Kept(s, t, i, q)
    requires fb < NB_FBLOCS
    ensures forall gb: nat :: gb != fb ==> Load(t, i, gb) == Load(s, i, gb)
  {
    forall gb: nat | gb != fb ensures Load(t, i, gb) == Load(s, i, gb) {
      if gb < NB_FBLOCS {
        if PlaceOf(gb) == PlaceOf(fb) { PlaceInjective(gb, fb); }
        assert Kept(s, t, i, PlaceOf(gb));
      }
    }
  }

  lemma WriteBackSpec(s: Store, i: nat, fb: nat, buf: seq<byte>)
    requires Valid(s) && IsIno(s, i) && Vmap(s, i, fb) != 0 && |buf| == BLOC_SIZE
    ensures var t := Put(s, Vmap(s, i, fb), Data(buf));
      && OnlyFile(s, t, i) && t.free == s.free
      && (forall gb: nat :: Load(t, i, gb) == if gb == fb then buf else Load(s, i, gb))
      && SamePtrs(s, t)
  {
    PutDataSpec(s, i, PlaceOf(fb), Data(buf));
    OtherLoads(s, Put(s, Vmap(s, i, fb), Data(buf)), i, fb);
  }

  /** Flushing writes the buffer to its block: the disk then holds the view. */
  lemma FlushSpec(s: Store, fd: Fd)
    requires FdOk(s, fd)
    ensures var (t, f) := Flush(s, fd);
      && FdOk(t, f) && f == fd.(dirty := false) && OnlyFile(s, t, fd.inum) && t.free == s.free
      && Bytes(t, fd.inum) == View(s, fd) == View(t, f)
  {
    if fd.dirty {
      AllocateSpec(s, fd.inum, BlocOf(fd.pos));
      WriteBackSpec(s, fd.inum, BlocOf(fd.pos), fd.buf);
    } else {
      OnlyFileRefl(s, fd.inum);
    }
  }

  /** Moving the cursor loses no byte of the file. */
  lemma MoveSpec(s: Store, fd: Fd, pos: nat)
    requires FdOk(s, fd) && pos < WORD
    ensures var (t, f) := Move(s, fd, pos);
      && FdOk(t, f) && OnlyFile(s, t, fd.inum) && t.free == s.free && f.inum == fd.inum
      && Abs(t, f) == Abs(s, fd).(pos := pos)
  {
    if BlocOf(pos) != BlocOf(fd.pos) {
      FlushSpec(s, fd);
      var (t, f) := Move(s, fd, pos);
      assert View(t, f) == Bytes(t, fd.inum);
    } else {
      assert View(s, fd.(pos := pos)) == View(s, fd);
    }
  }

  lemma BlocArith(p: nat, q: nat)
    ensures BlocOf(p) == BlocOf(q) && IblocOf(p) == IblocOf(q) ==> p == q
    ensures IblocOf(p) < BLOC_SIZE - 1 ==> BlocOf(p + 1) == BlocOf(p)
    ensures IblocOf(p) == BLOC_SIZE - 1 ==> BlocOf(p + 1) == BlocOf(p) + 1
    ensures BlocOf(p) < NB_FBLOCS <==> p < MAX_BYTES
    ensures p < MAX_BYTES ==> (p + 1) % WORD == p + 1
  {
  }

  ghost predicate Stored(s: Store, fd: Fd, c: byte, t: Store, f: Fd)
    requires |fd.buf| == BLOC_SIZE
  {
    && FdOk(t, f) && OnlyFile(s, t, fd.inum) && t.free == s.free && f.inum == fd.inum && fd.pos < MAX_BYTES
    && Abs(t, f) == FWritec(Abs(s, fd), c)
  }

  /** The view after a store, given what the blocks hold. */
  lemma StoredView(s: Store, fd: Fd, c: byte, t: Store, f: Fd)
    requires |fd.buf| == |f.buf| == BLOC_SIZE && f.inum == fd.inum && fd.pos < MAX_BYTES && f.pos == fd.pos + 1
    requires forall gb: nat :: gb != BlocOf(fd.pos) ==> Load(t, fd.inum, gb) == Load(s, fd.inum, gb)
    requires BlocOf(f.pos) != BlocOf(fd.pos) ==> f.buf == Load(t, fd.inum, BlocOf(f.pos))
    requires (if BlocOf(f.pos) == BlocOf(fd.pos) then f.buf else Load(t, fd.inum, BlocOf(fd.pos)))
             == fd.buf[IblocOf(fd.pos) := c]
    ensures View(t, f) == View(s, fd)[fd.pos := c]
  {
    forall p: nat | p < MAX_BYTES ensures View(t, f)[p] == View(s, fd)[fd.pos := c][p] {
      BlocArith(p, fd.pos);
    }
  }

  lemma StoreInBloc(s: Store, fd: Fd, c: byte)
    requires FdOk(s, fd) && Vmap(s, fd.inum, BlocOf(fd.pos)) != 0 && IblocOf(fd.pos) < BLOC_SIZE - 1
    ensures Stored(s, fd, c, Store1(s, fd, c).0, Store1(s, fd, c).1)
  {
    hide PlaceOf, BlocOf, IblocOf, At, End, Valid, OthersKept, Conserved;
    BlocArith(fd.pos, fd.pos);
    MappedInRange(s, fd.inum, BlocOf(fd.pos));
    OnlyFileRefl(s, fd.inum);
    StoredView(s, fd, c, s, Store1(s, fd, c).1);
  }

  lemma StoreLastOfBloc(s: Store, fd: Fd, c: byte)
    requires FdOk(s, fd) && Vmap(s, fd.inum, BlocOf(fd.pos)) != 0 && IblocOf(fd.pos) == BLOC_SIZE - 1
    ensures Stored(s, fd, c, Store1(s, fd, c).0, Store1(s, fd, c).1)
  {
    hide PlaceOf, BlocOf, IblocOf, At, End, Valid, OthersKept, Conserved;
    BlocArith(fd.pos, fd.pos);
    MappedInRange(s, fd.inum, BlocOf(fd.pos));
    WriteBackSpec(s, fd.inum, BlocOf(fd.pos), fd.buf[IblocOf(fd.pos) := c]);
    StoredView(s, fd, c, Store1(s, fd, c).0, Store1(s, fd, c).1);
  }

  /** The allocation of writec_ifile shows in no byte of the file. */
  lemma EnsureView(s: Store, fd: Fd)
    requires FdOk(s, fd) && !fd.dirty
    ensures var (t, v) := Vbloc(s, fd.inum, BlocOf(fd.pos), true);
      && FdOk(t, fd) && View(t, fd) == View(s, fd) && OnlyFile(s, t, fd.inum)
      && (v != 0 <==> fd.pos < MAX_BYTES && Cost(s, fd.inum, PlaceOf(BlocOf(fd.pos))) <= s.free)
      && (v != 0 ==> Vmap(t, fd.inum, BlocOf(fd.pos)) != 0)
      && t.free == (if fd.pos >= MAX_BYTES then s.free
                    else if v != 0 then s.free - Cost(s, fd.inum, PlaceOf(BlocOf(fd.pos))) else 0)
  {
    var i, fb := fd.inum, BlocOf(fd.pos);
    BlocArith(fd.pos, fd.pos);
    AllocateSpec(s, i, fb);
    var t := Vbloc(s, i, fb, true).0;
    if fb < NB_FBLOCS {
      OtherLoads(s, t, i, fb);
      assert Load(t, i, fb) == Load(s, i, fb);
    }
    forall p: nat | p < MAX_BYTES ensures View(t, fd)[p] == View(s, fd)[p] {
    }
  }

  /** A write fails, leaving the file unchanged, exactly when the cursor is past
      the largest file or the blocks needed are not free; otherwise it writes
      one byte of the flat file. */
  lemma WritecSpec(s: Store, fd: Fd, c: byte)
    requires FdOk(s, fd)
    ensures var (t, f, r) := Writec(s, fd, c); var need := Cost(s, fd.inum, PlaceOf(BlocOf(fd.pos)));
      && FdOk(t, f) && OnlyFile(s, t, fd.inum) && f.inum == fd.inum
      && (r == RETURN_FAILURE <==> fd.pos >= MAX_BYTES || need > s.free)
      && (r == RETURN_FAILURE ==> f == fd && View(t, f) == View(s, fd))
      && (r == RETURN_FAILURE ==> t.free == if fd.pos >= MAX_BYTES then s.free else 0)
      && (r != RETURN_FAILURE ==> r == fd.pos && Abs(t, f) == FWritec(Abs(s, fd), c) && t.free == s.free - need)
  {
    var i, fb := fd.inum, BlocOf(fd.pos);
    var (t, v) := if fd.dirty then (s, 1) else Vbloc(s, i, fb, true);
    BlocArith(fd.pos, fd.pos);
    if fd.dirty {
      CostOfMapped(s, i, PlaceOf(fb));
      FreeCount(s);
    } else {
      EnsureView(s, fd);
    }
    if v != 0 {
      if IblocOf(fd.pos) < BLOC_SIZE - 1 { StoreInBloc(t, fd, c); } else { StoreLastOfBloc(t, fd, c); }
      if !fd.dirty { OnlyFileTrans(s, t, Store1(t, fd, c).0, i); }
    }
  }

  lemma ReadcSpec(s: Store, fd: Fd)
    requires FdOk(s, fd)
    ensures var (t, f, c) := Readc(s, fd);
      && FdOk(t, f) && OnlyFile(s, t, fd.inum) && t.free == s.free && f.inum == fd.inum
      && (Abs(t, f), c) == FReadc(Abs(s, fd)) && (c == READ_EOF || 0 <= c < 256)
      && (c == READ_EOF <==> fd.pos > fd.size)
  {
    if fd.pos > fd.size {
      OnlyFileRefl(s, fd.inum);
    } else {
      var q := (fd.pos + 1) % WORD;
      MoveSpec(s, fd, q);
      CursorByte(s, fd);
      assert Readc(s, fd) == (Move(s, fd, q).0, Move(s, fd, q).1, fd.buf[IblocOf(fd.pos)] as int);
    }
  }

  lemma CursorByte(s: Store, fd: Fd)
    requires FdOk(s, fd)
    ensures fd.buf[IblocOf(fd.pos)] == if fd.pos < MAX_BYTES then View(s, fd)[fd.pos] else 0
  {
    BlocArith(fd.pos, fd.pos);
  }

  // ----- sequences of bytes -----

  function FReadLoop(f: Flat, n: nat): (Flat, seq<byte>)
    decreases n
  {
    if n == 0 || f.pos > f.size then (f, [])
    else
      var (g, rest) := FReadLoop(FSeek(f, 1), n - 1);
      (g, [if f.pos < |f.bytes| then f.bytes[f.pos] else 0] + rest)
  }

  function FWrites(f: Flat, bs: seq<byte>): Flat
    decreases |bs|
  {
    if bs == [] then f else FWrites(FWritec(f, bs[0]), bs[1..])
  }

  lemma NextPos(p: nat)
    ensures p < MAX_BYTES ==> (p + 1) % WORD == p + 1
  {
  }

  lemma {:induction false} ReadLoopSpec(s: Store, fd: Fd, n: nat)
    requires FdOk(s, fd)
    ensures var (t, f, bs) := ReadLoop(s, fd, n);
      && FdOk(t, f) && OnlyFile(s, t, fd.inum) && t.free == s.free && f.inum == fd.inum
      && (Abs(t, f), bs) == FReadLoop(Abs(s, fd), n)
    decreases n
  {
    hide Readc, Valid, View, OnlyFile, Load, Vmap;
    if n == 0 {
      OnlyFileRefl(s, fd.inum);
    } else {
      ReadcSpec(s, fd);
      var (t, f, c) := Readc(s, fd);
      if c != READ_EOF {
        ReadLoopSpec(t, f, n - 1);
        var (u, g, bs) := ReadLoop(t, f, n - 1);
        OnlyFileTrans(s, t, u, fd.inum);
        assert ReadLoop(s, fd, n) == (u, g, [c as byte] + bs);
        assert FReadLoop(Abs(s, fd), n) == (Abs(u, g), [c as byte] + bs);
      }
    }
  }

  /** Within a block, a write that follows a write does not fail. */
  lemma NextInBloc(s: Store, fd: Fd, c: byte, d: byte)
    requires Writec(s, fd, c).2 != RETURN_FAILURE && fd.pos < MAX_BYTES && IblocOf(fd.pos + 1) != 0
    ensures var (t, f, _) := Writec(s, fd, c); Writec(t, f, d).2 != RETURN_FAILURE
  {
    BlocArith(fd.pos, fd.pos);
  }

  /** The number of blocks that n bytes from position p lie in. */
  function Touched(p: nat, n: nat): nat {
    if n == 0 then 0 else BlocOf(p + n - 1) - BlocOf(p) + 1
  }

  /** Those that may have to be allocated: not the block of a dirty buffer. */
  function Charged(fd: Fd, n: nat): nat {
    if n == 0 then 0 else BlocOf(fd.pos + n - 1) - BlocOf(fd.pos) + if fd.dirty then 0 else 1
  }

  lemma ChargedNext(s: Store, fd: Fd, c: byte, n: nat)
    requires Writec(s, fd, c).2 != RETURN_FAILURE && fd.pos < MAX_BYTES && n > 0
    ensures Charged(fd, n) == Charged(Writec(s, fd, c).1, n - 1) + if fd.dirty then 0 else 1
  {
    BlocArith(fd.pos, fd.pos);
  }

  /** One byte takes at most a data block and two tables, and nothing in the
      block of a dirty buffer. */
  lemma WritecTakes(s: Store, fd: Fd, c: byte)
    requires FdOk(s, fd)
    ensures var (t, f, r) := Writec(s, fd, c);
      && (r == RETURN_FAILURE && fd.pos < MAX_BYTES ==> !fd.dirty && t.free == 0 <= s.free < 3)
      && (r == RETURN_FAILURE && fd.pos >= MAX_BYTES ==> t.free == s.free)
      && (r != RETURN_FAILURE ==> fd.pos < MAX_BYTES && s.free - (if fd.dirty then 0 else 3) <= t.free <= s.free)
  {
    hide Writec, Valid, View, OnlyFile, Load;
    WritecSpec(s, fd, c);
    FreeCount(s);
    if fd.dirty { CostOfMapped(s, fd.inum, PlaceOf(BlocOf(fd.pos))); }
  }

  /** What a write of bs that stores w of them may take from `before` free
      blocks; it falls short only past the largest file, or on a full disk that
      had too few blocks. */
  ghost predicate Takes(fd: Fd, n: nat, w: nat, before: int, after: int) {
    && after <= before
    && (w == n ==> before - after <= 3 * Charged(fd, n))
    && (w < n && fd.pos + w < MAX_BYTES ==> after == 0 && before < 3 * Charged(fd, w + 1))
  }

  /** A successful write stores all the bytes, a failing one a proper prefix
      that ends with a block, for want of blocks or past the largest file. */
  lemma {:induction false} WriteLoopSpec(s: Store, fd: Fd, bs: seq<byte>) returns (w: nat)
    requires FdOk(s, fd)
    ensures var (t, f, ok) := WriteLoop(s, fd, bs);
      && FdOk(t, f) && OnlyFile(s, t, fd.inum) && f.inum == fd.inum
      && w <= |bs| && (ok <==> w == |bs|) && (w > 0 ==> fd.pos + w <= MAX_BYTES)
      && (bs != [] ==> (w == 0 <==> Writec(s, fd, bs[0]).2 == RETURN_FAILURE))
      && (0 < w < |bs| ==> IblocOf(fd.pos + w) == 0)
      && Takes(fd, |bs|, w, s.free, t.free)
      && Abs(t, f) == FWrites(Abs(s, fd), bs[..w])
    decreases |bs|
  {
    hide Writec, Valid, View, OnlyFile, Load, Vmap, Cost, PlaceOf, BlocOf, IblocOf, Charged;
    if bs == [] {
      OnlyFileRefl(s, fd.inum);
      w := 0;
      assert Charged(fd, 0) == 0 by { ChargedOne(fd); }
    } else {
      WritecSpec(s, fd, bs[0]);
      WritecTakes(s, fd, bs[0]);
      ChargedOne(fd);
      var (t, f, r) := Writec(s, fd, bs[0]);
      if r == RETURN_FAILURE {
        w := 0;
      } else {
        var w' := WriteLoopSpec(t, f, bs[1..]);
        w := w' + 1;
        if |bs| > 1 && IblocOf(fd.pos + 1) != 0 { NextInBloc(s, fd, bs[0], bs[1]); }
        ChargedNext(s, fd, bs[0], |bs|);
        ChargedNext(s, fd, bs[0], w + 1);
        NextPos(fd.pos);
        assert bs[..w][0] == bs[0] && bs[..w][1..] == bs[1..][..w'];
        OnlyFileTrans(s, t, WriteLoop(t, f, bs[1..]).0, fd.inum);
      }
    }
  }

  lemma ChargedOne(fd: Fd)
    ensures Charged(fd, 0) == 0 && Charged(fd, 1) == if fd.dirty then 0 else 1
  {}

  /** Closing leaves on disk the content and the size of the descriptor. */
  lemma CloseSpec(s: Store, fd: Fd)
    requires FdOk(s, fd)
    ensures var t := Close(s, fd);
      && Valid(t) && OthersKept(s, t, fd.inum) && Conserved(s, t, fd.inum) && t.free == s.free
      && IsIno(t, fd.inum) && Get(t, fd.inum).kind == Get(s, fd.inum).kind
      && Get(t, fd.inum).size == fd.size && Bytes(t, fd.inum) == View(s, fd)
  {
    FlushSpec(s, fd);
    var i, t := fd.inum, Flush(s, fd).0;
    SetSizeSpec(t, i, fd.size);
    OthersKeptTrans(s, t, Close(s, fd), i);
    forall p: nat | p < MAX_BYTES ensures Load(Close(s, fd), i, BlocOf(p)) == Load(t, i, BlocOf(p)) {
      assert Kept(t, Close(s, fd), i, PlaceOf(BlocOf(p)));
    }
  }

  // ----- any run of operations on one descriptor -----

  datatype Op =
    | DoSeek(offset: int) | DoSeek2(offset: int) | DoReadc | DoWritec(c: byte)
    | DoRead(n: nat) | DoWrite(bs: seq<byte>) | DoFlush | DoReopen

  /** What an operation returns: a number and, for read_ifile, the bytes. */
  datatype Out = Out(r: int, bs: seq<byte>)

  function Step(s: Store, fd: Fd, op: Op): (Store, Fd, Out) {
    match op
    case DoSeek(o) => var (t, f) := Seek(s, fd, o); (t, f, Out(0, []))
    case DoSeek2(o) => var (t, f) := Seek2(s, fd, o); (t, f, Out(0, []))
    case DoReadc => var (t, f, c) := Readc(s, fd); (t, f, Out(c, []))
    case DoWritec(c) => var (t, f, r) := Writec(s, fd, c); (t, f, Out(r, []))
    case DoRead(n) => var (t, f, bs, r) := Read(s, fd, n); (t, f, Out(r, bs))
    case DoWrite(bs) => var (t, f, r) := Write(s, fd, bs); (t, f, Out(r, []))
    case DoFlush => var (t, f) := Flush(s, fd); (t, f, Out(0, []))
    case DoReopen => var t := Close(s, fd); (t, Open(t, fd.inum), Out(0, []))
  }

  /** Write bs, of which w bytes are stored. Less than all of them only where
      the file cannot grow, or when the disk ends full and had fewer than three
      free blocks for each block to be written; a proper prefix that is not
      empty ends with a block. */
  ghost predicate FWrote(f: Flat, a: int, bs: seq<byte>, w: nat, g: Flat, b: int, out: Out) {
    && w <= |bs| && g == FWrites(f, bs[..w]) && out == Out(if w == |bs| then |bs| else RETURN_FAILURE, [])
    && b <= a && (w > 0 ==> f.pos + w <= MAX_BYTES)
    && (w == |bs| ==> a - b <= 3 * Touched(f.pos, w))
    && (w < |bs| && f.pos + w < MAX_BYTES ==> b == 0 && a < 3 * Touched(f.pos, w + 1))
    && (0 < w < |bs| ==> IblocOf(f.pos + w) == 0)
  }

  /** The same operation on a flat file, with a free blocks before and b after.
      Only a write takes blocks, or fails. */
  ghost predicate FStep(f: Flat, a: int, op: Op, g: Flat, b: int, out: Out) {
    match op
    case DoSeek(o) => g == FSeek(f, o) && out == Out(0, []) && b == a
    case DoSeek2(o) => g == f.(pos := o % WORD) && out == Out(0, []) && b == a
    case DoReadc => g == FReadc(f).0 && out == Out(FReadc(f).1, []) && b == a
    case DoWritec(c) =>
      && b <= a
      && if out == Out(RETURN_FAILURE, []) then g == f && (if f.pos < MAX_BYTES then b == 0 && a < 3 else b == a)
         else f.pos < MAX_BYTES && out == Out(f.pos, []) && g == FWritec(f, c) && a - b <= 3
    case DoRead(n) =>
      b == a && if f.pos >= f.size then g == f && out == Out(READ_EOF, [])
      else g == FReadLoop(f, n).0 && out == Out(|FReadLoop(f, n).1|, FReadLoop(f, n).1)
    case DoWrite(bs) => exists w: nat :: FWrote(f, a, bs, w, g, b, out)
    case DoFlush => g == f && out == Out(0, []) && b == a
    case DoReopen => g == f.(pos := 0) && out == Out(0, []) && b == a
  }

  ghost predicate FRun(f: Flat, a: int, ops: seq<Op>, g: Flat, b: int, outs: seq<Out>)
    decreases |ops|
  {
    if ops == [] then f == g && outs == [] && a == b
    else |outs| > 0 && exists h: Flat, c: int ::
      FStep(f, a, ops[0], h, c, outs[0]) && FRun(h, c, ops[1..], g, b, outs[1..])
  }

  function Run(s: Store, fd: Fd, ops: seq<Op>): (Store, Fd, seq<Out>)
    decreases |ops|
  {
    if ops == [] then (s, fd, [])
    else
      var (t, f, o) := Step(s, fd, ops[0]);
      var (u, g, os) := Run(t, f, ops[1..]);
      (u, g, [o] + os)
  }

  lemma Seek2Mod(pos: nat, o: int)
    ensures (pos + (o - pos)) % WORD == o % WORD
  {
  }

  ghost predicate Refined(s: Store, fd: Fd, op: Op) {
    && |fd.buf| == BLOC_SIZE
    && var (t, f, o) := Step(s, fd, op);
       && FdOk(t, f) && f.inum == fd.inum && OthersKept(s, t, fd.inum) && Conserved(s, t, fd.inum)
       && FStep(Abs(s, fd), s.free, op, Abs(t, f), t.free, o)
  }

  lemma ChargedTouched(fd: Fd, n: nat)
    ensures Charged(fd, n) <= Touched(fd.pos, n)
  {}

  lemma OnlyFileMeans(s: Store, t: Store, i: nat)
    requires OnlyFile(s, t, i)
    ensures OthersKept(s, t, i) && Conserved(s, t, i)
  {}

  lemma WriteRefines(s: Store, fd: Fd, bs: seq<byte>)
    requires FdOk(s, fd)
    ensures Refined(s, fd, DoWrite(bs))
  {
    hide Valid, View, Load, OnlyFile, Vmap, WriteLoop, FWrites, Touched, Charged;
    var w := WriteLoopSpec(s, fd, bs);
    ChargedTouched(fd, |bs|);
    ChargedTouched(fd, w + 1);
    OnlyFileMeans(s, WriteLoop(s, fd, bs).0, fd.inum);
    var (t, f, o) := Step(s, fd, DoWrite(bs));
    assert FWrote(Abs(s, fd), s.free, bs, w, Abs(t, f), t.free, o);
  }

  lemma ReopenRefines(s: Store, fd: Fd)
    requires FdOk(s, fd)
    ensures Refined(s, fd, DoReopen)
  {
    CloseSpec(s, fd);
    OpenSpec(Close(s, fd), fd.inum);
  }

  lemma SeekRefines(s: Store, fd: Fd, o: int)
    requires FdOk(s, fd)
    ensures Refined(s, fd, DoSeek(o))
  {
    var q := (fd.pos + o) % WORD;
    MoveSpec(s, fd, q);
    assert Step(s, fd, DoSeek(o)) == (Move(s, fd, q).0, Move(s, fd, q).1, Out(0, []));
  }

  lemma Seek2Refines(s: Store, fd: Fd, o: int)
    requires FdOk(s, fd)
    ensures Refined(s, fd, DoSeek2(o))
  {
    var q := o % WORD;
    Seek2Mod(fd.pos, o);
    MoveSpec(s, fd, q);
    assert Step(s, fd, DoSeek2(o)) == (Move(s, fd, q).0, Move(s, fd, q).1, Out(0, []));
  }

  lemma ReadRefines(s: Store, fd: Fd, n: nat)
    requires FdOk(s, fd)
    ensures Refined(s, fd, DoRead(n))
  {
    OnlyFileRefl(s, fd.inum);
    ReadLoopSpec(s, fd, n);
  }

  lemma StepRefines(s: Store, fd: Fd, op: Op)
    requires FdOk(s, fd)
    ensures Refined(s, fd, op)
  {
    match op {
      case DoSeek(o) => SeekRefines(s, fd, o);
      case DoSeek2(o) => Seek2Refines(s, fd, o);
      case DoReadc => ReadcSpec(s, fd);
      case DoWritec(c) => WritecSpec(s, fd, c); WritecTakes(s, fd, c);
      case DoRead(n) => ReadRefines(s, fd, n);
      case DoWrite(bs) => WriteRefines(s, fd, bs);
      case DoFlush => FlushSpec(s, fd);
      case DoReopen => ReopenRefines(s, fd);
    }
  }

  lemma StepKeepsKind(s: Store, fd: Fd, op: Op)
    requires FdOk(s, fd)
    ensures var t := Step(s, fd, op).0;
      IsIno(s, fd.inum) && IsIno(t, fd.inum) && Get(t, fd.inum).kind == Get(s, fd.inum).kind
  {
    hide Valid, View, Load, FReadLoop;
    match op {
      case DoSeek(o) => var q := (fd.pos + o) % WORD; MoveSpec(s, fd, q);
      case DoSeek2(o) => var q := (fd.pos + (o - fd.pos)) % WORD; MoveSpec(s, fd, q);
      case DoReadc => ReadcSpec(s, fd);
      case DoWritec(c) => WritecSpec(s, fd, c);
      case DoRead(n) => ReadLoopSpec(s, fd, n);
      case DoWrite(bs) => var w := WriteLoopSpec(s, fd, bs);
      case DoFlush => FlushSpec(s, fd);
      case DoReopen => CloseSpec(s, fd);
    }
  }

  /** Any run on a descriptor behaves as the same run on a flat byte array,
      whatever ranges and holes it crosses, and no other file notices. */
  lemma {:induction false} RunRefines(s: Store, fd: Fd, ops: seq<Op>)
    requires FdOk(s, fd)
    ensures var (t, f, outs) := Run(s, fd, ops);
      && FdOk(t, f) && f.inum == fd.inum && OthersKept(s, t, fd.inum) && Conserved(s, t, fd.inum)
      && FRun(Abs(s, fd), s.free, ops, Abs(t, f), t.free, outs)
    decreases |ops|
  {
    if ops == [] {
      OnlyFileRefl(s, fd.inum);
    } else {
      StepRefines(s, fd, ops[0]);
      var (t, f, o) := Step(s, fd, ops[0]);
      RunRefines(t, f, ops[1..]);
      var (u, g, os) := Run(t, f, ops[1..]);
      OthersKeptTrans(s, t, u, fd.inum);
      assert ([o] + os)[1..] == os;
      assert FStep(Abs(s, fd), s.free, ops[0], Abs(t, f), t.free, o);
      assert FRun(Abs(t, f), t.free, ops[1..], Abs(u, g), u.free, os);
    }
  }

  // ----- runs that find room -----

  /** An operation whose write, if it is one, succeeds. */
  function FDo(f: Flat, op: Op): (Flat, Out) {
    match op
    case DoSeek(o) => (FSeek(f, o), Out(0, []))
    case DoSeek2(o) => (f.(pos := o % WORD), Out(0, []))
    case DoReadc => (FReadc(f).0, Out(FReadc(f).1, []))
    case DoWritec(c) => (FWritec(f, c), Out(f.pos, []))
    case DoRead(n) =>
      if f.pos >= f.size then (f, Out(READ_EOF, []))
      else (FReadLoop(f, n).0, Out(|FReadLoop(f, n).1|, FReadLoop(f, n).1))
    case DoWrite(bs) => (FWrites(f, bs), Out(|bs|, []))
    case DoFlush => (f, Out(0, []))
    case DoReopen => (f.(pos := 0), Out(0, []))
  }

  function FDoAll(f: Flat, ops: seq<Op>): (Flat, seq<Out>)
    decreases |ops|
  {
    if ops == [] then (f, [])
    else
      var (g, out) := FDo(f, ops[0]);
      var (h, outs) := FDoAll(g, ops[1..]);
      (h, [out] + outs)
  }

  function Written(op: Op): nat {
    match op
    case DoWritec(_) => 1
    case DoWrite(bs) => |bs|
    case _ => 0
  }

  /** No write of the run goes past the largest file. */
  predicate InReach(f: Flat, ops: seq<Op>)
    decreases |ops|
  {
    ops != [] ==> (Written(ops[0]) > 0 ==> f.pos + Written(ops[0]) <= MAX_BYTES) && InReach(FDo(f, ops[0]).0, ops[1..])
  }

  /** Three blocks, data and tables, for each block that a write of the run
      touches. */
  function Wanted(f: Flat, ops: seq<Op>): nat
    decreases |ops|
  {
    if ops == [] then 0 else 3 * Touched(f.pos, Written(ops[0])) + Wanted(FDo(f, ops[0]).0, ops[1..])
  }

  lemma TouchedMonotone(p: nat, m: nat, n: nat)
    requires m <= n
    ensures Touched(p, m) <= Touched(p, n)
  {}

  lemma EnoughForStep(f: Flat, a: int, op: Op, g: Flat, b: int, out: Out)
    requires FStep(f, a, op, g, b, out) && 3 * Touched(f.pos, Written(op)) <= a
    requires Written(op) > 0 ==> f.pos + Written(op) <= MAX_BYTES
    ensures (g, out) == FDo(f, op) && a - b <= 3 * Touched(f.pos, Written(op))
  {
    if op.DoWrite? {
      var w: nat :| FWrote(f, a, op.bs, w, g, b, out);
      if w < |op.bs| { TouchedMonotone(f.pos, w + 1, |op.bs|); }
      assert op.bs[..|op.bs|] == op.bs;
    }
  }

  lemma {:induction false} EnoughForRun(f: Flat, a: int, ops: seq<Op>, g: Flat, b: int, outs: seq<Out>)
    requires FRun(f, a, ops, g, b, outs) && InReach(f, ops) && Wanted(f, ops) <= a
    ensures (g, outs) == FDoAll(f, ops)
    decreases |ops|
  {
    hide FStep, FDo, Touched;
    if ops != [] {
      var h: Flat, c: int :| FStep(f, a, ops[0], h, c, outs[0]) && FRun(h, c, ops[1..], g, b, outs[1..]);
      EnoughForStep(f, a, ops[0], h, c, outs[0]);
      EnoughForRun(h, c, ops[1..], g, b, outs[1..]);
      assert outs == [outs[0]] + outs[1..];
    }
  }

  /** With enough free blocks, and in reach, every write of a run succeeds: the
      run does and returns exactly what it does on the flat file. */
  lemma RunSucceeds(s: Store, fd: Fd, ops: seq<Op>)
    requires FdOk(s, fd) && InReach(Abs(s, fd), ops) && Wanted(Abs(s, fd), ops) <= s.free
    ensures var (t, f, outs) := Run(s, fd, ops);
      |f.buf| == BLOC_SIZE && (Abs(t, f), outs) == FDoAll(Abs(s, fd), ops)
  {
    hide Abs, InReach, Wanted, Run, FRun, Valid, Load;
    RunRefines(s, fd, ops);
    var (t, f, outs) := Run(s, fd, ops);
    EnoughForRun(Abs(s, fd), s.free, ops, Abs(t, f), t.free, outs);
  }
}
