/** Directories as files of 20-byte records (src/dir.h, src/dir.c). */
module Directories {
  import opened Disk
  import opened PathText
  import opened Inode
  import opened Ownership
  import opened Allocation
  import opened BlockOps
  import opened Ifile
  import opened Copy
  import opened Room

  const ENTRY_SIZE: nat := 20
  const NAME_SIZE: nat := 16      // ENTRYMAXLENGTH

  // ----- records -----

  /** A record: the inode number, 0 for a free record, and the name buffer. */
  datatype Entry = Entry(inum: nat, field: seq<byte>)

  function NullEntry(): Entry {
    Entry(0, seq(NAME_SIZE, _ => 0))
  }

  function Le32(n: nat): (r: seq<byte>)
    ensures |r| == 4
  {
    [n % 256, n / 256 % 256, n / 0x1_0000 % 256, n / 0x100_0000 % 256]
  }

  function Encode(e: Entry): seq<byte> {
    Le32(e.inum) + e.field
  }

  function Value32(a: nat, b: nat, c: nat, d: nat): nat {
    a + b * 256 + c * 0x1_0000 + d * 0x100_0000
  }

  function Decode(bs: seq<byte>): Entry
    requires |bs| == ENTRY_SIZE
  {
    Entry(Value32(bs[0], bs[1], bs[2], bs[3]), bs[4..])
  }

  lemma ValueOfBytes(n: nat)
    requires n < WORD
    ensures var b := Le32(n); Value32(b[0], b[1], b[2], b[3]) == n
  {
    var q := n / 256;
    var r := q / 256;
    assert n / 0x1_0000 == r;
    assert n / 0x100_0000 == r / 256 < 256;
    assert n == n % 256 + 256 * q && q == q % 256 + 256 * r && r == r % 256 + 256 * (r / 256);
  }

  lemma DecodeEncode(e: Entry)
    requires e.inum < WORD && |e.field| == NAME_SIZE
    ensures |Encode(e)| == 20 && Decode(Encode(e)) == e && Encode(e)[4..] == e.field
  {
    hide Value32;
    ValueOfBytes(e.inum);
    assert Encode(e)[4..] == e.field;
    assert Encode(e)[..4] == Le32(e.inum);
  }

  lemma BytesOfValue(a: byte, b: byte, c: byte, d: byte)
    ensures Le32(Value32(a, b, c, d)) == [a, b, c, d]
  {
    var n := Value32(a, b, c, d);
    assert n == a + 256 * (b + 256 * (c + 256 * d));
    assert n / 256 == b + 256 * (c + 256 * d);
    assert n / 0x1_0000 == c + 256 * d;
    assert n / 0x100_0000 == d;
  }

  lemma EncodeDecode(bs: seq<byte>)
    requires |bs| == ENTRY_SIZE
    ensures Encode(Decode(bs)) == bs
    ensures Decode(bs).inum == bs[0] as int + 256 * (bs[1] as int + 256 * (bs[2] as int + 256 * bs[3] as int)) && Decode(bs).field == bs[4..20]
  {
    BytesOfValue(bs[0], bs[1], bs[2], bs[3]);
    assert bs == [bs[0], bs[1], bs[2], bs[3]] + bs[4..];
  }

  /** The string in a name buffer: up to its first NUL. */
  function CString(field: seq<byte>): Name {
    if field == [] || field[0] == 0 then [] else [field[0]] + CString(field[1..])
  }

  /** The name buffer that add_entry builds: at most 15 characters, then NULs. */
  function Pad(name: Name): (r: seq<byte>)
    ensures |r| == NAME_SIZE
  {
    var short := if |name| < NAME_SIZE then name else name[..NAME_SIZE - 1];
    short + seq(NAME_SIZE - |short|, _ => 0)
  }

  function NameOf(e: Entry): Name {
    CString(e.field)
  }

  /** What a name reads like once stored. */
  function CutName(name: Name): Name {
    CString(Pad(name))
  }

  predicate NulFree(name: Name) {
    forall k: nat :: k < |name| ==> name[k] != 0
  }

  lemma {:induction false} CStringOfPadded(name: Name, zeros: seq<byte>)
    requires NulFree(name) && |zeros| > 0 && zeros[0] == 0
    ensures CString(name + zeros) == name
  {
    if name != [] {
      assert (name + zeros)[1..] == name[1..] + zeros;
      CStringOfPadded(name[1..], zeros);
    }
  }

  lemma {:induction false} CStringShort(field: seq<byte>)
    ensures |CString(field)| <= |field|
    ensures |field| > 0 && field[|field| - 1] == 0 ==> |CString(field)| < |field|
  {
    if field != [] && field[0] != 0 { CStringShort(field[1..]); }
  }

  /** A name survives being stored exactly when it has at most 15 characters. */
  lemma StoredName(name: Name)
    requires NulFree(name)
    ensures CString(Pad(name)) == name <==> |name| < NAME_SIZE
  {
    if |name| < NAME_SIZE {
      CStringOfPadded(name, seq(NAME_SIZE - |name|, _ => 0));
    } else {
      CStringShort(Pad(name));
    }
  }

  /** A longer name is cut to its first 15 characters. */
  lemma CutNameIs(name: Name)
    requires NulFree(name)
    ensures CutName(name) == if |name| <= 15 then name else name[..15]
  {
    var short := if |name| < NAME_SIZE then name else name[..NAME_SIZE - 1];
    CStringOfPadded(short, seq(NAME_SIZE - |short|, _ => 0));
  }

  // ----- a directory as a table of records -----

  function FindFrom(rs: seq<Entry>, name: Name, k: nat): nat
    decreases |rs| - k
  {
    if k >= |rs| then |rs|
    else if rs[k].inum != 0 && NameOf(rs[k]) == name then k
    else FindFrom(rs, name, k + 1)
  }

  /** The first live record of that name; |rs| when there is none. */
  function Find(rs: seq<Entry>, name: Name): nat {
    FindFrom(rs, name, 0)
  }

  function NullFrom(rs: seq<Entry>, k: nat): nat
    decreases |rs| - k
  {
    if k >= |rs| then |rs| else if rs[k].inum == 0 then k else NullFrom(rs, k + 1)
  }

  /** The first free record; |rs| when there is none. */
  function NullIndex(rs: seq<Entry>): nat {
    NullFrom(rs, 0)
  }

  function Lookup(rs: seq<Entry>, name: Name): nat {
    if Find(rs, name) < |rs| then rs[Find(rs, name)].inum else 0
  }

  function SetRecord(rs: seq<Entry>, k: nat, e: Entry): seq<Entry> {
    if k < |rs| then rs[k := e] else rs + [e]
  }

  /** No two live records have the same name. */
  ghost predicate Unique(rs: seq<Entry>) {
    forall j: nat, k: nat ::
      j < |rs| && k < |rs| && rs[j].inum != 0 && rs[k].inum != 0 && NameOf(rs[j]) == NameOf(rs[k]) ==> j == k
  }

  lemma {:induction false} FindFromSpec(rs: seq<Entry>, name: Name, k: nat)
    requires k <= |rs|
    ensures var f := FindFrom(rs, name, k);
      && k <= f <= |rs| && (f < |rs| ==> rs[f].inum != 0 && NameOf(rs[f]) == name)
      && forall j: nat :: k <= j < f ==> rs[j].inum == 0 || NameOf(rs[j]) != name
    decreases |rs| - k
  {
    if k < |rs| && !(rs[k].inum != 0 && NameOf(rs[k]) == name) { FindFromSpec(rs, name, k + 1); }
  }

  lemma {:induction false} NullFromSpec(rs: seq<Entry>, k: nat)
    requires k <= |rs|
    ensures var f := NullFrom(rs, k);
      && k <= f <= |rs| && (f < |rs| ==> rs[f].inum == 0) && forall j: nat :: k <= j < f ==> rs[j].inum != 0
    decreases |rs| - k
  {
    if k < |rs| && rs[k].inum != 0 { NullFromSpec(rs, k + 1); }
  }

  /** Lookup is the finite map of the live records. */
  lemma LookupIs(rs: seq<Entry>, name: Name, k: nat)
    requires Unique(rs) && k < |rs| && rs[k].inum != 0 && NameOf(rs[k]) == name
    ensures Find(rs, name) == k && Lookup(rs, name) == rs[k].inum
  {
    FindFromSpec(rs, name, 0);
  }

  lemma LookupAbsent(rs: seq<Entry>, name: Name)
    ensures Lookup(rs, name) == 0 <==> forall k: nat :: k < |rs| ==> rs[k].inum == 0 || NameOf(rs[k]) != name
  {
    FindFromSpec(rs, name, 0);
  }

  /** Recording a new name in the first free record is insertion in the map. */
  lemma AddIsInsert(rs: seq<Entry>, e: Entry, other: Name)
    requires Unique(rs) && e.inum != 0 && Lookup(rs, NameOf(e)) == 0
    ensures var ts := SetRecord(rs, NullIndex(rs), e);
      Unique(ts) && Lookup(ts, other) == if other == NameOf(e) then e.inum else Lookup(rs, other)
  {
    var k := NullIndex(rs);
    var ts := SetRecord(rs, k, e);
    NullFromSpec(rs, 0);
    LookupAbsent(rs, NameOf(e));
    assert ts[k] == e && forall j: nat :: j < |rs| && j != k ==> ts[j] == rs[j];
    LookupAfterSet(rs, k, e, other);
  }

  /** Clearing the record of a name is removal from the map. */
  lemma ClearIsRemove(rs: seq<Entry>, name: Name, other: Name)
    requires Unique(rs) && Find(rs, name) < |rs|
    ensures var ts := SetRecord(rs, Find(rs, name), NullEntry());
      Unique(ts) && Lookup(ts, other) == if other == name then 0 else Lookup(rs, other)
  {
    FindFromSpec(rs, name, 0);
    LookupAfterSet(rs, Find(rs, name), NullEntry(), other);
  }

  /** A record that neither held nor receives a name does not change its lookup. */
  lemma LookupAfterSet(rs: seq<Entry>, k: nat, e: Entry, other: Name)
    requires Unique(rs) && Unique(SetRecord(rs, k, e)) && k <= |rs|
    ensures var ts := SetRecord(rs, k, e);
      Lookup(ts, other) ==
        if e.inum != 0 && NameOf(e) == other then e.inum
        else if k < |rs| && rs[k].inum != 0 && NameOf(rs[k]) == other then 0
        else Lookup(rs, other)
  {
    var ts := SetRecord(rs, k, e);
    assert ts[k] == e && forall j: nat :: j < |rs| && j != k ==> ts[j] == rs[j];
    FindFromSpec(rs, other, 0);
    FindFromSpec(ts, other, 0);
    LookupAbsent(rs, other);
    LookupAbsent(ts, other);
    if Find(rs, other) < |rs| { LookupIs(rs, other, Find(rs, other)); }
    if Find(ts, other) < |ts| { LookupIs(ts, other, Find(ts, other)); }
  }

  // ----- directories on disk -----

  function RecordCount(size: nat): nat {
    if size == 0 then 0 else (size + 1) / ENTRY_SIZE
  }

  function RecordsOf(bytes: seq<byte>, size: nat): seq<Entry> {
    seq(RecordCount(size), (k: nat) =>
      if k * ENTRY_SIZE + ENTRY_SIZE <= |bytes| then Decode(bytes[k * ENTRY_SIZE..k * ENTRY_SIZE + ENTRY_SIZE])
      else NullEntry())
  }

  function Records(s: Store, i: nat): seq<Entry> {
    RecordsOf(Bytes(s, i), SizeOf(Get(s, i)))
  }

  /** The size field of a directory of n records is 20n - 1, or 0 if n = 0. */
  predicate WholeRecords(size: nat) {
    size == 0 || (size + 1) % ENTRY_SIZE == 0
  }

  /** Every block of the file up to its last index is allocated. */
  ghost predicate Mapped(s: Store, i: nat, size: nat) {
    size != 0 ==> forall fb: nat :: fb <= BlocOf(size) ==> Vmap(s, i, fb) != 0
  }

  predicate IsDir(s: Store, i: nat) {
    IsIno(s, i) && Get(s, i).kind == Directory
  }

  ghost predicate DirOk(s: Store, i: nat) {
    IsDir(s, i) && Get(s, i).size < MAX_BYTES && WholeRecords(Get(s, i).size) && Mapped(s, i, Get(s, i).size)
  }

  /** Reading 20 bytes at record k returns the whole record, wherever it lies
      in the blocks, and the end of file comes exactly after the last one. */
  lemma ReadRecord(f: Flat, k: nat)
    requires |f.bytes| == MAX_BYTES && f.size < MAX_BYTES && WholeRecords(f.size)
    requires f.pos == k * ENTRY_SIZE && k <= RecordCount(f.size)
    ensures f.pos >= f.size <==> k == RecordCount(f.size)
    ensures k < RecordCount(f.size) ==>
      && |FReadLoop(f, ENTRY_SIZE).1| == ENTRY_SIZE
      && Decode(FReadLoop(f, ENTRY_SIZE).1) == RecordsOf(f.bytes, f.size)[k]
      && FReadLoop(f, ENTRY_SIZE).0 == f.(pos := (k + 1) * ENTRY_SIZE)
  {
    if k < RecordCount(f.size) { FReadsAt(f, ENTRY_SIZE); }
  }

  // ----- adding and deleting entries -----

  /** A descriptor opened on file i and moved to pos without writing. */
  function CleanFd(s: Store, i: nat, pos: nat): Fd {
    Fd(i, SizeOf(Get(s, i)), pos, Load(s, i, BlocOf(pos)), false)
  }

  /** Write record k of directory i and close it; the result is what
      write_ifile returned. */
  function WriteRecord(s: Store, i: nat, k: nat, e: Entry): (Store, int) {
    var (t, f, r) := Write(s, CleanFd(s, i, k * ENTRY_SIZE), Encode(e));
    (Close(t, f), r)
  }

  function AddEntry(s: Store, i: nat, inum: nat, name: Name): (Store, bool) {
    if !IsDir(s, i) then (s, false)
    else
      var (t, r) := WriteRecord(s, i, NullIndex(Records(s, i)), Entry(inum, Pad(name)));
      (t, r == ENTRY_SIZE)
  }

  /** As written, success reports the byte count of the write. */
  function DelEntry(s: Store, i: nat, name: Name): (Store, int) {
    if !IsDir(s, i) then (s, RETURN_FAILURE)
    else
      var rs := Records(s, i);
      if Find(rs, name) < |rs| then WriteRecord(s, i, Find(rs, name), NullEntry()) else (s, RETURN_FAILURE)
  }

  function InumberOfBasename(s: Store, i: nat, name: Name): nat {
    if IsDir(s, i) then Lookup(Records(s, i), name) else 0
  }

  /** An inode that is not a directory has no entries, gets none and loses none. */
  lemma NotADirectory(s: Store, i: nat, inum: nat, name: Name)
    requires IsIno(s, i) && Get(s, i).kind != Directory
    ensures AddEntry(s, i, inum, name) == (s, false) && DelEntry(s, i, name) == (s, -1)
    ensures InumberOfBasename(s, i, name) == 0
  {
    hide WriteRecord, Records;
    assert !IsDir(s, i);
  }

  lemma CleanFdOk(s: Store, i: nat, pos: nat)
    requires Valid(s) && IsIno(s, i) && pos < WORD
    ensures FdOk(s, CleanFd(s, i, pos)) && Abs(s, CleanFd(s, i, pos)) == Flat(Bytes(s, i), Get(s, i).size, pos)
  {
    assert View(s, CleanFd(s, i, pos)) == Bytes(s, i);
  }

  /** A clean descriptor is determined by its position. */
  lemma CleanIsUnique(s: Store, fd: Fd)
    requires FdOk(s, fd) && !fd.dirty && fd.size == Get(s, fd.inum).size
    ensures fd == CleanFd(s, fd.inum, fd.pos)
  {
  }

  /** One record replaced or appended in the bytes of a directory. */
  lemma RecordSpliced(bytes: seq<byte>, size: nat, k: nat, e: Entry)
    requires |bytes| == MAX_BYTES && size < MAX_BYTES && WholeRecords(size) && k <= RecordCount(size)
    requires e.inum < WORD && |e.field| == NAME_SIZE && (k + 1) * ENTRY_SIZE <= MAX_BYTES
    ensures |Encode(e)| == ENTRY_SIZE
    ensures var size' := Max(size, (k + 1) * ENTRY_SIZE - 1);
      && WholeRecords(size') && size' < MAX_BYTES
      && RecordsOf(Splice(bytes, k * ENTRY_SIZE, Encode(e)), size') == SetRecord(RecordsOf(bytes, size), k, e)
  {
    DecodeEncode(e);
    var p := k * ENTRY_SIZE;
    var size' := Max(size, (k + 1) * ENTRY_SIZE - 1);
    var after := Splice(bytes, p, Encode(e));
    var rs, ts := SetRecord(RecordsOf(bytes, size), k, e), RecordsOf(after, size');
    assert |ts| == |rs|;
    hide Splice, Encode, Decode;
    forall j: nat | j < |rs| ensures ts[j] == rs[j] { SplicedAt(bytes, k, Encode(e), j); }
  }

  /** Record j after record k is overwritten. */
  lemma SplicedAt(bytes: seq<byte>, k: nat, record: seq<byte>, j: nat)
    requires |record| == ENTRY_SIZE && (k + 1) * ENTRY_SIZE <= |bytes| && (j + 1) * ENTRY_SIZE <= |bytes|
    ensures var p, q, after := k * ENTRY_SIZE, j * ENTRY_SIZE, Splice(bytes, k * ENTRY_SIZE, record);
      && |after| == |bytes|
      && after[q..q + ENTRY_SIZE] == if j == k then record else bytes[q..q + ENTRY_SIZE]
  {
    var p, q := k * ENTRY_SIZE, j * ENTRY_SIZE;
    assert j < k ==> q + ENTRY_SIZE <= p;
    assert j > k ==> p + ENTRY_SIZE <= q;
    var after, expected := Splice(bytes, p, record), if j == k then record else bytes[q..q + ENTRY_SIZE];
    forall x: nat | x < ENTRY_SIZE ensures after[q + x] == expected[x] { }
  }

  // ----- what writing a record does -----

  lemma AllMapped(s: Store, i: nat, size: nat, fb: nat)
    requires Mapped(s, i, size) && size != 0 && fb <= BlocOf(size)
    ensures Vmap(s, i, fb) != 0
  {
  }

  /** Writing at position p of a closed file: a prefix of length w lands on disk. */
  lemma WriteAtSpec(s: Store, i: nat, p: nat, bs: seq<byte>) returns (w: nat)
    requires Valid(s) && IsIno(s, i) && p < WORD
    ensures var (t, f, ok) := WriteLoop(s, CleanFd(s, i, p), bs); var u := Close(t, f);
      && Valid(u) && IsIno(u, i) && Get(u, i).kind == Get(s, i).kind && OthersKept(s, u, i) && Conserved(s, u, i)
      && u.free == t.free && w <= |bs| && (ok <==> w == |bs|) && (w > 0 ==> p + w <= MAX_BYTES)
      && (bs != [] ==> (w == 0 <==> Writec(s, CleanFd(s, i, p), bs[0]).2 == RETURN_FAILURE))
      && (0 < w < |bs| ==> IblocOf(p + w) == 0)
      && Bytes(u, i) == (if w > 0 then Splice(Bytes(s, i), p, bs[..w]) else Bytes(s, i))
      && Get(u, i).size == (if w > 0 then Max(Get(s, i).size, p + w - 1) else Get(s, i).size)
  {
    hide WriteLoop, Close, Valid, View, Bytes, Load, Vmap, Conserved;
    var fd := CleanFd(s, i, p);
    CleanFdOk(s, i, p);
    w := WriteLoopSpec(s, fd, bs);
    var (t, f, ok) := WriteLoop(s, fd, bs);
    CloseSpec(t, f);
    if w > 0 { FWritesAt(Abs(s, fd), bs[..w]); }
    OthersKeptTrans(s, t, Close(t, f), i);
    assert Conserved(s, Close(t, f), i) by { ConservedTrans(s, t, Close(t, f), i); }
  }

  /** The blocks up to the last index stay allocated. */
  lemma WriteKeepsMapped(s: Store, i: nat, p: nat, bs: seq<byte>)
    requires Valid(s) && IsIno(s, i) && p <= Get(s, i).size + 1 && p < WORD && bs != []
    requires Mapped(s, i, Get(s, i).size) && (Get(s, i).size == 0 ==> p == 0)
    ensures var (t, f, ok) := WriteLoop(s, CleanFd(s, i, p), bs);
      && Mapped(Close(t, f), i, Get(s, i).size)
      && (ok ==> Mapped(Close(t, f), i, Max(Get(s, i).size, p + |bs| - 1)))
  {
    hide WriteLoop, Valid, View, Load, Vmap, Conserved, Flush, Close;
    CleanFdOk(s, i, p);
    var w := WriteLoopSpec(s, CleanFd(s, i, p), bs);
    WriteMaps(s, CleanFd(s, i, p), bs);
    var (t, f, ok) := WriteLoop(s, CleanFd(s, i, p), bs);
    CloseMaps(t, f);
    var size, last := Get(s, i).size, Max(Get(s, i).size, p + |bs| - 1);
    if ok {
      forall fb: nat | fb <= BlocOf(last) ensures Vmap(t, i, fb) != 0 {
        if size == 0 || fb > BlocOf(size) {
          var q := if fb * BLOC_SIZE < p then p else fb * BLOC_SIZE;
          assert p <= q < p + |bs| && BlocOf(q) == fb;
        }
      }
    }
  }

  lemma CloseMaps(s: Store, fd: Fd)
    requires FdOk(s, fd)
    ensures forall fb: nat :: Vmap(Close(s, fd), fd.inum, fb) == Vmap(s, fd.inum, fb)
  {
    var i := fd.inum;
    FlushSpec(s, fd);
    var t := Flush(s, fd).0;
    SetSizeSpec(t, i, fd.size);
    if fd.dirty {
      AllocateSpec(s, i, BlocOf(fd.pos));
      WriteBackSpec(s, i, BlocOf(fd.pos), fd.buf);
    }
    forall fb: nat ensures Vmap(Close(s, fd), i, fb) == Vmap(s, i, fb) {
      assert Vmap(t, i, fb) == Vmap(s, i, fb);
      if fb < NB_FBLOCS { assert Kept(t, Close(s, fd), i, PlaceOf(fb)); }
    }
  }

  /** A record cut at a block boundary leaves a size that is not whole. */
  lemma TornSize(size: nat, k: nat, w: nat)
    requires WholeRecords(size) && k == RecordCount(size) && 0 < w < ENTRY_SIZE
    requires IblocOf(k * ENTRY_SIZE + w) == 0
    ensures !WholeRecords(Max(size, k * ENTRY_SIZE + w - 1))
    ensures RecordCount(Max(size, k * ENTRY_SIZE + w - 1)) == k && Straddles(k)
  {
    var p := k * ENTRY_SIZE;
    assert Max(size, p + w - 1) == p + w - 1 > 0;
    assert (p + w) / ENTRY_SIZE == k && (p + w) % ENTRY_SIZE == w;
    BlocBetween(p, p + w);
    BlocMonotone(p + w, p + ENTRY_SIZE - 1);
  }

  /** Up to the start of a block. */
  lemma BlocBetween(p: nat, q: nat)
    requires p < q && IblocOf(q) == 0
    ensures BlocOf(p) < BlocOf(q)
  {}

  /** Record k lies in two blocks. */
  predicate Straddles(k: nat) {
    BlocOf(k * ENTRY_SIZE) != BlocOf(k * ENTRY_SIZE + ENTRY_SIZE - 1)
  }

  /** A record appended to directory i, its record k, finds room. */
  predicate RecordFits(s: Store, i: nat, k: nat, free: int) {
    Fits(s, i, k * ENTRY_SIZE + ENTRY_SIZE - 1, free)
  }

  function RecordCost(s: Store, i: nat, k: nat): nat {
    Cost(s, i, PlaceOf(BlocOf(k * ENTRY_SIZE + ENTRY_SIZE - 1)))
  }

  /** An appended record that straddles two blocks begins in an allocated one. */
  lemma StraddleMapped(s: Store, i: nat, k: nat)
    requires DirOk(s, i) && k == RecordCount(Get(s, i).size) && Straddles(k)
    ensures Vmap(s, i, BlocOf(k * ENTRY_SIZE)) != 0
  {
    var p, size := k * ENTRY_SIZE, Get(s, i).size;
    assert k > 0 && size + 1 == p && BlocOf(size) == BlocOf(p);
    AllMapped(s, i, size, BlocOf(p));
  }

  /** When the bytes of a record are all written, and what they cost. */
  lemma RecordRoom(s: Store, i: nat, k: nat, bs: seq<byte>)
    requires Valid(s) && DirOk(s, i) && k <= RecordCount(Get(s, i).size) && |bs| == ENTRY_SIZE
    ensures var (t, _, ok) := WriteLoop(s, CleanFd(s, i, k * ENTRY_SIZE), bs);
      var count := RecordCount(Get(s, i).size);
      && (ok <==> k < count || RecordFits(s, i, k, s.free))
      && (ok ==> t.free == s.free - if k < count then 0 else RecordCost(s, i, k))
  {
    hide WriteLoop, Valid, Load, Vmap, Mapped, PlaceOf, Cost, BlocOf, Fits, Abs;
    var p, fd, size := k * ENTRY_SIZE, CleanFd(s, i, k * ENTRY_SIZE), Get(s, i).size;
    CleanFdOk(s, i, p);
    if k < RecordCount(size) {
      forall q: nat | p <= q < p + ENTRY_SIZE ensures Vmap(s, i, BlocOf(q)) != 0 {
        BlocMonotone(q, size);
        AllMapped(s, i, size, BlocOf(q));
      }
      MappedWriteOk(s, fd, bs);
    } else {
      if Straddles(k) { StraddleMapped(s, i, k); }
      WriteRoom(s, fd, bs);
    }
  }

  /** The whole records before a torn one. */
  lemma TornRecords(bytes: seq<byte>, size: nat, k: nat, bs: seq<byte>)
    requires |bytes| == MAX_BYTES && WholeRecords(size) && k == RecordCount(size)
    requires 0 < |bs| < ENTRY_SIZE && k * ENTRY_SIZE + |bs| <= MAX_BYTES && IblocOf(k * ENTRY_SIZE + |bs|) == 0
    ensures RecordsOf(Splice(bytes, k * ENTRY_SIZE, bs), Max(size, k * ENTRY_SIZE + |bs| - 1)) == RecordsOf(bytes, size)
  {
    hide Decode;
    TornSize(size, k, |bs|);
    var p, after := k * ENTRY_SIZE, Splice(bytes, k * ENTRY_SIZE, bs);
    forall j: nat | j < k ensures after[j * ENTRY_SIZE..j * ENTRY_SIZE + ENTRY_SIZE] ==
                                  bytes[j * ENTRY_SIZE..j * ENTRY_SIZE + ENTRY_SIZE]
    {
      assert j * ENTRY_SIZE + ENTRY_SIZE <= p;
    }
  }

  /** Writing record k of a directory, at most one past the last. It succeeds
      exactly when the record is there or there is room for its last byte, and
      the table then has it. Otherwise the whole records are as before, and a
      torn one stays behind exactly when the record straddles two blocks. */
  lemma WriteRecordSpec(s: Store, i: nat, k: nat, e: Entry)
    requires Valid(s) && DirOk(s, i) && k <= RecordCount(Get(s, i).size)
    requires e.inum < WORD && |e.field| == NAME_SIZE
    ensures var (t, r) := WriteRecord(s, i, k, e); var count := RecordCount(Get(s, i).size);
      && Valid(t) && IsDir(t, i) && OthersKept(s, t, i) && Conserved(s, t, i)
      && (r == ENTRY_SIZE || r == RETURN_FAILURE)
      && (r == ENTRY_SIZE <==> k < count || RecordFits(s, i, k, s.free))
      && (DirOk(t, i) <==> k < count || RecordFits(s, i, k, s.free) || !Straddles(k))
      && Records(t, i) == (if r == ENTRY_SIZE then SetRecord(Records(s, i), k, e) else Records(s, i))
      && (r == ENTRY_SIZE ==> t.free == s.free - if k < count then 0 else RecordCost(s, i, k))
  {
    hide WriteLoop, Close, Valid, Bytes, Load, Vmap, Conserved, OthersKept, Splice, RecordsOf, Mapped, Writec,
         PlaceOf, Cost, BlocOf, IblocOf;
    DecodeEncode(e);
    var p, fd := k * ENTRY_SIZE, CleanFd(s, i, k * ENTRY_SIZE);
    var w := WriteAtSpec(s, i, p, Encode(e));
    RecordRoom(s, i, k, Encode(e));
    WriteKeepsMapped(s, i, p, Encode(e));
    var size := Get(s, i).size;
    if w == ENTRY_SIZE {
      assert Encode(e)[..w] == Encode(e);
      RecordSpliced(Bytes(s, i), size, k, e);
    } else if w > 0 {
      TornSize(size, k, w);
      TornRecords(Bytes(s, i), size, k, Encode(e)[..w]);
    } else if Straddles(k) {
      StraddleMapped(s, i, k);
      CleanFdOk(s, i, p);
      MappedWritec(s, fd, Encode(e)[0]);
    }
  }

  /** A record in one block leaves the other blocks of the file as they were. */
  lemma RecordMaps(s: Store, i: nat, k: nat, e: Entry)
    requires Valid(s) && IsIno(s, i) && k * ENTRY_SIZE < WORD && !Straddles(k)
    requires e.inum < WORD && |e.field| == NAME_SIZE
    ensures forall fb: nat :: fb != BlocOf(k * ENTRY_SIZE) ==> Vmap(WriteRecord(s, i, k, e).0, i, fb) == Vmap(s, i, fb)
  {
    hide WriteLoop, Close, Valid, Vmap, Load, Abs;
    DecodeEncode(e);
    var p, fd := k * ENTRY_SIZE, CleanFd(s, i, k * ENTRY_SIZE);
    CleanFdOk(s, i, p);
    var (t, f, ok) := WriteLoop(s, fd, Encode(e));
    var w := WriteLoopSpec(s, fd, Encode(e));
    WriteMaps(s, fd, Encode(e));
    CloseMaps(t, f);
    forall q: nat | p <= q < p + ENTRY_SIZE ensures BlocOf(q) == BlocOf(p) {
      BlocMonotone(p, q);
      BlocMonotone(q, p + ENTRY_SIZE - 1);
    }
  }

  // ----- the operations of dir.c -----

  /** Names that directories hold: at most 15 characters, none NUL. */
  predicate NameOk(name: Name) {
    NulFree(name) && |name| < NAME_SIZE
  }

  /** There is a free record, or room to append one in `free` blocks. */
  predicate EntryFits(s: Store, i: nat, free: int) {
    NullIndex(Records(s, i)) < |Records(s, i)| || RecordFits(s, i, |Records(s, i)|, free)
  }

  function EntryCost(s: Store, i: nat): nat {
    if NullIndex(Records(s, i)) < |Records(s, i)| then 0 else RecordCost(s, i, |Records(s, i)|)
  }

  /** add_entry succeeds exactly when there is a free record or room for the
      last byte of a new one. If there is neither, the table is as before, but
      the file is no longer whole when the new record would straddle two
      blocks. */
  lemma AddEntryRoom(s: Store, i: nat, inum: nat, name: Name)
    requires Valid(s) && DirOk(s, i) && inum < WORD
    ensures var (t, ok) := AddEntry(s, i, inum, name); var rs := Records(s, i);
      && Valid(t) && IsDir(t, i) && OthersKept(s, t, i) && Conserved(s, t, i)
      && (ok <==> EntryFits(s, i, s.free))
      && (DirOk(t, i) <==> EntryFits(s, i, s.free) || !Straddles(|rs|))
      && Records(t, i) == (if ok then SetRecord(rs, NullIndex(rs), Entry(inum, Pad(name))) else rs)
      && (ok ==> t.free == s.free - EntryCost(s, i))
  {
    hide WriteRecord, Valid, OthersKept, Conserved, DirOk, RecordFits, RecordCost, Records, Straddles, Pad;
    NullFromSpec(Records(s, i), 0);
    RecordsLength(s, i);
    WriteRecordSpec(s, i, NullIndex(Records(s, i)), Entry(inum, Pad(name)));
  }

  /** add_entry of a name whose stored form is not there inserts that in the
      map of the directory; of one that is there, it makes it ambiguous. */
  lemma AddEntrySpec(s: Store, i: nat, inum: nat, name: Name)
    requires Valid(s) && DirOk(s, i) && Unique(Records(s, i)) && 0 < inum < WORD
    ensures var (t, ok) := AddEntry(s, i, inum, name); var free := Lookup(Records(s, i), CutName(name)) == 0;
      && (ok ==> DirOk(t, i) && (Unique(Records(t, i)) <==> free))
      && (ok && free ==> forall other: Name :: InumberOfBasename(t, i, other) ==
                           if other == CutName(name) then inum else InumberOfBasename(s, i, other))
  {
    hide AddEntry, Valid, OthersKept, Conserved, Records, DirOk, Unique, Lookup, Pad, Straddles, EntryFits;
    var rs, e := Records(s, i), Entry(inum, Pad(name));
    var ts := SetRecord(rs, NullIndex(rs), e);
    RecordsLength(s, i);
    AddEntryRoom(s, i, inum, name);
    if Lookup(rs, CutName(name)) == 0 {
      forall other: Name
        ensures Unique(ts) && Lookup(ts, other) == if other == CutName(name) then inum else Lookup(rs, other)
      {
        AddIsInsert(rs, e, other);
      }
      assert Unique(ts) by { AddIsInsert(rs, e, name); }
    } else {
      AddDuplicates(rs, e);
    }
  }

  lemma AddDuplicates(rs: seq<Entry>, e: Entry)
    requires e.inum != 0 && Lookup(rs, NameOf(e)) != 0
    ensures !Unique(SetRecord(rs, NullIndex(rs), e))
  {
    FindFromSpec(rs, NameOf(e), 0);
    NullFromSpec(rs, 0);
    var ts, k := SetRecord(rs, NullIndex(rs), e), Find(rs, NameOf(e));
    assert ts[k] == rs[k] && ts[NullIndex(rs)] == e;
  }

  lemma RecordsLength(s: Store, i: nat)
    requires DirOk(s, i)
    ensures |Records(s, i)| == RecordCount(Get(s, i).size) && IsDir(s, i)
  {
  }

  /** del_entry of a name that is there removes it from the map, and cannot
      fail; of another name it changes nothing and fails. */
  lemma DelEntrySpec(s: Store, i: nat, name: Name)
    requires Valid(s) && DirOk(s, i) && Unique(Records(s, i))
    ensures var (t, r) := DelEntry(s, i, name);
      && (r == if InumberOfBasename(s, i, name) != 0 then ENTRY_SIZE else RETURN_FAILURE)
      && (r == RETURN_FAILURE ==> t == s)
      && (r != RETURN_FAILURE ==>
            && Valid(t) && DirOk(t, i) && Unique(Records(t, i)) && OthersKept(s, t, i) && Conserved(s, t, i)
            && Records(t, i) == SetRecord(Records(s, i), Find(Records(s, i), name), NullEntry())
            && forall other: Name :: InumberOfBasename(t, i, other) ==
                 if other == name then 0 else InumberOfBasename(s, i, other))
  {
    hide WriteRecord, Valid, OthersKept, Conserved, Records, DirOk, Unique;
    var rs := Records(s, i);
    FindFromSpec(rs, name, 0);
    RecordsLength(s, i);
    var k := Find(rs, name);
    if k < |rs| {
      WriteRecordSpec(s, i, k, NullEntry());
      forall other: Name
        ensures var ts := SetRecord(rs, k, NullEntry());
          Unique(ts) && Lookup(ts, other) == if other == name then 0 else Lookup(rs, other)
      {
        ClearIsRemove(rs, name, other);
      }
      assert Unique(SetRecord(rs, k, NullEntry())) by { ClearIsRemove(rs, name, name); }
    }
  }

  /** A directory whose file is kept has the same table. */
  lemma DirKept(s: Store, t: Store, i: nat)
    requires FileKept(s, t, i)
    ensures Records(t, i) == Records(s, i) && (IsDir(t, i) <==> IsDir(s, i)) && (DirOk(s, i) ==> DirOk(t, i))
  {
    FileKeptBytes(s, t, i);
    if DirOk(s, i) {
      forall fb: nat | Vmap(s, i, fb) != 0 ensures Vmap(t, i, fb) != 0 {
        MappedInRange(s, i, fb);
        assert Kept(s, t, i, PlaceOf(fb));
      }
    }
  }
}
