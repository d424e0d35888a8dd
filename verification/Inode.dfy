/** Inodes and the three-level block map (src/inode.c). */
module Inode {
  import opened Disk
  import opened Superbloc

  // ----- where a file block is recorded -----

  datatype Place = Direct(k: nat) | Single(k: nat) | Double(k: nat, j: nat) | Beyond

  function PlaceOf(fb: nat): (r: Place)
    ensures r.Direct? ==> r.k < NB_DIRECTS
    ensures r.Single? ==> r.k < NB_PTRS
    ensures r.Double? ==> r.k < NB_PTRS && r.j < NB_PTRS
    ensures r.Beyond? <==> fb >= NB_FBLOCS
  {
    if fb < NB_DIRECTS then Direct(fb)
    else if fb < NB_DIRECTS + NB_PTRS then Single(fb - NB_DIRECTS)
    else if fb < NB_FBLOCS then
      var q := fb - NB_DIRECTS - NB_PTRS;
      Double(q / NB_PTRS, q % NB_PTRS)
    else Beyond
  }

  lemma PlaceInjective(fb: nat, fb': nat)
    requires PlaceOf(fb) == PlaceOf(fb') && fb < NB_FBLOCS
    ensures fb == fb'
  {
  }

  /** The file block recorded at a place: the direct slots come first, then the
      entries of the table, then those of the tables of the double table. */
  function FblocAt(p: Place): nat {
    match p
    case Direct(k) => k
    case Single(k) => 124 + k
    case Double(k, j) => 124 + 128 + 128 * k + j
    case Beyond => 124 + 128 + 128 * 128
  }

  /** Each file block up to the last one has its place, and each place its file
      block. */
  lemma PlacesInOrder(fb: nat, p: Place)
    ensures fb < 124 + 128 + 128 * 128 ==> InRange(PlaceOf(fb)) && FblocAt(PlaceOf(fb)) == fb
    ensures InRange(p) ==> FblocAt(p) < 124 + 128 + 128 * 128 && PlaceOf(FblocAt(p)) == p
  {
    if p.Double? && p.k < 128 && p.j < 128 {
      assert (128 * p.k + p.j) / 128 == p.k && (128 * p.k + p.j) % 128 == p.j;
    }
  }

  function Ptr(s: Store, h: nat, k: nat): nat {
    if h == 0 then 0 else PtrAt(Get(s, h), k)
  }

  /** The block and slot where place p of inode i is recorded. */
  function End(s: Store, i: nat, p: Place): (nat, nat) {
    match p
    case Direct(k) => (i, k)
    case Single(k) => (Ptr(s, i, NB_DIRECTS), k)
    case Double(k, j) => (Ptr(s, Ptr(s, i, NB_DIRECTS + 1), k), j)
    case Beyond => (0, 0)
  }

  function At(s: Store, i: nat, p: Place): nat {
    Ptr(s, End(s, i, p).0, End(s, i, p).1)
  }

  /** The volume block of block fb of file i; 0 when it is a hole. */
  function Vmap(s: Store, i: nat, fb: nat): nat {
    At(s, i, PlaceOf(fb))
  }

  /** Slot k of block h, filled with a new block holding z when it is empty. */
  function Ensure(s: Store, h: nat, k: nat, z: Block): (Store, nat) {
    if Ptr(s, h, k) != 0 then (s, Ptr(s, h, k))
    else
      var (t, a) := NewBloc(s);
      if a == 0 then (t, 0)
      else
        var u := Put(t, a, z);
        (Put(u, h, SetPtr(Get(u, h), k, a)), a)
  }

  function EnsureAt(s: Store, i: nat, p: Place): (Store, nat) {
    match p
    case Direct(k) => Ensure(s, i, k, ZERO_DATA)
    case Single(k) =>
      var (t, a) := Ensure(s, i, NB_DIRECTS, ZERO_TABLE);
      if a == 0 then (t, 0) else Ensure(t, a, k, ZERO_DATA)
    case Double(k, j) =>
      var (t, a) := Ensure(s, i, NB_DIRECTS + 1, ZERO_TABLE);
      if a == 0 then (t, 0) else
      var (u, b) := Ensure(t, a, k, ZERO_TABLE);
      if b == 0 then (u, 0) else Ensure(u, b, j, ZERO_DATA)
    case Beyond => (s, 0)
  }

  function Vbloc(s: Store, i: nat, fb: nat, allocate: bool): (Store, nat) {
    if allocate then EnsureAt(s, i, PlaceOf(fb)) else (s, Vmap(s, i, fb))
  }

  predicate IsIno(s: Store, i: nat) {
    Get(s, i).Inode?
  }

  predicate InRange(p: Place) {
    match p
    case Direct(k) => k < NB_DIRECTS
    case Single(k) => k < NB_PTRS
    case Double(k, j) => k < NB_PTRS && j < NB_PTRS
    case Beyond => false
  }

  function Missing(s: Store, h: nat, k: nat): nat {
    if Ptr(s, h, k) == 0 then 1 else 0
  }

  /** The number of blocks needed to give place p a data block. */
  function Cost(s: Store, i: nat, p: Place): nat {
    match p
    case Direct(k) => Missing(s, i, k)
    case Single(k) => Missing(s, i, NB_DIRECTS) + Missing(s, Ptr(s, i, NB_DIRECTS), k)
    case Double(k, j) =>
      var d := Ptr(s, i, NB_DIRECTS + 1);
      Missing(s, i, NB_DIRECTS + 1) + Missing(s, d, k) + Missing(s, Ptr(s, d, k), j)
    case Beyond => 0
  }

  function NewInode(kind: Kind, size: nat): Block {
    Inode(kind, size, Zeros(NB_DIRECTS), 0, 0)
  }

  /** A new empty file; 0 when the disk is full. */
  function CreateInode(s: Store, kind: Kind): (Store, nat) {
    var (t, a) := NewBloc(s);
    if a == 0 then (t, 0) else (Put(t, a, NewInode(kind, 0)), a)
  }

  /** The first n slots of a block. */
  function Entries(x: Block, n: nat): seq<nat> {
    seq(n, (k: nat) => PtrAt(x, k))
  }

  /** What is reached through the first k entries of the double table d. */
  function SubTrees(s: Store, d: nat, k: nat): seq<nat> {
    if k == 0 then []
    else
      var t := Ptr(s, d, k - 1);
      SubTrees(s, d, k - 1) + if t == 0 then [] else Entries(Get(s, t), NB_PTRS) + [t]
  }

  /** Every block of file i, in the order in which deletion frees them; the
      zeros are empty slots. */
  function Tree(s: Store, i: nat): seq<nat> {
    var single, double := Ptr(s, i, NB_DIRECTS), Ptr(s, i, NB_DIRECTS + 1);
    Entries(Get(s, i), NB_DIRECTS)
    + (if single == 0 then [] else Entries(Get(s, single), NB_PTRS) + [single])
    + (if double == 0 then [] else SubTrees(s, double, NB_PTRS) + [double])
    + [i]
  }

  function DeleteInode(s: Store, i: nat): Store {
    FreeBlocs(s, Tree(s, i))
  }

  /** Blocks 1..n-1 chained in order, as formatting writes them. */
  function Chained(n: nat): seq<Block> {
    seq(n, (i: nat) => if i == 0 then Super(1, n - 1, -1) else FreeLink(if i < n - 1 then i + 1 else 0))
  }

  /** A formatted volume of n blocks with an empty root directory. */
  function InitSuper(n: nat): Store {
    var (t, a) := CreateInode(Store(Chained(n), 1, n - 1, -1), Directory);
    Save(t.(root := a))
  }

  function SetSize(s: Store, i: nat, size: nat): Store {
    if Get(s, i).Inode? then Put(s, i, Get(s, i).(size := size)) else s
  }
}
