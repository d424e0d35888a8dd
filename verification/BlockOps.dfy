/** What each operation on blocks and inodes does to every file of the volume
    (src/superbloc.c, src/inode.c). */
module BlockOps {
  import opened Disk
  import opened Superbloc
  import opened Inode
  import opened Ownership
  import opened Allocation
  import opened Reclaim
  import opened Partition

  /** File j has the same inode, the same blocks and the same content. */
  ghost predicate FileKept(s: Store, t: Store, j: nat) {
    && Get(t, j) == Get(s, j)
    && OwnedSet(t, j) == OwnedSet(s, j)
    && forall q: Place {:trigger Kept(s, t, j, q)} :: InRange(q) ==> Kept(s, t, j, q)
  }

  ghost predicate OthersKept(s: Store, t: Store, i: nat) {
    && |t.blocks| == |s.blocks|
    && t.root == s.root
    && (forall j: nat {:trigger FileKept(s, t, j)} :: IsIno(s, j) && j != i ==> FileKept(s, t, j))
    && (forall j: nat {:trigger IsIno(t, j)} :: IsIno(t, j) && j != i ==> IsIno(s, j))
  }

  lemma FileKeptTrans(s: Store, t: Store, u: Store, j: nat)
    requires FileKept(s, t, j) && FileKept(t, u, j)
    ensures FileKept(s, u, j)
  {
    forall q: Place | InRange(q) ensures Kept(s, u, j, q) {
      assert Kept(s, t, j, q) && Kept(t, u, j, q);
    }
  }

  lemma OthersKeptTrans(s: Store, t: Store, u: Store, i: nat)
    requires OthersKept(s, t, i) && OthersKept(t, u, i)
    ensures OthersKept(s, u, i)
  {
    forall j: nat | IsIno(s, j) && j != i ensures FileKept(s, u, j) {
      assert FileKept(s, t, j) && FileKept(t, u, j);
      FileKeptTrans(s, t, u, j);
    }
  }

  /** No block is lost: those of file i and the free ones make up the same set. */
  ghost predicate Conserved(s: Store, t: Store, i: nat) {
    FreeSet(t) + OwnedSet(t, i) == FreeSet(s) + OwnedSet(s, i)
  }

  lemma ConservedTrans(s: Store, t: Store, u: Store, i: nat)
    requires Conserved(s, t, i) && Conserved(t, u, i)
    ensures Conserved(s, u, i)
  {
  }

  lemma RootedKept(s: Store, l: Layout, t: Store, m: Layout, j: nat)
    requires Inv(s, l) && Inv(t, m) && |t.blocks| == |s.blocks| && IsIno(s, j) && IsIno(t, j)
    requires forall b: nat :: b < |s.blocks| ==> (RootOf(l.roles[b], b) == j <==> RootOf(m.roles[b], b) == j)
    ensures OwnedSet(t, j) == OwnedSet(s, j)
  {
    OwnedIsRooted(s, l, j);
    OwnedIsRooted(t, m, j);
  }

  // ----- allocation -----

  /** vbloc_of_fbloc with allocation maps at most the one file block asked
      for, to a zeroed block; everything else of every file is untouched. */
  lemma AllocateSpec(s: Store, i: nat, fb: nat)
    requires Valid(s) && IsIno(s, i)
    ensures var (t, v) := Vbloc(s, i, fb, true);
      && Valid(t) && EnsureSpec(s, i, PlaceOf(fb), t, v)
      && OthersKept(s, t, i) && Conserved(s, t, i)
  {
    var l :| Inv(s, l);
    var m := EnsureAtInv(s, l, i, PlaceOf(fb));
    var (t, v) := Vbloc(s, i, fb, true);
    assert RoleOk(s, l, i);
    forall j: nat | IsIno(s, j) && j != i ensures FileKept(s, t, j) {
      assert Get(t, j) == Get(s, j) && IsIno(t, j);
      RootedKept(s, l, t, m, j);
    }
    assert IsIno(t, i);
    FreeIsRole(s, l);
    FreeIsRole(t, m);
    OwnedIsRooted(s, l, i);
    OwnedIsRooted(t, m, i);
  }

  /** The map of vbloc_of_fbloc is injective over all files and file blocks. */
  lemma VmapInjective(s: Store, i: nat, fb: nat, j: nat, gb: nat)
    requires Valid(s) && IsIno(s, i) && IsIno(s, j)
    requires Vmap(s, i, fb) != 0 && Vmap(s, i, fb) == Vmap(s, j, gb)
    ensures i == j && fb == gb
  {
    var l :| Inv(s, l);
    PathRoles(s, l, i, PlaceOf(fb));
    PathRoles(s, l, j, PlaceOf(gb));
    EndInjective(s, l, i, PlaceOf(fb), j, PlaceOf(gb));
    PlaceInjective(fb, gb);
  }

  // ----- writing a data block, and the size of an inode -----

  lemma PutDataInv(s: Store, l: Layout, i: nat, p: Place, x: Block)
    requires Inv(s, l) && IsIno(s, i) && InRange(p) && At(s, i, p) != 0 && IsData(x)
    ensures Inv(Put(s, At(s, i, p), x), l)
  {
    PathRoles(s, l, i, p);
    var v := At(s, i, p);
    var t := Put(s, v, x);
    forall b: nat | b < |l.stack| ensures StackOk(t, l, b) { assert StackOk(s, l, b); }
    assert RoleOk(s, l, v);
    forall b: nat | b < |t.blocks| ensures RoleOk(t, l, b) {
      assert RoleOk(s, l, b);
      if l.roles[b].Owned? { assert RoleOk(s, l, l.roles[b].holder); }
    }
    forall h: nat, k: nat | h < |t.blocks| && k < SlotCount(l.roles[h]) ensures SlotOk(t, l, h, k) {
      assert SlotOk(s, l, h, k) && RoleOk(s, l, h);
    }
  }

  ghost predicate SamePtrs(s: Store, t: Store) {
    forall h: nat, k: nat {:trigger Ptr(t, h, k)} :: Ptr(t, h, k) == Ptr(s, h, k)
  }

  /** Writing the block at place p of file i changes that place only. */
  lemma PutDataSpec(s: Store, i: nat, p: Place, x: Block)
    requires Valid(s) && IsIno(s, i) && InRange(p) && At(s, i, p) != 0 && IsData(x)
    ensures var t := Put(s, At(s, i, p), x);
      && Valid(t) && OthersKept(s, t, i) && Conserved(s, t, i)
      && FreeSet(t) == FreeSet(s) && t.free == s.free
      && Get(t, i) == Get(s, i) && Get(t, At(s, i, p)) == x
      && SamePtrs(s, t)
      && (forall q: Place {:trigger Kept(s, t, i, q)} :: InRange(q) && q != p ==> Kept(s, t, i, q))
  {
    var l :| Inv(s, l);
    PutDataInv(s, l, i, p, x);
    PathRoles(s, l, i, p);
    var v := At(s, i, p);
    var t := Put(s, v, x);
    assert SamePtrs(s, t);
    forall j: nat, q: Place | IsIno(s, j) && InRange(q) && (j, q) != (i, p) ensures Kept(s, t, j, q) {
      PathRoles(s, l, j, q);
      if At(s, j, q) == v { EndInjective(s, l, i, p, j, q); }
    }
    SameLayout(s, t, l);
  }

  lemma SameLayout(s: Store, t: Store, l: Layout)
    requires Inv(s, l) && Inv(t, l)
    ensures FreeSet(t) == FreeSet(s)
    ensures forall j: nat :: IsIno(s, j) ==> IsIno(t, j) && OwnedSet(t, j) == OwnedSet(s, j)
    ensures forall j: nat :: IsIno(t, j) ==> IsIno(s, j)
  {
    FreeIsRole(s, l);
    FreeIsRole(t, l);
    forall j: nat | j < |s.blocks| ensures IsIno(s, j) <==> IsIno(t, j) {
      assert RoleOk(s, l, j) && RoleOk(t, l, j);
    }
    forall j: nat | IsIno(s, j) ensures OwnedSet(t, j) == OwnedSet(s, j) {
      RootedKept(s, l, t, l, j);
    }
  }

  /** Setting the size of a file changes nothing else. */
  lemma SetSizeSpec(s: Store, i: nat, size: nat)
    requires Valid(s) && IsIno(s, i)
    ensures var t := SetSize(s, i, size);
      && Valid(t) && OthersKept(s, t, i) && Conserved(s, t, i)
      && FreeSet(t) == FreeSet(s) && t.free == s.free
      && Get(t, i) == Get(s, i).(size := size)
      && (forall q: Place {:trigger Kept(s, t, i, q)} :: InRange(q) ==> Kept(s, t, i, q))
  {
    var l :| Inv(s, l);
    var t := SetSize(s, i, size);
    assert RoleOk(s, l, i);
    assert forall k: nat :: PtrAt(Get(t, i), k) == PtrAt(Get(s, i), k);
    assert forall h: nat, k: nat :: Ptr(t, h, k) == Ptr(s, h, k);
    forall b: nat | b < |l.stack| ensures StackOk(t, l, b) { assert StackOk(s, l, b); }
    forall b: nat | b < |t.blocks| ensures RoleOk(t, l, b) { assert RoleOk(s, l, b); }
    forall h: nat, k: nat | h < |t.blocks| && k < SlotCount(l.roles[h]) ensures SlotOk(t, l, h, k) {
      assert SlotOk(s, l, h, k);
    }
    assert Inv(t, l);
    forall j: nat, q: Place | IsIno(s, j) && InRange(q) ensures Kept(s, t, j, q) {
      PathRoles(s, l, j, q);
      assert At(t, j, q) == At(s, j, q);
    }
    SameLayout(s, t, l);
  }

  // ----- creation and deletion of files -----

  function Rooted(l: Layout): Layout {
    var m := |l.stack| - 1;
    if m >= 0 && l.stack[m] < |l.roles| then Layout(l.roles[l.stack[m] := Ino], l.stack[..m]) else l
  }

  lemma CreateInv(s: Store, l: Layout, kind: Kind)
    requires Inv(s, l) && s.first != 0
    ensures var (t, a) := CreateInode(s, kind); var m := |l.stack| - 1;
      && m >= 0 && a == s.first == l.stack[m] < |s.blocks| && l.roles[a] == Free(m)
      && t == Store(s.blocks[0 := Super(Below(l.stack, m), m, s.root)][a := NewInode(kind, 0)],
                    Below(l.stack, m), m, s.root)
      && Inv(t, Rooted(l))
  {
    var m := |l.stack| - 1;
    var a := s.first;
    assert StackOk(s, l, m) && RoleOk(s, l, 0);
    var t, l' := CreateInode(s, kind).0, Rooted(l);
    forall i: nat | i < m ensures StackOk(t, l', i) { assert StackOk(s, l, i); }
    forall b: nat | b < |t.blocks| ensures RoleOk(t, l', b) {
      assert RoleOk(s, l, b);
    }
    forall h: nat, k: nat | h < |t.blocks| && k < SlotCount(l'.roles[h]) ensures SlotOk(t, l', h, k) {
      if h != a { assert SlotOk(s, l, h, k) && RoleOk(s, l, h); }
    }
  }

  /** A new inode has no pointers, and those of the others stay. */
  lemma CreatePtrs(s: Store, kind: Kind)
    requires Valid(s)
    ensures SamePtrs(s, CreateInode(s, kind).0)
  {
    var l :| Inv(s, l);
    if s.first != 0 {
      CreateInv(s, l, kind);
      var m := |l.stack| - 1;
      assert StackOk(s, l, m) && RoleOk(s, l, 0);
    }
  }

  lemma CreateKeeps(s: Store, l: Layout, kind: Kind, j: nat)
    requires Inv(s, l) && s.first != 0 && IsIno(s, j) && j != s.first
    ensures FileKept(s, CreateInode(s, kind).0, j)
  {
    CreateInv(s, l, kind);
    var t, m := CreateInode(s, kind).0, Rooted(l);
    assert RoleOk(s, l, j);
    RootedKept(s, l, t, m, j);
    forall q: Place | InRange(q) ensures Kept(s, t, j, q) {
      CreateFrameAt(s, l, kind, j, q);
    }
  }

  /** A new inode is empty, takes one free block and touches no other file;
      creation fails exactly when the disk is full. */
  lemma CreateSpec(s: Store, kind: Kind)
    requires Valid(s)
    ensures var (t, i) := CreateInode(s, kind);
      && Valid(t) && (i == 0 <==> s.free == 0) && (i == 0 ==> t == s)
      && (i != 0 ==>
            && i in FreeSet(s) && FreeSet(t) == FreeSet(s) - {i} && t.free == s.free - 1
            && Get(t, i) == NewInode(kind, 0) && OwnedSet(t, i) == {i}
            && (forall q: Place :: InRange(q) ==> At(t, i, q) == 0)
            && OthersKept(s, t, i))
  {
    var l :| Inv(s, l);
    if |l.stack| > 0 { assert StackOk(s, l, |l.stack| - 1); }
    if s.first != 0 {
      CreateInv(s, l, kind);
      var (t, i) := CreateInode(s, kind);
      var m := Rooted(l);
      FreeIsRole(s, l);
      FreeIsRole(t, m);
      OwnedIsRooted(t, m, i);
      assert RoleOk(s, l, i);
      forall b: nat | b < |s.blocks| && l.roles[b].Owned? ensures l.roles[b].root != i {
        RootIsIno(s, l, b);
      }
      forall j: nat | IsIno(s, j) && j != i ensures FileKept(s, t, j) { CreateKeeps(s, l, kind, j); }
    }
  }

  lemma CreateFrameAt(s: Store, l: Layout, kind: Kind, j: nat, q: Place)
    requires Inv(s, l) && s.first != 0 && IsIno(s, j) && InRange(q)
    ensures Kept(s, CreateInode(s, kind).0, j, q)
  {
    CreateInv(s, l, kind);
    PathRoles(s, l, j, q);
    assert RoleOk(s, l, 0);
    assert SlotOk(s, l, j, NB_DIRECTS + 1);
  }

  /** delete_inode returns to the chain exactly the blocks of the file, each
      once, and touches no other file. */
  lemma DeleteSpec(s: Store, i: nat)
    requires Valid(s) && IsIno(s, i)
    ensures var t := DeleteInode(s, i);
      && Valid(t) && OthersKept(s, t, i) && !IsIno(t, i)
      && FreeSet(s) !! OwnedSet(s, i) && FreeSet(t) == FreeSet(s) + OwnedSet(s, i)
      && t.free == s.free + |OwnedSet(s, i)|
  {
    hide Tree, FreeBlocs;
    var l :| Inv(s, l);
    var t := DeleteInode(s, i);
    var m := DeleteInv(s, l, i);
    FreeIsRole(s, l);
    FreeIsRole(t, m);
    OwnedIsRooted(s, l, i);
    assert RoleOk(s, l, i) && RoleOk(t, m, i) && RoleOk(s, l, 0);
    FreeCount(s);
    FreeCount(t);
    forall j: nat | IsIno(s, j) && j != i ensures FileKept(s, t, j) { DeleteKeeps(s, l, i, j); }
    forall j: nat | IsIno(t, j) && j != i ensures IsIno(s, j) {
      assert RoleOk(t, m, j) && RoleOk(s, l, j);
    }
  }

  lemma DeleteKeeps(s: Store, l: Layout, i: nat, j: nat)
    requires Inv(s, l) && IsIno(s, i) && IsIno(s, j) && j != i
    ensures FileKept(s, DeleteInode(s, i), j)
  {
    hide Tree, FreeBlocs;
    var t := DeleteInode(s, i);
    var m := DeleteInv(s, l, i);
    assert RoleOk(s, l, j);
    assert Get(t, j) == Get(s, j);
    RootedKept(s, l, t, m, j);
    forall q: Place | InRange(q) ensures Kept(s, t, j, q) {
      DeleteFrameAt(s, l, i, j, q);
    }
  }

  lemma DeleteFrameAt(s: Store, l: Layout, i: nat, j: nat, q: Place)
    requires Inv(s, l) && IsIno(s, i) && IsIno(s, j) && j != i && InRange(q)
    ensures Kept(s, DeleteInode(s, i), j, q)
  {
    var m := DeleteInv(s, l, i);
    PathRoles(s, l, j, q);
    assert SlotOk(s, l, j, NB_DIRECTS) && SlotOk(s, l, j, NB_DIRECTS + 1);
  }

  /** Create, fill and delete restores the set of free blocks: each operation
      on the file conserves its blocks and the free ones. */
  lemma CreateFillDelete(s: Store, kind: Kind, u: Store)
    requires Valid(s) && Valid(u) && s.free > 0
    requires var (t, i) := CreateInode(s, kind); Conserved(t, u, i) && IsIno(u, i)
    ensures FreeSet(DeleteInode(u, CreateInode(s, kind).1)) == FreeSet(s)
    ensures DeleteInode(u, CreateInode(s, kind).1).free == s.free
  {
    CreateSpec(s, kind);
    var i := CreateInode(s, kind).1;
    DeleteSpec(u, i);
    FreeCount(s);
    FreeCount(DeleteInode(u, i));
  }

  // ----- formatting -----

  function FreshLayout(n: nat): Layout
    requires n >= 1
  {
    Layout(seq(n, (b: nat) => if b == 0 then Reserved else Free(if b < n then n - 1 - b else 0)),
           seq(n - 1, (i: nat) => if i < n then n - 1 - i else 0))
  }

  lemma ChainedInv(n: nat)
    requires 2 <= n <= 0x1_0000_0000
    ensures Inv(Store(Chained(n), 1, n - 1, -1), FreshLayout(n))
  {
    var s, l := Store(Chained(n), 1, n - 1, -1), FreshLayout(n);
    forall i: nat | i < n - 1 ensures StackOk(s, l, i) {}
    forall b: nat | b < n ensures RoleOk(s, l, b) {}
  }

  lemma SetRootInv(s: Store, l: Layout, root: int)
    requires Inv(s, l)
    ensures Inv(Save(s.(root := root)), l)
  {
    var t := Save(s.(root := root));
    assert RoleOk(s, l, 0);
    forall i: nat | i < |l.stack| ensures StackOk(t, l, i) { assert StackOk(s, l, i); }
    forall b: nat | b < |s.blocks| ensures RoleOk(t, l, b) { assert RoleOk(s, l, b); }
    forall h: nat, k: nat | h < |s.blocks| && k < SlotCount(l.roles[h]) ensures SlotOk(t, l, h, k) {
      assert SlotOk(s, l, h, k);
    }
  }

  lemma FreshChain(s: Store, n: nat)
    requires 2 <= n && Core(s, Rooted(FreshLayout(n)))
    ensures Follow(s, s.first, n) == seq(n - 2, (k: nat) => k + 2)
  {
    var m := Rooted(FreshLayout(n));
    FollowIsStack(s, m, n - 2);
    FollowEnds(s, m, n - 2, 2);
    assert m.stack[..n - 2] == m.stack;
    assert Reversed(m.stack) == seq(n - 2, (k: nat) => k + 2);
  }

  /** After formatting, block 1 is the empty root directory and the chain is
      2, 3, ..., n-1. */
  lemma InitSuperSpec(n: nat)
    requires 2 <= n <= 0x1_0000_0000
    ensures var s := InitSuper(n);
      && Valid(s) && |s.blocks| == n && s.root == 1 && s.free == n - 2
      && Get(s, 1) == NewInode(Directory, 0) && OwnedSet(s, 1) == {1}
      && (forall i: nat :: IsIno(s, i) <==> i == 1)
      && Follow(s, s.first, n) == seq(n - 2, (k: nat) => k + 2)
  {
    var s0 := Store(Chained(n), 1, n - 1, -1);
    var l := FreshLayout(n);
    ChainedInv(n);
    CreateInv(s0, l, Directory);
    SetRootInv(CreateInode(s0, Directory).0, Rooted(l), 1);
    var s, m := InitSuper(n), Rooted(l);
    OwnedIsRooted(s, m, 1);
    FreshChain(s, n);
    forall i: nat | i < n ensures IsIno(s, i) <==> i == 1 { assert RoleOk(s, m, i); }
  }

  lemma PopPushed(s: Store, b: nat)
    requires 0 < b < |s.blocks|
    ensures var (t, a) := NewBloc(FreeBloc(s, b));
      && a == b && t.first == s.first && t.free == s.free
      && Get(t, 0) == Super(s.first, s.free, s.root)
      && forall c: nat :: c != b && c != 0 ==> Get(t, c) == Get(s, c)
  {}

  /** new_bloc right after free_bloc gives the freed block back and restores
      the chain, whatever block in use it was. */
  lemma FreeThenNew(s: Store, b: nat)
    requires Valid(s) && 0 < b < |s.blocks| && b !in FreeSet(s)
    ensures var (t, a) := NewBloc(FreeBloc(s, b));
      && a == b && t.first == s.first && t.free == s.free
      && Follow(t, t.first, t.free) == Follow(s, s.first, s.free)
      && forall c: nat :: c != b ==> Get(t, c) == Get(s, c)
  {
    hide NewBloc, FreeBloc, RoleOk, SlotOk;
    var l :| Inv(s, l);
    PopPushed(s, b);
    var t := NewBloc(FreeBloc(s, b)).0;
    forall i: nat | i < |l.stack| ensures Get(t, l.stack[i]) == Get(s, l.stack[i]) {
      assert StackOk(s, l, i);
    }
    FollowFrame(s, l, t, |l.stack|);
  }

  lemma {:induction false} FollowFrame(s: Store, l: Layout, t: Store, m: nat)
    requires Core(s, l) && m <= |l.stack|
    requires forall i: nat :: i < |l.stack| ==> Get(t, l.stack[i]) == Get(s, l.stack[i])
    ensures Follow(t, Below(l.stack, m), m) == Follow(s, Below(l.stack, m), m)
    decreases m
  {
    if m > 0 {
      assert StackOk(s, l, m - 1);
      FollowFrame(s, l, t, m - 1);
    }
  }
}
