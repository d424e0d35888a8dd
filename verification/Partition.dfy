/** What the layout invariant means on the disk itself, and which operations
    keep it (src/superbloc.c, src/inode.c). */
module Partition {
  import opened Disk
  import opened Superbloc
  import opened Inode
  import opened Ownership
  import opened Reclaim

  function FreeSet(s: Store): set<nat> {
    set b: nat | b < |s.blocks| && s.blocks[b].FreeLink?
  }

  /** The inode, index tables and data blocks of file i. */
  function OwnedSet(s: Store, i: nat): set<nat> {
    set b: nat | b in Tree(s, i) && b != 0
  }

  /** Slot k of block h names block b. */
  predicate Names(s: Store, h: nat, k: nat, b: nat) {
    h != 0 && PtrAt(Get(s, h), k) == b
  }

  /** Following next_free from b, at most n links. */
  function Follow(s: Store, b: nat, n: nat): seq<nat>
    decreases n
  {
    if n == 0 || b == 0 then [] else [b] + Follow(s, NextFree(Get(s, b)), n - 1)
  }

  // ----- each block has one use -----

  lemma RootIsIno(s: Store, l: Layout, b: nat)
    requires Inv(s, l) && b < |s.blocks| && l.roles[b].Owned?
    ensures IsIno(s, l.roles[b].root) && l.roles[b].root < |s.blocks|
    decreases 3 - l.roles[b].level
  {
    assert RoleOk(s, l, b) && RoleOk(s, l, l.roles[b].holder);
    if l.roles[l.roles[b].holder].Owned? { RootIsIno(s, l, l.roles[b].holder); }
  }

  lemma OwnedIsRooted(s: Store, l: Layout, i: nat)
    requires Inv(s, l) && IsIno(s, i)
    ensures forall b: nat :: b in OwnedSet(s, i) <==> 0 < b < |s.blocks| && RootOf(l.roles[b], b) == i
  {
    TreeOnce(s, l, i);
    forall b: nat | 0 < b < |s.blocks| && RootOf(l.roles[b], b) == i ensures b in OwnedSet(s, i) {
      TreeHas(s, l, i, b);
    }
  }

  lemma FreeIsRole(s: Store, l: Layout)
    requires Inv(s, l)
    ensures forall b: nat :: b in FreeSet(s) <==> b < |s.blocks| && l.roles[b].Free?
  {
    forall b: nat | b < |s.blocks| ensures b in FreeSet(s) <==> l.roles[b].Free? {
      assert RoleOk(s, l, b);
    }
  }

  /** The blocks 1..n-1 are split between the free chain and the trees of the
      inodes, and block 0 belongs to neither. */
  lemma BlocksPartitioned(s: Store, b: nat)
    requires Valid(s) && b < |s.blocks|
    ensures b == 0 ==> b !in FreeSet(s) && forall i: nat :: IsIno(s, i) ==> b !in OwnedSet(s, i)
    ensures b in FreeSet(s) ==> forall i: nat :: IsIno(s, i) ==> b !in OwnedSet(s, i)
    ensures b != 0 && b !in FreeSet(s) ==> exists i: nat :: IsIno(s, i) && b in OwnedSet(s, i)
    ensures forall i: nat, j: nat :: IsIno(s, i) && IsIno(s, j) && b in OwnedSet(s, i) && b in OwnedSet(s, j) ==> i == j
  {
    var l :| Inv(s, l);
    FreeIsRole(s, l);
    assert RoleOk(s, l, b);
    forall i: nat | IsIno(s, i) ensures b in OwnedSet(s, i) <==> b != 0 && RootOf(l.roles[b], b) == i {
      OwnedIsRooted(s, l, i);
    }
    if b != 0 && b !in FreeSet(s) {
      if l.roles[b].Owned? { RootIsIno(s, l, b); }
      assert IsIno(s, RootOf(l.roles[b], b));
    }
  }

  /** An owned block other than an inode is named by exactly one slot of one
      inode or table, and by no slot of another file; free blocks, inodes and
      block 0 are named by none. */
  lemma NamedOnce(s: Store, b: nat)
    requires Valid(s) && 0 < b < |s.blocks|
    ensures s.blocks[b].Table? || s.blocks[b].Data? <==> exists h: nat, k: nat :: Names(s, h, k, b)
    ensures forall h: nat, k: nat, g: nat, j: nat :: Names(s, h, k, b) && Names(s, g, j, b) ==> h == g && k == j
    ensures forall h: nat, k: nat, i: nat :: Names(s, h, k, b) && IsIno(s, i) ==>
      (b in OwnedSet(s, i) <==> h in OwnedSet(s, i))
  {
    var l :| Inv(s, l);
    assert RoleOk(s, l, b);
    if l.roles[b].Owned? { assert Names(s, l.roles[b].holder, l.roles[b].slot, b); }
    forall h: nat, k: nat | Names(s, h, k, b)
      ensures h < |s.blocks| && l.roles[b] == Child(l.roles[h], h, k) && RootOf(l.roles[h], h) == l.roles[b].root
    {
      assert RoleOk(s, l, h) && SlotOk(s, l, h, k);
    }
    forall h: nat, k: nat, i: nat | Names(s, h, k, b) && IsIno(s, i)
      ensures b in OwnedSet(s, i) <==> h in OwnedSet(s, i)
    {
      OwnedIsRooted(s, l, i);
    }
  }

  // ----- the free chain -----

  function Reversed(a: seq<nat>): (r: seq<nat>)
    ensures |r| == |a| && forall i: nat :: i < |a| ==> r[i] == a[|a| - 1 - i]
  {
    seq(|a|, (i: nat) requires i < |a| => a[|a| - 1 - i])
  }

  lemma {:induction false} FollowIsStack(s: Store, l: Layout, m: nat)
    requires Core(s, l) && m <= |l.stack|
    ensures Follow(s, Below(l.stack, m), m) == Reversed(l.stack[..m])
    ensures m == |l.stack| ==> Follow(s, s.first, m + 1) == Reversed(l.stack)
    decreases m
  {
    if m > 0 {
      assert StackOk(s, l, m - 1);
      FollowIsStack(s, l, m - 1);
      assert l.stack[..m][..m - 1] == l.stack[..m - 1];
      assert Reversed(l.stack[..m]) == [l.stack[m - 1]] + Reversed(l.stack[..m - 1]);
    }
    if m == |l.stack| {
      assert l.stack[..m] == l.stack;
      FollowEnds(s, l, m, 1);
    }
  }

  /** The chain ends: following further finds nothing more. */
  lemma {:induction false} FollowEnds(s: Store, l: Layout, m: nat, more: nat)
    requires Core(s, l) && m <= |l.stack|
    ensures Follow(s, Below(l.stack, m), m + more) == Follow(s, Below(l.stack, m), m)
    decreases m
  {
    if m > 0 {
      assert StackOk(s, l, m - 1);
      FollowEnds(s, l, m - 1, more);
    }
  }

  /** From premier_libre the chain has nb_bloc_libre blocks, repeats none, ends
      there, and holds exactly the free blocks. */
  lemma ChainIsFreeSet(s: Store)
    requires Valid(s)
    ensures s.free >= 0
    ensures var c := Follow(s, s.first, s.free);
      && |c| == s.free && Follow(s, s.first, s.free + 1) == c
      && (forall i: nat, j: nat :: i < j < |c| ==> c[i] != c[j])
      && (forall b: nat :: b in c <==> b in FreeSet(s))
      && (forall b: nat :: b in c ==> 0 < b < |s.blocks|)
  {
    var l :| Inv(s, l);
    FollowIsStack(s, l, |l.stack|);
    FreeIsRole(s, l);
    assert l.stack[..|l.stack|] == l.stack;
    var c := Reversed(l.stack);
    forall i: nat | i < |c| ensures 0 < c[i] < |s.blocks| && l.roles[c[i]] == Free(|c| - 1 - i) {
      assert StackOk(s, l, |c| - 1 - i);
    }
    forall b: nat | b < |s.blocks| && l.roles[b].Free? ensures b in c {
      assert RoleOk(s, l, b);
      assert c[|c| - 1 - l.roles[b].pos] == b;
    }
  }

  lemma {:induction false} DistinctCount(c: seq<nat>, f: set<nat>)
    requires forall i: nat, j: nat :: i < j < |c| ==> c[i] != c[j]
    requires forall b: nat :: b in c <==> b in f
    ensures |f| == |c|
    decreases |c|
  {
    if c == [] {
      assert f == {};
    } else {
      var d := c[..|c| - 1];
      var x := c[|c| - 1];
      assert x in c && c == d + [x];
      DistinctCount(d, f - {x});
    }
  }

  /** nb_bloc_libre is the number of free blocks. */
  lemma FreeCount(s: Store)
    requires Valid(s)
    ensures s.free == |FreeSet(s)|
  {
    ChainIsFreeSet(s);
    DistinctCount(Follow(s, s.first, s.free), FreeSet(s));
  }
}
