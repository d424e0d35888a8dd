/** The mounted volume: blocks and super block updated in place
    (src/superbloc.c, src/inode.c). Each method is proved to do what the
    function of the same name says. */
module Volume {
  import opened Disk
  import Superbloc
  import Inode
  import opened Ownership
  import opened Allocation
  import opened Reclaim

  class Volume {
    const disk: array<Block>
    var first: nat
    var free: int
    var root: int

    ghost function St(): Store
      reads this, disk
    {
      Store(disk[..], first, free, root)
    }

    constructor (n: nat)
      ensures disk.Length == n && fresh(disk)
    {
      disk := new Block[n](_ => Data([]));
      first, free, root := 0, 0, -1;
    }

    // ----- superbloc.c -----

    method SaveSuper()
      requires disk.Length > 0
      modifies disk
      ensures St() == Superbloc.Save(old(St()))
    {
      disk[0] := Super(first, free, root);
    }

    method NewBloc() returns (b: nat)
      requires first < disk.Length
      modifies this, disk
      ensures (St(), b) == Superbloc.NewBloc(old(St()))
    {
      if first == 0 { return 0; }
      b := first;
      first := Superbloc.NextFree(disk[b]);
      free := free - 1;
      SaveSuper();
    }

    method FreeBloc(b: nat)
      requires b < disk.Length
      modifies this, disk
      ensures St() == Superbloc.FreeBloc(old(St()), b)
    {
      if b == 0 { return; }
      disk[b] := FreeLink(first);
      first := b;
      free := free + 1;
      SaveSuper();
    }

    method FreeBlocs(bs: seq<nat>)
      requires forall k: nat :: k < |bs| ==> bs[k] < disk.Length
      modifies this, disk
      ensures St() == Superbloc.FreeBlocs(old(St()), bs)
    {
      var i := 0;
      while i < |bs|
        invariant 0 <= i <= |bs|
        invariant Superbloc.FreeBlocs(St(), bs[i..]) == Superbloc.FreeBlocs(old(St()), bs)
      {
        assert bs[i..][1..] == bs[i + 1..];
        if bs[i] != 0 { FreeBloc(bs[i]); }
        i := i + 1;
      }
    }

    method InitSuper()
      requires 2 <= disk.Length
      modifies this, disk
      ensures St() == Inode.InitSuper(disk.Length)
    {
      var n := disk.Length;
      first, free, root := 1, 0, -1;
      var i := 1;
      while i < n
        invariant 1 <= i <= n
        invariant first == 1 && free == i - 1 && root == -1
        invariant forall k: nat :: 1 <= k < i ==> disk[k] == Inode.Chained(n)[k]
      {
        disk[i] := FreeLink(if i < n - 1 then i + 1 else 0);
        free := free + 1;
        i := i + 1;
      }
      SaveSuper();
      assert disk[..] == Inode.Chained(n);
      var r := CreateInode(Directory);
      root := r;
      SaveSuper();
    }

    // ----- inode.c -----

    method CreateInode(kind: Kind) returns (i: nat)
      requires first < disk.Length
      modifies this, disk
      ensures (St(), i) == Inode.CreateInode(old(St()), kind)
    {
      var directs := new nat[NB_DIRECTS];
      var k := 0;
      while k < NB_DIRECTS
        invariant 0 <= k <= NB_DIRECTS && forall j: nat :: j < k ==> directs[j] == 0
        modifies directs
      {
        directs[k] := 0;
        k := k + 1;
      }
      assert directs[..] == Zeros(NB_DIRECTS);
      i := NewBloc();
      if i != 0 { disk[i] := Inode(kind, 0, directs[..], 0, 0); }
    }

    /** Slot k of block h; when it is empty and allocate holds, a new block
        holding z is put there. */
    method Slot(h: nat, k: nat, z: Block, allocate: bool) returns (v: nat)
      requires 0 < h < disk.Length && first < disk.Length
      modifies this, disk
      ensures allocate ==> (St(), v) == Inode.Ensure(old(St()), h, k, z)
      ensures !allocate ==> St() == old(St()) && v == Inode.Ptr(St(), h, k)
    {
      v := PtrAt(disk[h], k);
      if v == 0 && allocate {
        v := NewBloc();
        if v != 0 {
          disk[v] := z;
          disk[h] := SetPtr(disk[h], k, v);
        }
      }
    }

    /** The volume block of a file block; with allocate, allocated if needed.
        Returns 0 for a hole, a full disk, or a block past the largest file. */
    method Vbloc(i: nat, fb: nat, allocate: bool) returns (v: nat)
      requires Valid(St()) && Inode.IsIno(St(), i)
      modifies this, disk
      ensures (St(), v) == Inode.Vbloc(old(St()), i, fb, allocate)
    {
      hide Valid;
      ghost var s := St();
      InodeReady(s, i);
      if fb < NB_DIRECTS {
        v := Slot(i, fb, ZERO_DATA, allocate);
        return;
      }
      var index := fb - NB_DIRECTS;
      if index < NB_PTRS {
        var t := Slot(i, NB_DIRECTS, ZERO_TABLE, allocate);
        if t == 0 { return 0; }
        if allocate { SlotReady(s, i, NB_DIRECTS); } else { TargetReady(s, i, NB_DIRECTS); }
        v := Slot(t, index, ZERO_DATA, allocate);
        return;
      }
      index := index - NB_PTRS;
      if index < NB_PTRS * NB_PTRS {
        v := DoubleSlot(i, index / NB_PTRS, index % NB_PTRS, allocate);
        return;
      }
      return 0;
    }

    /** Through the double indirect table: its entry k, then entry j of that. */
    method DoubleSlot(i: nat, k: nat, j: nat, allocate: bool) returns (v: nat)
      requires Valid(St()) && Inode.IsIno(St(), i) && k < NB_PTRS && j < NB_PTRS
      modifies this, disk
      ensures allocate ==> (St(), v) == Inode.EnsureAt(old(St()), i, Inode.Double(k, j))
      ensures !allocate ==> St() == old(St()) && v == Inode.At(St(), i, Inode.Double(k, j))
    {
      hide Valid;
      ghost var s := St();
      InodeReady(s, i);
      var d := Slot(i, NB_DIRECTS + 1, ZERO_TABLE, allocate);
      if d == 0 { return 0; }
      if allocate { SlotReady(s, i, NB_DIRECTS + 1); } else { TargetReady(s, i, NB_DIRECTS + 1); }
      var b := Slot(d, k, ZERO_TABLE, allocate);
      if b == 0 { return 0; }
      if allocate { SubSlotReady(s, i, k); } else { SubTargetReady(s, i, k); }
      v := Slot(b, j, ZERO_DATA, allocate);
    }

    /** Free the blocks of the file level by level, then its inode. */
    method DeleteInode(i: nat)
      requires Valid(St()) && Inode.IsIno(St(), i)
      modifies this, disk
      ensures St() == Inode.DeleteInode(old(St()), i)
    {
      ghost var s := St();
      InodeReady(s, i);
      TablesReady(s, i);
      var inode := disk[i];
      ghost var single, double := inode.indirect, inode.doubleIndirect;
      ghost var es := Inode.Entries(inode, NB_DIRECTS);
      ghost var ts := if single == 0 then [] else TableBranch(s, single);
      ghost var ds := if double == 0 then [] else Inode.SubTrees(s, double, NB_PTRS) + [double];
      assert Inode.Tree(s, i) == es + ts + ds + [i];
      assert inode.directs == es;
      ListInRange(s, i, [], es, ts + ds + [i]);
      FreeBlocs(inode.directs);
      if inode.indirect != 0 {
        FreeTable(i, inode.indirect, s, es, ds + [i]);
      } else {
        assert es + ts == es;
      }
      if inode.doubleIndirect != 0 {
        FreeDouble(i, inode.doubleIndirect, s, es + ts);
      } else {
        assert es + ts + ds == es + ts;
      }
      FreeBloc(i);
      FreeOne(s, es + ts + ds, i);
    }

    /** Free what table p names, and p itself. */
    method FreeTable(i: nat, p: nat, ghost s: Store, ghost done: seq<nat>, ghost todo: seq<nat>)
      requires Valid(s) && Inode.IsIno(s, i) && p != 0 && IsTable(Get(s, p))
      requires Inode.Tree(s, i) == done + TableBranch(s, p) + todo
      requires |s.blocks| == disk.Length && St() == Superbloc.FreeBlocs(s, done)
      modifies this, disk
      ensures St() == Superbloc.FreeBlocs(s, done + TableBranch(s, p))
    {
      ListInRange(s, i, done, TableBranch(s, p), todo);
      StillThere(s, i, done, TableBranch(s, p), todo, p);
      var table := disk[p];
      ghost var es := Inode.Entries(Get(s, p), NB_PTRS);
      assert table.ptrs == es;
      assert forall k: nat :: k < |es| ==> TableBranch(s, p)[k] == es[k];
      FreeBlocs(table.ptrs);
      FreeBlocsConcat(s, done, es);
      FreeBloc(p);
      FreeOne(s, done + es, p);
      assert done + es + [p] == done + TableBranch(s, p);
    }

    /** Free what the double indirect table d reaches, and d itself. */
    method FreeDouble(i: nat, d: nat, ghost s: Store, ghost done: seq<nat>)
      requires Valid(s) && Inode.IsIno(s, i) && d == Inode.Ptr(s, i, NB_DIRECTS + 1) != 0
      requires Inode.Tree(s, i) == done + (Inode.SubTrees(s, d, NB_PTRS) + [d]) + [i]
      requires |s.blocks| == disk.Length && St() == Superbloc.FreeBlocs(s, done)
      modifies this, disk
      ensures St() == Superbloc.FreeBlocs(s, done + (Inode.SubTrees(s, d, NB_PTRS) + [d]))
    {
      assert done + Inode.SubTrees(s, d, 0) == done;
      hide Valid, Inode.Tree, Inode.Entries, Superbloc.FreeBlocs, Inode.SubTrees;
      DoubleReady(s, i, d, done);
      var table := disk[d];
      var k := 0;
      while k < NB_PTRS
        invariant 0 <= k <= NB_PTRS
        invariant St() == Superbloc.FreeBlocs(s, done + Inode.SubTrees(s, d, k)) && |St().blocks| == |s.blocks|
      {
        FreeEntry(i, d, k, table.ptrs[k], s, done);
        k := k + 1;
      }
      FreeBloc(d);
      FreeOne(s, done + Inode.SubTrees(s, d, NB_PTRS), d);
      assert done + Inode.SubTrees(s, d, NB_PTRS) + [d] == done + (Inode.SubTrees(s, d, NB_PTRS) + [d]);
    }

    /** Free the table that entry k names, if there is one. */
    method FreeEntry(i: nat, d: nat, k: nat, p: nat, ghost s: Store, ghost done: seq<nat>)
      requires Valid(s) && Inode.IsIno(s, i) && d == Inode.Ptr(s, i, NB_DIRECTS + 1) != 0 && k < NB_PTRS
      requires Inode.Tree(s, i) == done + (Inode.SubTrees(s, d, NB_PTRS) + [d]) + [i]
      requires p == Inode.Ptr(s, d, k) && |s.blocks| == disk.Length
      requires St() == Superbloc.FreeBlocs(s, done + Inode.SubTrees(s, d, k))
      modifies this, disk
      ensures St() == Superbloc.FreeBlocs(s, done + Inode.SubTrees(s, d, k + 1))
    {
      ghost var before := done + Inode.SubTrees(s, d, k);
      assert done + Inode.SubTrees(s, d, k + 1) == if p != 0 then before + TableBranch(s, p) else before;
      hide Valid, Inode.Tree, Inode.Entries, Superbloc.FreeBlocs, Inode.SubTrees, TableBranch;
      TablesReady(s, i);
      if p != 0 {
        ghost var todo := SubTreesRest(s, i, d, k, done);
        FreeTable(i, p, s, before, todo);
      }
    }
  }

  /** The entries of table p, then p. */
  ghost function TableBranch(s: Store, p: nat): seq<nat> {
    Inode.Entries(Get(s, p), NB_PTRS) + [p]
  }

  // ----- freeing a list in parts -----

  lemma {:induction false} FreeBlocsConcat(s: Store, a: seq<nat>, b: seq<nat>)
    ensures Superbloc.FreeBlocs(s, a + b) == Superbloc.FreeBlocs(Superbloc.FreeBlocs(s, a), b)
    decreases |a|
  {
    if a == [] {
      assert a + b == b;
    } else {
      assert (a + b)[1..] == a[1..] + b;
      FreeBlocsConcat(Superbloc.FreeBloc(s, a[0]), a[1..], b);
    }
  }

  lemma FreeOne(s: Store, a: seq<nat>, b: nat)
    ensures Superbloc.FreeBlocs(s, a + [b]) == Superbloc.FreeBloc(Superbloc.FreeBlocs(s, a), b)
  {
    FreeBlocsConcat(s, a, [b]);
    assert [b][1..] == [];
  }

  lemma {:induction false} FreeBlocsGet(s: Store, a: seq<nat>, p: nat)
    requires p != 0 && p !in a
    ensures Get(Superbloc.FreeBlocs(s, a), p) == Get(s, p)
    ensures |Superbloc.FreeBlocs(s, a).blocks| == |s.blocks|
    decreases |a|
  {
    if a != [] { FreeBlocsGet(Superbloc.FreeBloc(s, a[0]), a[1..], p); }
  }

  lemma {:induction false} SubTreesPrefix(s: Store, d: nat, k: nat, m: nat)
    requires k <= m
    ensures Inode.SubTrees(s, d, k) <= Inode.SubTrees(s, d, m)
  {
    if k < m { SubTreesPrefix(s, d, k, m - 1); }
  }

  /** What deletion frees after entry k of the double table. */
  lemma SubTreesRest(s: Store, i: nat, d: nat, k: nat, done: seq<nat>) returns (todo: seq<nat>)
    requires k < NB_PTRS && Inode.Ptr(s, d, k) != 0
    requires Inode.Tree(s, i) == done + (Inode.SubTrees(s, d, NB_PTRS) + [d]) + [i]
    ensures Inode.Tree(s, i) == done + Inode.SubTrees(s, d, k) + TableBranch(s, Inode.Ptr(s, d, k)) + todo
  {
    hide Inode.Tree, Inode.Entries;
    SubTreesPrefix(s, d, k + 1, NB_PTRS);
    var all, upto := Inode.SubTrees(s, d, NB_PTRS), Inode.SubTrees(s, d, k + 1);
    todo := all[|upto|..] + [d] + [i];
    assert all == upto + all[|upto|..];
  }

  lemma ListInRange(s: Store, i: nat, done: seq<nat>, xs: seq<nat>, todo: seq<nat>)
    requires Valid(s) && Inode.IsIno(s, i) && Inode.Tree(s, i) == done + xs + todo
    ensures forall k: nat :: k < |xs| ==> xs[k] < |s.blocks|
  {
    var l :| Inv(s, l);
    TreeOnce(s, l, i);
    forall k: nat | k < |xs| ensures xs[k] < |s.blocks| {
      assert Inode.Tree(s, i)[|done| + k] == xs[k];
      assert xs[k] in Inode.Tree(s, i);
    }
  }

  /** A table whose turn has not come still holds its pointers. */
  lemma StillThere(s: Store, i: nat, done: seq<nat>, xs: seq<nat>, todo: seq<nat>, p: nat)
    requires Valid(s) && Inode.IsIno(s, i) && Inode.Tree(s, i) == done + xs + todo
    requires p != 0 && p in xs
    ensures p < |s.blocks| && Get(Superbloc.FreeBlocs(s, done), p) == Get(s, p)
    ensures |Superbloc.FreeBlocs(s, done).blocks| == |s.blocks|
  {
    var l :| Inv(s, l);
    TreeOnce(s, l, i);
    var t := Inode.Tree(s, i);
    var y :| 0 <= y < |xs| && xs[y] == p;
    assert t[|done| + y] == p && p in t;
    assert forall x: nat :: x < |done| ==> t[x] == done[x];
    FreeBlocsGet(s, done, p);
  }

  lemma TablesReady(s: Store, i: nat)
    requires Valid(s) && Inode.IsIno(s, i)
    ensures var t, d := Inode.Ptr(s, i, NB_DIRECTS), Inode.Ptr(s, i, NB_DIRECTS + 1);
      && (t != 0 ==> IsTable(Get(s, t))) && (d != 0 ==> IsTable(Get(s, d)))
      && (forall k: nat :: k < NB_PTRS && Inode.Ptr(s, d, k) != 0 ==> IsTable(Get(s, Inode.Ptr(s, d, k))))
  {
    var l :| Inv(s, l);
    var t, d := Inode.Ptr(s, i, NB_DIRECTS), Inode.Ptr(s, i, NB_DIRECTS + 1);
    assert RoleOk(s, l, i) && SlotOk(s, l, i, NB_DIRECTS) && SlotOk(s, l, i, NB_DIRECTS + 1);
    if t != 0 { assert RoleOk(s, l, t); }
    if d != 0 {
      assert RoleOk(s, l, d);
      forall k: nat | k < NB_PTRS && Inode.Ptr(s, d, k) != 0 ensures IsTable(Get(s, Inode.Ptr(s, d, k))) {
        assert SlotOk(s, l, d, k) && RoleOk(s, l, Inode.Ptr(s, d, k));
      }
    }
  }

  /** The double table is still there, with its pointers. */
  lemma DoubleReady(s: Store, i: nat, d: nat, done: seq<nat>)
    requires Valid(s) && Inode.IsIno(s, i) && d == Inode.Ptr(s, i, NB_DIRECTS + 1) != 0
    requires Inode.Tree(s, i) == done + (Inode.SubTrees(s, d, NB_PTRS) + [d]) + [i]
    ensures d < |s.blocks| && Get(Superbloc.FreeBlocs(s, done), d) == Get(s, d) && IsTable(Get(s, d))
    ensures |Superbloc.FreeBlocs(s, done).blocks| == |s.blocks|
  {
    hide Valid, Inode.Tree, Inode.SubTrees, Superbloc.FreeBlocs;
    TablesReady(s, i);
    var ds := Inode.SubTrees(s, d, NB_PTRS) + [d];
    assert ds[|ds| - 1] == d;
    StillThere(s, i, done, ds, [i], d);
  }

  // ----- the blocks the methods reach are on the volume -----

  lemma InodeReady(s: Store, i: nat)
    requires Valid(s) && Inode.IsIno(s, i)
    ensures 0 < i < |s.blocks| && s.first < |s.blocks| && IsInode(s.blocks[i])
  {
    var l :| Inv(s, l);
    assert RoleOk(s, l, i) && RoleOk(s, l, 0);
    if |l.stack| > 0 { assert StackOk(s, l, |l.stack| - 1); }
  }

  lemma TargetReady(s: Store, i: nat, k: nat)
    requires Valid(s) && Inode.IsIno(s, i) && NB_DIRECTS <= k < NB_DIRECTS + 2
    ensures Inode.Ptr(s, i, k) < |s.blocks|
  {
    var l :| Inv(s, l);
    assert RoleOk(s, l, i) && SlotOk(s, l, i, k);
  }

  lemma SlotReady(s: Store, i: nat, k: nat)
    requires Valid(s) && Inode.IsIno(s, i) && NB_DIRECTS <= k < NB_DIRECTS + 2
    ensures var (t, a) := Inode.Ensure(s, i, k, ZERO_TABLE);
      Valid(t) && Inode.IsIno(t, i) && a < |t.blocks| && t.first < |t.blocks| && |t.blocks| == |s.blocks|
      && (a != 0 ==> Inode.Ptr(t, i, k) == a)
  {
    var l :| Inv(s, l);
    assert RoleOk(s, l, i);
    var m := TableStep(s, l, i, k);
    var t := Inode.Ensure(s, i, k, ZERO_TABLE).0;
    assert Inode.IsIno(t, i);
    InodeReady(t, i);
  }

  lemma SubTargetReady(s: Store, i: nat, k: nat)
    requires Valid(s) && Inode.IsIno(s, i) && k < NB_PTRS
    ensures Inode.Ptr(s, Inode.Ptr(s, i, NB_DIRECTS + 1), k) < |s.blocks|
  {
    var l :| Inv(s, l);
    assert RoleOk(s, l, i) && SlotOk(s, l, i, NB_DIRECTS + 1);
    var d := Inode.Ptr(s, i, NB_DIRECTS + 1);
    if d != 0 { assert SlotOk(s, l, d, k); }
  }

  lemma SubSlotReady(s: Store, i: nat, k: nat)
    requires Valid(s) && Inode.IsIno(s, i) && k < NB_PTRS
    requires Inode.Ensure(s, i, NB_DIRECTS + 1, ZERO_TABLE).1 != 0
    ensures var (t, d) := Inode.Ensure(s, i, NB_DIRECTS + 1, ZERO_TABLE);
      var (u, b) := Inode.Ensure(t, d, k, ZERO_TABLE);
      b < |u.blocks| && u.first < |u.blocks|
  {
    var l :| Inv(s, l);
    assert RoleOk(s, l, i);
    var m := TableStep(s, l, i, NB_DIRECTS + 1);
    var (t, d) := Inode.Ensure(s, i, NB_DIRECTS + 1, ZERO_TABLE);
    assert Inode.IsIno(t, i);
    var n := TableStep(t, m, d, k);
    var u := Inode.Ensure(t, d, k, ZERO_TABLE).0;
    assert Inode.IsIno(u, i);
    InodeReady(u, i);
  }
}
