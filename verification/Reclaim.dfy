/** Deletion of a file gives back its whole tree (src/inode.c, delete_inode). */
module Reclaim {
  import opened Disk
  import opened Superbloc
  import opened Inode
  import opened Ownership

  function RootOf(r: Role, b: nat): nat {
    match r
    case Ino => b
    case Owned(root, _, _, _) => root
    case _ => 0
  }

  /** The nonzero entries are pairwise distinct. */
  ghost predicate Once(bs: seq<nat>) {
    forall x: nat, y: nat :: x < y < |bs| && bs[x] != 0 ==> bs[x] != bs[y]
  }

  // ----- the list of blocks is the tree of the inode -----

  lemma EntriesOnce(s: Store, l: Layout, h: nat, n: nat)
    requires Inv(s, l) && h < |s.blocks| && n <= SlotCount(l.roles[h])
    ensures Once(Entries(Get(s, h), n))
    ensures forall p: nat :: p in Entries(Get(s, h), n) && p != 0 ==>
      p < |s.blocks| && l.roles[p].Owned? && l.roles[p] == Child(l.roles[h], h, l.roles[p].slot) && l.roles[p].slot < n
  {
    forall k: nat | k < n ensures SlotOk(s, l, h, k) {
    }
    var es := Entries(Get(s, h), n);
    assert forall k: nat :: k < n ==> SlotOk(s, l, h, k) && es[k] == PtrAt(s.blocks[h], k);
  }

  lemma OnceConcat(a: seq<nat>, b: seq<nat>)
    requires Once(a) && Once(b) && forall p: nat :: p in a && p != 0 ==> p !in b
    ensures Once(a + b)
  {
    var c := a + b;
    forall x: nat, y: nat | x < y < |c| && c[x] != 0 ensures c[x] != c[y] {
      if x < |a| { assert c[x] in a; } else { assert c[x] == b[x - |a|]; }
      if y < |a| { assert c[y] == a[y]; } else { assert c[y] == b[y - |a|]; }
    }
  }

  /** The entry of the double table above a block. */
  function Branch(l: Layout, b: nat): nat {
    if b < |l.roles| && l.roles[b].Owned? then
      if l.roles[b].level == 1 then l.roles[b].slot
      else if l.roles[b].holder < |l.roles| && l.roles[l.roles[b].holder].Owned? then l.roles[l.roles[b].holder].slot
      else 0
    else 0
  }

  predicate UnderDouble(l: Layout, i: nat, d: nat, b: nat) {
    && b < |l.roles| && l.roles[b].Owned? && l.roles[b].root == i
    && (|| (l.roles[b].level == 1 && l.roles[b].holder == d)
        || (l.roles[b].level == 0 && l.roles[b].holder < |l.roles|
            && l.roles[l.roles[b].holder].Owned? && l.roles[l.roles[b].holder].level == 1
            && l.roles[l.roles[b].holder].holder == d))
  }

  lemma {:induction false} SubTreesOnce(s: Store, l: Layout, i: nat, d: nat, k: nat)
    requires Inv(s, l) && 0 < d < |s.blocks| && l.roles[d] == Owned(i, i, NB_DIRECTS + 1, 2) && k <= NB_PTRS
    ensures Once(SubTrees(s, d, k))
    ensures forall b: nat :: b in SubTrees(s, d, k) && b != 0 ==> UnderDouble(l, i, d, b) && Branch(l, b) < k
  {
    if k > 0 {
      SubTreesOnce(s, l, i, d, k - 1);
      assert SlotOk(s, l, d, k - 1);
      var t := Ptr(s, d, k - 1);
      if t != 0 {
        EntriesOnce(s, l, t, NB_PTRS);
        var es := Entries(Get(s, t), NB_PTRS);
        OnceConcat(es, [t]);
        assert forall b: nat :: b in es + [t] && b != 0 ==> UnderDouble(l, i, d, b) && Branch(l, b) == k - 1;
        OnceConcat(SubTrees(s, d, k - 1), es + [t]);
      }
    }
  }

  lemma {:induction false} SubTreesHas(s: Store, l: Layout, i: nat, d: nat, k: nat, b: nat)
    requires Inv(s, l) && 0 < d < |s.blocks| && l.roles[d] == Owned(i, i, NB_DIRECTS + 1, 2) && k <= NB_PTRS
    requires b != 0 && UnderDouble(l, i, d, b) && Branch(l, b) < k
    ensures b in SubTrees(s, d, k)
  {
    if Branch(l, b) < k - 1 {
      SubTreesHas(s, l, i, d, k - 1, b);
    } else {
      assert RoleOk(s, l, b) && RoleOk(s, l, l.roles[b].holder);
      var t := Ptr(s, d, k - 1);
      if b != t {
        assert Entries(Get(s, t), NB_PTRS)[l.roles[b].slot] == b;
      }
    }
  }

  lemma SingleOnce(s: Store, l: Layout, i: nat)
    requires Inv(s, l) && IsIno(s, i)
    ensures var t := Ptr(s, i, NB_DIRECTS);
      && (t != 0 ==> t < |s.blocks| && l.roles[t] == Owned(i, i, NB_DIRECTS, 1)
                     && var es := Entries(Get(s, t), NB_PTRS) + [t];
                        Once(es) && forall b: nat :: b in es && b != 0 ==>
                          b < |s.blocks| && (b == t || (l.roles[b].Owned? && l.roles[b].root == i
                                                        && l.roles[b].holder == t)))
  {
    assert RoleOk(s, l, i) && SlotOk(s, l, i, NB_DIRECTS);
    var t := Ptr(s, i, NB_DIRECTS);
    if t != 0 {
      EntriesOnce(s, l, t, NB_PTRS);
      OnceConcat(Entries(Get(s, t), NB_PTRS), [t]);
    }
  }

  lemma DoubleOnce(s: Store, l: Layout, i: nat)
    requires Inv(s, l) && IsIno(s, i)
    ensures var d := Ptr(s, i, NB_DIRECTS + 1);
      && (d != 0 ==> d < |s.blocks| && l.roles[d] == Owned(i, i, NB_DIRECTS + 1, 2)
                     && var ds := SubTrees(s, d, NB_PTRS) + [d];
                        Once(ds) && forall b: nat :: b in ds && b != 0 ==> b == d || UnderDouble(l, i, d, b))
  {
    assert RoleOk(s, l, i) && SlotOk(s, l, i, NB_DIRECTS + 1);
    var d := Ptr(s, i, NB_DIRECTS + 1);
    if d != 0 {
      SubTreesOnce(s, l, i, d, NB_PTRS);
      OnceConcat(SubTrees(s, d, NB_PTRS), [d]);
    }
  }

  /** Deletion frees each block of the tree once... */
  lemma TreeOnce(s: Store, l: Layout, i: nat)
    requires Inv(s, l) && IsIno(s, i)
    ensures Once(Tree(s, i))
    ensures forall b: nat :: b in Tree(s, i) && b != 0 ==> b < |s.blocks| && RootOf(l.roles[b], b) == i
  {
    assert RoleOk(s, l, i);
    EntriesOnce(s, l, i, NB_DIRECTS);
    SingleOnce(s, l, i);
    DoubleOnce(s, l, i);
    hide Entries, SubTrees, Inv, Once;
    var t, d := Ptr(s, i, NB_DIRECTS), Ptr(s, i, NB_DIRECTS + 1);
    var es := Entries(Get(s, i), NB_DIRECTS);
    var ts := if t == 0 then [] else Entries(Get(s, t), NB_PTRS) + [t];
    var ds := if d == 0 then [] else SubTrees(s, d, NB_PTRS) + [d];
    OnceShort(i);
    OnceConcat(es, ts);
    OnceConcat(es + ts, ds);
    OnceConcat(es + ts + ds, [i]);
    assert Tree(s, i) == es + ts + ds + [i];
  }

  lemma OnceShort(i: nat)
    ensures Once([]) && Once([i])
  {}

  /** ... and misses none. */
  lemma TreeHas(s: Store, l: Layout, i: nat, b: nat)
    requires Inv(s, l) && IsIno(s, i) && 0 < b < |s.blocks| && RootOf(l.roles[b], b) == i
    ensures b in Tree(s, i)
  {
    assert RoleOk(s, l, i) && RoleOk(s, l, b);
    if b != i {
      var h, k := l.roles[b].holder, l.roles[b].slot;
      assert RoleOk(s, l, h);
      if h == i {
        if k < NB_DIRECTS { assert Entries(Get(s, i), NB_DIRECTS)[k] == b; }
      } else {
        var g := l.roles[h].holder;
        assert RoleOk(s, l, g);
        if g == i && l.roles[h].slot == NB_DIRECTS {
          assert Entries(Get(s, h), NB_PTRS)[k] == b;
        } else {
          var d := Ptr(s, i, NB_DIRECTS + 1);
          if g != i { assert RoleOk(s, l, l.roles[g].holder); }
          SubTreesHas(s, l, i, d, NB_PTRS, b);
        }
      }
    }
  }

  // ----- freeing -----

  function Freed(l: Layout, b: nat): Layout
    requires b < |l.roles|
  {
    Layout(l.roles[b := Free(|l.stack|)], l.stack + [b])
  }

  lemma FreeBlocEffect(s: Store, l: Layout, b: nat)
    requires Core(s, l) && b < |s.blocks| && l.roles[b] == Limbo
    ensures b != 0
      && FreeBloc(s, b) == Store(s.blocks[b := FreeLink(s.first)][0 := Super(b, s.free + 1, s.root)],
                                 b, s.free + 1, s.root)
  {
    assert RoleOk(s, l, b);
  }

  /** A block in limbo goes back on the chain. */
  lemma FreeStep(s: Store, l: Layout, b: nat)
    requires Core(s, l) && b < |s.blocks| && l.roles[b] == Limbo
    ensures Core(FreeBloc(s, b), Freed(l, b))
  {
    FreeBlocEffect(s, l, b);
    var t, m := FreeBloc(s, b), Freed(l, b);
    forall i: nat | i < |m.stack| ensures StackOk(t, m, i) {
      if i < |l.stack| { assert StackOk(s, l, i); }
      assert Below(m.stack, i) == if i < |l.stack| then Below(l.stack, i) else s.first;
    }
    forall c: nat | c < |t.blocks| ensures RoleOk(t, m, c) {
      assert RoleOk(s, l, c);
    }
    forall h: nat, k: nat | h < |t.blocks| && k < SlotCount(m.roles[h]) ensures SlotOk(t, m, h, k) {
      assert SlotOk(s, l, h, k) && RoleOk(s, l, h);
    }
  }

  /** The blocks of file i in limbo: its tree is cut off. */
  function CutRole(r: Role, b: nat, i: nat): Role {
    if RootOf(r, b) == i then Limbo else r
  }

  function Cut(l: Layout, i: nat): Layout {
    Layout(seq(|l.roles|, (b: nat) requires b < |l.roles| => CutRole(l.roles[b], b, i)), l.stack)
  }

  lemma CutKeepsCore(s: Store, l: Layout, i: nat)
    requires Inv(s, l) && 0 < i
    ensures Core(s, Cut(l, i))
  {
    var m := Cut(l, i);
    forall x: nat | x < |m.stack| ensures StackOk(s, m, x) {
      assert StackOk(s, l, x);
    }
    forall b: nat | b < |s.blocks| ensures RoleOk(s, m, b) {
      assert RoleOk(s, l, b);
    }
    forall h: nat, k: nat | h < |s.blocks| && k < SlotCount(m.roles[h]) ensures SlotOk(s, m, h, k) {
      assert SlotOk(s, l, h, k);
    }
  }

  /** The effect of freeing a list of blocks, all in limbo, each once. */
  lemma {:induction false} FreeBlocsSpec(s: Store, l: Layout, bs: seq<nat>) returns (m: Layout)
    requires Core(s, l) && Once(bs)
    requires forall b: nat :: b in bs && b != 0 ==> b < |s.blocks| && l.roles[b] == Limbo
    ensures var t := FreeBlocs(s, bs);
      && Core(t, m) && |t.blocks| == |s.blocks| && t.root == s.root
      && forall b: nat :: b < |s.blocks| ==>
           if b in bs && b != 0 then m.roles[b].Free?
           else m.roles[b] == l.roles[b] && (b != 0 ==> Get(t, b) == Get(s, b))
    decreases |bs|
  {
    if bs == [] { return l; }
    assert forall x: nat, y: nat :: x < y < |bs[1..]| ==> bs[1..][x] == bs[x + 1] && bs[1..][y] == bs[y + 1];
    assert forall b: nat :: b in bs <==> b == bs[0] || b in bs[1..];
    if bs[0] == 0 {
      m := FreeBlocsSpec(s, l, bs[1..]);
    } else {
      assert bs[0] in bs;
      FreeStep(s, l, bs[0]);
      FreeBlocEffect(s, l, bs[0]);
      m := FreeBlocsSpec(FreeBloc(s, bs[0]), Freed(l, bs[0]), bs[1..]);
    }
  }

  /** Deleting file i frees its tree and touches nothing else. */
  lemma DeleteInv(s: Store, l: Layout, i: nat) returns (m: Layout)
    requires Inv(s, l) && IsIno(s, i)
    ensures var t := DeleteInode(s, i);
      && Inv(t, m) && |t.blocks| == |s.blocks| && t.root == s.root
      && forall b: nat :: b < |s.blocks| ==>
           if RootOf(l.roles[b], b) == i then m.roles[b].Free?
           else m.roles[b] == l.roles[b] && (b != 0 ==> Get(t, b) == Get(s, b))
  {
    assert RoleOk(s, l, i);
    TreeOnce(s, l, i);
    CutKeepsCore(s, l, i);
    m := FreeBlocsSpec(s, Cut(l, i), Tree(s, i));
    forall b: nat | 0 < b < |s.blocks| && RootOf(l.roles[b], b) == i ensures b in Tree(s, i) {
      TreeHas(s, l, i, b);
    }
    assert RoleOk(s, l, 0);
  }
}
