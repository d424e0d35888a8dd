/** Who owns each block of the volume: the invariant behind src/inode.c and
    src/superbloc.c. */
module Ownership {
  import opened Disk
  import opened Inode

  /** What a block is used for: the super block, position pos of the free
      stack, an inode, or the target of slot `slot` of block `holder` in the
      tree of inode `root`; level 0 is file data, 1 a table of data blocks,
      2 a table of tables. A block in limbo is off the chain and linked nowhere. */
  datatype Role = Reserved | Free(pos: nat) | Limbo | Ino | Owned(root: nat, holder: nat, slot: nat, level: nat)

  /** The free stack is the free chain backwards: its last element is the head. */
  datatype Layout = Layout(roles: seq<Role>, stack: seq<nat>)

  function SlotCount(r: Role): nat {
    match r
    case Ino => NB_DIRECTS + 2
    case Owned(_, _, _, v) => if v == 0 then 0 else NB_PTRS
    case _ => 0
  }

  function Child(r: Role, h: nat, k: nat): Role {
    match r
    case Owned(root, _, _, v) => Owned(root, h, k, if v == 0 then 0 else v - 1)
    case _ => Owned(h, h, k, if k < NB_DIRECTS then 0 else if k == NB_DIRECTS then 1 else 2)
  }

  predicate ShapeOk(r: Role, x: Block) {
    match r
    case Reserved => x.Super?
    case Free(_) => x.FreeLink?
    case Limbo => true
    case Ino => IsInode(x)
    case Owned(_, _, _, v) => if v == 0 then IsData(x) else IsTable(x)
  }

  function Below(stack: seq<nat>, i: nat): nat
    requires i <= |stack|
  {
    if i == 0 then 0 else stack[i - 1]
  }

  ghost predicate StackOk(s: Store, l: Layout, i: nat)
    requires |l.roles| == |s.blocks| && i < |l.stack|
  {
    && 0 < l.stack[i] < |s.blocks|
    && l.roles[l.stack[i]] == Free(i)
    && s.blocks[l.stack[i]] == FreeLink(Below(l.stack, i))
  }

  ghost predicate RoleOk(s: Store, l: Layout, b: nat)
    requires |l.roles| == |s.blocks| && b < |s.blocks|
  {
    && ShapeOk(l.roles[b], s.blocks[b])
    && (l.roles[b].Reserved? <==> b == 0)
    && match l.roles[b]
       case Free(i) => i < |l.stack| && l.stack[i] == b
       case Owned(_, h, k, v) =>
         && v <= 2
         && h < |s.blocks|
         && k < SlotCount(l.roles[h])
         && l.roles[b] == Child(l.roles[h], h, k)
         && PtrAt(s.blocks[h], k) == b
       case _ => true
  }

  ghost predicate SlotOk(s: Store, l: Layout, h: nat, k: nat)
    requires |l.roles| == |s.blocks| && h < |s.blocks|
  {
    var p := PtrAt(s.blocks[h], k);
    p == 0 || (p < |s.blocks| && l.roles[p] == Child(l.roles[h], h, k))
  }

  ghost predicate Core(s: Store, l: Layout) {
    && 2 <= |s.blocks| <= 0x1_0000_0000
    && |l.roles| == |s.blocks|
    && s.blocks[0] == Super(s.first, s.free, s.root)
    && s.first == Below(l.stack, |l.stack|)
    && s.free == |l.stack|
    && (forall i: nat {:trigger StackOk(s, l, i)} :: i < |l.stack| ==> StackOk(s, l, i))
    && (forall b: nat {:trigger RoleOk(s, l, b)} :: b < |s.blocks| ==> RoleOk(s, l, b))
    && (forall h: nat, k: nat {:trigger SlotOk(s, l, h, k)} ::
          h < |s.blocks| && k < SlotCount(l.roles[h]) ==> SlotOk(s, l, h, k))
  }

  ghost predicate Inv(s: Store, l: Layout) {
    Core(s, l) && forall b: nat :: b < |l.roles| ==> !l.roles[b].Limbo?
  }

  /** Every block has exactly one use. */
  ghost predicate Valid(s: Store) {
    exists l: Layout :: Inv(s, l)
  }

  ghost predicate HolderRole(l: Layout, i: nat, p: Place, h: nat)
    requires h < |l.roles|
  {
    match p
    case Direct(_) => h == i && l.roles[h] == Ino
    case Single(_) => l.roles[h] == Owned(i, i, NB_DIRECTS, 1)
    case Double(m, _) =>
      && l.roles[h].Owned?
      && var d := l.roles[h].holder;
         && l.roles[h] == Owned(i, d, m, 1)
         && d < |l.roles| && l.roles[d] == Owned(i, i, NB_DIRECTS + 1, 2)
    case Beyond => false
  }

  /** From the inode down, each table on the way to place p is owned by the
      slot that names it, and so is the data block. */
  lemma PathRoles(s: Store, l: Layout, i: nat, p: Place)
    requires Inv(s, l) && IsIno(s, i) && InRange(p)
    ensures var (h, k) := End(s, i, p);
      && 0 < i < |s.blocks| && l.roles[i] == Ino
      && (h != 0 ==> h < |s.blocks| && k < SlotCount(l.roles[h]) && HolderRole(l, i, p, h))
      && (At(s, i, p) != 0 ==> At(s, i, p) < |s.blocks| && l.roles[At(s, i, p)] == Owned(i, h, k, 0)
                               && IsData(Get(s, At(s, i, p))))
  {
    var (h, k) := End(s, i, p);
    assert RoleOk(s, l, i);
    if p.Single? {
      assert SlotOk(s, l, i, NB_DIRECTS);
    } else if p.Double? {
      assert SlotOk(s, l, i, NB_DIRECTS + 1);
      var d := Ptr(s, i, NB_DIRECTS + 1);
      if d != 0 { assert SlotOk(s, l, d, p.k); }
    }
    if h != 0 {
      assert SlotOk(s, l, h, k);
      if At(s, i, p) != 0 { assert RoleOk(s, l, At(s, i, p)); }
    }
  }

  /** No two (file, place) pairs are recorded in the same slot. */
  lemma EndInjective(s: Store, l: Layout, i: nat, p: Place, i': nat, p': Place)
    requires Inv(s, l) && IsIno(s, i) && IsIno(s, i') && InRange(p) && InRange(p')
    requires End(s, i, p) == End(s, i', p') && End(s, i, p).0 != 0
    ensures i == i' && p == p'
  {
    PathRoles(s, l, i, p);
    PathRoles(s, l, i', p');
  }
}
