/** Allocation in the three-level block map (src/inode.c, vbloc_of_fbloc). */
module Allocation {
  import opened Disk
  import opened Inode
  import opened Ownership

  /** The layout once the head of the free chain fills slot k of h. */
  function Grown(l: Layout, h: nat, k: nat): Layout
    requires h < |l.roles|
  {
    var m := |l.stack| - 1;
    if m >= 0 && l.stack[m] < |l.roles| then
      Layout(l.roles[l.stack[m] := Child(l.roles[h], h, k)], l.stack[..m])
    else l
  }

  function ZeroFor(r: Role): Block {
    if r.Owned? && r.level == 0 then ZERO_DATA else ZERO_TABLE
  }

  /** The blocks after an allocation in slot k of h. */
  lemma EnsureEffect(s: Store, l: Layout, h: nat, k: nat, z: Block)
    requires Inv(s, l) && h < |s.blocks| && k < SlotCount(l.roles[h])
    requires Ptr(s, h, k) == 0 && s.first != 0
    ensures var a := s.first; var m := |l.stack| - 1;
      && m >= 0 && l.stack[m] == a && 0 < a < |s.blocks| && l.roles[a] == Free(m) && h != 0 && h != a
      && k < Slots(s.blocks[h]) && PtrAt(s.blocks[h], k) == 0
      && Ensure(s, h, k, z) ==
         (Store(s.blocks[0 := Super(Below(l.stack, m), m, s.root)][a := z][h := SetPtr(s.blocks[h], k, a)],
                Below(l.stack, m), m, s.root), a)
  {
    var m := |l.stack| - 1;
    assert StackOk(s, l, m);
    assert RoleOk(s, l, h) && RoleOk(s, l, 0);
  }

  lemma EnsureKeepsStack(s: Store, l: Layout, h: nat, k: nat, i: nat)
    requires Inv(s, l) && h < |s.blocks| && k < SlotCount(l.roles[h])
    requires Ptr(s, h, k) == 0 && s.first != 0 && i + 1 < |l.stack|
    ensures StackOk(EnsureFor(s, l, h, k), Grown(l, h, k), i)
  {
    EnsureEffect(s, l, h, k, ZeroFor(Child(l.roles[h], h, k)));
    assert StackOk(s, l, i);
    assert RoleOk(s, l, h) && RoleOk(s, l, 0);
  }

  lemma EnsureKeepsRole(s: Store, l: Layout, h: nat, k: nat, b: nat)
    requires Inv(s, l) && h < |s.blocks| && k < SlotCount(l.roles[h])
    requires Ptr(s, h, k) == 0 && s.first != 0 && b < |s.blocks|
    ensures RoleOk(EnsureFor(s, l, h, k), Grown(l, h, k), b)
  {
    hide Ensure;
    EnsureEffect(s, l, h, k, ZeroFor(Child(l.roles[h], h, k)));
    assert RoleOk(s, l, b) && RoleOk(s, l, h) && RoleOk(s, l, 0);
    assert |l.roles| == |s.blocks|;
    hide Core, SlotOk, Inv, StackOk;
    if b != s.first && l.roles[b].Owned? {
      assert l.roles[b].holder != s.first;
      if l.roles[b].holder == h {
        assert PtrAt(SetPtr(s.blocks[h], k, s.first), l.roles[b].slot) == b;
      }
    }
  }

  lemma EnsureKeepsSlot(s: Store, l: Layout, h: nat, k: nat, g: nat, j: nat)
    requires Inv(s, l) && h < |s.blocks| && k < SlotCount(l.roles[h])
    requires Ptr(s, h, k) == 0 && s.first != 0 && g < |s.blocks| && j < SlotCount(Grown(l, h, k).roles[g])
    ensures SlotOk(EnsureFor(s, l, h, k), Grown(l, h, k), g, j)
  {
    EnsureEffect(s, l, h, k, ZeroFor(Child(l.roles[h], h, k)));
    assert RoleOk(s, l, h) && RoleOk(s, l, 0);
    if g != s.first { assert SlotOk(s, l, g, j); }
  }

  function EnsureFor(s: Store, l: Layout, h: nat, k: nat): Store
    requires h < |l.roles|
  {
    Ensure(s, h, k, ZeroFor(Child(l.roles[h], h, k))).0
  }

  lemma EnsureKeepsInv(s: Store, l: Layout, h: nat, k: nat)
    requires Inv(s, l) && h < |s.blocks| && k < SlotCount(l.roles[h])
    requires Ptr(s, h, k) == 0 && s.first != 0
    ensures Inv(EnsureFor(s, l, h, k), Grown(l, h, k))
  {
    EnsureEffect(s, l, h, k, ZeroFor(Child(l.roles[h], h, k)));
    var t, l' := EnsureFor(s, l, h, k), Grown(l, h, k);
    forall i: nat | i < |l'.stack| ensures StackOk(t, l', i) {
      EnsureKeepsStack(s, l, h, k, i);
    }
    forall b: nat | b < |t.blocks| ensures RoleOk(t, l', b) {
      EnsureKeepsRole(s, l, h, k, b);
    }
    forall g: nat, j: nat | g < |t.blocks| && j < SlotCount(l'.roles[g]) ensures SlotOk(t, l', g, j) {
      EnsureKeepsSlot(s, l, h, k, g, j);
    }
  }

  /** Place p of file i still names the same block, with the same content. */
  ghost predicate Kept(s: Store, t: Store, i: nat, p: Place) {
    && At(t, i, p) == At(s, i, p)
    && (At(s, i, p) != 0 ==> Get(t, At(s, i, p)) == Get(s, At(s, i, p)))
  }

  /** Free blocks may have joined the tree of inode i; nothing else moved. */
  ghost predicate Grows(l: Layout, m: Layout, i: nat) {
    && |m.roles| == |l.roles|
    && forall b: nat :: b < |l.roles| ==>
         m.roles[b] == l.roles[b] || (l.roles[b].Free? && m.roles[b].Owned? && m.roles[b].root == i)
  }

  /** The inodes are the same, and only the pointers of inode i changed. */
  ghost predicate HeadsKept(s: Store, t: Store, i: nat) {
    && |t.blocks| == |s.blocks| && t.root == s.root
    && (forall b: nat {:trigger IsIno(t, b)} {:trigger IsIno(s, b)} :: IsIno(t, b) <==> IsIno(s, b))
    && (forall b: nat {:trigger Get(t, b)} :: IsIno(s, b) && b != i ==> Get(t, b) == Get(s, b))
    && (IsIno(s, i) ==> Get(t, i).kind == Get(s, i).kind && Get(t, i).size == Get(s, i).size)
  }

  ghost predicate AllKept(s: Store, t: Store) {
    forall b: nat, q: Place {:trigger Kept(s, t, b, q)} :: IsIno(s, b) && InRange(q) ==> Kept(s, t, b, q)
  }

  /** Every file sees the same content everywhere, except place p of file i. */
  ghost predicate Frame(s: Store, t: Store, i: nat, p: Place) {
    && HeadsKept(s, t, i)
    && (forall b: nat, q: Place {:trigger Kept(s, t, b, q)} ::
          IsIno(s, b) && InRange(q) && (b, q) != (i, p) ==> Kept(s, t, b, q))
  }

  lemma PtrEffect(s: Store, l: Layout, h: nat, k: nat, g: nat, j: nat)
    requires Inv(s, l) && h < |s.blocks| && k < SlotCount(l.roles[h])
    requires Ptr(s, h, k) == 0 && s.first != 0
    ensures Ptr(EnsureFor(s, l, h, k), g, j) ==
            if g == h && j == k then s.first else if g == s.first then 0 else Ptr(s, g, j)
  {
    EnsureEffect(s, l, h, k, ZeroFor(Child(l.roles[h], h, k)));
    assert RoleOk(s, l, 0) && RoleOk(s, l, h);
  }

  /** The place is recorded where it was, or in the new block if its table was missing. */
  lemma EndFrame(s: Store, l: Layout, h: nat, k: nat, i: nat, p: Place)
    requires Inv(s, l) && h < |s.blocks| && k < SlotCount(l.roles[h])
    requires Ptr(s, h, k) == 0 && s.first != 0 && IsIno(s, i) && InRange(p)
    ensures var e := End(EnsureFor(s, l, h, k), i, p);
      e == End(s, i, p) || (End(s, i, p).0 == 0 && e == (s.first, End(s, i, p).1))
  {
    PathRoles(s, l, i, p);
    EnsureEffect(s, l, h, k, ZeroFor(Child(l.roles[h], h, k)));
    match p {
      case Direct(_) =>
      case Single(_) => PtrEffect(s, l, h, k, i, NB_DIRECTS);
      case Double(m, _) =>
        assert SlotOk(s, l, i, NB_DIRECTS + 1);
        PtrEffect(s, l, h, k, i, NB_DIRECTS + 1);
        PtrEffect(s, l, h, k, Ptr(s, i, NB_DIRECTS + 1), m);
        PtrEffect(s, l, h, k, s.first, m);
    }
  }

  lemma EnsureFrameAt(s: Store, l: Layout, h: nat, k: nat, i: nat, p: Place)
    requires Inv(s, l) && h < |s.blocks| && k < SlotCount(l.roles[h])
    requires Ptr(s, h, k) == 0 && s.first != 0 && IsIno(s, i) && InRange(p)
    requires End(s, i, p) != (h, k)
    ensures Kept(s, EnsureFor(s, l, h, k), i, p)
  {
    PathRoles(s, l, i, p);
    EndFrame(s, l, h, k, i, p);
    EnsureEffect(s, l, h, k, ZeroFor(Child(l.roles[h], h, k)));
    var t := EnsureFor(s, l, h, k);
    PtrEffect(s, l, h, k, End(s, i, p).0, End(s, i, p).1);
    PtrEffect(s, l, h, k, End(t, i, p).0, End(t, i, p).1);
  }

  ghost predicate StepSpec(s: Store, l: Layout, h: nat, k: nat, t: Store, v: nat, m: Layout)
    requires h < |l.roles|
  {
    var c := Child(l.roles[h], h, k);
    && c.Owned?
    && Inv(t, m) && Grows(l, m, c.root) && HeadsKept(s, t, c.root)
    && (v != 0 ==> v < |s.blocks| && m.roles[v] == c && Ptr(t, h, k) == v)
    && (v == 0 <==> Ptr(s, h, k) == 0 && s.free == 0)
    && (v == 0 || Ptr(s, h, k) != 0 ==> t == s)
    && (v != 0 && Ptr(s, h, k) == 0 ==> t.free == s.free - 1 && Get(t, v) == ZeroFor(c))
  }

  lemma StepAllocates(s: Store, l: Layout, h: nat, k: nat)
    requires Inv(s, l) && 0 < h < |s.blocks| && k < SlotCount(l.roles[h])
    requires IsIno(s, Child(l.roles[h], h, k).root) && Ptr(s, h, k) == 0 && s.first != 0
    ensures var (t, v) := Ensure(s, h, k, ZeroFor(Child(l.roles[h], h, k)));
      StepSpec(s, l, h, k, t, v, Grown(l, h, k))
  {
    hide Ensure;
    var c := Child(l.roles[h], h, k);
    EnsureEffect(s, l, h, k, ZeroFor(c));
    EnsureKeepsInv(s, l, h, k);
    assert RoleOk(s, l, h) && RoleOk(s, l, c.root) && RoleOk(s, l, 0) && RoleOk(s, l, s.first);
    PtrEffect(s, l, h, k, h, k);
    assert |l.roles| == |s.blocks| && s.free == |l.stack|;
    hide Inv, Core, SlotOk, StackOk;
  }

  /** One slot filled: the layout grows in the tree of the holder, and every
      place recorded elsewhere is kept. */
  lemma EnsureStep(s: Store, l: Layout, h: nat, k: nat) returns (m: Layout)
    requires Inv(s, l) && 0 < h < |s.blocks| && k < SlotCount(l.roles[h])
    requires IsIno(s, Child(l.roles[h], h, k).root)
    ensures var (t, v) := Ensure(s, h, k, ZeroFor(Child(l.roles[h], h, k)));
      && StepSpec(s, l, h, k, t, v, m)
      && (forall b: nat, q: Place {:trigger Kept(s, t, b, q)} ::
            IsIno(s, b) && InRange(q) && End(s, b, q) != (h, k) ==> Kept(s, t, b, q))
  {
    var t := EnsureFor(s, l, h, k);
    assert RoleOk(s, l, h) && SlotOk(s, l, h, k);
    if Ptr(s, h, k) != 0 || s.first == 0 {
      if |l.stack| > 0 { assert StackOk(s, l, |l.stack| - 1); }
      m := l;
    } else {
      m := Grown(l, h, k);
      StepAllocates(s, l, h, k);
      forall b: nat, q: Place | IsIno(s, b) && InRange(q) && End(s, b, q) != (h, k) ensures Kept(s, t, b, q) {
        EnsureFrameAt(s, l, h, k, b, q);
      }
    }
  }

  /** A new index table changes what no file sees. */
  lemma TableStep(s: Store, l: Layout, h: nat, k: nat) returns (m: Layout)
    requires Inv(s, l) && 0 < h < |s.blocks| && k < SlotCount(l.roles[h])
    requires IsIno(s, Child(l.roles[h], h, k).root) && Child(l.roles[h], h, k).level > 0
    ensures var (t, v) := Ensure(s, h, k, ZERO_TABLE); StepSpec(s, l, h, k, t, v, m) && AllKept(s, t)
  {
    m := EnsureStep(s, l, h, k);
    forall b: nat, q: Place | IsIno(s, b) && InRange(q) ensures End(s, b, q) != (h, k) {
      PathRoles(s, l, b, q);
    }
  }

  /** A new data block is seen at one place of one file. */
  lemma DataStep(s: Store, l: Layout, i: nat, p: Place) returns (m: Layout)
    requires Inv(s, l) && IsIno(s, i) && InRange(p) && End(s, i, p).0 != 0
    ensures var (h, k) := End(s, i, p); var (t, v) := Ensure(s, h, k, ZERO_DATA);
      && h < |s.blocks| && StepSpec(s, l, h, k, t, v, m) && Child(l.roles[h], h, k).root == i
      && Frame(s, t, i, p) && End(t, i, p) == (h, k) && At(t, i, p) == v
      && (At(s, i, p) == 0 && v != 0 ==> Get(t, v) == ZERO_DATA)
  {
    var (h, k) := End(s, i, p);
    PathRoles(s, l, i, p);
    m := EnsureStep(s, l, h, k);
    forall b: nat, q: Place | IsIno(s, b) && InRange(q) && (b, q) != (i, p) ensures End(s, b, q) != (h, k) {
      if End(s, b, q) == (h, k) { EndInjective(s, l, i, p, b, q); }
    }
    if At(s, i, p) == 0 && s.first != 0 {
      var d := Ptr(s, i, NB_DIRECTS + 1);
      PtrEffect(s, l, h, k, i, NB_DIRECTS);
      PtrEffect(s, l, h, k, i, NB_DIRECTS + 1);
      assert SlotOk(s, l, i, NB_DIRECTS + 1);
      if p.Double? { PtrEffect(s, l, h, k, d, p.k); }
    }
  }

  lemma KeptTrans(s: Store, t: Store, u: Store, i: nat, p: Place)
    requires IsIno(s, i) && HeadsKept(s, t, i) && AllKept(s, t) && Frame(t, u, i, p)
    ensures Frame(s, u, i, p)
  {
    forall b: nat, q: Place | IsIno(s, b) && InRange(q) && (b, q) != (i, p) ensures Kept(s, u, b, q) {
      assert Kept(s, t, b, q) && Kept(t, u, b, q);
    }
    forall b: nat | IsIno(s, b) && b != i ensures Get(u, b) == Get(s, b) {
      assert Get(t, b) == Get(s, b) && IsIno(t, b);
    }
  }

  ghost predicate EnsureSpec(s: Store, i: nat, p: Place, t: Store, v: nat) {
    && Frame(s, t, i, p)
    && (v != 0 <==> InRange(p) && Cost(s, i, p) <= s.free)
    && (At(s, i, p) != 0 ==> t == s && v == At(s, i, p))
    && (At(s, i, p) == 0 && v != 0 ==> Get(t, v) == ZERO_DATA)
    && At(t, i, p) == v
    && t.free == (if !InRange(p) then s.free else if v != 0 then s.free - Cost(s, i, p) else 0)
  }

  lemma EnsureDirect(s: Store, l: Layout, i: nat, p: Place) returns (m: Layout)
    requires Inv(s, l) && IsIno(s, i) && InRange(p) && p.Direct?
    ensures var (t, v) := EnsureAt(s, i, p); Inv(t, m) && Grows(l, m, i) && EnsureSpec(s, i, p, t, v)
  {
    assert RoleOk(s, l, i);
    m := DataStep(s, l, i, p);
  }

  lemma EnsureSingle(s: Store, l: Layout, i: nat, p: Place) returns (m: Layout)
    requires Inv(s, l) && IsIno(s, i) && InRange(p) && p.Single?
    ensures var (t, v) := EnsureAt(s, i, p); Inv(t, m) && Grows(l, m, i) && EnsureSpec(s, i, p, t, v)
  {
    assert RoleOk(s, l, i);
    m := TableStep(s, l, i, NB_DIRECTS);
    var (t, a) := Ensure(s, i, NB_DIRECTS, ZERO_TABLE);
    assert Kept(s, t, i, p);
    if a != 0 {
      m := DataStep(t, m, i, p);
      KeptTrans(s, t, EnsureAt(s, i, p).0, i, p);
    }
  }

  lemma EnsureUnderTable(s: Store, l: Layout, i: nat, p: Place) returns (m: Layout)
    requires Inv(s, l) && IsIno(s, i) && InRange(p) && p.Double? && Ptr(s, i, NB_DIRECTS + 1) != 0
    ensures var (t, v) := EnsureAt(s, i, p); Inv(t, m) && Grows(l, m, i) && EnsureSpec(s, i, p, t, v)
  {
    assert RoleOk(s, l, i) && SlotOk(s, l, i, NB_DIRECTS + 1);
    var d := Ptr(s, i, NB_DIRECTS + 1);
    m := TableStep(s, l, d, p.k);
    var (t, a) := Ensure(s, d, p.k, ZERO_TABLE);
    assert Kept(s, t, i, p);
    if a != 0 {
      assert Ptr(t, i, NB_DIRECTS + 1) == d by {
        if Ptr(s, d, p.k) == 0 { PtrEffect(s, l, d, p.k, i, NB_DIRECTS + 1); }
      }
      m := DataStep(t, m, i, p);
      KeptTrans(s, t, EnsureAt(s, i, p).0, i, p);
    }
  }

  lemma EnsureDouble(s: Store, l: Layout, i: nat, p: Place) returns (m: Layout)
    requires Inv(s, l) && IsIno(s, i) && InRange(p) && p.Double?
    ensures var (t, v) := EnsureAt(s, i, p); Inv(t, m) && Grows(l, m, i) && EnsureSpec(s, i, p, t, v)
  {
    assert RoleOk(s, l, i);
    m := TableStep(s, l, i, NB_DIRECTS + 1);
    var (t, a) := Ensure(s, i, NB_DIRECTS + 1, ZERO_TABLE);
    assert Kept(s, t, i, p);
    if a != 0 {
      assert EnsureAt(t, i, p) == EnsureAt(s, i, p);
      m := EnsureUnderTable(t, m, i, p);
      KeptTrans(s, t, EnsureAt(s, i, p).0, i, p);
    }
  }

  lemma EnsureAtInv(s: Store, l: Layout, i: nat, p: Place) returns (m: Layout)
    requires Inv(s, l) && IsIno(s, i) && (InRange(p) || p == Beyond)
    ensures var (t, v) := EnsureAt(s, i, p); Inv(t, m) && Grows(l, m, i) && EnsureSpec(s, i, p, t, v)
  {
    match p {
      case Beyond => m := l;
      case Direct(_) => m := EnsureDirect(s, l, i, p);
      case Single(_) => m := EnsureSingle(s, l, i, p);
      case Double(_, _) => m := EnsureDouble(s, l, i, p);
    }
  }
}
