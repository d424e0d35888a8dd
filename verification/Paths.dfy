/** The directory tree: path walk, creation and deletion (src/dir.c, src/file.c). */
module Paths {
  import opened Disk
  import opened PathText
  import opened Inode
  import opened Ownership
  import opened Partition
  import opened BlockOps
  import opened Ifile
  import opened Directories
  import opened Room

  type Path = seq<byte>

  /** Look up the components one after the other; 0 when one is missing. */
  function Walk(s: Store, i: nat, names: seq<Name>): nat
    decreases |names|
  {
    if names == [] then i
    else
      var j := InumberOfBasename(s, i, names[0]);
      if j == 0 then 0 else Walk(s, j, names[1..])
  }

  predicate Absolute(path: Path) {
    path != [] && path[0] == SLASH
  }

  function Root(s: Store): nat {
    if s.root < 0 then 0 else s.root
  }

  function InumberOfPath(s: Store, path: Path): nat {
    if Absolute(path) then Walk(s, Root(s), Components(path)) else 0
  }

  /** The directory that holds the last entry of the path; 0 if there is none. */
  function DinumberOfPath(s: Store, path: Path): nat {
    if !Absolute(path) then 0
    else
      var d := InumberOfPath(s, Dirname(path));
      if IsDir(s, d) then d else 0
  }

  function CreateFile(s: Store, path: Path, kind: Kind): (Store, int) {
    var d := DinumberOfPath(s, path);
    if d == 0 || InumberOfPath(s, path) != 0 then (s, RETURN_FAILURE)
    else
      var (t, i) := CreateInode(s, kind);
      if i == 0 then (t, RETURN_FAILURE)
      else
        var (u, ok) := AddEntry(t, d, i, Basename(path));
        (u, if ok then i else RETURN_FAILURE)
  }

  /** As written, only the entry goes: the inode keeps its blocks. */
  function DeleteFile(s: Store, path: Path): (Store, int) {
    var d := DinumberOfPath(s, path);
    if d == 0 then (s, RETURN_FAILURE) else DelEntry(s, d, Basename(path))
  }

  // ----- the tree invariant -----

  predicate EntryLinks(s: Store, e: Entry) {
    e.inum != 0 ==> IsIno(s, e.inum)
  }

  predicate EntryNamed(e: Entry) {
    e.inum != 0 ==> IsComponent(NameOf(e)) && NameOk(NameOf(e))
  }

  /** A whole table of records that lead to inodes. */
  ghost predicate TableLinks(s: Store, d: nat) {
    DirOk(s, d) && forall k: nat :: k < |Records(s, d)| ==> EntryLinks(s, Records(s, d)[k])
  }

  /** Its names are unique and well formed. */
  ghost predicate TableNames(s: Store, d: nat) {
    Unique(Records(s, d)) && forall k: nat :: k < |Records(s, d)| ==> EntryNamed(Records(s, d)[k])
  }

  ghost predicate TableOk(s: Store, d: nat) {
    TableLinks(s, d) && TableNames(s, d)
  }

  /** Paths can be walked: the root is a directory, and every directory is a
      table of whole records that lead to inodes. */
  ghost predicate Walkable(s: Store) {
    && Valid(s) && s.root > 0 && IsDir(s, Root(s))
    && forall d: nat {:trigger TableLinks(s, d)} :: IsDir(s, d) ==> TableLinks(s, d)
  }

  /** No inode is named twice, and the root not at all. */
  ghost predicate LinkedOnce(s: Store) {
    && (forall d: nat, x: Name, e: nat, y: Name {:trigger InumberOfBasename(s, d, x), InumberOfBasename(s, e, y)} ::
          InumberOfBasename(s, d, x) == InumberOfBasename(s, e, y) != 0 ==> d == e && x == y)
    && (forall d: nat, x: Name {:trigger InumberOfBasename(s, d, x)} ::
          InumberOfBasename(s, d, x) != 0 ==> InumberOfBasename(s, d, x) != Root(s))
  }

  /** The directories form a tree under the root, apart from what no path
      leads to, with unique, well-formed names. */
  ghost predicate TreeOk(s: Store) {
    && Walkable(s) && LinkedOnce(s)
    && forall d: nat {:trigger TableNames(s, d)} :: IsDir(s, d) ==> TableNames(s, d)
  }

  /** The walk never takes the entry `name` of directory d. */
  predicate NotThrough(s: Store, i: nat, names: seq<Name>, d: nat, name: Name)
    decreases |names|
  {
    names == [] || (!(i == d && names[0] == name)
      && (InumberOfBasename(s, i, names[0]) == 0
          || NotThrough(s, InumberOfBasename(s, i, names[0]), names[1..], d, name)))
  }

  /** The lookups of t are those of s except for one entry of d. */
  ghost predicate OneEntry(s: Store, t: Store, d: nat, name: Name) {
    forall i: nat, n: Name {:trigger InumberOfBasename(t, i, n)} ::
      (i, n) != (d, name) ==> InumberOfBasename(t, i, n) == InumberOfBasename(s, i, n)
  }

  ghost predicate SameLookups(s: Store, t: Store) {
    forall i: nat, n: Name {:trigger InumberOfBasename(t, i, n)} ::
      InumberOfBasename(t, i, n) == InumberOfBasename(s, i, n)
  }

  lemma LookupIsIno(s: Store, i: nat, name: Name)
    requires Walkable(s) && InumberOfBasename(s, i, name) != 0
    ensures IsIno(s, InumberOfBasename(s, i, name)) && IsDir(s, i)
  {
    assert TableLinks(s, i);
    FindFromSpec(Records(s, i), name, 0);
    assert EntryLinks(s, Records(s, i)[Find(Records(s, i), name)]);
  }

  lemma LookupIsNamed(s: Store, i: nat, name: Name)
    requires TreeOk(s) && InumberOfBasename(s, i, name) != 0
    ensures IsComponent(name) && NameOk(name)
  {
    assert TableNames(s, i);
    FindFromSpec(Records(s, i), name, 0);
    assert EntryNamed(Records(s, i)[Find(Records(s, i), name)]);
  }

  lemma {:induction false} WalkIsIno(s: Store, i: nat, names: seq<Name>)
    requires Walkable(s) && IsIno(s, i) && Walk(s, i, names) != 0
    ensures IsIno(s, Walk(s, i, names))
    decreases |names|
  {
    if names != [] {
      LookupIsIno(s, i, names[0]);
      WalkIsIno(s, InumberOfBasename(s, i, names[0]), names[1..]);
    }
  }

  /** A walk that does not take the changed entry leads to the same place. */
  lemma {:induction false} WalkKept(s: Store, t: Store, i: nat, names: seq<Name>, d: nat, name: Name)
    requires OneEntry(s, t, d, name) && NotThrough(s, i, names, d, name)
    ensures Walk(t, i, names) == Walk(s, i, names)
    decreases |names|
  {
    if names != [] {
      var j := InumberOfBasename(s, i, names[0]);
      assert InumberOfBasename(t, i, names[0]) == j;
      if j != 0 { WalkKept(s, t, j, names[1..], d, name); }
    }
  }

  lemma {:induction false} WalkSame(s: Store, t: Store, i: nat, names: seq<Name>)
    requires SameLookups(s, t)
    ensures Walk(t, i, names) == Walk(s, i, names)
    decreases |names|
  {
    if names != [] {
      var j := InumberOfBasename(s, i, names[0]);
      assert InumberOfBasename(t, i, names[0]) == j;
      if j != 0 { WalkSame(s, t, j, names[1..]); }
    }
  }

  lemma {:induction false} WalkConcat(s: Store, i: nat, a: seq<Name>, b: seq<Name>)
    requires i != 0
    ensures Walk(s, i, a + b) == if Walk(s, i, a) == 0 then 0 else Walk(s, Walk(s, i, a), b)
    decreases |a|
  {
    if a == [] {
      assert a + b == b;
    } else {
      assert (a + b)[1..] == a[1..] + b;
      var j := InumberOfBasename(s, i, a[0]);
      if j != 0 { WalkConcat(s, j, a[1..], b); }
    }
  }

  lemma WalkLast(s: Store, i: nat, a: seq<Name>, n: Name)
    requires i != 0
    ensures Walk(s, i, a + [n]) == if Walk(s, i, a) == 0 then 0 else InumberOfBasename(s, Walk(s, i, a), n)
  {
    WalkConcat(s, i, a, [n]);
    assert [n][1..] == [];
  }

  lemma WalkInit(s: Store, i: nat, a: seq<Name>)
    requires i != 0 && a != []
    ensures var init, n := a[..|a| - 1], a[|a| - 1];
      && a == init + [n]
      && Walk(s, i, a) == if Walk(s, i, init) == 0 then 0 else InumberOfBasename(s, Walk(s, i, init), n)
  {
    assert a == a[..|a| - 1] + [a[|a| - 1]];
    WalkLast(s, i, a[..|a| - 1], a[|a| - 1]);
  }

  // ----- each inode has one path -----

  /** Two walks from the root to the same place take the same names. */
  lemma {:induction false} OnePath(s: Store, a: seq<Name>, b: seq<Name>)
    requires LinkedOnce(s) && Root(s) != 0 && Walk(s, Root(s), a) == Walk(s, Root(s), b) != 0
    ensures a == b
    decreases |a| + |b|
  {
    assert Walk(s, Root(s), []) == Root(s);
    hide InumberOfBasename, Walk;
    if a != [] { WalkInit(s, Root(s), a); }
    if b != [] { WalkInit(s, Root(s), b); }
    if a != [] && b != [] { OnePath(s, a[..|a| - 1], b[..|b| - 1]); }
  }

  /** A walk takes an entry exactly where it reaches its directory. */
  lemma {:induction false} ThroughAt(s: Store, i: nat, names: seq<Name>, d: nat, name: Name) returns (k: nat)
    requires i != 0 && !NotThrough(s, i, names, d, name)
    ensures k < |names| && Walk(s, i, names[..k]) == d && names[k] == name
    decreases |names|
  {
    if i == d && names[0] == name {
      k := 0;
    } else {
      var k' := ThroughAt(s, InumberOfBasename(s, i, names[0]), names[1..], d, name);
      k := k' + 1;
      assert names[..k][1..] == names[1..][..k'];
    }
  }

  lemma {:induction false} ThroughHere(s: Store, i: nat, names: seq<Name>, k: nat, d: nat, name: Name)
    requires k < |names| && d != 0 && Walk(s, i, names[..k]) == d && names[k] == name
    ensures !NotThrough(s, i, names, d, name)
    decreases k
  {
    if k > 0 {
      assert names[..k][1..] == names[1..][..k - 1];
      ThroughHere(s, InumberOfBasename(s, i, names[0]), names[1..], k - 1, d, name);
    }
  }

  /** The paths that go through an entry are those that extend its path. */
  lemma ThroughIsPrefix(s: Store, a: seq<Name>, name: Name, names: seq<Name>)
    requires LinkedOnce(s) && Root(s) != 0 && Walk(s, Root(s), a) != 0
    ensures NotThrough(s, Root(s), names, Walk(s, Root(s), a), name) <==> !(a + [name] <= names)
  {
    hide InumberOfBasename, Walk;
    var d := Walk(s, Root(s), a);
    if !NotThrough(s, Root(s), names, d, name) {
      var k := ThroughAt(s, Root(s), names, d, name);
      OnePath(s, names[..k], a);
      assert a + [name] == names[..k + 1];
    }
    if a + [name] <= names {
      assert names[..|a|] == a && names[|a|] == name;
      ThroughHere(s, Root(s), names, |a|, d, name);
    }
  }

  /** A walk through an entry that is missing fails. */
  lemma {:induction false} ThroughMissing(s: Store, i: nat, names: seq<Name>, d: nat, name: Name)
    requires InumberOfBasename(s, d, name) == 0 && !NotThrough(s, i, names, d, name)
    ensures Walk(s, i, names) == 0
    decreases |names|
  {
    var j := InumberOfBasename(s, i, names[0]);
    if j != 0 { ThroughMissing(s, j, names[1..], d, name); }
  }

  // ----- what a change to one file does to the tables -----

  lemma TableKept(s: Store, t: Store, d: nat)
    requires FileKept(s, t, d)
    ensures IsDir(t, d) <==> IsDir(s, d)
    ensures Records(t, d) == Records(s, d) && (DirOk(s, d) ==> DirOk(t, d))
    ensures TableNames(t, d) <==> TableNames(s, d)
    ensures forall n: Name :: InumberOfBasename(t, d, n) == InumberOfBasename(s, d, n)
  {
    hide DirOk, Unique, Records;
    DirKept(s, t, d);
  }

  lemma LinksKept(s: Store, t: Store, d: nat)
    requires TableLinks(s, d) && FileKept(s, t, d) && forall j: nat :: IsIno(s, j) ==> IsIno(t, j)
    ensures TableLinks(t, d)
  {
    hide DirOk, Records, FileKept;
    DirKept(s, t, d);
    forall k: nat | k < |Records(t, d)| ensures EntryLinks(t, Records(t, d)[k]) {
      assert EntryLinks(s, Records(s, d)[k]);
    }
  }

  lemma InodesKept(s: Store, t: Store, i: nat)
    requires OthersKept(s, t, i)
    ensures forall j: nat :: IsIno(s, j) && j != i ==> IsIno(t, j)
  {
    forall j: nat | IsIno(s, j) && j != i ensures IsIno(t, j) { assert FileKept(s, t, j); }
  }

  /** Only file i changed: the other directories keep their tables. */
  lemma OtherTables(s: Store, t: Store, i: nat)
    requires Walkable(s) && Valid(t) && OthersKept(s, t, i) && IsIno(t, i) && (Root(s) == i ==> IsDir(t, i))
    ensures t.root == s.root && IsDir(t, Root(t))
    ensures Walkable(t) <==> (IsDir(t, i) ==> TableLinks(t, i))
    ensures (forall d: nat {:trigger TableNames(s, d)} :: IsDir(s, d) ==> TableNames(s, d)) ==>
      ((forall d: nat {:trigger TableNames(t, d)} :: IsDir(t, d) ==> TableNames(t, d))
       <==> (IsDir(t, i) ==> TableNames(t, i)))
    ensures forall d: nat, n: Name :: d != i ==> InumberOfBasename(t, d, n) == InumberOfBasename(s, d, n)
  {
    hide Valid, FileKept, TableLinks, TableNames, Lookup, Records, DirOk;
    InodesKept(s, t, i);
    forall d: nat | d != i
      ensures IsDir(t, d) <==> IsDir(s, d)
      ensures IsDir(t, d) ==> TableLinks(t, d) && (TableNames(t, d) <==> TableNames(s, d))
      ensures forall n: Name :: InumberOfBasename(t, d, n) == InumberOfBasename(s, d, n)
    {
      if IsIno(s, d) {
        assert FileKept(s, t, d);
        TableKept(s, t, d);
        if IsDir(s, d) { assert TableLinks(s, d); LinksKept(s, t, d); }
      }
    }
  }

  /** The names stay single when one entry is cleared, or gets a new inode. */
  lemma LinksOnce(s: Store, t: Store, d: nat, name: Name)
    requires LinkedOnce(s) && t.root == s.root && OneEntry(s, t, d, name)
    requires var v := InumberOfBasename(t, d, name);
      v == 0 || (v != Root(s) && forall e: nat, y: Name :: InumberOfBasename(s, e, y) != v)
    ensures LinkedOnce(t)
  {
    forall e: nat, x: Name ensures InumberOfBasename(t, e, x) != 0 ==> InumberOfBasename(t, e, x) != Root(t) {
      if (e, x) != (d, name) { assert InumberOfBasename(t, e, x) == InumberOfBasename(s, e, x); }
    }
    forall e: nat, x: Name, g: nat, y: Name | InumberOfBasename(t, e, x) == InumberOfBasename(t, g, y) != 0
      ensures e == g && x == y
    {
      if (e, x) != (d, name) { assert InumberOfBasename(t, e, x) == InumberOfBasename(s, e, x); }
      if (g, y) != (d, name) { assert InumberOfBasename(t, g, y) == InumberOfBasename(s, g, y); }
    }
  }

  /** A change that keeps every lookup keeps every path. */
  lemma SamePaths(s: Store, t: Store)
    requires SameLookups(s, t) && t.root == s.root
    ensures forall q: Path :: InumberOfPath(t, q) == InumberOfPath(s, q)
    ensures LinkedOnce(s) ==> LinkedOnce(t)
  {
    forall q: Path ensures InumberOfPath(t, q) == InumberOfPath(s, q) {
      WalkSame(s, t, Root(s), Components(q));
    }
    if LinkedOnce(s) {
      forall e: nat, x: Name, g: nat, y: Name | InumberOfBasename(t, e, x) == InumberOfBasename(t, g, y) != 0
        ensures e == g && x == y
      {
        assert InumberOfBasename(t, e, x) == InumberOfBasename(s, e, x);
        assert InumberOfBasename(t, g, y) == InumberOfBasename(s, g, y);
      }
    }
  }

  lemma EmptyTable(s: Store, d: nat)
    requires IsDir(s, d) && Get(s, d).size == 0
    ensures TableOk(s, d) && forall name: Name :: InumberOfBasename(s, d, name) == 0
  {
  }

  lemma NotDirectory(s: Store, d: nat)
    requires !IsDir(s, d)
    ensures forall name: Name :: InumberOfBasename(s, d, name) == 0
  {
  }

  /** After formatting, the tree is the empty root. */
  lemma InitTree(n: nat)
    requires 2 <= n <= 0x1_0000_0000
    ensures TreeOk(InitSuper(n)) && InumberOfPath(InitSuper(n), [SLASH]) == 1
  {
    InitSuperSpec(n);
    var s := InitSuper(n);
    assert IsDir(s, 1);
    EmptyTable(s, 1);
    hide TableLinks, TableNames, InitSuper, Records, Lookup;
    assert Components([SLASH]) == [];
    forall d: nat, x: Name ensures InumberOfBasename(s, d, x) == 0 { if d != 1 { NotDirectory(s, d); } }
  }

  // ----- creation -----

  lemma SmallInumber(s: Store, i: nat)
    requires Valid(s) && IsIno(s, i)
    ensures 0 < i < WORD
  {
    var l :| Inv(s, l);
    assert RoleOk(s, l, i) && RoleOk(s, l, 0);
  }

  /** A new inode, which no directory names. */
  ghost predicate Fresh(s: Store, t: Store, i: nat) {
    && i != 0 && !IsIno(s, i) && IsIno(t, i) && i != Root(s)
    && forall e: nat, y: Name {:trigger InumberOfBasename(t, e, y)} :: InumberOfBasename(t, e, y) != i
  }

  /** A new inode, not yet in any directory, keeps the tree and its paths. */
  lemma CreateInodeTree(s: Store, kind: Kind)
    requires TreeOk(s) && s.free > 0
    ensures var (t, i) := CreateInode(s, kind);
      && Fresh(s, t, i) && i < WORD && Get(t, i) == NewInode(kind, 0) && OthersKept(s, t, i)
      && TreeOk(t) && t.root == s.root && SameLookups(s, t) && t.free == s.free - 1
  {
    hide Valid, TableLinks, TableNames, CreateInode, FileKept, Lookup, Records, LinkedOnce;
    CreateSpec(s, kind);
    var (t, i) := CreateInode(s, kind);
    SmallInumber(t, i);
    OtherTables(s, t, i);
    if IsDir(t, i) { EmptyTable(t, i); } else { NotDirectory(t, i); }
    NotDirectory(s, i);
    forall e: nat, y: Name ensures InumberOfBasename(t, e, y) != i {
      if e != i && InumberOfBasename(s, e, y) != 0 { LookupIsIno(s, e, y); }
    }
    SamePaths(s, t);
  }

  lemma StoredComponent(name: Name)
    requires IsComponent(name) && NulFree(name)
    ensures IsComponent(CutName(name)) && NameOk(CutName(name)) && (|name| < NAME_SIZE ==> CutName(name) == name)
  {
    CutNameIs(name);
  }

  lemma AddedTable(s: Store, t: Store, d: nat, i: nat, name: Name)
    requires TableOk(s, d) && DirOk(t, d) && IsIno(s, i) && IsComponent(name) && NulFree(name)
    requires forall j: nat :: IsIno(s, j) ==> IsIno(t, j)
    requires Records(t, d) == SetRecord(Records(s, d), NullIndex(Records(s, d)), Entry(i, Pad(name)))
    ensures TableLinks(t, d) && (TableNames(t, d) <==> Unique(Records(t, d)))
  {
    hide DirOk, Unique, Records;
    StoredComponent(name);
    NullFromSpec(Records(s, d), 0);
    forall k: nat | k < |Records(t, d)| ensures EntryLinks(t, Records(t, d)[k]) && EntryNamed(Records(t, d)[k]) {
      if k != NullIndex(Records(s, d)) {
        assert EntryLinks(s, Records(s, d)[k]) && EntryNamed(Records(s, d)[k]);
      }
    }
  }

  lemma SameTable(s: Store, t: Store, d: nat)
    requires TableOk(s, d) && DirOk(t, d) && Records(t, d) == Records(s, d)
    requires forall j: nat :: IsIno(s, j) ==> IsIno(t, j)
    ensures TableOk(t, d)
  {
    hide DirOk, Unique, Records;
    forall k: nat | k < |Records(t, d)| ensures EntryLinks(t, Records(t, d)[k]) && EntryNamed(Records(t, d)[k]) {
      assert EntryLinks(s, Records(s, d)[k]) && EntryNamed(Records(s, d)[k]);
    }
  }

  lemma DirTables(s: Store, d: nat)
    requires TreeOk(s) && IsDir(s, d)
    ensures TableOk(s, d)
  {
    assert TableLinks(s, d) && TableNames(s, d);
  }

  /** Recording a fresh inode: what the tree is afterwards. */
  lemma AddEntryTree(s: Store, d: nat, i: nat, name: Name)
    requires TreeOk(s) && IsDir(s, d) && IsIno(s, i) && i != Root(s) && IsComponent(name) && NulFree(name)
    requires forall e: nat, y: Name {:trigger InumberOfBasename(s, e, y)} :: InumberOfBasename(s, e, y) != i
    ensures var (t, ok) := AddEntry(s, d, i, name); var free := InumberOfBasename(s, d, CutName(name)) == 0;
      && OthersKept(s, t, d) && IsDir(t, d) && t.root == s.root && Valid(t)
      && (ok <==> EntryFits(s, d, s.free))
      && (Walkable(t) <==> ok || !Straddles(|Records(s, d)|))
      && (TreeOk(t) <==> if ok then free else !Straddles(|Records(s, d)|))
      && Records(t, d) == (if ok then SetRecord(Records(s, d), NullIndex(Records(s, d)), Entry(i, Pad(name)))
                           else Records(s, d))
      && (ok ==> t.free == s.free - EntryCost(s, d))
      && (ok && free ==> OneEntry(s, t, d, CutName(name)) && InumberOfBasename(t, d, CutName(name)) == i)
      && (!ok ==> SameLookups(s, t))
  {
    hide Valid, AddEntry, FileKept, DirOk, Unique, Records, Conserved, EntryFits, Straddles, TableLinks, TableNames,
         LinkedOnce, CutName, Lookup;
    DirTables(s, d);
    SmallInumber(s, i);
    DirectoryTable(s, d);
    AddEntryRoom(s, d, i, name);
    AddEntrySpec(s, d, i, name);
    var (t, ok) := AddEntry(s, d, i, name);
    InodesKept(s, t, d);
    OtherTables(s, t, d);
    TableIsWhole(t, d);
    if ok {
      AddedTable(s, t, d, i, name);
      NamesUnique(t, d);
      if InumberOfBasename(s, d, CutName(name)) == 0 { LinksOnce(s, t, d, CutName(name)); }
    } else {
      if DirOk(t, d) { SameTable(s, t, d); }
      SamePaths(s, t);
    }
  }

  lemma DirectoryTable(s: Store, d: nat)
    requires TableOk(s, d)
    ensures DirOk(s, d) && Unique(Records(s, d))
  {
  }

  lemma TableIsWhole(s: Store, d: nat)
    ensures TableLinks(s, d) ==> DirOk(s, d)
  {
  }

  lemma NamesUnique(s: Store, d: nat)
    ensures TableNames(s, d) ==> Unique(Records(s, d))
  {
  }

  /** Where the last entry of a path is looked up. */
  lemma LastLookup(s: Store, path: Path)
    requires Root(s) != 0 && Absolute(path)
    ensures var d := InumberOfPath(s, Dirname(path));
      InumberOfPath(s, path) ==
        if Basename(path) == [] then d else if d == 0 then 0 else InumberOfBasename(s, d, Basename(path))
  {
    SplitPath(path);
    if Basename(path) == [] {
      assert Components(path) == Components(Dirname(path));
    } else {
      WalkLast(s, Root(s), Components(Dirname(path)), Basename(path));
    }
  }

  /** The directory of a path is what the path up to its last '/' leads to, at
      any depth, if that is a directory. */
  lemma DirectoryOfPath(s: Store, path: Path)
    ensures DinumberOfPath(s, path) != 0 <==>
      Absolute(path) && InumberOfPath(s, Dirname(path)) != 0 && IsDir(s, InumberOfPath(s, Dirname(path)))
    ensures DinumberOfPath(s, path) != 0 ==> DinumberOfPath(s, path) == InumberOfPath(s, Dirname(path))
  {
    if Absolute(path) { SplitPath(path); }
  }

  /** The directory is there, the path is not taken, and a block is free. */
  predicate Creates(s: Store, path: Path) {
    && Absolute(path) && InumberOfPath(s, Dirname(path)) != 0 && IsDir(s, InumberOfPath(s, Dirname(path)))
    && InumberOfPath(s, path) == 0 && s.free > 0
  }

  /** Once the inode is taken, there is room for the entry. */
  predicate EntryRoom(s: Store, path: Path)
    requires Absolute(path)
  {
    EntryFits(s, InumberOfPath(s, Dirname(path)), s.free - 1)
  }

  /** A new record would straddle two blocks of the directory. */
  predicate Cuts(s: Store, path: Path)
    requires Absolute(path)
  {
    Straddles(|Records(s, InumberOfPath(s, Dirname(path)))|)
  }

  /** No entry reads like the name once it is cut to 15 characters. */
  predicate CutFree(s: Store, path: Path)
    requires Absolute(path)
  {
    InumberOfBasename(s, InumberOfPath(s, Dirname(path)), CutName(Basename(path))) == 0
  }

  /** Creating the path leaves a well-formed tree. */
  predicate KeepsTree(s: Store, path: Path) {
    Creates(s, path) ==> if EntryRoom(s, path) then CutFree(s, path) else !Cuts(s, path)
  }

  /** The components under which the entry is recorded. */
  function EntryPath(path: Path): seq<Name>
    requires Absolute(path)
  {
    Components(Dirname(path)) + [CutName(Basename(path))]
  }

  lemma SameRoom(s: Store, t: Store, d: nat, free: int)
    requires SamePtrs(s, t) && Records(t, d) == Records(s, d)
    ensures (EntryFits(t, d, free) <==> EntryFits(s, d, free)) && EntryCost(t, d) == EntryCost(s, d)
  {
    hide Records, Cost, PlaceOf, BlocOf;
    SameCost(s, t, d, PlaceOf(BlocOf(|Records(s, d)| * ENTRY_SIZE + ENTRY_SIZE - 1)));
  }

  lemma EntryRoomKept(s: Store, kind: Kind, path: Path)
    requires TreeOk(s) && Creates(s, path)
    ensures var (t, i) := CreateInode(s, kind); var d := InumberOfPath(s, Dirname(path));
      && (EntryFits(t, d, t.free) <==> EntryRoom(s, path)) && EntryCost(t, d) == EntryCost(s, d)
      && Records(t, d) == Records(s, d) && IsDir(t, d) && IsDir(s, d) && i != d
  {
    var d := InumberOfPath(s, Dirname(path));
    hide TreeOk, CreateInode, FileKept, Records, InumberOfPath, EntryFits, EntryCost;
    assert Valid(s) by { TreeIsValid(s); }
    CreateInodeTree(s, kind);
    var (t, i) := CreateInode(s, kind);
    CreatePtrs(s, kind);
    assert FileKept(s, t, d);
    TableKept(s, t, d);
    SameRoom(s, t, d, t.free);
  }

  lemma TreeIsValid(s: Store)
    requires TreeOk(s)
    ensures Valid(s) && Walkable(s) && LinkedOnce(s) && Root(s) != 0
  {
  }

  /** The two steps of a creation that reaches its directory. */
  lemma CreateSteps(s: Store, path: Path, kind: Kind)
    requires TreeOk(s) && Creates(s, path) && NulFree(Basename(path))
    ensures var (t, i) := CreateInode(s, kind); var d, name := InumberOfPath(s, Dirname(path)), Basename(path);
      var (u, ok) := AddEntry(t, d, i, name); var rs := Records(s, d);
      && CreateFile(s, path, kind) == (u, if ok then i else RETURN_FAILURE)
      && 0 < i < WORD && i != Root(s) && !IsIno(s, i) && Get(u, i) == NewInode(kind, 0)
      && Valid(u) && u.root == s.root && IsDir(s, d) && i != d
      && (forall j: nat :: IsIno(s, j) && j != d ==> FileKept(s, u, j))
      && (ok <==> EntryRoom(s, path))
      && (Walkable(u) <==> ok || !Cuts(s, path))
      && (TreeOk(u) <==> KeepsTree(s, path))
      && Records(u, d) == (if ok then SetRecord(rs, NullIndex(rs), Entry(i, Pad(name))) else rs)
      && (ok ==> u.free == s.free - 1 - EntryCost(s, d))
      && (ok && TreeOk(u) ==> OneEntry(s, u, d, CutName(name)) && InumberOfBasename(u, d, CutName(name)) == i)
      && (!ok ==> SameLookups(s, u))
  {
    hide Valid, Walkable, LinkedOnce, AddEntry, CreateInode, FileKept, EntryFits, Straddles, Records, Pad, Lookup;
    var d, name := InumberOfPath(s, Dirname(path)), Basename(path);
    TreeIsValid(s);
    DirectoryOfPath(s, path);
    SplitPath(path);
    LastLookup(s, path);
    CreateInodeTree(s, kind);
    EntryRoomKept(s, kind, path);
    var (t, i) := CreateInode(s, kind);
    AddEntryTree(t, d, i, name);
    var (u, ok) := AddEntry(t, d, i, name);
    assert FileKept(t, u, i);
    KeptInode(t, u, i);
    forall j: nat | IsIno(s, j) && j != d ensures FileKept(s, u, j) {
      assert FileKept(s, t, j);
      KeptInode(s, t, j);
      assert FileKept(t, u, j);
      FileKeptTrans(s, t, u, j);
    }
  }

  lemma KeptInode(s: Store, t: Store, i: nat)
    requires FileKept(s, t, i)
    ensures Get(t, i) == Get(s, i) && (IsIno(t, i) <==> IsIno(s, i))
  {
  }

  /** The walks after entry `name` of directory d, reached by a, names i. */
  lemma CreatedWalk(s: Store, u: Store, a: seq<Name>, name: Name, i: nat, names: seq<Name>)
    requires LinkedOnce(s) && Root(s) != 0 && Walk(s, Root(s), a) != 0 && u.root == s.root
    requires var d := Walk(s, Root(s), a);
      && OneEntry(s, u, d, name) && InumberOfBasename(u, d, name) == i && InumberOfBasename(s, d, name) == 0
      && i != 0 && i != d && !IsIno(s, i)
    ensures Walk(u, Root(u), names) == if names == a + [name] then i else Walk(s, Root(s), names)
  {
    hide InumberOfBasename, LinkedOnce, Walk, NotThrough;
    NotDirectory(s, i);
    var d := Walk(s, Root(s), a);
    ThroughIsPrefix(s, a, name, names);
    ThroughIsPrefix(s, a, name, a);
    if NotThrough(s, Root(s), names, d, name) {
      WalkKept(s, u, Root(s), names, d, name);
    } else {
      ThroughMissing(s, Root(s), names, d, name);
      WalkKept(s, u, Root(s), a, d, name);
      var rest := WalkPast(u, a, name, names);
      forall n: Name ensures InumberOfBasename(u, i, n) == 0 { assert InumberOfBasename(s, i, n) == 0; }
      NowhereFrom(u, i, rest);
    }
  }

  /** A walk along a, its entry `name`, and what follows. */
  lemma WalkPast(s: Store, a: seq<Name>, name: Name, names: seq<Name>) returns (rest: seq<Name>)
    requires Root(s) != 0 && Walk(s, Root(s), a) != 0 && a + [name] <= names
    ensures names == a + [name] + rest
    ensures var i := InumberOfBasename(s, Walk(s, Root(s), a), name);
      Walk(s, Root(s), names) == if i == 0 then 0 else Walk(s, i, rest)
  {
    hide InumberOfBasename, Walk;
    rest := names[|a| + 1..];
    assert names == a + [name] + rest;
    WalkLast(s, Root(s), a, name);
    WalkConcat(s, Root(s), a + [name], rest);
  }

  lemma NowhereFrom(s: Store, i: nat, rest: seq<Name>)
    requires forall n: Name :: InumberOfBasename(s, i, n) == 0
    ensures Walk(s, i, rest) == if rest == [] then i else 0
  {
  }

  /** create_file succeeds exactly when the directory is there, the path is not
      taken, a block is free for the inode and then the entry finds room. The
      path of the entry then leads to the new inode, every other path where it
      did; the entry has the name of the path unless that is cut. A creation
      that finds no room leaves an inode that no path leads to. The tree stays
      well formed unless the record is cut at a block boundary, or the cut
      name is taken. */
  lemma CreateFileSpec(s: Store, path: Path, kind: Kind)
    requires TreeOk(s) && (Absolute(path) ==> NulFree(Basename(path)))
    ensures var (t, r) := CreateFile(s, path, kind); var i := CreateInode(s, kind).1;
      && (r != RETURN_FAILURE <==> Creates(s, path) && EntryRoom(s, path))
      && (TreeOk(t) <==> KeepsTree(s, path))
      && (Walkable(t) <==> (Creates(s, path) ==> EntryRoom(s, path) || !Cuts(s, path)))
      && (!Creates(s, path) ==> t == s)
      && (Creates(s, path) ==> i > 0 && !IsIno(s, i) && Get(t, i) == NewInode(kind, 0))
      && (r == RETURN_FAILURE ==> forall q: Path :: InumberOfPath(t, q) == InumberOfPath(s, q))
      && (r == RETURN_FAILURE && Creates(s, path) ==> forall q: Path :: InumberOfPath(t, q) != i)
      && (Creates(s, path) && r != RETURN_FAILURE ==>
            r == i && t.free == s.free - 1 - EntryCost(s, InumberOfPath(s, Dirname(path))))
      && (Creates(s, path) && r != RETURN_FAILURE && TreeOk(t) ==>
            forall q: Path :: InumberOfPath(t, q) ==
              if Absolute(q) && Components(q) == EntryPath(path) then r else InumberOfPath(s, q))
  {
    hide Valid, Walkable, LinkedOnce, AddEntry, CreateInode, FileKept, EntryRoom, Cuts, Components, Lookup, EntryCost;
    TreeIsValid(s);
    DirectoryOfPath(s, path);
    CreateSpec(s, kind);
    FreeCount(s);
    if Creates(s, path) {
      var i := CreateInode(s, kind).1;
      CreateSteps(s, path, kind);
      var (t, r) := CreateFile(s, path, kind);
      if r == RETURN_FAILURE {
        SamePaths(s, t);
        forall q: Path ensures InumberOfPath(t, q) != i { PathIsIno(s, q); }
      } else if TreeOk(t) {
        forall q: Path ensures InumberOfPath(t, q) ==
          if Absolute(q) && Components(q) == EntryPath(path) then r else InumberOfPath(s, q)
        {
          CreatedWalk(s, t, Components(Dirname(path)), CutName(Basename(path)), i, Components(q));
        }
      }
    }
  }

  lemma PathIsIno(s: Store, path: Path)
    requires Walkable(s)
    ensures InumberOfPath(s, path) != 0 ==> IsIno(s, InumberOfPath(s, path))
  {
    if InumberOfPath(s, path) != 0 { WalkIsIno(s, Root(s), Components(path)); }
  }

  /** Up to 15 characters the entry is the path itself; a longer path never
      leads anywhere. */
  lemma EntryIsPath(s: Store, path: Path)
    requires TreeOk(s) && Absolute(path) && Basename(path) != [] && NulFree(Basename(path))
    ensures EntryPath(path) == Components(path) <==> |Basename(path)| < NAME_SIZE
    ensures |Basename(path)| >= NAME_SIZE ==> InumberOfPath(s, path) == 0
  {
    SplitPath(path);
    var a, name := Components(Dirname(path)), Basename(path);
    StoredComponent(name);
    assert EntryPath(path) == Components(path) ==> EntryPath(path)[|a|] == Components(path)[|a|];
    WalkLast(s, Root(s), a, name);
    if InumberOfPath(s, path) != 0 { LookupIsNamed(s, Walk(s, Root(s), a), name); }
  }

  /** Creating a path with a longer last name succeeds like any other, but the
      path leads nowhere; creating it once more, if there is still room,
      succeeds again and makes the cut name ambiguous. */
  lemma LongName(s: Store, path: Path, kind: Kind)
    requires TreeOk(s) && Absolute(path) && NulFree(Basename(path)) && |Basename(path)| >= NAME_SIZE
    requires Creates(s, path) && EntryRoom(s, path) && CutFree(s, path)
    ensures var (t, r) := CreateFile(s, path, kind); var (u, q) := CreateFile(t, path, kind);
      && r != RETURN_FAILURE && TreeOk(t) && InumberOfPath(t, path) == 0
      && (t.free > 0 && EntryRoom(t, path) ==> q != RETURN_FAILURE && !TreeOk(u))
  {
    hide Valid, Walkable, LinkedOnce, CreateFile, EntryRoom, Cuts, Lookup, TableNames, Components;
    TreeIsValid(s);
    CreateFileSpec(s, path, kind);
    var (t, r) := CreateFile(s, path, kind);
    EntryIsPath(t, path);
    SplitPath(path);
    var d, a, n := InumberOfPath(s, Dirname(path)), Components(Dirname(path)), CutName(Basename(path));
    CreateSteps(s, path, kind);
    assert EntryPath(path) != a by { assert |EntryPath(path)| == |a| + 1; }
    assert InumberOfPath(t, Dirname(path)) == InumberOfPath(s, Dirname(path)) == d;
    CreateFileSpec(t, path, kind);
  }

  // ----- inside a new directory -----

  /** The directory and the last entry of a path that extends another. */
  lemma InsideParts(p: Path, name: Name)
    requires Absolute(p) && IsComponent(name)
    ensures var q := p + [SLASH] + name;
      Absolute(q) && Dirname(q) == p + [SLASH] && Basename(q) == name && Components(Dirname(q)) == Components(p)
  {
    var q := p + [SLASH] + name;
    LastSlashIs(q, |p|);
    ComponentsConcat(p, [SLASH]);
    assert [SLASH][1..] == [];
  }

  lemma LastSlashIs(path: Path, k: nat)
    requires Absolute(path) && k < |path| && path[k] == SLASH && SlashFree(path[k + 1..])
    ensures LastSlash(path) == k
  {
    var r := LastSlash(path);
    assert forall j: nat :: r < j < |path| ==> path[j] == path[r + 1..][j - r - 1];
    assert forall j: nat :: k < j < |path| ==> path[j] == path[k + 1..][j - k - 1];
  }

  /** A new directory has room for an entry exactly when a block is free. */
  lemma NewDirectoryRoom(s: Store, d: nat, free: int)
    requires Get(s, d) == NewInode(Directory, 0)
    ensures IsDir(s, d) && Records(s, d) == [] && EntryCost(s, d) == 1 && (EntryFits(s, d, free) <==> free >= 1)
    ensures forall name: Name :: InumberOfBasename(s, d, name) == 0
  {
    assert PlaceOf(BlocOf(ENTRY_SIZE - 1)) == Direct(0);
  }

  /** In a directory that has just been created at a path, wherever it is,
      creating an entry succeeds exactly when two blocks are free, one for the
      inode and one for the records; deleting it then succeeds. */
  lemma CreateInside(s: Store, p: Path, name: Name, kind: Kind)
    requires TreeOk(s) && Absolute(p) && NulFree(Basename(p)) && |Basename(p)| < NAME_SIZE
    requires CreateFile(s, p, Directory).1 != RETURN_FAILURE && IsComponent(name) && NulFree(name)
    ensures var (t, d) := CreateFile(s, p, Directory); var q := p + [SLASH] + name; var (u, r) := CreateFile(t, q, kind);
      && InumberOfPath(t, p) == d && TreeOk(t) && TreeOk(u)
      && (r != RETURN_FAILURE <==> t.free >= 2)
      && (r != RETURN_FAILURE ==> u.free == t.free - 2)
      && (r != RETURN_FAILURE && |name| < NAME_SIZE ==>
            InumberOfPath(u, q) == r && DeleteFile(u, q).1 == ENTRY_SIZE && InumberOfPath(DeleteFile(u, q).0, q) == 0)
  {
    hide TreeOk, CreateFile, DeleteFile, Walkable, EntryRoom, Cuts, CutFree, Components, InumberOfBasename, Walk,
         EntryFits, EntryCost, Straddles, Records, IsDir;
    TreeIsValid(s);
    CreateFileSpec(s, p, Directory);
    var (t, d) := CreateFile(s, p, Directory);
    NewEntryFree(s, p);
    LastLookup(s, p);
    EntryIsPath(s, p);
    InsideParts(p, name);
    NewDirectoryRoom(t, d, t.free - 1);
    var q := p + [SLASH] + name;
    TreeIsValid(t);
    LastLookup(t, q);
    InsideSpec(t, q, d, kind);
    CreateFileSpec(t, q, kind);
    var (u, r) := CreateFile(t, q, kind);
    if r != RETURN_FAILURE && |name| < NAME_SIZE {
      EntryIsPath(t, q);
      DeleteFileSpec(u, q);
    }
  }

  /** A short name that is not taken is not taken once it is stored. */
  lemma NewEntryFree(s: Store, p: Path)
    requires TreeOk(s) && Creates(s, p) && NulFree(Basename(p)) && |Basename(p)| < NAME_SIZE
    ensures CutFree(s, p) && Basename(p) != []
  {
    hide TreeOk, Walk, InumberOfBasename, Components;
    TreeIsValid(s);
    LastLookup(s, p);
    SplitPath(p);
    StoredComponent(Basename(p));
  }

  lemma InsideSpec(t: Store, q: Path, d: nat, kind: Kind)
    requires Absolute(q) && d != 0 && InumberOfPath(t, Dirname(q)) == d && Get(t, d) == NewInode(Directory, 0)
    ensures CutFree(t, q) && !Cuts(t, q)
    ensures EntryRoom(t, q) <==> t.free >= 2
  {
    NewDirectoryRoom(t, d, t.free - 1);
  }

  // ----- deletion -----

  lemma ClearedTable(s: Store, t: Store, d: nat, name: Name)
    requires TableOk(s, d) && DirOk(t, d) && Unique(Records(t, d)) && OthersKept(s, t, d)
    requires Records(t, d) == SetRecord(Records(s, d), Find(Records(s, d), name), NullEntry())
    ensures TableOk(t, d)
  {
    hide Unique, Records;
    InodesKept(s, t, d);
    FindFromSpec(Records(s, d), name, 0);
    forall k: nat | k < |Records(t, d)| ensures EntryLinks(t, Records(t, d)[k]) && EntryNamed(Records(t, d)[k]) {
      if k < |Records(s, d)| { assert EntryLinks(s, Records(s, d)[k]) && EntryNamed(Records(s, d)[k]); }
    }
  }

  /** delete_file succeeds exactly when the entry exists. Its path and every
      path that extends it then lead nowhere, and every other path leads where
      it did. */
  lemma DeleteFileSpec(s: Store, path: Path)
    requires TreeOk(s)
    ensures var (t, r) := DeleteFile(s, path);
      && (r == RETURN_FAILURE ==> t == s)
      && (r != RETURN_FAILURE <==> Absolute(path) && Basename(path) != [] && InumberOfPath(s, path) != 0)
      && (r != RETURN_FAILURE ==>
            && r == ENTRY_SIZE && TreeOk(t)
            && IsDir(s, InumberOfPath(s, Dirname(path))) && OthersKept(s, t, InumberOfPath(s, Dirname(path)))
            && forall q: Path :: InumberOfPath(t, q) ==
                 if Absolute(q) && Components(path) <= Components(q) then 0 else InumberOfPath(s, q))
  {
    hide Valid, Walkable, LinkedOnce, DelEntry, FileKept, DirOk, Unique, Records, Conserved, Components, TableOk, Lookup;
    TreeIsValid(s);
    DirectoryOfPath(s, path);
    var d := DinumberOfPath(s, path);
    var (t, r) := DeleteFile(s, path);
    if Absolute(path) {
      SplitPath(path);
      LastLookup(s, path);
      if !IsDir(s, InumberOfPath(s, Dirname(path))) { NotDirectory(s, InumberOfPath(s, Dirname(path))); }
    }
    if d != 0 {
      var name := Basename(path);
      DirTables(s, d);
      DirectoryTable(s, d);
      DelEntrySpec(s, d, name);
      if InumberOfBasename(s, d, name) != 0 {
        LookupIsNamed(s, d, name);
        DeletedTree(s, t, d, name);
        forall q: Path ensures InumberOfPath(t, q) ==
          if Absolute(q) && Components(path) <= Components(q) then 0 else InumberOfPath(s, q)
        {
          DeletedWalk(s, t, Components(Dirname(path)), name, Components(q));
        }
      }
    }
  }

  lemma DeletedTree(s: Store, t: Store, d: nat, name: Name)
    requires TreeOk(s) && TableOk(s, d) && Valid(t) && DirOk(t, d) && Unique(Records(t, d)) && OthersKept(s, t, d)
    requires Records(t, d) == SetRecord(Records(s, d), Find(Records(s, d), name), NullEntry())
    requires forall n: Name :: InumberOfBasename(t, d, n) == if n == name then 0 else InumberOfBasename(s, d, n)
    ensures TreeOk(t) && t.root == s.root && OneEntry(s, t, d, name)
  {
    hide Valid, LinkedOnce, FileKept, Unique, Records, TableLinks, TableNames, Lookup;
    InodesKept(s, t, d);
    ClearedTable(s, t, d, name);
    TableIsDir(t, d);
    OtherTables(s, t, d);
    LinksOnce(s, t, d, name);
  }

  lemma TableIsDir(s: Store, d: nat)
    requires DirOk(s, d)
    ensures IsDir(s, d)
  {
  }

  /** The walks after entry `name` of the directory reached by a is gone. */
  lemma DeletedWalk(s: Store, t: Store, a: seq<Name>, name: Name, names: seq<Name>)
    requires LinkedOnce(s) && Root(s) != 0 && Walk(s, Root(s), a) != 0 && t.root == s.root
    requires OneEntry(s, t, Walk(s, Root(s), a), name) && InumberOfBasename(t, Walk(s, Root(s), a), name) == 0
    ensures Walk(t, Root(t), names) == if a + [name] <= names then 0 else Walk(s, Root(s), names)
  {
    hide InumberOfBasename, LinkedOnce, Walk, NotThrough;
    var d := Walk(s, Root(s), a);
    ThroughIsPrefix(s, a, name, names);
    ThroughIsPrefix(s, a, name, a);
    if NotThrough(s, Root(s), names, d, name) {
      WalkKept(s, t, Root(s), names, d, name);
    } else {
      WalkKept(s, t, Root(s), a, d, name);
      var rest := WalkPast(t, a, name, names);
    }
  }

  /** No directory is its own entry. */
  lemma ParentDiffers(s: Store, path: Path)
    requires TreeOk(s) && InumberOfPath(s, path) != 0 && Basename(path) != []
    ensures InumberOfPath(s, path) != InumberOfPath(s, Dirname(path))
  {
    TreeIsValid(s);
    SplitPath(path);
    assert |Components(path)| == |Components(Dirname(path))| + 1;
    if InumberOfPath(s, path) == InumberOfPath(s, Dirname(path)) {
      OnePath(s, Components(path), Components(Dirname(path)));
    }
  }

  lemma CreateKeepsDir(s: Store, kind: Kind, d: nat)
    requires Walkable(s) && IsDir(s, d)
    ensures var t := CreateInode(s, kind).0; Valid(t) && IsDir(t, d) && DirOk(t, d)
  {
    hide Valid, CreateInode, FileKept, DirOk, Records;
    assert TableLinks(s, d);
    CreateSpec(s, kind);
    var (t, i) := CreateInode(s, kind);
    if i != 0 {
      FreeIsNoInode(s, i);
      assert FileKept(s, t, d);
      TableKept(s, t, d);
    }
  }

  lemma FreeIsNoInode(s: Store, i: nat)
    requires Valid(s) && i in FreeSet(s)
    ensures !IsIno(s, i)
  {
  }
}
