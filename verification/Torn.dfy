/** A run of create_file from formatting that ends with a directory whose last
    record is cut (src/file.c, src/dir.c). */
module Torn {
  import opened Disk
  import opened PathText
  import opened Inode
  import opened BlockOps
  import opened Ifile
  import opened Directories
  import opened Paths

  /** "/A", "/B", ... */
  function FileName(k: nat): Path
    requires k < 26
  {
    [SLASH, 65 + k]
  }

  /** A volume of 29 blocks, and the first k files. */
  function Fill(k: nat): Store
    requires k <= 26
  {
    if k == 0 then InitSuper(29) else CreateFile(Fill(k - 1), FileName(k - 1), File).0
  }

  /** The root has k live records in its first block, and what is left is free. */
  ghost predicate Filled(s: Store, k: nat) {
    && TreeOk(s) && s.root == 1
    && |Records(s, 1)| == k && (forall j: nat :: j < k ==> Records(s, 1)[j].inum != 0)
    && (Vmap(s, 1, 0) != 0 <==> k > 0) && Vmap(s, 1, 1) == 0
    && s.free == 27 - k - (if k > 0 then 1 else 0)
    && forall j: nat :: k <= j < 26 ==> InumberOfPath(s, FileName(j)) == 0
  }

  lemma FileNameParts(k: nat)
    requires k < 26
    ensures var path, name := FileName(k), [65 + k];
      && Absolute(path) && Dirname(path) == [SLASH] && Basename(path) == name && Components([SLASH]) == []
      && Components(path) == [name] && EntryPath(path) == [name] && CutName(name) == name && NulFree(name)
  {
    var path: Path, name: Name := FileName(k), [65 + k];
    assert IsComponent(name) && NulFree(name);
    StoredComponent(name);
    assert path[..1] == [SLASH] && path[1..] == name;
    assert LastSlash(path) == 0 by { assert path[..1][0] == SLASH; }
    OneComponent(name);
    assert [SLASH][1..] == [];
    assert [] + [name] == [name];
  }

  /** The first free record is past the last one. */
  lemma AllLive(rs: seq<Entry>)
    requires forall j: nat :: j < |rs| ==> rs[j].inum != 0
    ensures NullIndex(rs) == |rs|
  {
    NullFromSpec(rs, 0);
  }

  lemma RootLookup(s: Store, k: nat)
    requires TreeOk(s) && s.root == 1 && k < 26
    ensures InumberOfPath(s, Dirname(FileName(k))) == 1 == Root(s) && IsDir(s, 1)
  {
    FileNameParts(k);
  }

  /** The cost of the next record, in the first block or the second. */
  lemma NextCost(s: Store, k: nat)
    requires Filled(s, k) && k <= 25
    ensures var last := k * ENTRY_SIZE + ENTRY_SIZE - 1;
      && (Straddles(k) <==> k == 25) && last < MAX_BYTES && EntryCost(s, 1) == RecordCost(s, 1, k)
      && RecordCost(s, 1, k) == (if k == 0 || k == 25 then 1 else 0)
      && (EntryFits(s, 1, s.free - 1) <==> k < 25)
  {
    hide TreeOk, Records;
    AllLive(Records(s, 1));
    assert PlaceOf(0) == Direct(0) && PlaceOf(1) == Direct(1);
    assert BlocOf(k * ENTRY_SIZE + ENTRY_SIZE - 1) == if k == 25 then 1 else 0;
  }

  lemma FillNext(s: Store, k: nat)
    requires Filled(s, k) && k < 25
    ensures Filled(CreateFile(s, FileName(k), File).0, k + 1)
  {
    hide TreeOk, CreateFile, Records, Components, InumberOfPath, EntryFits, EntryCost, RecordCost,
         Straddles, FileName, Vmap;
    var path := FileName(k);
    FileNameParts(k);
    RootLookup(s, k);
    NextCost(s, k);
    TreeIsValid(s);
    LastLookup(s, path);
    CreateFileSpec(s, path, File);
    var (t, r) := CreateFile(s, path, File);
    FillTable(s, k);
    forall j: nat | k + 1 <= j < 26 ensures InumberOfPath(t, FileName(j)) == 0 {
      FileNameParts(j);
      assert InumberOfPath(s, FileName(j)) == 0;
    }
  }

  lemma FillTable(s: Store, k: nat)
    requires Filled(s, k) && k < 25 && CreateFile(s, FileName(k), File).1 != RETURN_FAILURE
    requires TreeOk(CreateFile(s, FileName(k), File).0)
    ensures var t := CreateFile(s, FileName(k), File).0;
      && t.root == 1 && |Records(t, 1)| == k + 1 && (forall j: nat :: j < k + 1 ==> Records(t, 1)[j].inum != 0)
      && Vmap(t, 1, 0) != 0 && Vmap(t, 1, 1) == 0
  {
    hide AddEntry, CreateInode, Components, FileName, Pad, Vmap, Records, InumberOfPath, CutFree, Cuts;
    var path := FileName(k);
    RootLookup(s, k);
    FileNameParts(k);
    CreateFileSpec(s, path, File);
    CreateSteps(s, path, File);
    AllLive(Records(s, 1));
    var t := CreateFile(s, path, File).0;
    RootMaps(s, k);
    FirstMapped(t);
  }

  lemma FirstMapped(t: Store)
    requires TreeOk(t) && t.root == 1 && |Records(t, 1)| > 0
    ensures Vmap(t, 1, 0) != 0
  {
    DirTables(t, 1);
    AllMapped(t, 1, Get(t, 1).size, 0);
  }

  lemma RootMaps(s: Store, k: nat)
    requires Filled(s, k) && k < 25 && CreateFile(s, FileName(k), File).1 != RETURN_FAILURE
    ensures Vmap(CreateFile(s, FileName(k), File).0, 1, 1) == 0
  {
    hide AddEntry, CreateInode, FileName, Records, Vmap;
    var path := FileName(k);
    RootLookup(s, k);
    FileNameParts(k);
    TreeIsValid(s);
    CreateInodeTree(s, File);
    EntryRoomKept(s, File, path);
    CreatePtrs(s, File);
    var (t, i) := CreateInode(s, File);
    AllLive(Records(t, 1));
    SameMaps(s, t, 1, 1);
    AddMaps(t, k, i, Basename(path));
  }

  lemma SameMaps(s: Store, t: Store, i: nat, fb: nat)
    requires SamePtrs(s, t)
    ensures Vmap(t, i, fb) == Vmap(s, i, fb)
  {
  }

  lemma AddMaps(t: Store, k: nat, i: nat, name: Name)
    requires TreeOk(t) && IsDir(t, 1) && i < WORD && k < 25 && NullIndex(Records(t, 1)) == k
    ensures Vmap(AddEntry(t, 1, i, name).0, 1, 1) == Vmap(t, 1, 1)
  {
    hide TreeOk, Records, WriteRecord, Vmap, Pad;
    TreeIsValid(t);
    RecordMaps(t, 1, k, Entry(i, Pad(name)));
    assert BlocOf(k * ENTRY_SIZE) == 0;
  }

  lemma {:induction false} FillSpec(k: nat)
    requires k <= 25
    ensures Filled(Fill(k), k)
    decreases k
  {
    hide Filled, CreateFile, InitSuper, FileName;
    if k == 0 { FillStart(); } else { FillSpec(k - 1); FillNext(Fill(k - 1), k - 1); }
  }

  lemma FillStart()
    ensures Filled(InitSuper(29), 0)
  {
    InitTree(29);
    InitSuperSpec(29);
    var s := InitSuper(29);
    assert PlaceOf(0) == Direct(0) && PlaceOf(1) == Direct(1);
    EmptyTable(s, 1);
    hide InitSuper, TreeOk, FileName, InumberOfPath, InumberOfBasename;
    forall j: nat | j < 26 ensures InumberOfPath(s, FileName(j)) == 0 {
      RootLookup(s, j);
      FileNameParts(j);
      TreeIsValid(s);
      LastLookup(s, FileName(j));
    }
  }

  /** The root has 25 live records and one block is free: creating "/Z" takes it
      for the inode, fails, and leaves half a record. */
  lemma TornExample()
    ensures var s := Fill(25);
      && TreeOk(s) && |Records(s, 1)| == 25 && s.free == 1
      && CreateFile(s, FileName(25), File).1 == RETURN_FAILURE && !TreeOk(Fill(26)) && !Walkable(Fill(26))
  {
    hide TreeOk, CreateFile, Records, InumberOfPath, EntryFits, EntryCost, RecordCost, Straddles,
         FileName, Vmap, Walkable;
    FillSpec(25);
    var s := Fill(25);
    FileNameParts(25);
    RootLookup(s, 25);
    NextCost(s, 25);
    CreateFileSpec(s, FileName(25), File);
  }
}
