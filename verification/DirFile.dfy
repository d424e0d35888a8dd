/** The scans of directories and the operations on paths (src/dir.c,
    src/file.c), on an open descriptor and the mounted volume. Each method is
    proved against the table and the map of the directory. */
module DirFile {
  import opened Disk
  import opened PathText
  import Inode
  import opened Ownership
  import Ifile
  import D = Directories
  import Paths
  import opened Volume
  import opened FileDesc

  /** A clean descriptor of directory i, whose file is a table of records. */
  ghost predicate Scanning(v: Volume, fd: FileDesc, i: nat)
    reads v, v.disk, fd, fd.buf
  {
    && fd.Ok(v) && fd.inum == i && !fd.dirty && D.DirOk(v.St(), i) && fd.size == Get(v.St(), i).size
  }

  /** ... at record k of a volume in state s. */
  ghost predicate ScanAt(v: Volume, fd: FileDesc, s: Store, i: nat, k: int)
    reads v, v.disk, fd, fd.buf
  {
    v.St() == s && Scanning(v, fd, i) && 0 <= k <= |D.Records(s, i)| && fd.pos == k * D.ENTRY_SIZE
  }

  /** Read the record at the cursor. */
  method ReadEntry(v: Volume, fd: FileDesc, ghost s: Store, ghost i: nat, ghost k: nat)
    returns (e: D.Entry, eof: bool)
    requires ScanAt(v, fd, s, i, k)
    modifies fd, fd.buf, v, v.disk
    ensures k <= |D.Records(s, i)| && (eof <==> k == |D.Records(s, i)|)
    ensures ScanAt(v, fd, s, i, if eof then k else k + 1)
    ensures !eof ==> e == D.Records(s, i)[k]
  {
    ghost var val := fd.Val();
    CleanRead(s, val, i, k);
    var bs, r := fd.Read(v, D.ENTRY_SIZE);
    eof := r == Ifile.READ_EOF;
    e := if |bs| == D.ENTRY_SIZE then D.Decode(bs) else D.NullEntry();
  }

  /** Go back to the first record. */
  method Rewind(v: Volume, fd: FileDesc, ghost i: nat)
    requires Scanning(v, fd, i)
    modifies fd, fd.buf, v, v.disk
    ensures ScanAt(v, fd, old(v.St()), i, 0)
  {
    hide D.DirOk, D.Records;
    CleanSeek(v.St(), fd.Val(), i, 0);
    fd.Seek2(v, 0);
  }

  /** The index of the first record of that name; -1 if there is none. */
  method FindEntry(v: Volume, fd: FileDesc, ghost i: nat, name: Name) returns (k: int)
    requires Scanning(v, fd, i)
    modifies fd, fd.buf, v, v.disk
    ensures v.St() == old(v.St()) && Scanning(v, fd, i)
    ensures var rs := D.Records(old(v.St()), i);
      k == if D.Find(rs, name) < |rs| then D.Find(rs, name) else Ifile.RETURN_FAILURE
  {
    ghost var s := v.St();
    k := Scan(v, fd, s, i, name);
    ScanDone(v, fd, s, i, if k < 0 then |D.Records(s, i)| else k + 1);
  }

  method Scan(v: Volume, fd: FileDesc, ghost s: Store, ghost i: nat, name: Name) returns (k: int)
    requires Scanning(v, fd, i) && s == v.St()
    modifies fd, fd.buf, v, v.disk
    ensures var rs := D.Records(s, i);
      && k == (if D.Find(rs, name) < |rs| then D.Find(rs, name) else Ifile.RETURN_FAILURE)
      && ScanAt(v, fd, s, i, if k < 0 then |rs| else k + 1)
  {
    hide Scanning, ScanAt, D.NameOf, D.Records;
    Rewind(v, fd, i);
    ghost var rs := D.Records(s, i);
    k := 0;
    while true
      invariant ScanAt(v, fd, s, i, k) && 0 <= k <= |rs| && D.FindFrom(rs, name, k) == D.Find(rs, name)
      decreases |rs| - k
    {
      var e, eof := ReadEntry(v, fd, s, i, k);
      if eof { return Ifile.RETURN_FAILURE; }
      if e.inum != 0 && D.NameOf(e) == name { return k; }
      k := k + 1;
    }
  }

  /** The index where a new record goes: the first free one, or past the last. */
  method NewEntry(v: Volume, fd: FileDesc, ghost i: nat) returns (k: nat)
    requires Scanning(v, fd, i)
    modifies fd, fd.buf, v, v.disk
    ensures v.St() == old(v.St()) && Scanning(v, fd, i)
    ensures k == D.NullIndex(D.Records(old(v.St()), i))
  {
    ghost var s := v.St();
    k := ScanNull(v, fd, s, i);
    ScanDone(v, fd, s, i, if k < |D.Records(s, i)| then k + 1 else k);
  }

  method ScanNull(v: Volume, fd: FileDesc, ghost s: Store, ghost i: nat) returns (k: nat)
    requires Scanning(v, fd, i) && s == v.St()
    modifies fd, fd.buf, v, v.disk
    ensures var rs := D.Records(s, i); k == D.NullIndex(rs) && ScanAt(v, fd, s, i, if k < |rs| then k + 1 else k)
  {
    hide Scanning, ScanAt, D.Records;
    Rewind(v, fd, i);
    ghost var rs := D.Records(s, i);
    k := 0;
    while true
      invariant ScanAt(v, fd, s, i, k) && k <= |rs| && D.NullFrom(rs, k) == D.NullIndex(rs)
      decreases |rs| - k
    {
      var e, eof := ReadEntry(v, fd, s, i, k);
      if eof { return k; }
      if e.inum == 0 { return k; }
      k := k + 1;
    }
  }

  lemma ScanDone(v: Volume, fd: FileDesc, s: Store, i: nat, k: int)
    requires ScanAt(v, fd, s, i, k)
    ensures v.St() == s && Scanning(v, fd, i)
  {}

  lemma CleanSeek(s: Store, fd: Ifile.Fd, i: nat, pos: nat)
    requires Ifile.FdOk(s, fd) && !fd.dirty && fd.inum == i && fd.size == Get(s, i).size && pos < Ifile.WORD
    ensures Ifile.Seek2(s, fd, pos) == (s, D.CleanFd(s, i, pos))
  {
    Ifile.Seek2Mod(fd.pos, pos);
  }

  lemma CleanRead(s: Store, fd: Ifile.Fd, i: nat, k: nat)
    requires Ifile.FdOk(s, fd) && !fd.dirty && fd.inum == i && D.DirOk(s, i) && fd.size == Get(s, i).size
    requires fd.pos == k * D.ENTRY_SIZE && k <= |D.Records(s, i)|
    ensures var (t, f, bs, r) := Ifile.Read(s, fd, D.ENTRY_SIZE);
      && t == s && !f.dirty && f.inum == i && f.size == fd.size
      && (r == Ifile.READ_EOF <==> k == |D.Records(s, i)|)
      && (k < |D.Records(s, i)| ==>
            |bs| == D.ENTRY_SIZE && D.Decode(bs) == D.Records(s, i)[k] && f.pos == (k + 1) * D.ENTRY_SIZE)
  {
    hide Ifile.ReadLoop, Ifile.Load, D.Decode;
    D.CleanIsUnique(s, fd);
    D.CleanFdOk(s, i, fd.pos);
    D.ReadRecord(Ifile.Abs(s, fd), k);
    Ifile.ReadLoopSpec(s, fd, D.ENTRY_SIZE);
    CleanLoop(s, fd, D.ENTRY_SIZE);
  }

  lemma {:induction false} CleanLoop(s: Store, fd: Ifile.Fd, n: nat)
    requires !fd.dirty
    ensures Ifile.ReadLoop(s, fd, n).0 == s && !Ifile.ReadLoop(s, fd, n).1.dirty
    ensures Ifile.ReadLoop(s, fd, n).1.size == fd.size
    decreases n
  {
    if n > 0 {
      var (t, f, c) := Ifile.Readc(s, fd);
      if 0 <= c < 256 { CleanLoop(t, f, n - 1); }
    }
  }

  // ----- entries -----

  method AddEntry(v: Volume, i: nat, inum: nat, name: Name) returns (ok: bool)
    requires Valid(v.St()) && Inode.IsIno(v.St(), i) && (D.IsDir(v.St(), i) ==> D.DirOk(v.St(), i))
    modifies v, v.disk
    ensures (v.St(), ok) == D.AddEntry(old(v.St()), i, inum, name)
  {
    ghost var s := v.St();
    InodeReady(s, i);
    if v.disk[i].kind != Directory { return false; }
    var fd := new FileDesc();
    fd.Open(v, i);
    OpenScans(s, i);
    var k := NewEntry(v, fd, i);
    D.NullFromSpec(D.Records(s, i), 0);
    RecordPos(s, i, k);
    var e := D.Entry(inum, D.Pad(name));
    CleanSeek(s, fd.Val(), i, k * D.ENTRY_SIZE);
    fd.Seek2(v, k * D.ENTRY_SIZE);
    var n := fd.Write(v, D.Encode(e));
    fd.Close(v);
    ok := n == D.ENTRY_SIZE;
  }

  method DelEntry(v: Volume, i: nat, name: Name) returns (r: int)
    requires Valid(v.St()) && Inode.IsIno(v.St(), i) && (D.IsDir(v.St(), i) ==> D.DirOk(v.St(), i))
    modifies v, v.disk
    ensures (v.St(), r) == D.DelEntry(old(v.St()), i, name)
  {
    ghost var s := v.St();
    InodeReady(s, i);
    if v.disk[i].kind != Directory { return Ifile.RETURN_FAILURE; }
    var fd := new FileDesc();
    fd.Open(v, i);
    OpenScans(s, i);
    var k := FindEntry(v, fd, i, name);
    if k == Ifile.RETURN_FAILURE {
      CloseClean(s, fd.Val());
      fd.Close(v);
      return Ifile.RETURN_FAILURE;
    }
    D.NullFromSpec(D.Records(s, i), 0);
    RecordPos(s, i, k);
    CleanSeek(s, fd.Val(), i, k * D.ENTRY_SIZE);
    fd.Seek2(v, k * D.ENTRY_SIZE);
    r := fd.Write(v, D.Encode(D.NullEntry()));
    fd.Close(v);
  }

  /** The inode number recorded under the name; 0 if none, or not a directory. */
  method InumberOfBasename(v: Volume, i: nat, name: Name) returns (r: nat)
    requires Valid(v.St()) && Inode.IsIno(v.St(), i) && (D.IsDir(v.St(), i) ==> D.DirOk(v.St(), i))
    modifies v, v.disk
    ensures v.St() == old(v.St()) && r == D.InumberOfBasename(v.St(), i, name)
  {
    ghost var s := v.St();
    InodeReady(s, i);
    if v.disk[i].kind != Directory { return 0; }
    var fd := new FileDesc();
    fd.Open(v, i);
    OpenScans(s, i);
    var k := FindEntry(v, fd, i, name);
    if k == Ifile.RETURN_FAILURE { return 0; }
    D.NullFromSpec(D.Records(s, i), 0);
    RecordPos(s, i, k);
    CleanSeek(s, fd.Val(), i, k * D.ENTRY_SIZE);
    fd.Seek2(v, k * D.ENTRY_SIZE);
    var e, eof := ReadEntry(v, fd, s, i, k);
    CloseClean(s, fd.Val());
    fd.Close(v);
    r := e.inum;
  }

  lemma OpenScans(s: Store, i: nat)
    requires Valid(s) && Inode.IsIno(s, i)
    ensures !Ifile.Open(s, i).dirty && Ifile.Open(s, i).size == Get(s, i).size
  {
  }

  lemma RecordPos(s: Store, i: nat, k: nat)
    requires D.DirOk(s, i) && k <= |D.Records(s, i)|
    ensures k * D.ENTRY_SIZE < Ifile.WORD
  {
  }

  lemma CloseClean(s: Store, fd: Ifile.Fd)
    requires Ifile.FdOk(s, fd) && !fd.dirty && fd.size == Get(s, fd.inum).size
    ensures Ifile.Close(s, fd) == s
  {
    InodeReady(s, fd.inum);
    assert s.blocks[fd.inum := s.blocks[fd.inum]] == s.blocks;
  }

  // ----- paths -----

  /** Walk an absolute path from the root, one component at a time. */
  method InumberOfPath(v: Volume, path: seq<byte>) returns (r: nat)
    requires Paths.Walkable(v.St())
    modifies v, v.disk
    ensures v.St() == old(v.St()) && r == Paths.InumberOfPath(v.St(), path)
  {
    hide Valid, D.DirOk, D.Unique, D.Records;
    if path == [] || path[0] != SLASH { return 0; }
    ghost var s := v.St();
    r := v.root;
    var p := 0;
    assert path[0..] == path;
    while p < |path|
      invariant p <= |path| && v.St() == s && Inode.IsIno(s, r)
      invariant Paths.Walk(s, r, Components(path[p..])) == Paths.InumberOfPath(s, path)
    {
      if path[p] != SLASH {
        var lg := Leading(path[p..]);
        var name := path[p..p + lg];
        assert path[p..][..lg] == name && path[p..][lg..] == path[p + lg..];
        assert Components(path[p..]) == [name] + Components(path[p + lg..]);
        assert ([name] + Components(path[p + lg..]))[1..] == Components(path[p + lg..]);
        if D.IsDir(s, r) { assert Paths.TableLinks(s, r); }
        ghost var dir := r;
        r := InumberOfBasename(v, r, name);
        if r == 0 { return 0; }
        Paths.LookupIsIno(s, dir, name);
        p := p + lg;
        if p == |path| { break; }
      }
      assert path[p..][1..] == path[p + 1..];
      p := p + 1;
    }
    assert path[p..] == [];
  }

  /** The directory of the last entry of the path; 0 if it does not exist. */
  method DinumberOfPath(v: Volume, path: seq<byte>) returns (d: nat)
    requires Paths.Walkable(v.St())
    modifies v, v.disk
    ensures v.St() == old(v.St()) && d == Paths.DinumberOfPath(v.St(), path)
  {
    if path == [] || path[0] != SLASH { return 0; }
    SplitPath(path);
    d := InumberOfPath(v, Dirname(path));
    if d == 0 { return 0; }
    Paths.PathIsIno(v.St(), Dirname(path));
    InodeReady(v.St(), d);
    if v.disk[d].kind != Directory { d := 0; }
  }

  /** Create a file under a new path and return its inode number. */
  method CreateFile(v: Volume, path: seq<byte>, kind: Kind) returns (r: int)
    requires Paths.Walkable(v.St())
    modifies v, v.disk
    ensures (v.St(), r) == Paths.CreateFile(old(v.St()), path, kind)
  {
    hide Valid, D.DirOk, D.Unique, D.Records, D.AddEntry, Inode.CreateInode;
    ghost var s := v.St();
    var d := DinumberOfPath(v, path);
    if d == 0 { return Ifile.RETURN_FAILURE; }
    var i := InumberOfPath(v, path);
    if i != 0 { return Ifile.RETURN_FAILURE; }
    InodeReady(s, Paths.Root(s));
    Paths.CreateKeepsDir(s, kind, d);
    i := v.CreateInode(kind);
    if i == 0 { return Ifile.RETURN_FAILURE; }
    var ok := AddEntry(v, d, i, Basename(path));
    r := if ok then i else Ifile.RETURN_FAILURE;
  }

  /** Remove the last entry of the path from its directory. */
  method DeleteFile(v: Volume, path: seq<byte>) returns (r: int)
    requires Paths.Walkable(v.St())
    modifies v, v.disk
    ensures (v.St(), r) == Paths.DeleteFile(old(v.St()), path)
  {
    var d := DinumberOfPath(v, path);
    if d == 0 { return Ifile.RETURN_FAILURE; }
    assert Paths.TableLinks(v.St(), d);
    r := DelEntry(v, d, Basename(path));
  }

  /** Open the file that a path leads to. */
  method OpenFile(v: Volume, fd: FileDesc, path: seq<byte>) returns (ok: bool)
    requires Paths.Walkable(v.St()) && fd.buf.Length == BLOC_SIZE
    modifies fd, fd.buf, v, v.disk
    ensures v.St() == old(v.St()) && (ok <==> Paths.InumberOfPath(v.St(), path) != 0)
    ensures ok ==> fd.Ok(v) && fd.Val() == Ifile.Open(v.St(), Paths.InumberOfPath(v.St(), path))
  {
    hide Paths.InumberOfPath;
    var inumber := InumberOfPath(v, path);
    if inumber == 0 { return false; }
    Paths.PathIsIno(v.St(), path);
    fd.Open(v, inumber);
    ok := true;
  }
}
