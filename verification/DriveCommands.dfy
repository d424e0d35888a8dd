/** The command sequences of src/drive.c and the block accesses of src/mbr.c on
    the drive itself, as one context runs them inside its section. */
module DriveCommands {
  import opened Disk
  import opened DiskAccess

  class DriveUnit {
    var sectors: map<Place, Bytes>
    var head: Place
    var cyl: nat
    var sec: nat
    const masterBuffer: array<byte>

    constructor ()
      ensures Valid() && sectors == map[] && fresh(masterBuffer)
    {
      sectors, head, cyl, sec := map[], Place(0, 0), 0, 0;
      masterBuffer := new byte[BLOC_SIZE](_ => 0);
    }

    ghost predicate Valid()
      reads this
    {
      masterBuffer.Length == BLOC_SIZE
    }

    method SeekSector(p: Place)
      modifies this`head, this`cyl, this`sec
      ensures head == p
    {
      cyl := p.cyl;
      sec := p.sec;
      head := Place(cyl, sec);
    }

    /** CMD_READ: the sector under the head goes to MASTERBUFFER. */
    method CommandRead()
      requires Valid()
      modifies masterBuffer
      ensures masterBuffer[..] == SectorAt(sectors, head)
    {
      var s := SectorAt(sectors, head);
      for i := 0 to BLOC_SIZE
        invariant masterBuffer[..i] == s[..i]
      {
        masterBuffer[i] := s[i];
      }
      assert masterBuffer[..] == masterBuffer[..BLOC_SIZE] && s == s[..BLOC_SIZE];
    }

    /** Read the first bytes of a sector. */
    method ReadNSector(p: Place, buffer: array<byte>, size: nat)
      requires Valid() && buffer != masterBuffer && 0 < size <= BLOC_SIZE && size <= buffer.Length
      modifies this, masterBuffer, buffer
      ensures Valid() && sectors == old(sectors)
      ensures buffer[..size] == SectorAt(sectors, p)[..size] && buffer[size..] == old(buffer[size..])
    {
      SeekSector(p);
      CommandRead();
      ghost var s := masterBuffer[..];
      for i := 0 to size
        invariant masterBuffer[..] == s && Valid() && sectors == old(sectors)
        invariant buffer[..i] == s[..i] && buffer[size..] == old(buffer[size..])
      {
        buffer[i] := masterBuffer[i];
      }
    }

    /** Write bytes at the start of a sector; what follows them is what
        MASTERBUFFER held. */
    method WriteNSector(p: Place, buffer: array<byte>, size: nat)
      requires Valid() && buffer != masterBuffer && 0 < size <= BLOC_SIZE && size <= buffer.Length
      modifies this, masterBuffer
      ensures Valid() && sectors == old(sectors)[p := buffer[..size] + old(masterBuffer[size..])]
    {
      for i := 0 to size
        invariant Valid() && sectors == old(sectors)
        invariant masterBuffer[..i] == buffer[..i] && masterBuffer[size..] == old(masterBuffer[size..])
      {
        masterBuffer[i] := buffer[i];
      }
      SeekSector(p);
      assert masterBuffer[..] == masterBuffer[..size] + masterBuffer[size..];
      sectors := sectors[head := masterBuffer[..]];
    }

    /** read_bloc of a block of a volume. */
    method ReadBloc(v: Vol, bloc: nat, buffer: array<byte>)
      requires Valid() && buffer != masterBuffer && buffer.Length == BLOC_SIZE
      modifies this, masterBuffer, buffer
      ensures Valid() && sectors == old(sectors) && buffer[..] == SectorAt(sectors, PlaceOf(v, bloc))
    {
      ReadNSector(PlaceOf(v, bloc), buffer, BLOC_SIZE);
      assert buffer[..] == buffer[..BLOC_SIZE];
    }

    /** write_bloc: exactly that block of that volume changes. */
    method WriteBloc(v: Vol, bloc: nat, buffer: array<byte>)
      requires Valid() && buffer != masterBuffer && buffer.Length == BLOC_SIZE
      modifies this, masterBuffer
      ensures Valid() && SectorAt(sectors, PlaceOf(v, bloc)) == buffer[..]
      ensures forall u: Vol, n: nat :: Base(u) + n != Base(v) + bloc ==>
        SectorAt(sectors, PlaceOf(u, n)) == old(SectorAt(sectors, PlaceOf(u, n)))
    {
      WriteNSector(PlaceOf(v, bloc), buffer, BLOC_SIZE);
      assert buffer[..BLOC_SIZE] + old(masterBuffer[BLOC_SIZE..]) == buffer[..];
      forall u: Vol, n: nat | Base(u) + n != Base(v) + bloc
        ensures SectorAt(sectors, PlaceOf(u, n)) == old(SectorAt(sectors, PlaceOf(u, n)))
      {
        AddressInjective(u, n, v, bloc);
      }
    }
  }
}
