/** The volume as an array of typed blocks, and the in-memory super block
    (src/superbloc.h, src/inode.h). */
module Disk {

  const BLOC_SIZE: nat := 512    // bytes in a block
  const NB_DIRECTS: nat := 124   // direct slots of an inode
  const NB_PTRS: nat := 128      // slots of an index table
  const NB_FBLOCS: nat := 16636  // NB_DIRECTS + NB_PTRS + NB_PTRS * NB_PTRS

  type byte = x: int | 0 <= x < 256

  datatype Kind = File | Directory | Special

  /** What a block holds. A pointer 0 means "no block"; block 0 is the super block. */
  datatype Block =
    | Super(first: nat, free: int, root: int)
    | FreeLink(next: nat)
    | Inode(kind: Kind, size: nat, directs: seq<nat>, indirect: nat, doubleIndirect: nat)
    | Table(ptrs: seq<nat>)
    | Data(bytes: seq<byte>)

  /** The blocks of the mounted volume and the cached super block fields. */
  datatype Store = Store(blocks: seq<Block>, first: nat, free: int, root: int)

  function Get(s: Store, b: nat): Block {
    if b < |s.blocks| then s.blocks[b] else Data([])
  }

  function Put(s: Store, b: nat, x: Block): Store {
    if b < |s.blocks| then s.(blocks := s.blocks[b := x]) else s
  }

  function Zeros(n: nat): seq<nat> {
    seq(n, _ => 0)
  }

  function ZeroBytes(): (r: seq<byte>)
    ensures |r| == BLOC_SIZE
  {
    seq(BLOC_SIZE, _ => 0)
  }

  const ZERO_TABLE: Block := Table(Zeros(NB_PTRS))
  const ZERO_DATA: Block := Data(ZeroBytes())

  /** The number of pointer slots of a block. */
  function Slots(x: Block): nat {
    match x
    case Inode(_, _, ds, _, _) => |ds| + 2
    case Table(ps) => |ps|
    case _ => 0
  }

  /** Slot k of a block: the direct slots, then the single and the double
      indirect slot of an inode; the entries of an index table. */
  function PtrAt(x: Block, k: nat): nat {
    match x
    case Inode(_, _, ds, single, double) =>
      if k < |ds| then ds[k] else if k == |ds| then single else if k == |ds| + 1 then double else 0
    case Table(ps) => if k < |ps| then ps[k] else 0
    case _ => 0
  }

  function SetPtr(x: Block, k: nat, p: nat): (r: Block)
    ensures Slots(r) == Slots(x)
    ensures k < Slots(x) ==> forall j: nat :: PtrAt(r, j) == if j == k then p else PtrAt(x, j)
  {
    match x
    case Inode(_, _, ds, _, _) =>
      if k < |ds| then x.(directs := ds[k := p])
      else if k == |ds| then x.(indirect := p)
      else if k == |ds| + 1 then x.(doubleIndirect := p) else x
    case Table(ps) => if k < |ps| then Table(ps[k := p]) else x
    case _ => x
  }

  predicate IsInode(x: Block) {
    x.Inode? && |x.directs| == NB_DIRECTS
  }

  predicate IsTable(x: Block) {
    x.Table? && |x.ptrs| == NB_PTRS
  }

  predicate IsData(x: Block) {
    x.Data? && |x.bytes| == BLOC_SIZE
  }
}
