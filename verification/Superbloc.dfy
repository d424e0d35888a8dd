/** The free-block chain (src/superbloc.c). */
module Superbloc {
  import opened Disk

  function Save(s: Store): Store {
    Put(s, 0, Super(s.first, s.free, s.root))
  }

  function NextFree(x: Block): nat {
    if x.FreeLink? then x.next else 0
  }

  /** Take the head of the chain; 0 when the disk is full. */
  function NewBloc(s: Store): (Store, nat) {
    if s.first == 0 then (s, 0)
    else (Save(s.(first := NextFree(Get(s, s.first)), free := s.free - 1)), s.first)
  }

  /** Push a block on the chain. Block 0 is refused. */
  function FreeBloc(s: Store, b: nat): Store {
    if b == 0 then s
    else Save(Put(s, b, FreeLink(s.first)).(first := b, free := s.free + 1))
  }

  function FreeBlocs(s: Store, bs: seq<nat>): Store
    decreases |bs|
  {
    if bs == [] then s else FreeBlocs(FreeBloc(s, bs[0]), bs[1..])
  }
}
