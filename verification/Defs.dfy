/** Value types shared by every part of the memory: addresses, messages,
    directory cells and lock states (util/defs.h). */
module Defs {
  const TWO_TO_THE_16 := 0x1_0000
  const TWO_TO_THE_32 := 0x1_0000_0000
  const TWO_TO_THE_64 := 0x1_0000_0000_0000_0000

  type uint16 = x: int | 0 <= x < TWO_TO_THE_16
  type uint32 = x: int | 0 <= x < TWO_TO_THE_32
  type uint64 = x: int | 0 <= x < TWO_TO_THE_64

  datatype Option<+T> = None | Some(value: T)

  /** Node id (and TCP port) of the one home that serves remote accesses. */
  const PORT: uint16 := 3000

  /** Node id of the node that holds the lock table. */
  const LOCK_NODE: uint16 := 2000

  /** Bytes a directory cell occupies in front of a block: data (8), state (4),
      owner (2), two bytes of padding and the sharer vector (24). */
  const SAVE_DATA_SIZE := 40

  // Directory states. They stay integers because the code compares them as integers.
  const UNSHARED := 0
  const SHARED := 1
  const EXCLUS := 2

  datatype LockState = UNLOCKED | SHAREDLOCK | EXCLUSIVE

  datatype GlobalAddress = GlobalAddress(size: uint64, ptr: uint64, id: uint16) {
    function Sendable(srcID: uint16): SendGlobalAddr {
      SendGlobalAddr(size, ptr, id, srcID)
    }
  }

  datatype SendGlobalAddr = SendGlobalAddr(size: uint64, ptr: uint64, id: uint16, srcID: uint16) {
    function Received(): GlobalAddress {
      GlobalAddress(size, ptr, id)
    }
  }

  datatype Data = Data(size: uint64, data: uint64, ga: GlobalAddress) {
    function Sendable(srcID: uint16): SendingData {
      SendingData(size, data, ga.Sendable(srcID))
    }
  }

  datatype SendingData = SendingData(size: uint64, data: uint64, sga: SendGlobalAddr) {
    function Received(): Data {
      Data(size, data, sga.Received())
    }
  }

  /** A directory cell: the value, its state, the last writer and the readers
      registered since that write. */
  datatype SaveData = SaveData(data: uint64, iscached: int, ownerNode: uint16, sharerNodes: seq<uint16>)
}
