/** What reads and writes do to one directory cell, and the guards that decide
    whether sharers must be invalidated first (src/api.cpp, src/Receive.cpp). */
module Directory {
  import opened Defs

  /** handleRead registers the reader. */
  function Registered(cell: SaveData, src: uint16): SaveData {
    cell.(iscached := SHARED, sharerNodes := cell.sharerNodes + [src])
  }

  /** performWrite at the home, for a remote writer. */
  function RemotelyWritten(data: uint64, src: uint16): SaveData {
    SaveData(data, EXCLUS, src, [])
  }

  /** The home's own write. */
  function LocallyWritten(data: uint64, id: uint16): SaveData {
    SaveData(data, UNSHARED, id, [])
  }

  /** performRead returns a cell, not null. */
  predicate Readable(cell: SaveData) {
    !(cell.iscached < 0 || cell.iscached > 2)
  }

  /** The guard of handleWrite. */
  predicate RemoteWriteGuard(cell: SaveData) {
    cell.iscached > UNSHARED && cell.sharerNodes != [] && cell.iscached < 3
  }

  /** The guard of a local write. */
  predicate LocalWriteGuard(cell: SaveData) {
    cell.iscached >= 0 && cell.sharerNodes != [] && cell.iscached < 3
  }

  /** The guard of a local free. */
  predicate FreeGuard(cell: SaveData) {
    cell.iscached >= 0 && cell.sharerNodes != []
  }

  /** The three guards agree, they ask for sharers, and the cell can be read. */
  predicate GuardsAgree(cell: SaveData) {
    && Readable(cell)
    && (RemoteWriteGuard(cell) <==> cell.sharerNodes != [])
    && (LocalWriteGuard(cell) <==> cell.sharerNodes != [])
    && (FreeGuard(cell) <==> cell.sharerNodes != [])
  }

  /** On any cell the three guards agree and the cell can be read exactly when its state
      is one of the three, and UNSHARED only without sharers: with sharers an UNSHARED
      cell is invalidated by a local write and a free, but not by a remote write. */
  lemma GuardsAgreeExactly(cell: SaveData)
    ensures GuardsAgree(cell) <==> 0 <= cell.iscached <= 2 && (cell.iscached == 0 ==> cell.sharerNodes == [])
    ensures RemoteWriteGuard(cell) <==> 1 <= cell.iscached <= 2 && |cell.sharerNodes| > 0
    ensures LocalWriteGuard(cell) <==> 0 <= cell.iscached <= 2 && |cell.sharerNodes| > 0
    ensures FreeGuard(cell) <==> 0 <= cell.iscached && |cell.sharerNodes| > 0
    ensures Readable(cell) <==> cell.iscached in {0, 1, 2}
  {
  }

  /** The state says SHARED exactly when there are sharers. */
  predicate SharedMeansSharers(cell: SaveData) {
    0 <= cell.iscached <= 2 && (cell.iscached == SHARED <==> cell.sharerNodes != [])
  }
}
