/** The protocol as an interleaving of steps (src/api.cpp, src/Receive.cpp,
    src/Send.cpp): remote nodes acquire the lock, connect, fill or alter their
    cache, send a request, wait for the reply or for an invalidation, reconnect,
    reset and unlock, while the home serves one connection at a time. Caches are
    the bounded ones of CacheModel. */
module Protocol {
  import opened Defs
  import opened AddressKey
  import opened CacheModel
  import opened Directory
  import opened Locks
  import Atomic
  type Event = Atomic.Event

  /** The remote nodes, and the addresses allocated on the home. */
  datatype Config = Config(nodes: set<uint16>, addrs: set<GlobalAddress>)

  /** All remotely accessed addresses live on the home and fit a cache, and no two
      of them share a cache key. */
  ghost predicate ValidConfig(cfg: Config) {
    && PORT !in cfg.nodes
    && (forall a :: a in cfg.addrs ==> a.id == PORT && a.size <= CAPACITY)
    && CollisionFree(cfg.addrs)
  }

  /** Where a remote node's thread is. In Idle and WWaiting it listens on its own port. */
  datatype Pc =
    | Idle
    // Node::read: locked; missed; connected; answered; cached; value ready
    | RLocked(a: GlobalAddress)
    | RMissed(a: GlobalAddress)
    | RConnected(a: GlobalAddress)
    | RReplied(a: GlobalAddress, v: uint64)
    | RFilled(a: GlobalAddress, v: uint64)
    | RDone(a: GlobalAddress, v: uint64)
    // Node::write: locked; connected; own copy altered; answered; done
    | WLocked(a: GlobalAddress, v: uint64)
    | WConnected(a: GlobalAddress, v: uint64)
    | WAltered(a: GlobalAddress, v: uint64)
    | WReplied(a: GlobalAddress, v: uint64)
    | WDone(a: GlobalAddress, v: uint64)
    // prepareForInvalidate: listening for an invalidation; served; connected again
    | WWaiting(a: GlobalAddress, v: uint64)
    | WInvalidated(a: GlobalAddress, v: uint64)
    | WReconnected(a: GlobalAddress, v: uint64)

  /** A remote node; `lost` is a history count of bytes removed by invalidations. */
  datatype NodeState = NodeState(pc: Pc, cache: CacheState, lost: nat)

  /** What the home's single thread is doing. `was` is the cell before the overwrite
      that the broadcast belongs to; its sharer list is the snapshot being invalidated. */
  datatype HomeMode =
    | Listening
    | Session(client: uint16)
    | Broadcasting(writer: uint16, a: GlobalAddress, v: uint64, was: SaveData, rest: seq<uint16>)
    | HReadLocked(a: GlobalAddress)
    | HReadUnlocked(a: GlobalAddress)
    | HWriteLocked(a: GlobalAddress, v: uint64)
    | HBroadcast(a: GlobalAddress, v: uint64, rest: seq<uint16>)
    | HStored(a: GlobalAddress, v: uint64)

  datatype State = State(
    cells: map<GlobalAddress, SaveData>,
    nodes: map<uint16, NodeState>,
    locks: Table,
    home: HomeMode,
    clock: nat)

  datatype Action =
    | Refused(n: uint16, a: GlobalAddress, mode: LockState)
    | ReadLock(n: uint16, a: GlobalAddress)
    | Lookup(n: uint16)
    | WriteLock(n: uint16, a: GlobalAddress, v: uint64)
    | Connect(n: uint16)
    | ServeRead(n: uint16)
    | Fill(n: uint16)
    | AlterCache(n: uint16)
    | ServeWrite(n: uint16)
    | Reset(n: uint16)
    | Unlock(n: uint16)
    | Invalidate
    | EndBroadcast
    | ServeLockClient(n: uint16)
    | HomeReadLock(a: GlobalAddress)
    | HomeReadUnlock
    | HomeReadReturn
    | HomeWriteLock(a: GlobalAddress, v: uint64)
    | HomeCheckSharers
    | HomeInvalidate
    | HomeStore
    | HomeUnlock

  function Grants(s: State, mode: LockState): bool {
    SetLock(s.locks, Request(PORT, mode)).granted
  }

  function Relocked(s: State, mode: LockState): Table {
    SetLock(s.locks, Request(PORT, mode)).table
  }

  /** The node is inside a connection that the home is serving. */
  predicate InSession(pc: Pc) {
    || pc.RConnected? || pc.RReplied? || pc.RFilled?
    || pc.WConnected? || pc.WAltered? || pc.WReplied? || pc.WReconnected?
  }

  /** The node's thread is in connectAndReceive on its own port. */
  predicate Listens(pc: Pc) {
    pc.Idle? || pc.WWaiting?
  }

  function NewItem(s: State, a: GlobalAddress, v: uint64): CacheItem {
    CacheItem(a, v, s.clock + 1, s.clock + 1)
  }

  ghost predicate Enabled(cfg: Config, s: State, act: Action) {
    match act
    case Refused(n, a, mode) => CanLock(cfg, s, n, a) && mode != UNLOCKED && !Grants(s, mode)
    case ReadLock(n, a) => CanLock(cfg, s, n, a) && Grants(s, SHAREDLOCK)
    case Lookup(n) => CanLookup(s, n)
    case WriteLock(n, a, v) => CanLock(cfg, s, n, a) && Grants(s, EXCLUSIVE)
    case Connect(n) => CanConnect(s, n)
    case ServeRead(n) => CanServeRead(s, n)
    case Fill(n) => CanFill(s, n)
    case AlterCache(n) => CanAlter(s, n)
    case ServeWrite(n) => CanServeWrite(s, n)
    case Reset(n) => CanReset(s, n)
    case Unlock(n) => CanUnlock(s, n)
    case Invalidate => CanInvalidate(s)
    case EndBroadcast => s.home.Broadcasting? && s.home.rest == []
    case ServeLockClient(n) => CanServeLockClient(s, n)
    case HomeReadLock(a) => s.home.Listening? && a in cfg.addrs && Grants(s, SHAREDLOCK)
    case HomeReadUnlock => s.home.HReadLocked?
    case HomeReadReturn => s.home.HReadUnlocked? && s.home.a in s.cells
    case HomeWriteLock(a, v) => s.home.Listening? && a in cfg.addrs && Grants(s, EXCLUSIVE)
    case HomeCheckSharers => CanHomeCheckSharers(s)
    case HomeInvalidate => CanHomeInvalidate(s)
    case HomeStore => CanHomeStore(s)
    case HomeUnlock => s.home.HStored?
  }

  ghost function Next(cfg: Config, s: State, act: Action): State
    requires Enabled(cfg, s, act)
  {
    match act
    case Refused(_, _, _) => s
    case ReadLock(n, a) => WithPc(s, n, RLocked(a)).(locks := Relocked(s, SHAREDLOCK))
    case Lookup(n) => AfterLookup(s, n)
    case WriteLock(n, a, v) => WithPc(s, n, WLocked(a, v)).(locks := Relocked(s, EXCLUSIVE))
    case Connect(n) => AfterConnect(s, n)
    case ServeRead(n) => AfterServeRead(s, n)
    case Fill(n) => AfterFill(s, n)
    case AlterCache(n) => AfterAlter(s, n)
    case ServeWrite(n) => AfterServeWrite(s, n)
    case Reset(n) => AfterReset(s, n)
    case Unlock(n) => WithPc(s, n, Idle).(locks := Relocked(s, UNLOCKED))
    case Invalidate => AfterInvalidate(s)
    case EndBroadcast => s.(home := Listening)
    case ServeLockClient(n) => AfterServeLockClient(s, n)
    case HomeReadLock(a) => s.(home := HReadLocked(a), locks := Relocked(s, SHAREDLOCK))
    case HomeReadUnlock => s.(home := HReadUnlocked(s.home.a), locks := Relocked(s, UNLOCKED))
    case HomeReadReturn => s.(home := Listening)
    case HomeWriteLock(a, v) => s.(home := HWriteLocked(a, v), locks := Relocked(s, EXCLUSIVE))
    case HomeCheckSharers => AfterHomeCheckSharers(s)
    case HomeInvalidate => AfterHomeInvalidate(s)
    case HomeStore => AfterHomeStore(s)
    case HomeUnlock => s.(home := Listening, locks := Relocked(s, UNLOCKED))
  }

  // --- The steps ---

  function WithPc(s: State, n: uint16, pc: Pc): State
    requires n in s.nodes
  {
    s.(nodes := s.nodes[n := s.nodes[n].(pc := pc)])
  }

  /** A read or a write asks for the lock of the address's home first. */
  predicate CanLock(cfg: Config, s: State, n: uint16, a: GlobalAddress) {
    n in s.nodes && s.nodes[n].pc.Idle? && a in cfg.addrs
  }

  predicate CanLookup(s: State, n: uint16) {
    n in s.nodes && s.nodes[n].pc.RLocked?
  }

  /** A hit stamps the item and has the value at once. */
  function Hit(ns: NodeState, now: nat): NodeState
    requires ns.pc.RLocked? && Key(ns.pc.a) in ns.cache.items
  {
    NodeState(RDone(ns.pc.a, ns.cache.items[Key(ns.pc.a)].data), Touch(ns.cache, ns.pc.a, now), ns.lost)
  }

  /** performRead at a remote node looks into its cache. */
  function AfterLookup(s: State, n: uint16): State
    requires CanLookup(s, n)
  {
    var ns := s.nodes[n];
    var a := ns.pc.a;
    if Key(a) in ns.cache.items
    then s.(nodes := s.nodes[n := Hit(ns, s.clock + 1)], clock := s.clock + 1)
    else WithPc(s, n, RMissed(a))
  }

  /** A connection is accepted exactly while the home listens. */
  predicate CanConnect(s: State, n: uint16) {
    && n in s.nodes
    && s.home == Listening
    && (s.nodes[n].pc.RMissed? || s.nodes[n].pc.WLocked? || s.nodes[n].pc.WInvalidated?)
  }

  function AfterConnect(s: State, n: uint16): State
    requires CanConnect(s, n)
  {
    var pc := s.nodes[n].pc;
    var next := if pc.RMissed? then RConnected(pc.a)
                else if pc.WLocked? then WConnected(pc.a, pc.v)
                else WReconnected(pc.a, pc.v);
    WithPc(s, n, next).(home := Session(n))
  }

  predicate CanServeRead(s: State, n: uint16) {
    n in s.nodes && s.home == Session(n) && s.nodes[n].pc.RConnected? && s.nodes[n].pc.a in s.cells
  }

  /** handleRead registers the reader and replies with the data. */
  function AfterServeRead(s: State, n: uint16): State
    requires CanServeRead(s, n)
  {
    var a := s.nodes[n].pc.a;
    WithPc(s, n, RReplied(a, s.cells[a].data)).(cells := s.cells[a := Registered(s.cells[a], n)])
  }

  /** The reader stores the reply. A store that spins or aborts never returns: there
      is no step for it. */
  ghost function FillResult(s: State, n: uint16): AddResult
    requires n in s.nodes && s.nodes[n].pc.RReplied?
  {
    var pc := s.nodes[n].pc;
    Add(s.nodes[n].cache, pc.a, NewItem(s, pc.a, pc.v))
  }

  ghost predicate CanFill(s: State, n: uint16) {
    n in s.nodes && s.home == Session(n) && s.nodes[n].pc.RReplied? && Returns(FillResult(s, n).outcome)
  }

  ghost function AfterFill(s: State, n: uint16): State
    requires CanFill(s, n)
  {
    var ns := s.nodes[n];
    s.(nodes := s.nodes[n := NodeState(RFilled(ns.pc.a, ns.pc.v), FillResult(s, n).cache, ns.lost)],
       clock := s.clock + 1)
  }

  ghost function AlterResult(s: State, n: uint16): AddResult
    requires n in s.nodes && s.nodes[n].pc.WConnected?
  {
    var pc := s.nodes[n].pc;
    Alter(s.nodes[n].cache, pc.a, NewItem(s, pc.a, pc.v))
  }

  ghost predicate CanAlter(s: State, n: uint16) {
    n in s.nodes && s.home == Session(n) && s.nodes[n].pc.WConnected? && Returns(AlterResult(s, n).outcome)
  }

  ghost function AfterAlter(s: State, n: uint16): State
    requires CanAlter(s, n)
  {
    var ns := s.nodes[n];
    s.(nodes := s.nodes[n := NodeState(WAltered(ns.pc.a, ns.pc.v), AlterResult(s, n).cache, ns.lost)],
       clock := s.clock + 1)
  }

  predicate CanServeWrite(s: State, n: uint16) {
    n in s.nodes && s.home == Session(n) && s.nodes[n].pc.WAltered? && s.nodes[n].pc.a in s.cells
  }

  /** handleWrite starts a broadcast. */
  predicate MustInvalidate(cell: SaveData) {
    Readable(cell) && RemoteWriteGuard(cell)
  }

  /** handleWrite. With sharers the writer is told to wait, the cell is overwritten,
      the connection is closed and the broadcast over the snapshot begins. */
  function AfterServeWrite(s: State, n: uint16): State
    requires CanServeWrite(s, n)
  {
    var pc := s.nodes[n].pc;
    var cell := s.cells[pc.a];
    var written := s.(cells := s.cells[pc.a := RemotelyWritten(pc.v, n)]);
    if MustInvalidate(cell)
    then WithPc(written, n, WWaiting(pc.a, pc.v)).(home := Broadcasting(n, pc.a, pc.v, cell, cell.sharerNodes))
    else WithPc(written, n, WReplied(pc.a, pc.v))
  }

  predicate CanReset(s: State, n: uint16) {
    && n in s.nodes
    && s.home == Session(n)
    && (s.nodes[n].pc.RFilled? || s.nodes[n].pc.WReplied? || s.nodes[n].pc.WReconnected?)
  }

  /** closeClientSocket ends the session, and the home listens again. */
  function AfterReset(s: State, n: uint16): State
    requires CanReset(s, n)
  {
    var pc := s.nodes[n].pc;
    WithPc(s, n, if pc.RFilled? then RDone(pc.a, pc.v) else WDone(pc.a, pc.v)).(home := Listening)
  }

  predicate CanUnlock(s: State, n: uint16) {
    n in s.nodes && (s.nodes[n].pc.RDone? || s.nodes[n].pc.WDone?)
  }

  /** handleInvalidation at a node; a writer waiting in prepareForInvalidate goes on. */
  ghost function Dropped(ns: NodeState, a: GlobalAddress): NodeState {
    NodeState(if ns.pc.WWaiting? then WInvalidated(ns.pc.a, ns.pc.v) else ns.pc,
              Remove(ns.cache, a),
              ns.lost + LostBytes(ns.cache, a))
  }

  /** The home's connection to the next node of the snapshot succeeds while that
      node's thread listens. */
  predicate CanInvalidate(s: State) {
    && s.home.Broadcasting? && s.home.rest != []
    && s.home.rest[0] in s.nodes && Listens(s.nodes[s.home.rest[0]].pc)
  }

  ghost function AfterInvalidate(s: State): State
    requires CanInvalidate(s)
  {
    var Broadcasting(w, a, v, was, rest) := s.home;
    s.(nodes := s.nodes[rest[0] := Dropped(s.nodes[rest[0]], a)], home := Broadcasting(w, a, v, was, rest[1..]))
  }

  /** A waiting writer accepts whoever connects first: on the lock node that may be
      a client of the lock table. */
  predicate CanServeLockClient(s: State, n: uint16) {
    n in s.nodes && n == LOCK_NODE && s.nodes[n].pc.WWaiting?
  }

  function AfterServeLockClient(s: State, n: uint16): State
    requires CanServeLockClient(s, n)
  {
    WithPc(s, n, WInvalidated(s.nodes[n].pc.a, s.nodes[n].pc.v))
  }

  predicate CanHomeCheckSharers(s: State) {
    s.home.HWriteLocked? && s.home.a in s.cells
  }

  function AfterHomeCheckSharers(s: State): State
    requires CanHomeCheckSharers(s)
  {
    var cell := s.cells[s.home.a];
    s.(home := HBroadcast(s.home.a, s.home.v, if LocalWriteGuard(cell) then cell.sharerNodes else []))
  }

  predicate CanHomeInvalidate(s: State) {
    && s.home.HBroadcast? && s.home.rest != []
    && s.home.rest[0] in s.nodes && Listens(s.nodes[s.home.rest[0]].pc)
  }

  ghost function AfterHomeInvalidate(s: State): State
    requires CanHomeInvalidate(s)
  {
    var HBroadcast(a, v, rest) := s.home;
    s.(nodes := s.nodes[rest[0] := Dropped(s.nodes[rest[0]], a)], home := HBroadcast(a, v, rest[1..]))
  }

  predicate CanHomeStore(s: State) {
    s.home.HBroadcast? && s.home.rest == [] && s.home.a in s.cells
  }

  function AfterHomeStore(s: State): State
    requires CanHomeStore(s)
  {
    s.(cells := s.cells[s.home.a := LocallyWritten(s.home.v, PORT)], home := HStored(s.home.a, s.home.v))
  }

  /** The read or write that takes effect with a step, if one does: a hit when the
      lookup finds the item, a miss when the home serves it, a write when the home
      stores it or, if it must invalidate, when its broadcast ends. */
  ghost function Emit(cfg: Config, s: State, act: Action): Option<Event>
    requires Enabled(cfg, s, act)
  {
    match act
    case Lookup(n) =>
      var a := s.nodes[n].pc.a;
      var items := s.nodes[n].cache.items;
      if Key(a) in items then Some(Atomic.ReadHit(n, a, items[Key(a)].data)) else None
    case ServeRead(n) =>
      var a := s.nodes[n].pc.a;
      Some(Atomic.ReadMiss(n, a, s.cells[a].data))
    case ServeWrite(n) =>
      var pc := s.nodes[n].pc;
      if MustInvalidate(s.cells[pc.a]) then None else Some(Atomic.RemoteWrite(n, pc.a, pc.v))
    case EndBroadcast => Some(Atomic.RemoteWrite(s.home.writer, s.home.a, s.home.v))
    case HomeReadReturn => Some(Atomic.HomeRead(s.home.a, s.cells[s.home.a].data))
    case HomeStore => Some(Atomic.HomeWrite(s.home.a, s.home.v))
    case _ => None
  }

  ghost predicate Initial(cfg: Config, s: State) {
    && s.nodes.Keys == cfg.nodes
    && s.cells.Keys == cfg.addrs
    && (forall n :: n in s.nodes ==> s.nodes[n] == NodeState(Idle, EMPTY_CACHE, 0))
    && (forall a :: a in s.cells ==> s.cells[a].iscached == UNSHARED && s.cells[a].sharerNodes == [])
    && s.locks == map[]
    && s.home == Listening
  }

  // --- Runs ---

  /** Every action of the sequence is enabled when its turn comes. */
  ghost predicate CanRun(cfg: Config, s: State, acts: seq<Action>)
    decreases |acts|, 0
  {
    acts == [] ||
    var before := acts[..|acts| - 1];
    CanRun(cfg, s, before) && Enabled(cfg, After(cfg, s, before), acts[|acts| - 1])
  }

  ghost function After(cfg: Config, s: State, acts: seq<Action>): State
    requires CanRun(cfg, s, acts)
    decreases |acts|, 1
  {
    if acts == [] then s
    else Next(cfg, After(cfg, s, acts[..|acts| - 1]), acts[|acts| - 1])
  }

  /** The reads and writes of a run, in the order in which they take effect. */
  ghost function Trace(cfg: Config, s: State, acts: seq<Action>): seq<Event>
    requires CanRun(cfg, s, acts)
    decreases |acts|
  {
    if acts == [] then []
    else
      var before := acts[..|acts| - 1];
      match Emit(cfg, After(cfg, s, before), acts[|acts| - 1])
      case None => Trace(cfg, s, before)
      case Some(e) => Trace(cfg, s, before) + [e]
  }
}
