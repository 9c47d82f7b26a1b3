/** Every run of the interleaved protocol is a run of whole reads and writes. */
module Refinement {
  import opened Defs
  import opened AddressKey
  import opened CacheModel
  import opened Directory
  import opened Protocol
  import opened Locks
  import Atomic

  // --- The invariant of the protocol ---

  /** The facts about its own cache that a thread relies on at each point. */
  ghost predicate PcOk(cfg: Config, ns: NodeState) {
    var view := View(ns.cache, cfg.addrs);
    match ns.pc
    case Idle => true
    case RMissed(a) => a in cfg.addrs && a !in view
    case RConnected(a) => a in cfg.addrs && a !in view
    case RReplied(a, _) => a in cfg.addrs && a !in view
    case WAltered(a, v) => a in cfg.addrs && (a in view ==> view[a] == v)
    case WWaiting(a, v) => a in cfg.addrs && (a in view ==> view[a] == v)
    case WInvalidated(a, v) => a in cfg.addrs && (a in view ==> view[a] == v)
    case _ => ns.pc.a in cfg.addrs
  }

  ghost predicate NodeOk(cfg: Config, ns: NodeState) {
    Tagged(ns.cache, cfg.addrs) && PcOk(cfg, ns)
  }

  ghost predicate CellOk(cfg: Config, cell: SaveData) {
    SharedMeansSharers(cell) && forall m :: m in cell.sharerNodes ==> m in cfg.nodes
  }

  ghost predicate StoreOk(cfg: Config, s: State) {
    && s.nodes.Keys == cfg.nodes
    && s.cells.Keys == cfg.addrs
    && (forall n :: n in s.nodes ==> NodeOk(cfg, s.nodes[n]))
    && (forall a :: a in s.cells ==> CellOk(cfg, s.cells[a]))
  }

  /** One connection at a time: a node is in a session exactly when the home serves it. */
  ghost predicate OneSession(s: State) {
    forall n :: n in s.nodes ==> (InSession(s.nodes[n].pc) <==> s.home == Session(n))
  }

  ghost predicate DroppedBy(cfg: Config, s: State, a: GlobalAddress, snapshot: seq<uint16>, rest: seq<uint16>) {
    && (forall m :: m in rest ==> m in snapshot)
    && forall m :: m in snapshot && m in s.nodes && m !in rest ==> a !in View(s.nodes[m].cache, cfg.addrs)
  }

  /** During a broadcast the writer waits or wants to reconnect, the cell is
      overwritten, and the part of the snapshot already served has no copy. */
  ghost predicate HomeOk(cfg: Config, s: State)
    requires s.nodes.Keys == cfg.nodes && s.cells.Keys == cfg.addrs
  {
    match s.home
    case Listening => true
    case Session(n) => n in s.nodes
    case Broadcasting(w, a, v, was, rest) =>
      && a in s.cells && w in s.nodes
      && (s.nodes[w].pc == WWaiting(a, v) || s.nodes[w].pc == WInvalidated(a, v))
      && s.cells[a] == RemotelyWritten(v, w)
      && CellOk(cfg, was)
      && DroppedBy(cfg, s, a, was.sharerNodes, rest)
    case HBroadcast(a, _, rest) => a in s.cells && DroppedBy(cfg, s, a, s.cells[a].sharerNodes, rest)
    case _ => s.home.a in s.cells
  }

  ghost predicate Inv(cfg: Config, s: State) {
    StoreOk(cfg, s) && OneSession(s) && HomeOk(cfg, s)
  }

  // --- The abstraction ---

  /** The address whose overwrite, by n, is being broadcast. */
  function Hidden(home: HomeMode, n: uint16): Option<GlobalAddress> {
    if home.Broadcasting? && home.writer == n then Some(home.a) else None
  }

  /** A reply counts as cached before it is; a copy that a write has altered does
      not count until the write takes effect. */
  ghost function AbsCopies(cfg: Config, ns: NodeState, hidden: Option<GlobalAddress>): Atomic.Copies {
    var view := View(ns.cache, cfg.addrs);
    if ns.pc.RReplied? then Atomic.Stored(view, ns.pc.a, ns.pc.v)
    else if ns.pc.WAltered? then view - {ns.pc.a}
    else if hidden.Some? then view - {hidden.value}
    else view
  }

  /** A cell being invalidated counts as not yet overwritten. */
  function AbsCells(s: State): map<GlobalAddress, SaveData> {
    if s.home.Broadcasting? then s.cells[s.home.a := s.home.was] else s.cells
  }

  ghost function AbsCaches(cfg: Config, s: State): map<uint16, Atomic.Copies> {
    map n | n in s.nodes :: AbsCopies(cfg, s.nodes[n], Hidden(s.home, n))
  }

  ghost function Abs(cfg: Config, s: State): Atomic.Memory {
    Atomic.Memory(AbsCells(s), AbsCaches(cfg, s))
  }

  /** A step is an operation of the atomic memory, followed by forgetting, or only
      forgetting. */
  ghost predicate Simulates(cfg: Config, s: State, e: Option<Event>, t: State) {
    match e
    case None => Atomic.Evicted(Abs(cfg, s), Abs(cfg, t))
    case Some(op) =>
      Atomic.Enabled(Abs(cfg, s), op) && Atomic.Evicted(Atomic.Apply(Abs(cfg, s), op), Abs(cfg, t))
  }

  // --- One node's part of a step ---

  lemma NodeOkFrom(cfg: Config, ns: NodeState)
    requires Tagged(ns.cache, cfg.addrs) && PcOk(cfg, ns)
    ensures NodeOk(cfg, ns)
  {
  }

  lemma HitNode(cfg: Config, ns: NodeState, now: nat)
    requires NodeOk(cfg, ns) && ns.pc.RLocked? && Key(ns.pc.a) in ns.cache.items && now > 0
    ensures NodeOk(cfg, Hit(ns, now))
    ensures View(Hit(ns, now).cache, cfg.addrs) == View(ns.cache, cfg.addrs)
    ensures ns.pc.a in View(ns.cache, cfg.addrs) && View(ns.cache, cfg.addrs)[ns.pc.a] == Hit(ns, now).pc.v
  {
    TouchKeeps(ns.cache, cfg.addrs, ns.pc.a, now);
    NodeOkFrom(cfg, Hit(ns, now));
  }

  lemma FillNode(cfg: Config, ns: NodeState, item: CacheItem)
    requires CollisionFree(cfg.addrs) && NodeOk(cfg, ns) && ns.pc.RReplied?
    requires item.globalAddress == ns.pc.a && item.data == ns.pc.v && item.lastused > 0
    ensures NodeOk(cfg, NodeState(RFilled(ns.pc.a, ns.pc.v), Add(ns.cache, ns.pc.a, item).cache, ns.lost))
  {
    AddAfterMiss(ns.cache, cfg.addrs, ns.pc.a, item);
    NodeOkFrom(cfg, NodeState(RFilled(ns.pc.a, ns.pc.v), Add(ns.cache, ns.pc.a, item).cache, ns.lost));
  }

  lemma AlterNode(cfg: Config, ns: NodeState, item: CacheItem)
    requires CollisionFree(cfg.addrs) && NodeOk(cfg, ns) && ns.pc.WConnected?
    requires item.globalAddress == ns.pc.a && item.data == ns.pc.v && item.lastused > 0
    ensures NodeOk(cfg, NodeState(WAltered(ns.pc.a, ns.pc.v), Alter(ns.cache, ns.pc.a, item).cache, ns.lost))
  {
    AlterStores(ns.cache, cfg.addrs, ns.pc.a, item);
    NodeOkFrom(cfg, NodeState(WAltered(ns.pc.a, ns.pc.v), Alter(ns.cache, ns.pc.a, item).cache, ns.lost));
  }

  lemma ForgetsBelow(big: Atomic.Copies, small: Atomic.Copies, a: GlobalAddress, v: uint64)
    requires Forgets(big[a := v], small)
    ensures Forgets(big, small - {a})
    ensures a in small ==> small[a] == v
  {
  }

  lemma DropNode(cfg: Config, ns: NodeState, a: GlobalAddress)
    requires CollisionFree(cfg.addrs) && NodeOk(cfg, ns) && Listens(ns.pc) && a in cfg.addrs
    ensures NodeOk(cfg, Dropped(ns, a))
    ensures View(Dropped(ns, a).cache, cfg.addrs) == View(ns.cache, cfg.addrs) - {a}
  {
    RemoveDrops(ns.cache, cfg.addrs, a);
    DropPc(cfg, ns, a);
    NodeOkFrom(cfg, Dropped(ns, a));
  }

  lemma DropPc(cfg: Config, ns: NodeState, a: GlobalAddress)
    requires PcOk(cfg, ns) && Listens(ns.pc)
    requires View(Remove(ns.cache, a), cfg.addrs) == View(ns.cache, cfg.addrs) - {a}
    ensures PcOk(cfg, Dropped(ns, a))
  {
  }

  // --- The invariant is kept ---

  /** From s to t at most node n changes. */
  ghost predicate OneNode(s: State, t: State, n: uint16) {
    && n in s.nodes
    && t.nodes.Keys == s.nodes.Keys
    && forall m :: m in s.nodes && m != n ==> t.nodes[m] == s.nodes[m]
  }

  lemma StoreFrom(cfg: Config, s: State, t: State, n: uint16)
    requires StoreOk(cfg, s) && OneNode(s, t, n) && NodeOk(cfg, t.nodes[n])
    requires t.cells.Keys == s.cells.Keys
    requires forall a :: a in s.cells ==> t.cells[a] == s.cells[a] || CellOk(cfg, t.cells[a])
    ensures StoreOk(cfg, t)
  {
  }

  lemma SessionFrom(s: State, t: State, n: uint16)
    requires OneSession(s) && OneNode(s, t, n)
    requires InSession(t.nodes[n].pc) <==> t.home == Session(n)
    requires s.home.Session? ==> s.home.client == n
    requires t.home.Session? ==> t.home.client == n
    ensures OneSession(t)
  {
  }

  /** A thread moves outside any connection. It may lose copies but gains none, and
      a writer whose broadcast is going on stays in prepareForInvalidate. */
  lemma KeepLocal(cfg: Config, s: State, t: State, n: uint16)
    requires Inv(cfg, s) && OneNode(s, t, n) && t.home == s.home && t.cells == s.cells
    requires NodeOk(cfg, t.nodes[n])
    requires !InSession(s.nodes[n].pc) && !InSession(t.nodes[n].pc)
    requires View(t.nodes[n].cache, cfg.addrs) == View(s.nodes[n].cache, cfg.addrs)
    requires s.home.Broadcasting? && s.home.writer == n ==> t.nodes[n].pc == WInvalidated(s.home.a, s.home.v)
    ensures Inv(cfg, t)
  {
    StoreFrom(cfg, s, t, n);
    assert OneSession(t);
    HomeLocal(cfg, s, t, n);
  }

  lemma HomeLocal(cfg: Config, s: State, t: State, n: uint16)
    requires StoreOk(cfg, s) && HomeOk(cfg, s) && OneNode(s, t, n) && t.home == s.home && t.cells == s.cells
    requires View(t.nodes[n].cache, cfg.addrs) == View(s.nodes[n].cache, cfg.addrs)
    requires s.home.Broadcasting? && s.home.writer == n ==> t.nodes[n].pc == WInvalidated(s.home.a, s.home.v)
    ensures HomeOk(cfg, t)
  {
  }

  /** A connection opens, goes on, or is closed by its client. */
  lemma KeepSession(cfg: Config, s: State, t: State, n: uint16)
    requires Inv(cfg, s) && OneNode(s, t, n)
    requires NodeOk(cfg, t.nodes[n])
    requires t.cells.Keys == s.cells.Keys
    requires forall a :: a in s.cells ==> t.cells[a] == s.cells[a] || CellOk(cfg, t.cells[a])
    requires s.home == Listening || s.home == Session(n)
    requires t.home == if InSession(t.nodes[n].pc) then Session(n) else Listening
    ensures Inv(cfg, t)
  {
    StoreFrom(cfg, s, t, n);
    SessionFrom(s, t, n);
  }

  /** An invalidating write closes its connection and the broadcast begins. */
  lemma KeepStartBroadcast(cfg: Config, s: State, t: State, n: uint16, a: GlobalAddress, v: uint64)
    requires Inv(cfg, s) && OneNode(s, t, n) && s.home == Session(n) && a in s.cells
    requires NodeOk(cfg, t.nodes[n]) && t.nodes[n].pc == WWaiting(a, v)
    requires t.cells == s.cells[a := RemotelyWritten(v, n)]
    requires t.home == Broadcasting(n, a, v, s.cells[a], s.cells[a].sharerNodes)
    ensures Inv(cfg, t)
  {
    StoreFrom(cfg, s, t, n);
    SessionFrom(s, t, n);
  }

  lemma DroppedOneMore(cfg: Config, s: State, t: State, a: GlobalAddress, snapshot: seq<uint16>, rest: seq<uint16>)
    requires rest != [] && DroppedBy(cfg, s, a, snapshot, rest)
    requires OneNode(s, t, rest[0])
    requires a !in View(t.nodes[rest[0]].cache, cfg.addrs)
    ensures DroppedBy(cfg, t, a, snapshot, rest[1..])
  {
    assert forall m :: m in rest <==> m == rest[0] || m in rest[1..];
  }

  /** One node of the snapshot has dropped its copy. */
  lemma KeepInvalidate(cfg: Config, s: State, t: State, m: uint16)
    requires Inv(cfg, s) && OneNode(s, t, m) && t.cells == s.cells
    requires s.home.Broadcasting? && s.home.rest != [] && s.home.rest[0] == m
    requires t.home == Broadcasting(s.home.writer, s.home.a, s.home.v, s.home.was, s.home.rest[1..])
    requires NodeOk(cfg, t.nodes[m]) && s.home.a !in View(t.nodes[m].cache, cfg.addrs)
    requires Listens(s.nodes[m].pc) && t.nodes[m].pc == Dropped(s.nodes[m], s.home.a).pc
    ensures Inv(cfg, t)
  {
    StoreFrom(cfg, s, t, m);
    SessionFrom(s, t, m);
    DroppedOneMore(cfg, s, t, s.home.a, s.home.was.sharerNodes, s.home.rest);
  }

  lemma KeepHomeInvalidate(cfg: Config, s: State, t: State, m: uint16)
    requires Inv(cfg, s) && OneNode(s, t, m) && t.cells == s.cells
    requires s.home.HBroadcast? && s.home.rest != [] && s.home.rest[0] == m
    requires t.home == HBroadcast(s.home.a, s.home.v, s.home.rest[1..])
    requires NodeOk(cfg, t.nodes[m]) && s.home.a !in View(t.nodes[m].cache, cfg.addrs)
    requires Listens(s.nodes[m].pc) && t.nodes[m].pc == Dropped(s.nodes[m], s.home.a).pc
    ensures Inv(cfg, t)
  {
    StoreFrom(cfg, s, t, m);
    SessionFrom(s, t, m);
    DroppedOneMore(cfg, s, t, s.home.a, s.cells[s.home.a].sharerNodes, s.home.rest);
  }

  /** The home moves outside any connection and no node changes. */
  lemma KeepHome(cfg: Config, s: State, t: State)
    requires Inv(cfg, s) && t.nodes == s.nodes && !s.home.Session? && !t.home.Session?
    requires t.cells.Keys == s.cells.Keys
    requires forall a :: a in s.cells ==> t.cells[a] == s.cells[a] || CellOk(cfg, t.cells[a])
    requires HomeOk(cfg, t)
    ensures Inv(cfg, t)
  {
    assert StoreOk(cfg, t);
    assert OneSession(t);
  }

  /** A thread outside any connection moves; its copies stay what they are. */
  lemma InvMove(cfg: Config, s: State, n: uint16, ns: NodeState, locks: Table, clock: nat)
    requires Inv(cfg, s) && n in s.nodes && NodeOk(cfg, ns)
    requires !InSession(s.nodes[n].pc) && !InSession(ns.pc)
    requires View(ns.cache, cfg.addrs) == View(s.nodes[n].cache, cfg.addrs)
    requires s.home.Broadcasting? && s.home.writer == n ==> ns.pc == WInvalidated(s.home.a, s.home.v)
    ensures Inv(cfg, s.(nodes := s.nodes[n := ns], locks := locks, clock := clock))
  {
    KeepLocal(cfg, s, s.(nodes := s.nodes[n := ns], locks := locks, clock := clock), n);
  }

  lemma InvMovePc(cfg: Config, s: State, n: uint16, pc: Pc, locks: Table)
    requires Inv(cfg, s) && n in s.nodes && !InSession(s.nodes[n].pc) && !InSession(pc)
    requires PcOk(cfg, s.nodes[n].(pc := pc))
    requires s.home.Broadcasting? && s.home.writer == n ==> pc == WInvalidated(s.home.a, s.home.v)
    ensures Inv(cfg, WithPc(s, n, pc).(locks := locks))
  {
    NodeOkFrom(cfg, s.nodes[n].(pc := pc));
    InvMove(cfg, s, n, s.nodes[n].(pc := pc), locks, s.clock);
  }

  /** The thread that moves is not the writer of a broadcast that is going on. */
  lemma NotTheWriter(cfg: Config, s: State, n: uint16)
    requires Inv(cfg, s) && n in s.nodes && !s.nodes[n].pc.WWaiting? && !s.nodes[n].pc.WInvalidated?
    ensures !(s.home.Broadcasting? && s.home.writer == n)
  {
  }

  lemma InvHit(cfg: Config, s: State, n: uint16)
    requires Inv(cfg, s) && CanLookup(s, n) && Key(s.nodes[n].pc.a) in s.nodes[n].cache.items
    ensures Inv(cfg, AfterLookup(s, n))
  {
    HitNode(cfg, s.nodes[n], s.clock + 1);
    NotTheWriter(cfg, s, n);
    InvMove(cfg, s, n, Hit(s.nodes[n], s.clock + 1), s.locks, s.clock + 1);
  }

  lemma InvLookup(cfg: Config, s: State, n: uint16)
    requires Inv(cfg, s) && CanLookup(s, n)
    ensures Inv(cfg, AfterLookup(s, n))
  {
    if Key(s.nodes[n].pc.a) in s.nodes[n].cache.items {
      InvHit(cfg, s, n);
    } else {
      NotTheWriter(cfg, s, n);
      InvMovePc(cfg, s, n, RMissed(s.nodes[n].pc.a), s.locks);
    }
  }

  lemma InvConnect(cfg: Config, s: State, n: uint16)
    requires Inv(cfg, s) && CanConnect(s, n)
    ensures Inv(cfg, AfterConnect(s, n))
  {
    NodeOkFrom(cfg, AfterConnect(s, n).nodes[n]);
    KeepSession(cfg, s, AfterConnect(s, n), n);
  }

  lemma InvServeRead(cfg: Config, s: State, n: uint16)
    requires Inv(cfg, s) && CanServeRead(s, n)
    ensures Inv(cfg, AfterServeRead(s, n))
  {
    NodeOkFrom(cfg, AfterServeRead(s, n).nodes[n]);
    KeepSession(cfg, s, AfterServeRead(s, n), n);
  }

  lemma InvFill(cfg: Config, s: State, n: uint16)
    requires CollisionFree(cfg.addrs) && Inv(cfg, s) && CanFill(s, n)
    ensures Inv(cfg, AfterFill(s, n))
  {
    FillNode(cfg, s.nodes[n], NewItem(s, s.nodes[n].pc.a, s.nodes[n].pc.v));
    KeepSession(cfg, s, AfterFill(s, n), n);
  }

  lemma InvAlter(cfg: Config, s: State, n: uint16)
    requires CollisionFree(cfg.addrs) && Inv(cfg, s) && CanAlter(s, n)
    ensures Inv(cfg, AfterAlter(s, n))
  {
    AlterNode(cfg, s.nodes[n], NewItem(s, s.nodes[n].pc.a, s.nodes[n].pc.v));
    KeepSession(cfg, s, AfterAlter(s, n), n);
  }

  lemma InvServeWrite(cfg: Config, s: State, n: uint16)
    requires Inv(cfg, s) && CanServeWrite(s, n)
    ensures Inv(cfg, AfterServeWrite(s, n))
  {
    var pc, t := s.nodes[n].pc, AfterServeWrite(s, n);
    NodeOkFrom(cfg, t.nodes[n]);
    if MustInvalidate(s.cells[pc.a]) {
      KeepStartBroadcast(cfg, s, t, n, pc.a, pc.v);
    } else {
      KeepSession(cfg, s, t, n);
    }
  }

  lemma InvReset(cfg: Config, s: State, n: uint16)
    requires Inv(cfg, s) && CanReset(s, n)
    ensures Inv(cfg, AfterReset(s, n))
  {
    NodeOkFrom(cfg, AfterReset(s, n).nodes[n]);
    KeepSession(cfg, s, AfterReset(s, n), n);
  }

  lemma InvInvalidate(cfg: Config, s: State)
    requires CollisionFree(cfg.addrs) && Inv(cfg, s) && CanInvalidate(s)
    ensures Inv(cfg, AfterInvalidate(s))
  {
    var m := s.home.rest[0];
    DropNode(cfg, s.nodes[m], s.home.a);
    KeepInvalidate(cfg, s, AfterInvalidate(s), m);
  }

  lemma InvHomeInvalidate(cfg: Config, s: State)
    requires CollisionFree(cfg.addrs) && Inv(cfg, s) && CanHomeInvalidate(s)
    ensures Inv(cfg, AfterHomeInvalidate(s))
  {
    var m := s.home.rest[0];
    DropNode(cfg, s.nodes[m], s.home.a);
    KeepHomeInvalidate(cfg, s, AfterHomeInvalidate(s), m);
  }

  lemma InvHomeStore(cfg: Config, s: State)
    requires Inv(cfg, s) && CanHomeStore(s)
    ensures Inv(cfg, AfterHomeStore(s))
  {
    KeepHome(cfg, s, AfterHomeStore(s));
  }

  lemma InvHomeCheckSharers(cfg: Config, s: State)
    requires Inv(cfg, s) && CanHomeCheckSharers(s)
    ensures Inv(cfg, AfterHomeCheckSharers(s))
  {
    KeepHome(cfg, s, AfterHomeCheckSharers(s));
  }

  lemma InvHomeMove(cfg: Config, s: State, home: HomeMode, locks: Table)
    requires Inv(cfg, s) && !s.home.Session?
    requires home.Listening? || ((home.HReadLocked? || home.HReadUnlocked? || home.HWriteLocked?) && home.a in s.cells)
    ensures Inv(cfg, s.(home := home, locks := locks))
  {
    KeepHome(cfg, s, s.(home := home, locks := locks));
  }

  lemma InvLock(cfg: Config, s: State, n: uint16, pc: Pc, mode: LockState)
    requires Inv(cfg, s) && n in s.nodes && (pc.RLocked? || pc.WLocked?) && CanLock(cfg, s, n, pc.a)
    ensures Inv(cfg, WithPc(s, n, pc).(locks := Relocked(s, mode)))
  {
    NotTheWriter(cfg, s, n);
    InvMovePc(cfg, s, n, pc, Relocked(s, mode));
  }

  lemma InvUnlock(cfg: Config, s: State, n: uint16)
    requires Inv(cfg, s) && CanUnlock(s, n)
    ensures Inv(cfg, WithPc(s, n, Idle).(locks := Relocked(s, UNLOCKED)))
  {
    NotTheWriter(cfg, s, n);
    InvMovePc(cfg, s, n, Idle, Relocked(s, UNLOCKED));
  }

  lemma InvServeLockClient(cfg: Config, s: State, n: uint16)
    requires Inv(cfg, s) && CanServeLockClient(s, n)
    ensures Inv(cfg, AfterServeLockClient(s, n))
  {
    InvMovePc(cfg, s, n, WInvalidated(s.nodes[n].pc.a, s.nodes[n].pc.v), s.locks);
  }

  lemma InvNodeStep(cfg: Config, s: State, act: Action)
    requires ValidConfig(cfg) && Inv(cfg, s) && Enabled(cfg, s, act)
    requires act.Refused? || act.ReadLock? || act.WriteLock? || act.Unlock? || act.ServeLockClient? || act.Lookup?
    ensures Inv(cfg, Next(cfg, s, act))
  {
    match act
    case Refused(_, _, _) =>
    case ReadLock(n, a) => InvLock(cfg, s, n, RLocked(a), SHAREDLOCK);
    case WriteLock(n, a, v) => InvLock(cfg, s, n, WLocked(a, v), EXCLUSIVE);
    case Unlock(n) => InvUnlock(cfg, s, n);
    case ServeLockClient(n) => InvServeLockClient(cfg, s, n);
    case Lookup(n) => InvLookup(cfg, s, n);
  }

  lemma InvSessionStep(cfg: Config, s: State, act: Action)
    requires ValidConfig(cfg) && Inv(cfg, s) && Enabled(cfg, s, act)
    requires act.Connect? || act.ServeRead? || act.Fill? || act.AlterCache? || act.ServeWrite? || act.Reset?
    ensures Inv(cfg, Next(cfg, s, act))
  {
    match act
    case Connect(n) => InvConnect(cfg, s, n);
    case ServeRead(n) => InvServeRead(cfg, s, n);
    case Fill(n) => InvFill(cfg, s, n);
    case AlterCache(n) => InvAlter(cfg, s, n);
    case ServeWrite(n) => InvServeWrite(cfg, s, n);
    case Reset(n) => InvReset(cfg, s, n);
  }

  lemma InvHomeReadStep(cfg: Config, s: State, act: Action)
    requires ValidConfig(cfg) && Inv(cfg, s) && Enabled(cfg, s, act)
    requires act.EndBroadcast? || act.HomeReadLock? || act.HomeReadUnlock? || act.HomeReadReturn?
    ensures Inv(cfg, Next(cfg, s, act))
  {
    match act
    case EndBroadcast => InvHomeMove(cfg, s, Listening, s.locks);
    case HomeReadLock(a) => InvHomeMove(cfg, s, HReadLocked(a), Relocked(s, SHAREDLOCK));
    case HomeReadUnlock => InvHomeMove(cfg, s, HReadUnlocked(s.home.a), Relocked(s, UNLOCKED));
    case HomeReadReturn => InvHomeMove(cfg, s, Listening, s.locks);
  }

  lemma InvHomeWriteStep(cfg: Config, s: State, act: Action)
    requires ValidConfig(cfg) && Inv(cfg, s) && Enabled(cfg, s, act)
    requires act.Invalidate? || act.HomeWriteLock? || act.HomeCheckSharers? || act.HomeInvalidate?
          || act.HomeStore? || act.HomeUnlock?
    ensures Inv(cfg, Next(cfg, s, act))
  {
    match act
    case Invalidate => InvInvalidate(cfg, s);
    case HomeWriteLock(a, v) => InvHomeMove(cfg, s, HWriteLocked(a, v), Relocked(s, EXCLUSIVE));
    case HomeCheckSharers => InvHomeCheckSharers(cfg, s);
    case HomeInvalidate => InvHomeInvalidate(cfg, s);
    case HomeStore => InvHomeStore(cfg, s);
    case HomeUnlock => InvHomeMove(cfg, s, Listening, Relocked(s, UNLOCKED));
  }

  /** Every step keeps the invariant. */
  lemma InvStep(cfg: Config, s: State, act: Action)
    requires ValidConfig(cfg) && Inv(cfg, s) && Enabled(cfg, s, act)
    ensures Inv(cfg, Next(cfg, s, act))
  {
    if act.Refused? || act.ReadLock? || act.WriteLock? || act.Unlock? || act.ServeLockClient? || act.Lookup? {
      InvNodeStep(cfg, s, act);
    } else if act.Connect? || act.ServeRead? || act.Fill? || act.AlterCache? || act.ServeWrite? || act.Reset? {
      InvSessionStep(cfg, s, act);
    } else if act.EndBroadcast? || act.HomeReadLock? || act.HomeReadUnlock? || act.HomeReadReturn? {
      InvHomeReadStep(cfg, s, act);
    } else {
      InvHomeWriteStep(cfg, s, act);
    }
  }

  // --- The simulation ---

  /** A step without effect: one node may forget, and nothing else shows. */
  lemma SimSilent(cfg: Config, s: State, t: State, n: uint16)
    requires OneNode(s, t, n)
    requires AbsCells(t) == AbsCells(s)
    requires forall m :: m in s.nodes ==> Hidden(t.home, m) == Hidden(s.home, m)
    requires Forgets(AbsCopies(cfg, s.nodes[n], Hidden(s.home, n)), AbsCopies(cfg, t.nodes[n], Hidden(s.home, n)))
    ensures Simulates(cfg, s, None, t)
  {
    var before, after := AbsCaches(cfg, s), AbsCaches(cfg, t);
    forall m | m in before
      ensures Forgets(before[m], after[m])
    {
    }
  }

  /** A step of the home that shows nowhere. */
  lemma SimHomeSilent(cfg: Config, s: State, t: State)
    requires t.nodes == s.nodes && t.cells == s.cells && !s.home.Broadcasting? && !t.home.Broadcasting?
    ensures Simulates(cfg, s, None, t)
  {
    assert AbsCaches(cfg, t) == AbsCaches(cfg, s);
  }

  lemma SimMovePc(cfg: Config, s: State, n: uint16, pc: Pc, locks: Table)
    requires n in s.nodes
    requires !s.nodes[n].pc.RReplied? && !s.nodes[n].pc.WAltered? && !pc.RReplied? && !pc.WAltered?
    ensures Simulates(cfg, s, None, WithPc(s, n, pc).(locks := locks))
  {
    SimSilent(cfg, s, WithPc(s, n, pc).(locks := locks), n);
  }

  lemma SimConnect(cfg: Config, s: State, n: uint16)
    requires CanConnect(s, n)
    ensures Simulates(cfg, s, None, AfterConnect(s, n))
  {
    SimSilent(cfg, s, AfterConnect(s, n), n);
  }

  lemma SimReset(cfg: Config, s: State, n: uint16)
    requires CanReset(s, n)
    ensures Simulates(cfg, s, None, AfterReset(s, n))
  {
    SimSilent(cfg, s, AfterReset(s, n), n);
  }

  /** A node's cache step, with nothing else of the state involved. */
  lemma SimReplace(cfg: Config, s: State, n: uint16, ns: NodeState, clock: nat)
    requires n in s.nodes
    requires Forgets(AbsCopies(cfg, s.nodes[n], Hidden(s.home, n)), AbsCopies(cfg, ns, Hidden(s.home, n)))
    ensures Simulates(cfg, s, None, s.(nodes := s.nodes[n := ns], clock := clock))
  {
    SimSilent(cfg, s, s.(nodes := s.nodes[n := ns], clock := clock), n);
  }

  lemma HitCopies(cfg: Config, ns: NodeState, now: nat)
    requires NodeOk(cfg, ns) && ns.pc.RLocked? && Key(ns.pc.a) in ns.cache.items && now > 0
    ensures AbsCopies(cfg, Hit(ns, now), None) == AbsCopies(cfg, ns, None)
    ensures ns.pc.a in AbsCopies(cfg, ns, None) && AbsCopies(cfg, ns, None)[ns.pc.a] == Hit(ns, now).pc.v
  {
    HitNode(cfg, ns, now);
  }

  lemma SimHit(cfg: Config, s: State, n: uint16)
    requires CanLookup(s, n) && NodeOk(cfg, s.nodes[n]) && Key(s.nodes[n].pc.a) in s.nodes[n].cache.items
    requires Hidden(s.home, n) == None && s.nodes[n].pc.a in s.cells
    ensures var a := s.nodes[n].pc.a;
      Simulates(cfg, s, Some(Atomic.ReadHit(n, a, s.nodes[n].cache.items[Key(a)].data)), AfterLookup(s, n))
  {
    HitCopies(cfg, s.nodes[n], s.clock + 1);
    SimReplace(cfg, s, n, Hit(s.nodes[n], s.clock + 1), s.clock + 1);
  }

  lemma SimServeRead(cfg: Config, s: State, n: uint16)
    requires CanServeRead(s, n) && s.nodes[n].pc.a !in View(s.nodes[n].cache, cfg.addrs)
    ensures var a := s.nodes[n].pc.a;
      Simulates(cfg, s, Some(Atomic.ReadMiss(n, a, s.cells[a].data)), AfterServeRead(s, n))
  {
    var a, t := s.nodes[n].pc.a, AfterServeRead(s, n);
    var e := Atomic.ReadMiss(n, a, s.cells[a].data);
    assert AbsCaches(cfg, t) == AbsCaches(cfg, s)[n := Atomic.Stored(AbsCaches(cfg, s)[n], a, s.cells[a].data)];
  }

  lemma FillCopies(cfg: Config, ns: NodeState, item: CacheItem)
    requires CollisionFree(cfg.addrs) && NodeOk(cfg, ns) && ns.pc.RReplied?
    requires item.globalAddress == ns.pc.a && item.data == ns.pc.v && item.lastused > 0
    ensures Forgets(AbsCopies(cfg, ns, None),
                    AbsCopies(cfg, NodeState(RFilled(ns.pc.a, ns.pc.v), Add(ns.cache, ns.pc.a, item).cache, ns.lost), None))
  {
    AddForgets(cfg.addrs, ns.cache, ns.pc.a, item);
  }

  lemma AddForgets(addrs: set<GlobalAddress>, cache: CacheState, a: GlobalAddress, item: CacheItem)
    requires CollisionFree(addrs) && Tagged(cache, addrs) && a in addrs && a !in View(cache, addrs)
    requires item.globalAddress == a && item.lastused > 0
    ensures Forgets(Atomic.Stored(View(cache, addrs), a, item.data), View(Add(cache, a, item).cache, addrs))
  {
    AddAfterMiss(cache, addrs, a, item);
  }

  lemma SimFill(cfg: Config, s: State, n: uint16)
    requires CollisionFree(cfg.addrs) && CanFill(s, n) && NodeOk(cfg, s.nodes[n])
    ensures Simulates(cfg, s, None, AfterFill(s, n))
  {
    var ns := s.nodes[n];
    FillCopies(cfg, ns, NewItem(s, ns.pc.a, ns.pc.v));
    SimReplace(cfg, s, n, NodeState(RFilled(ns.pc.a, ns.pc.v), FillResult(s, n).cache, ns.lost), s.clock + 1);
  }

  lemma AlterCopies(cfg: Config, ns: NodeState, item: CacheItem)
    requires CollisionFree(cfg.addrs) && NodeOk(cfg, ns) && ns.pc.WConnected?
    requires item.globalAddress == ns.pc.a && item.data == ns.pc.v && item.lastused > 0
    ensures Forgets(AbsCopies(cfg, ns, None),
                    AbsCopies(cfg, NodeState(WAltered(ns.pc.a, ns.pc.v), Alter(ns.cache, ns.pc.a, item).cache, ns.lost), None))
  {
    AlterStores(ns.cache, cfg.addrs, ns.pc.a, item);
    ForgetsBelow(View(ns.cache, cfg.addrs), View(Alter(ns.cache, ns.pc.a, item).cache, cfg.addrs), ns.pc.a, ns.pc.v);
  }

  lemma SimAlter(cfg: Config, s: State, n: uint16)
    requires CollisionFree(cfg.addrs) && CanAlter(s, n) && NodeOk(cfg, s.nodes[n])
    ensures Simulates(cfg, s, None, AfterAlter(s, n))
  {
    var ns := s.nodes[n];
    AlterCopies(cfg, ns, NewItem(s, ns.pc.a, ns.pc.v));
    SimReplace(cfg, s, n, NodeState(WAltered(ns.pc.a, ns.pc.v), AlterResult(s, n).cache, ns.lost), s.clock + 1);
  }

  lemma OthersKeep(cfg: Config, s: State, t: State, n: uint16)
    requires OneNode(s, t, n)
    requires forall m :: m in s.nodes && m != n ==> Hidden(t.home, m) == Hidden(s.home, m)
    ensures AbsCaches(cfg, t).Keys == AbsCaches(cfg, s).Keys
    ensures forall m :: m in s.nodes && m != n ==> AbsCaches(cfg, t)[m] == AbsCaches(cfg, s)[m]
  {
  }

  lemma OthersDropped(cfg: Config, s: State, n: uint16, a: GlobalAddress, snapshot: seq<uint16>)
    requires NoneLeft(cfg, s, a, snapshot)
    requires forall m :: m in s.nodes ==> !s.nodes[m].pc.RReplied?
    ensures forall m :: m in s.nodes && m in snapshot ==> a !in AbsCaches(cfg, s)[m]
  {
  }

  /** What a memory must look like after a remote write. */
  lemma WriteTakesEffect(m: Atomic.Memory, w: uint16, a: GlobalAddress, v: uint64, t: Atomic.Memory)
    requires w in m.caches && a in m.cells
    requires t.cells == m.cells[a := RemotelyWritten(v, w)] && t.caches.Keys == m.caches.Keys
    requires forall n :: n in m.caches && n != w ==>
      Forgets(if n in m.cells[a].sharerNodes then m.caches[n] - {a} else m.caches[n], t.caches[n])
    requires var stored := Atomic.Stored(m.caches[w], a, v);
      Forgets(if w in m.cells[a].sharerNodes then stored - {a} else stored, t.caches[w])
    ensures Atomic.Evicted(Atomic.Apply(m, Atomic.RemoteWrite(w, a, v)), t)
  {
  }

  /** Without sharers a remote write takes effect at the home. */
  lemma SimPlainWrite(cfg: Config, s: State, n: uint16)
    requires CanServeWrite(s, n) && NodeOk(cfg, s.nodes[n]) && s.cells[s.nodes[n].pc.a].sharerNodes == []
    ensures var pc := s.nodes[n].pc;
      Simulates(cfg, s, Some(Atomic.RemoteWrite(n, pc.a, pc.v)), AfterServeWrite(s, n))
  {
    var pc, t := s.nodes[n].pc, AfterServeWrite(s, n);
    CommitCopies(View(s.nodes[n].cache, cfg.addrs), pc.a, pc.v, false);
    OthersKeep(cfg, s, t, n);
    WriteTakesEffect(Abs(cfg, s), n, pc.a, pc.v, Abs(cfg, t));
  }

  /** The writer's own copies when its write takes effect. */
  lemma CommitCopies(view: Atomic.Copies, a: GlobalAddress, v: uint64, dropped: bool)
    requires a in view ==> view[a] == v && !dropped
    ensures var stored := Atomic.Stored(view - {a}, a, v);
      Forgets(if dropped then stored - {a} else stored, view)
  {
  }

  /** With sharers it does not: the overwritten cell is hidden until the broadcast ends. */
  lemma SimStartBroadcast(cfg: Config, s: State, n: uint16)
    requires CanServeWrite(s, n) && MustInvalidate(s.cells[s.nodes[n].pc.a])
    ensures Simulates(cfg, s, None, AfterServeWrite(s, n))
  {
    var t := AfterServeWrite(s, n);
    assert AbsCells(t) == AbsCells(s);
    assert AbsCaches(cfg, t) == AbsCaches(cfg, s);
  }

  lemma DropCopies(cfg: Config, ns: NodeState, a: GlobalAddress, hidden: Option<GlobalAddress>)
    requires CollisionFree(cfg.addrs) && NodeOk(cfg, ns) && Listens(ns.pc) && a in cfg.addrs
    ensures Forgets(AbsCopies(cfg, ns, hidden), AbsCopies(cfg, Dropped(ns, a), hidden))
  {
    DropNode(cfg, ns, a);
  }

  lemma SimInvalidate(cfg: Config, s: State)
    requires CollisionFree(cfg.addrs) && CanInvalidate(s) && s.home.a in cfg.addrs
    requires NodeOk(cfg, s.nodes[s.home.rest[0]])
    ensures Simulates(cfg, s, None, AfterInvalidate(s))
  {
    var m := s.home.rest[0];
    DropCopies(cfg, s.nodes[m], s.home.a, Hidden(s.home, m));
    SimSilent(cfg, s, AfterInvalidate(s), m);
  }

  /** The copies of the snapshot's nodes, as far as they are still to be dropped. */
  ghost predicate NoneLeft(cfg: Config, s: State, a: GlobalAddress, snapshot: seq<uint16>) {
    forall m :: m in snapshot && m in s.nodes ==> a !in View(s.nodes[m].cache, cfg.addrs)
  }

  /** When the broadcast ends the write takes effect: nobody it must invalidate has
      a copy left. */
  lemma SimEndBroadcast(cfg: Config, s: State)
    requires s.home.Broadcasting? && s.home.a in s.cells && s.home.writer in s.nodes
    requires s.cells[s.home.a] == RemotelyWritten(s.home.v, s.home.writer)
    requires NoneLeft(cfg, s, s.home.a, s.home.was.sharerNodes)
    requires forall m :: m in s.nodes ==> !s.nodes[m].pc.RReplied? && !s.nodes[m].pc.WAltered?
    requires var view := View(s.nodes[s.home.writer].cache, cfg.addrs);
      s.home.a in view ==> view[s.home.a] == s.home.v
    ensures Simulates(cfg, s, Some(Atomic.RemoteWrite(s.home.writer, s.home.a, s.home.v)), s.(home := Listening))
  {
    var Broadcasting(w, a, v, was, rest) := s.home;
    var t := s.(home := Listening);
    CommitCopies(View(s.nodes[w].cache, cfg.addrs), a, v, w in was.sharerNodes);
    OthersKeep(cfg, s, t, w);
    OthersDropped(cfg, s, w, a, was.sharerNodes);
    WriteTakesEffect(Abs(cfg, s), w, a, v, Abs(cfg, t));
  }

  lemma SimHomeInvalidate(cfg: Config, s: State)
    requires CollisionFree(cfg.addrs) && CanHomeInvalidate(s) && s.home.a in cfg.addrs
    requires NodeOk(cfg, s.nodes[s.home.rest[0]])
    ensures Simulates(cfg, s, None, AfterHomeInvalidate(s))
  {
    var m := s.home.rest[0];
    DropCopies(cfg, s.nodes[m], s.home.a, None);
    SimSilent(cfg, s, AfterHomeInvalidate(s), m);
  }

  lemma SimHomeStore(cfg: Config, s: State)
    requires CanHomeStore(s) && NoneLeft(cfg, s, s.home.a, s.cells[s.home.a].sharerNodes)
    requires forall m :: m in s.nodes ==> !s.nodes[m].pc.RReplied? && !s.nodes[m].pc.WAltered?
    ensures Simulates(cfg, s, Some(Atomic.HomeWrite(s.home.a, s.home.v)), AfterHomeStore(s))
  {
    var a, t := s.home.a, AfterHomeStore(s);
    var e := Atomic.HomeWrite(a, s.home.v);
    var before, after := AbsCaches(cfg, s), AbsCaches(cfg, t);
    assert before == after;
    var applied := Atomic.Apply(Abs(cfg, s), e).caches;
    forall m | m in s.nodes
      ensures Forgets(applied[m], after[m])
    {
      assert m in s.cells[a].sharerNodes ==> a !in before[m];
    }
  }

  // --- Every step simulates ---

  lemma SimLookup(cfg: Config, s: State, n: uint16)
    requires Inv(cfg, s) && Enabled(cfg, s, Lookup(n))
    ensures Simulates(cfg, s, Emit(cfg, s, Lookup(n)), AfterLookup(s, n))
  {
    if Key(s.nodes[n].pc.a) in s.nodes[n].cache.items {
      NotTheWriter(cfg, s, n);
      SimHit(cfg, s, n);
    } else {
      SimMovePc(cfg, s, n, RMissed(s.nodes[n].pc.a), s.locks);
    }
  }

  lemma SimNodeStep(cfg: Config, s: State, act: Action)
    requires Inv(cfg, s) && Enabled(cfg, s, act)
    requires act.Refused? || act.ReadLock? || act.WriteLock? || act.Unlock? || act.ServeLockClient? || act.Lookup?
    ensures Simulates(cfg, s, Emit(cfg, s, act), Next(cfg, s, act))
  {
    match act
    case Refused(n, _, _) => SimSilent(cfg, s, s, n);
    case ReadLock(n, a) => SimMovePc(cfg, s, n, RLocked(a), Relocked(s, SHAREDLOCK));
    case WriteLock(n, a, v) => SimMovePc(cfg, s, n, WLocked(a, v), Relocked(s, EXCLUSIVE));
    case Unlock(n) => SimMovePc(cfg, s, n, Idle, Relocked(s, UNLOCKED));
    case ServeLockClient(n) => SimMovePc(cfg, s, n, WInvalidated(s.nodes[n].pc.a, s.nodes[n].pc.v), s.locks);
    case Lookup(n) => SimLookup(cfg, s, n);
  }

  lemma SimServeWrite(cfg: Config, s: State, n: uint16)
    requires Inv(cfg, s) && CanServeWrite(s, n)
    ensures Simulates(cfg, s, Emit(cfg, s, ServeWrite(n)), AfterServeWrite(s, n))
  {
    var cell := s.cells[s.nodes[n].pc.a];
    if MustInvalidate(cell) {
      SimStartBroadcast(cfg, s, n);
    } else {
      assert CellOk(cfg, cell);
      SimPlainWrite(cfg, s, n);
    }
  }

  lemma SimSessionStep(cfg: Config, s: State, act: Action)
    requires ValidConfig(cfg) && Inv(cfg, s) && Enabled(cfg, s, act)
    requires act.Connect? || act.ServeRead? || act.Fill? || act.AlterCache? || act.ServeWrite? || act.Reset?
    ensures Simulates(cfg, s, Emit(cfg, s, act), Next(cfg, s, act))
  {
    assert NodeOk(cfg, s.nodes[act.n]);
    match act
    case Connect(n) => SimConnect(cfg, s, n);
    case ServeRead(n) => SimServeRead(cfg, s, n);
    case Fill(n) => SimFill(cfg, s, n);
    case AlterCache(n) => SimAlter(cfg, s, n);
    case ServeWrite(n) => SimServeWrite(cfg, s, n);
    case Reset(n) => SimReset(cfg, s, n);
  }

  /** While no session is open no reply and no altered copy is pending. */
  lemma NothingPending(cfg: Config, s: State)
    requires Inv(cfg, s) && !s.home.Session?
    ensures forall m :: m in s.nodes ==> !s.nodes[m].pc.RReplied? && !s.nodes[m].pc.WAltered?
  {
    forall m | m in s.nodes
      ensures !InSession(s.nodes[m].pc)
    {
    }
  }

  lemma SimBroadcastStep(cfg: Config, s: State, act: Action)
    requires ValidConfig(cfg) && Inv(cfg, s) && Enabled(cfg, s, act)
    requires act.Invalidate? || act.EndBroadcast?
    ensures Simulates(cfg, s, Emit(cfg, s, act), Next(cfg, s, act))
  {
    if act.Invalidate? {
      SimInvalidate(cfg, s);
    } else {
      NothingPending(cfg, s);
      assert NodeOk(cfg, s.nodes[s.home.writer]);
      SimEndBroadcast(cfg, s);
    }
  }

  lemma SimHomeRead(cfg: Config, s: State)
    requires s.home.HReadUnlocked? && s.home.a in s.cells
    ensures Simulates(cfg, s, Some(Atomic.HomeRead(s.home.a, s.cells[s.home.a].data)), s.(home := Listening))
  {
    SimHomeSilent(cfg, s, s.(home := Listening));
  }

  lemma SimHomeMove(cfg: Config, s: State, home: HomeMode, locks: Table)
    requires !s.home.Broadcasting? && !home.Broadcasting?
    ensures Simulates(cfg, s, None, s.(home := home, locks := locks))
  {
    SimHomeSilent(cfg, s, s.(home := home, locks := locks));
  }

  lemma SimHomeLockStep(cfg: Config, s: State, act: Action)
    requires Enabled(cfg, s, act)
    requires act.HomeReadLock? || act.HomeReadUnlock? || act.HomeWriteLock? || act.HomeUnlock?
    ensures Simulates(cfg, s, Emit(cfg, s, act), Next(cfg, s, act))
  {
    match act
    case HomeReadLock(a) => SimHomeMove(cfg, s, HReadLocked(a), Relocked(s, SHAREDLOCK));
    case HomeReadUnlock => SimHomeMove(cfg, s, HReadUnlocked(s.home.a), Relocked(s, UNLOCKED));
    case HomeWriteLock(a, v) => SimHomeMove(cfg, s, HWriteLocked(a, v), Relocked(s, EXCLUSIVE));
    case HomeUnlock => SimHomeMove(cfg, s, Listening, Relocked(s, UNLOCKED));
  }

  lemma SimHomeDataStep(cfg: Config, s: State, act: Action)
    requires ValidConfig(cfg) && Inv(cfg, s) && Enabled(cfg, s, act)
    requires act.HomeReadReturn? || act.HomeCheckSharers? || act.HomeInvalidate? || act.HomeStore?
    ensures Simulates(cfg, s, Emit(cfg, s, act), Next(cfg, s, act))
  {
    match act
    case HomeReadReturn => SimHomeRead(cfg, s);
    case HomeCheckSharers => SimHomeMove(cfg, s, AfterHomeCheckSharers(s).home, s.locks);
    case HomeInvalidate => SimHomeInvalidate(cfg, s);
    case HomeStore =>
      NothingPending(cfg, s);
      SimHomeStore(cfg, s);
  }

  /** Every step of the protocol is one operation of the atomic memory, or none. */
  lemma SimStep(cfg: Config, s: State, act: Action)
    requires ValidConfig(cfg) && Inv(cfg, s) && Enabled(cfg, s, act)
    ensures Simulates(cfg, s, Emit(cfg, s, act), Next(cfg, s, act))
  {
    if act.Refused? || act.ReadLock? || act.WriteLock? || act.Unlock? || act.ServeLockClient? || act.Lookup? {
      SimNodeStep(cfg, s, act);
    } else if act.Connect? || act.ServeRead? || act.Fill? || act.AlterCache? || act.ServeWrite? || act.Reset? {
      SimSessionStep(cfg, s, act);
    } else if act.Invalidate? || act.EndBroadcast? {
      SimBroadcastStep(cfg, s, act);
    } else if act.HomeReadReturn? || act.HomeCheckSharers? || act.HomeInvalidate? || act.HomeStore? {
      SimHomeDataStep(cfg, s, act);
    } else {
      SimHomeLockStep(cfg, s, act);
    }
  }
}
