/** Runs in which invalidations use up a cache until a store can never end
    (src/Cache.cpp, removeCacheItem and addCacheItem), and when there are none. */
module StuckCaches {
  import opened Defs
  import opened AddressKey
  import opened CacheModel
  import opened Directory
  import opened Locks
  import opened Protocol
  import opened Refinement
  import opened Runs
  import Bytes

  /** Nothing is going on, and the node has an empty cache that has lost these bytes. */
  ghost predicate Ready(cfg: Config, t: State, n: uint16, a: GlobalAddress, lost: nat) {
    && t.home == Listening && StateOf(t.locks, PORT) == UNLOCKED
    && a in cfg.addrs && a in t.cells && t.cells[a].sharerNodes == []
    && lost <= CAPACITY
    && n in t.nodes && t.nodes[n] == NodeState(Idle, CacheState(CAPACITY - lost, map[]), lost)
  }

  /** A read misses and gets the home's reply. */
  lemma Replied(cfg: Config, s: State, acts: seq<Action>, t: State, n: uint16, a: GlobalAddress, lost: nat)
    returns (more: seq<Action>, u: State)
    requires ReachedBy(cfg, s, acts, t) && Ready(cfg, t, n, a, lost)
    ensures ReachedBy(cfg, s, more, u)
    ensures u == WithPc(t, n, RReplied(a, t.cells[a].data)).(
      home := Session(n), locks := Relocked(t, SHAREDLOCK), cells := t.cells[a := Registered(t.cells[a], n)])
  {
    var t1 := Next(cfg, t, ReadLock(n, a));
    Go(cfg, s, acts, t, ReadLock(n, a), t1);
    var t2 := AfterLookup(t1, n);
    Go(cfg, s, acts + [ReadLock(n, a)], t1, Lookup(n), t2);
    u, more := Asked(cfg, s, acts + [ReadLock(n, a)] + [Lookup(n)], t2, n, a);
  }

  lemma Asked(cfg: Config, s: State, acts: seq<Action>, t: State, n: uint16, a: GlobalAddress)
    returns (u: State, more: seq<Action>)
    requires ReachedBy(cfg, s, acts, t) && t.home == Listening
    requires n in t.nodes && t.nodes[n].pc == RMissed(a) && a in t.cells
    ensures ReachedBy(cfg, s, more, u)
    ensures u == WithPc(t, n, RReplied(a, t.cells[a].data)).(
      home := Session(n), cells := t.cells[a := Registered(t.cells[a], n)])
  {
    var t1 := AfterConnect(t, n);
    Go(cfg, s, acts, t, Connect(n), t1);
    u := AfterServeRead(t1, n);
    Go(cfg, s, acts + [Connect(n)], t1, ServeRead(n), u);
    more := acts + [Connect(n)] + [ServeRead(n)];
  }

  function Filled(c: CacheState, a: GlobalAddress, v: uint64, now: nat): CacheState
    requires a.size <= c.available
  {
    CacheState(c.available - a.size, c.items[Key(a) := CacheItem(a, v, now, now)])
  }

  /** The reply is stored and the read ends. */
  lemma Stored(cfg: Config, s: State, acts: seq<Action>, t: State, n: uint16, a: GlobalAddress, v: uint64)
    returns (more: seq<Action>, u: State)
    requires ReachedBy(cfg, s, acts, t) && n in t.nodes && t.home == Session(n) && t.nodes[n].pc == RReplied(a, v)
    requires a.size <= CAPACITY && a.size <= t.nodes[n].cache.available && t.nodes[n].cache.items == map[]
    ensures ReachedBy(cfg, s, more, u)
    ensures u == t.(
      nodes := t.nodes[n := NodeState(Idle, Filled(t.nodes[n].cache, a, v, t.clock + 1), t.nodes[n].lost)],
      home := Listening, locks := Relocked(t, UNLOCKED), clock := t.clock + 1)
  {
    assert FillResult(t, n) == AddResult(Filled(t.nodes[n].cache, a, v, t.clock + 1), Inserted);
    var t1 := AfterFill(t, n);
    Go(cfg, s, acts, t, Fill(n), t1);
    var t2 := AfterReset(t1, n);
    Go(cfg, s, acts + [Fill(n)], t1, Reset(n), t2);
    u := Next(cfg, t2, Unlock(n));
    Go(cfg, s, acts + [Fill(n)] + [Reset(n)], t2, Unlock(n), u);
    more := acts + [Fill(n)] + [Reset(n)] + [Unlock(n)];
  }

  /** The home writes, invalidating the one reader. */
  lemma Overwritten(cfg: Config, s: State, acts: seq<Action>, t: State, n: uint16, a: GlobalAddress)
    returns (more: seq<Action>, u: State)
    requires ReachedBy(cfg, s, acts, t) && t.home == Listening && StateOf(t.locks, PORT) == UNLOCKED
    requires a in cfg.addrs && a in t.cells && t.cells[a].sharerNodes == [n] && t.cells[a].iscached == SHARED
    requires n in t.nodes && t.nodes[n].pc == Idle
    ensures ReachedBy(cfg, s, more, u)
    ensures u == t.(
      nodes := t.nodes[n := Dropped(t.nodes[n], a)], cells := t.cells[a := LocallyWritten(0, PORT)],
      locks := u.locks)
    ensures StateOf(u.locks, PORT) == UNLOCKED
  {
    var t1, acts1 := Opened(cfg, s, acts, t, n, a);
    var t2 := AfterHomeInvalidate(t1);
    assert [n][1..] == [];
    Go(cfg, s, acts1, t1, HomeInvalidate, t2);
    var t3 := AfterHomeStore(t2);
    Go(cfg, s, acts1 + [HomeInvalidate], t2, HomeStore, t3);
    u := Next(cfg, t3, HomeUnlock);
    Go(cfg, s, acts1 + [HomeInvalidate] + [HomeStore], t3, HomeUnlock, u);
    more := acts1 + [HomeInvalidate] + [HomeStore] + [HomeUnlock];
  }

  lemma Opened(cfg: Config, s: State, acts: seq<Action>, t: State, n: uint16, a: GlobalAddress)
    returns (u: State, more: seq<Action>)
    requires ReachedBy(cfg, s, acts, t) && t.home == Listening && StateOf(t.locks, PORT) == UNLOCKED
    requires a in cfg.addrs && a in t.cells && t.cells[a].sharerNodes == [n] && t.cells[a].iscached == SHARED
    ensures ReachedBy(cfg, s, more, u)
    ensures u == t.(home := HBroadcast(a, 0, [n]), locks := Relocked(t, EXCLUSIVE))
  {
    var t1 := Next(cfg, t, HomeWriteLock(a, 0));
    Go(cfg, s, acts, t, HomeWriteLock(a, 0), t1);
    u := AfterHomeCheckSharers(t1);
    Go(cfg, s, acts + [HomeWriteLock(a, 0)], t1, HomeCheckSharers, u);
    more := acts + [HomeWriteLock(a, 0)] + [HomeCheckSharers];
  }

  /** A read and a write of the home together use up the bytes of the block. */
  lemma Cycle(cfg: Config, s: State, acts: seq<Action>, t: State, n: uint16, a: GlobalAddress, lost: nat)
    returns (more: seq<Action>, u: State)
    requires ReachedBy(cfg, s, acts, t) && Ready(cfg, t, n, a, lost) && lost + a.size <= CAPACITY
    ensures ReachedBy(cfg, s, more, u) && Ready(cfg, u, n, a, lost + a.size)
  {
    var v := t.cells[a].data;
    var acts1, t1 := Replied(cfg, s, acts, t, n, a, lost);
    var acts2, t2 := Stored(cfg, s, acts1, t1, n, a, v);
    assert [] + [n] == [n];
    more, u := Overwritten(cfg, s, acts2, t2, n, a);
    DroppedAll(t1.nodes[n].cache, a, v, t1.clock + 1);
  }

  /** Dropping the only copy loses its bytes. */
  lemma DroppedAll(c: CacheState, a: GlobalAddress, v: uint64, now: nat)
    requires c.items == map[] && a.size <= c.available
    ensures Remove(Filled(c, a, v, now), a) == CacheState(c.available - a.size, map[])
    ensures LostBytes(Filled(c, a, v, now), a) == a.size
  {
  }

  lemma {:induction false} UseUp(cfg: Config, s: State, acts: seq<Action>, t: State,
                                 n: uint16, a: GlobalAddress, lost: nat)
    returns (more: seq<Action>)
    requires ReachedBy(cfg, s, acts, t) && Ready(cfg, t, n, a, lost) && 0 < a.size <= CAPACITY
    ensures CanRun(cfg, s, more)
    ensures var u := After(cfg, s, more);
      n in u.nodes && u.nodes[n].pc.RReplied? && u.nodes[n].lost + u.nodes[n].pc.a.size > CAPACITY
    decreases CAPACITY - lost
  {
    if lost + a.size <= CAPACITY {
      var acts1, t1 := Cycle(cfg, s, acts, t, n, a, lost);
      more := UseUp(cfg, s, acts1, t1, n, a, lost + a.size);
    } else {
      var stuck, u := Replied(cfg, s, acts, t, n, a, lost);
      more := stuck;
    }
  }

  /** For every remote node and every block that is not empty there is a run that
      leaves the node with a reply that it can never store. */
  lemma CacheGetsStuck(cfg: Config, s: State, n: uint16, a: GlobalAddress) returns (acts: seq<Action>)
    requires ValidConfig(cfg) && Initial(cfg, s) && n in cfg.nodes && a in cfg.addrs && a.size > 0
    ensures CanRun(cfg, s, acts)
    ensures var t := After(cfg, s, acts);
      n in t.nodes && t.nodes[n].pc.RReplied? && FillResult(t, n).outcome == Spins
  {
    acts := UseUp(cfg, s, [], s, n, a, 0);
    Bytes.FillStuckExactly(cfg, s, acts, n);
    InvRun(cfg, s, acts);
    RepliedInSession(cfg, After(cfg, s, acts), n);
  }

  lemma RepliedInSession(cfg: Config, t: State, n: uint16)
    requires ValidConfig(cfg) && Inv(cfg, t) && n in t.nodes && t.nodes[n].pc.RReplied?
    ensures t.home == Session(n) && t.nodes[n].pc.a.size <= CAPACITY
  {
    assert NodeOk(cfg, t.nodes[n]);
  }

  // --- Configurations in which nobody gets stuck ---

  /** No reader or writer is ever left in front of a store that does not come back. */
  ghost predicate NeverStuck(cfg: Config, s: State) {
    forall acts, n :: CanRun(cfg, s, acts) && n in After(cfg, s, acts).nodes ==>
      && (After(cfg, s, acts).nodes[n].pc.RReplied? ==> CanFill(After(cfg, s, acts), n))
      && (After(cfg, s, acts).nodes[n].pc.WConnected? ==> CanAlter(After(cfg, s, acts), n))
  }

  ghost predicate NothingLost(s: State) {
    forall n :: n in s.nodes ==> s.nodes[n].lost == 0
  }

  lemma DropLosesNothing(cfg: Config, ns: NodeState, a: GlobalAddress)
    requires NodeOk(cfg, ns) && ns.lost == 0 && forall b :: b in cfg.addrs ==> b.size == 0
    ensures Dropped(ns, a).lost == 0
  {
  }

  lemma StepLosesNothing(cfg: Config, s: State, act: Action)
    requires Inv(cfg, s) && Enabled(cfg, s, act) && NothingLost(s) && forall b :: b in cfg.addrs ==> b.size == 0
    ensures NothingLost(Next(cfg, s, act))
  {
    if act.Invalidate? || act.HomeInvalidate? {
      DropLosesNothing(cfg, s.nodes[s.home.rest[0]], s.home.a);
    } else if act.Lookup? || act.Fill? || act.AlterCache? {
    } else {
      Bytes.OtherStepKeepsCaches(cfg, s, act);
    }
  }

  lemma {:induction false} RunLosesNothing(cfg: Config, s: State, acts: seq<Action>)
    requires ValidConfig(cfg) && Initial(cfg, s) && CanRun(cfg, s, acts) && forall b :: b in cfg.addrs ==> b.size == 0
    ensures NothingLost(After(cfg, s, acts))
    decreases |acts|
  {
    if acts != [] {
      var before := acts[..|acts| - 1];
      RunLosesNothing(cfg, s, before);
      InvRun(cfg, s, before);
      StepLosesNothing(cfg, After(cfg, s, before), acts[|acts| - 1]);
    }
  }

  lemma EmptyBlocksAlwaysFit(cfg: Config, s: State, acts: seq<Action>, n: uint16)
    requires ValidConfig(cfg) && Initial(cfg, s) && CanRun(cfg, s, acts) && n in After(cfg, s, acts).nodes
    requires forall b :: b in cfg.addrs ==> b.size == 0
    ensures After(cfg, s, acts).nodes[n].pc.RReplied? ==> CanFill(After(cfg, s, acts), n)
    ensures After(cfg, s, acts).nodes[n].pc.WConnected? ==> CanAlter(After(cfg, s, acts), n)
  {
    RunLosesNothing(cfg, s, acts);
    InvRun(cfg, s, acts);
    assert NodeOk(cfg, After(cfg, s, acts).nodes[n]);
    if After(cfg, s, acts).nodes[n].pc.RReplied? {
      Bytes.FillStuckExactly(cfg, s, acts, n);
    } else if After(cfg, s, acts).nodes[n].pc.WConnected? {
      Bytes.AlterStuckExactly(cfg, s, acts, n);
    }
  }

  /** Nobody ever gets stuck exactly when there is no remote node or all blocks are
      empty. */
  lemma NeverStuckExactly(cfg: Config, s: State)
    requires ValidConfig(cfg) && Initial(cfg, s)
    ensures NeverStuck(cfg, s) <==> cfg.nodes == {} || forall a :: a in cfg.addrs ==> a.size == 0
  {
    if cfg.nodes != {} && exists a :: a in cfg.addrs && a.size != 0 {
      var n :| n in cfg.nodes;
      var a :| a in cfg.addrs && a.size != 0;
      var acts := CacheGetsStuck(cfg, s, n, a);
      assert !CanFill(After(cfg, s, acts), n);
    } else {
      forall acts, n | CanRun(cfg, s, acts) && n in After(cfg, s, acts).nodes
        ensures After(cfg, s, acts).nodes[n].pc.RReplied? ==> CanFill(After(cfg, s, acts), n)
        ensures After(cfg, s, acts).nodes[n].pc.WConnected? ==> CanAlter(After(cfg, s, acts), n)
      {
        InvRun(cfg, s, acts);
        EmptyBlocksAlwaysFit(cfg, s, acts, n);
      }
    }
  }
}
