/** The limit of flat memory: a writer's own copy is not in the sharer list
    (src/api.cpp, performWrite), so the next writer leaves it in place. */
module StaleCopies {
  import opened Defs
  import opened AddressKey
  import opened CacheModel
  import opened Locks
  import opened Protocol
  import opened Runs
  import opened Refinement
  import Atomic

  /** The home listens, nobody holds the lock and this address has no sharers. */
  ghost predicate Calm(cfg: Config, t: State, a: GlobalAddress) {
    && t.home == Listening && StateOf(t.locks, PORT) == UNLOCKED
    && a in cfg.addrs && a in t.cells && t.cells[a].sharerNodes == []
  }

  function OwnCopy(a: GlobalAddress, v: uint64, now: nat): CacheState
    requires a.size <= CAPACITY
  {
    CacheState(CAPACITY - a.size, map[Key(a) := CacheItem(a, v, now, now)])
  }

  /** A whole remote write to an address without sharers, by a node with an empty
      cache: it keeps a copy, and is not registered as a sharer. */
  lemma WriteCall(cfg: Config, s: State, acts: seq<Action>, t: State, n: uint16, a: GlobalAddress, v: uint64)
    returns (more: seq<Action>, u: State)
    requires ReachedBy(cfg, s, acts, t) && Calm(cfg, t, a) && a.size <= CAPACITY
    requires n in t.nodes && t.nodes[n] == NodeState(Idle, EMPTY_CACHE, 0)
    ensures ReachedBy(cfg, s, more, u) && Calm(cfg, u, a)
    ensures Trace(cfg, s, more) == Trace(cfg, s, acts) + [Atomic.RemoteWrite(n, a, v)]
    ensures u.nodes == t.nodes[n := NodeState(Idle, OwnCopy(a, v, t.clock + 1), 0)]
  {
    var t1, acts1 := Opened(cfg, s, acts, t, n, a, v);
    var t2, acts2 := Altered(cfg, s, acts1, t1, n, a, v);
    var t3 := AfterServeWrite(t2, n);
    Go(cfg, s, acts2, t2, ServeWrite(n), t3);
    u, more := Closed(cfg, s, acts2 + [ServeWrite(n)], t3, n, a, v);
  }

  lemma Opened(cfg: Config, s: State, acts: seq<Action>, t: State, n: uint16, a: GlobalAddress, v: uint64)
    returns (u: State, more: seq<Action>)
    requires ReachedBy(cfg, s, acts, t)
    requires t.home == Listening && StateOf(t.locks, PORT) == UNLOCKED && a in cfg.addrs
    requires n in t.nodes && t.nodes[n] == NodeState(Idle, EMPTY_CACHE, 0)
    ensures ReachedBy(cfg, s, more, u) && Trace(cfg, s, more) == Trace(cfg, s, acts)
    ensures u == WithPc(t, n, WConnected(a, v)).(home := Session(n), locks := Relocked(t, EXCLUSIVE))
  {
    var t1 := Next(cfg, t, WriteLock(n, a, v));
    Go(cfg, s, acts, t, WriteLock(n, a, v), t1);
    u := AfterConnect(t1, n);
    Go(cfg, s, acts + [WriteLock(n, a, v)], t1, Connect(n), u);
    more := acts + [WriteLock(n, a, v)] + [Connect(n)];
  }

  lemma Closed(cfg: Config, s: State, acts: seq<Action>, t: State, n: uint16, a: GlobalAddress, v: uint64)
    returns (u: State, more: seq<Action>)
    requires ReachedBy(cfg, s, acts, t)
    requires n in t.nodes && t.home == Session(n) && t.nodes[n].pc == WReplied(a, v)
    ensures ReachedBy(cfg, s, more, u) && Trace(cfg, s, more) == Trace(cfg, s, acts)
    ensures u == WithPc(t, n, Idle).(home := Listening, locks := Relocked(t, UNLOCKED))
  {
    var t1 := AfterReset(t, n);
    Go(cfg, s, acts, t, Reset(n), t1);
    u := Next(cfg, t1, Unlock(n));
    Go(cfg, s, acts + [Reset(n)], t1, Unlock(n), u);
    more := acts + [Reset(n)] + [Unlock(n)];
  }

  lemma Altered(cfg: Config, s: State, acts: seq<Action>, t: State, n: uint16, a: GlobalAddress, v: uint64)
    returns (u: State, more: seq<Action>)
    requires ReachedBy(cfg, s, acts, t) && a.size <= CAPACITY
    requires n in t.nodes && t.home == Session(n) && t.nodes[n] == NodeState(WConnected(a, v), EMPTY_CACHE, 0)
    ensures ReachedBy(cfg, s, more, u) && Trace(cfg, s, more) == Trace(cfg, s, acts)
    ensures u == t.(nodes := t.nodes[n := NodeState(WAltered(a, v), OwnCopy(a, v, t.clock + 1), 0)],
                    clock := t.clock + 1)
  {
    assert AlterResult(t, n) == AddResult(OwnCopy(a, v, t.clock + 1), Inserted);
    u := AfterAlter(t, n);
    more := acts + [AlterCache(n)];
    Go(cfg, s, acts, t, AlterCache(n), u);
  }

  /** A whole write by the home to an address without sharers. */
  lemma HomeWriteCall(cfg: Config, s: State, acts: seq<Action>, t: State, a: GlobalAddress, v: uint64)
    returns (more: seq<Action>, u: State)
    requires ReachedBy(cfg, s, acts, t) && Calm(cfg, t, a)
    ensures ReachedBy(cfg, s, more, u) && Calm(cfg, u, a) && u.nodes == t.nodes
    ensures Trace(cfg, s, more) == Trace(cfg, s, acts) + [Atomic.HomeWrite(a, v)]
  {
    var t1 := Next(cfg, t, HomeWriteLock(a, v));
    Go(cfg, s, acts, t, HomeWriteLock(a, v), t1);
    var t2 := AfterHomeCheckSharers(t1);
    Go(cfg, s, acts + [HomeWriteLock(a, v)], t1, HomeCheckSharers, t2);
    var t3 := AfterHomeStore(t2);
    Go(cfg, s, acts + [HomeWriteLock(a, v)] + [HomeCheckSharers], t2, HomeStore, t3);
    u := Next(cfg, t3, HomeUnlock);
    more := acts + [HomeWriteLock(a, v)] + [HomeCheckSharers] + [HomeStore] + [HomeUnlock];
    Go(cfg, s, acts + [HomeWriteLock(a, v)] + [HomeCheckSharers] + [HomeStore], t3, HomeUnlock, u);
  }

  /** A read that hits the node's own copy. */
  lemma HitCall(cfg: Config, s: State, acts: seq<Action>, t: State, n: uint16, a: GlobalAddress)
    returns (more: seq<Action>)
    requires ReachedBy(cfg, s, acts, t) && Calm(cfg, t, a)
    requires n in t.nodes && t.nodes[n].pc.Idle? && Key(a) in t.nodes[n].cache.items
    ensures CanRun(cfg, s, more)
    ensures Trace(cfg, s, more)
         == Trace(cfg, s, acts) + [Atomic.ReadHit(n, a, t.nodes[n].cache.items[Key(a)].data)]
  {
    var t1 := Next(cfg, t, ReadLock(n, a));
    Go(cfg, s, acts, t, ReadLock(n, a), t1);
    Go(cfg, s, acts + [ReadLock(n, a)], t1, Lookup(n), AfterLookup(t1, n));
    more := acts + [ReadLock(n, a)] + [Lookup(n)];
  }

  lemma StartCalm(cfg: Config, s: State, a: GlobalAddress)
    requires Initial(cfg, s) && a in cfg.addrs
    ensures ReachedBy(cfg, s, [], s) && Calm(cfg, s, a)
  {
  }

  lemma NotFlat(m: Atomic.Memory, write: Event, later: Event, read: Event)
    requires later.IsWrite() && read.IsRead() && read.a == later.a && read.a in m.cells && read.v != later.v
    ensures !Atomic.Flat(m, [write, later, read])
  {
    var trace := [write, later, read];
    assert trace[..2] == [write, later];
    assert [write, later][|[write, later]| - 1] == later;
    assert Atomic.LastWrite(m, trace[..2], read.a) == later.v;
  }

  /** From any initial state, a second remote writer makes the first one's copy stale:
      its next read hits the old value. */
  lemma SecondWriterLeavesStaleCopy(cfg: Config, s: State, m: uint16, n: uint16, a: GlobalAddress, v: uint64, w: uint64)
    returns (acts: seq<Action>)
    requires ValidConfig(cfg) && Initial(cfg, s) && m in cfg.nodes && n in cfg.nodes && m != n && a in cfg.addrs
    ensures CanRun(cfg, s, acts)
    ensures Trace(cfg, s, acts) == [Atomic.RemoteWrite(m, a, v), Atomic.RemoteWrite(n, a, w), Atomic.ReadHit(m, a, v)]
    ensures v != w ==> !Atomic.Flat(Abs(cfg, s), Trace(cfg, s, acts))
  {
    StartCalm(cfg, s, a);
    var acts1, t1 := WriteCall(cfg, s, [], s, m, a, v);
    var acts2, t2 := WriteCall(cfg, s, acts1, t1, n, a, w);
    acts := HitCall(cfg, s, acts2, t2, m, a);
    if v != w {
      NotFlat(Abs(cfg, s), Atomic.RemoteWrite(m, a, v), Atomic.RemoteWrite(n, a, w), Atomic.ReadHit(m, a, v));
    }
  }

  /** So does a write of the home's own. */
  lemma HomeWriterLeavesStaleCopy(cfg: Config, s: State, n: uint16, a: GlobalAddress, v: uint64, w: uint64)
    returns (acts: seq<Action>)
    requires ValidConfig(cfg) && Initial(cfg, s) && n in cfg.nodes && a in cfg.addrs
    ensures CanRun(cfg, s, acts)
    ensures Trace(cfg, s, acts) == [Atomic.RemoteWrite(n, a, v), Atomic.HomeWrite(a, w), Atomic.ReadHit(n, a, v)]
    ensures v != w ==> !Atomic.Flat(Abs(cfg, s), Trace(cfg, s, acts))
  {
    StartCalm(cfg, s, a);
    var acts1, t1 := WriteCall(cfg, s, [], s, n, a, v);
    var acts2, t2 := HomeWriteCall(cfg, s, acts1, t1, a, w);
    acts := HitCall(cfg, s, acts2, t2, n, a);
    if v != w {
      NotFlat(Abs(cfg, s), Atomic.RemoteWrite(n, a, v), Atomic.HomeWrite(a, w), Atomic.ReadHit(n, a, v));
    }
  }

  ghost predicate AlwaysFlat(cfg: Config, s: State) {
    forall acts :: CanRun(cfg, s, acts) ==> Atomic.Flat(Abs(cfg, s), Trace(cfg, s, acts))
  }

  /** Without a remote node or without an address no event is a remote write. */
  lemma {:induction false} NoRemoteWrites(cfg: Config, s: State, acts: seq<Action>, i: nat)
    requires ValidConfig(cfg) && Initial(cfg, s) && CanRun(cfg, s, acts)
    requires cfg.nodes == {} || cfg.addrs == {}
    requires i < |Trace(cfg, s, acts)|
    ensures !Trace(cfg, s, acts)[i].RemoteWrite?
    decreases |acts|
  {
    if acts != [] {
      var before := acts[..|acts| - 1];
      InvRun(cfg, s, before);
      InterleavingRefinesAtomic(cfg, s, before);
      InterleavingRefinesAtomic(cfg, s, acts);
      if i < |Trace(cfg, s, before)| {
        NoRemoteWrites(cfg, s, before, i);
      } else {
        SimStep(cfg, After(cfg, s, before), acts[|acts| - 1]);
      }
    }
  }

  /** The whole protocol is flat in every run exactly when there is no remote node or
      no address: nothing less than that keeps every schedule of writes flat. */
  lemma FlatForAllRunsExactly(cfg: Config, s: State)
    requires ValidConfig(cfg) && Initial(cfg, s)
    ensures AlwaysFlat(cfg, s) <==> cfg.nodes == {} || cfg.addrs == {}
  {
    if cfg.nodes == {} || cfg.addrs == {} {
      forall acts | CanRun(cfg, s, acts)
        ensures Atomic.Flat(Abs(cfg, s), Trace(cfg, s, acts))
      {
        forall i | 0 <= i < |Trace(cfg, s, acts)|
          ensures !Trace(cfg, s, acts)[i].RemoteWrite?
        {
          NoRemoteWrites(cfg, s, acts, i);
        }
        RunsAreFlat(cfg, s, acts);
      }
    } else {
      var n :| n in cfg.nodes;
      var a :| a in cfg.addrs;
      var acts := HomeWriterLeavesStaleCopy(cfg, s, n, a, 1, 2);
      assert !AlwaysFlat(cfg, s);
    }
  }
}
