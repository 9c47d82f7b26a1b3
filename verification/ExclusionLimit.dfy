/** The limit of mutual exclusion in the protocol itself: shared grants are not
    counted (src/api.cpp, setLock), so a reader that leaves unlocks for all. */
module ExclusionLimit {
  import opened Defs
  import opened LockBridge
  import opened Locks
  import opened Protocol
  import opened Refinement
  import opened Runs

  /** A read of a remote node is still going on when the home reads and then writes:
      in every configuration with a remote node and an address a write can run beside
      a read. */
  lemma WriteBesideRead(cfg: Config, s: State, n: uint16, a: GlobalAddress, v: uint64) returns (acts: seq<Action>)
    requires ValidConfig(cfg) && Initial(cfg, s) && n in cfg.nodes && a in cfg.addrs
    ensures CanRun(cfg, s, acts)
    ensures var t := After(cfg, s, acts);
      HeldIn(t, n) == Some(SHAREDLOCK) && HeldIn(t, PORT) == Some(EXCLUSIVE) && WriteNotAlone(t)
  {
    assert ReachedBy(cfg, s, [], s);
    var t1 := Next(cfg, s, ReadLock(n, a));
    Go(cfg, s, [], s, ReadLock(n, a), t1);
    var t2, acts2 := HomeReads(cfg, s, [] + [ReadLock(n, a)], t1, a);
    var t3 := Next(cfg, t2, HomeWriteLock(a, v));
    Go(cfg, s, acts2, t2, HomeWriteLock(a, v), t3);
    acts := acts2 + [HomeWriteLock(a, v)];
    assert HeldIn(t3, n) == Some(SHAREDLOCK) && HeldIn(t3, PORT) == Some(EXCLUSIVE);
  }

  /** A whole read of the home's own leaves the lock unlocked, whoever else holds it
      shared. */
  lemma HomeReads(cfg: Config, s: State, acts: seq<Action>, t: State, a: GlobalAddress)
    returns (u: State, more: seq<Action>)
    requires ReachedBy(cfg, s, acts, t) && t.home == Listening && StateOf(t.locks, PORT) == SHAREDLOCK
    requires a in cfg.addrs && a in t.cells
    ensures ReachedBy(cfg, s, more, u)
    ensures u == t.(locks := t.locks[PORT := UNLOCKED])
  {
    var t1 := t.(home := HReadLocked(a));
    assert Relocked(t, SHAREDLOCK) == t.locks;
    Go(cfg, s, acts, t, HomeReadLock(a), t1);
    u, more := HomeReturns(cfg, s, acts + [HomeReadLock(a)], t1, a);
  }

  lemma HomeReturns(cfg: Config, s: State, acts: seq<Action>, t: State, a: GlobalAddress)
    returns (u: State, more: seq<Action>)
    requires ReachedBy(cfg, s, acts, t) && t.home == HReadLocked(a) && PORT in t.locks && a in t.cells
    ensures ReachedBy(cfg, s, more, u)
    ensures u == t.(home := Listening, locks := t.locks[PORT := UNLOCKED])
  {
    var t1 := t.(home := HReadUnlocked(a), locks := t.locks[PORT := UNLOCKED]);
    Go(cfg, s, acts, t, HomeReadUnlock, t1);
    u := t1.(home := Listening);
    Go(cfg, s, acts + [HomeReadUnlock], t1, HomeReadReturn, u);
    more := acts + [HomeReadUnlock] + [HomeReadReturn];
  }

  /** No run ever has a write beside another access. */
  ghost predicate AlwaysExclusive(cfg: Config, s: State) {
    forall acts :: CanRun(cfg, s, acts) ==> !WriteNotAlone(After(cfg, s, acts))
  }

  /** Whoever holds the lock accesses an address. */
  lemma HoldersHaveAddresses(cfg: Config, t: State, m: uint16)
    requires Inv(cfg, t) && HeldIn(t, m).Some?
    ensures cfg.addrs != {} && (m == PORT || m in cfg.nodes)
  {
    if m in t.nodes {
      assert NodeOk(cfg, t.nodes[m]);
      assert t.nodes[m].pc.a in cfg.addrs;
    } else {
      assert t.home.a in cfg.addrs;
    }
  }

  lemma NobodyElse(cfg: Config, t: State)
    requires Inv(cfg, t) && (cfg.nodes == {} || cfg.addrs == {})
    ensures !WriteNotAlone(t)
  {
    if WriteNotAlone(t) {
      var m, n :| m != n && HeldIn(t, m) == Some(EXCLUSIVE) && HeldIn(t, n).Some?;
      HoldersHaveAddresses(cfg, t, m);
      HoldersHaveAddresses(cfg, t, n);
      assert false;
    }
  }

  /** The whole protocol keeps writes alone in every run exactly when there is no
      remote node or no address. */
  lemma ExclusionForAllRunsExactly(cfg: Config, s: State)
    requires ValidConfig(cfg) && Initial(cfg, s)
    ensures AlwaysExclusive(cfg, s) <==> cfg.nodes == {} || cfg.addrs == {}
  {
    if cfg.nodes == {} || cfg.addrs == {} {
      forall acts | CanRun(cfg, s, acts)
        ensures !WriteNotAlone(After(cfg, s, acts))
      {
        InvRun(cfg, s, acts);
        NobodyElse(cfg, After(cfg, s, acts));
      }
    } else {
      var n :| n in cfg.nodes;
      var a :| a in cfg.addrs;
      var acts := WriteBesideRead(cfg, s, n, a, 0);
      assert !AlwaysExclusive(cfg, s);
    }
  }
}
