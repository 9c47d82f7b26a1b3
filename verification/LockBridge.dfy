/** The protocol's use of the lock table is a run of the lock clients, so their
    laws hold in every interleaving of reads and writes. */
module LockBridge {
  import opened Defs
  import opened Locks
  import opened Protocol
  import LockClients

  /** A remote node holds the home's lock from its grant to its unlock. */
  function HeldBy(pc: Pc): Option<LockState> {
    if pc.Idle? then None
    else if pc.RLocked? || pc.RMissed? || pc.RConnected? || pc.RReplied? || pc.RFilled? || pc.RDone?
    then Some(SHAREDLOCK)
    else Some(EXCLUSIVE)
  }

  function HeldByHome(home: HomeMode): Option<LockState> {
    if home.HReadLocked? then Some(SHAREDLOCK)
    else if home.HWriteLocked? || home.HBroadcast? || home.HStored? then Some(EXCLUSIVE)
    else None
  }

  function HeldIn(s: State, n: uint16): Option<LockState> {
    if n in s.nodes then HeldBy(s.nodes[n].pc)
    else if n == PORT then HeldByHome(s.home)
    else None
  }

  ghost function Holders(s: State): LockClients.Clients {
    LockClients.Clients(
      s.locks,
      map n | n in s.nodes.Keys + {PORT} && HeldIn(s, n).Some? :: LockClients.Hold(PORT, HeldIn(s, n).value))
  }

  predicate TakesLock(act: Action) {
    act.ReadLock? || act.WriteLock? || act.HomeReadLock? || act.HomeWriteLock?
  }

  predicate ReleasesLock(act: Action) {
    act.Unlock? || act.HomeReadUnlock? || act.HomeUnlock?
  }

  lemma HoldersStep(cfg: Config, s: State, act: Action)
    requires PORT !in s.nodes && Enabled(cfg, s, act)
    ensures Next(cfg, s, act).nodes.Keys == s.nodes.Keys
    ensures LockClients.Steps(Holders(s), Holders(Next(cfg, s, act)))
  {
    if TakesLock(act) {
      TakingStep(cfg, s, act);
    } else if ReleasesLock(act) {
      ReleasingStep(cfg, s, act);
    } else {
      OtherStepKeepsHolds(cfg, s, act);
      Stays(s, Next(cfg, s, act));
    }
  }

  lemma TakingStep(cfg: Config, s: State, act: Action)
    requires PORT !in s.nodes && Enabled(cfg, s, act) && TakesLock(act)
    ensures Next(cfg, s, act).nodes.Keys == s.nodes.Keys
    ensures LockClients.Steps(Holders(s), Holders(Next(cfg, s, act)))
  {
    var t := Next(cfg, s, act);
    match act
    case ReadLock(n, _) => Acquires(s, t, n, SHAREDLOCK);
    case WriteLock(n, _, _) => Acquires(s, t, n, EXCLUSIVE);
    case HomeReadLock(_) => Acquires(s, t, PORT, SHAREDLOCK);
    case HomeWriteLock(_, _) => Acquires(s, t, PORT, EXCLUSIVE);
  }

  lemma ReleasingStep(cfg: Config, s: State, act: Action)
    requires PORT !in s.nodes && Enabled(cfg, s, act) && ReleasesLock(act)
    ensures Next(cfg, s, act).nodes.Keys == s.nodes.Keys
    ensures LockClients.Steps(Holders(s), Holders(Next(cfg, s, act)))
  {
    Releases(s, Next(cfg, s, act), if act.Unlock? then act.n else PORT);
  }

  predicate LocalStep(act: Action) {
    act.Refused? || act.Lookup? || act.Fill? || act.AlterCache? || act.ServeLockClient?
  }

  predicate SessionStep(act: Action) {
    act.Connect? || act.ServeRead? || act.ServeWrite? || act.Reset?
  }

  lemma OtherStepKeepsHolds(cfg: Config, s: State, act: Action)
    requires PORT !in s.nodes && Enabled(cfg, s, act) && !TakesLock(act) && !ReleasesLock(act)
    ensures Next(cfg, s, act).nodes.Keys == s.nodes.Keys && Next(cfg, s, act).locks == s.locks
    ensures forall m :: m in s.nodes.Keys + {PORT} ==> HeldIn(Next(cfg, s, act), m) == HeldIn(s, m)
  {
    if LocalStep(act) {
      LocalStepKeepsHolds(cfg, s, act);
    } else if SessionStep(act) {
      SessionStepKeepsHolds(cfg, s, act);
    } else {
      HomeStepKeepsHolds(cfg, s, act);
    }
  }

  lemma LocalStepKeepsHolds(cfg: Config, s: State, act: Action)
    requires PORT !in s.nodes && Enabled(cfg, s, act) && LocalStep(act)
    ensures var t := Next(cfg, s, act);
      && t.nodes.Keys == s.nodes.Keys && t.locks == s.locks && t.home == s.home
      && HeldBy(t.nodes[act.n].pc) == HeldBy(s.nodes[act.n].pc)
      && forall m :: m in s.nodes && m != act.n ==> t.nodes[m] == s.nodes[m]
  {
  }

  lemma SessionStepKeepsHolds(cfg: Config, s: State, act: Action)
    requires PORT !in s.nodes && Enabled(cfg, s, act) && SessionStep(act)
    ensures var t := Next(cfg, s, act);
      && t.nodes.Keys == s.nodes.Keys && t.locks == s.locks
      && HeldByHome(t.home) == HeldByHome(s.home)
      && HeldBy(t.nodes[act.n].pc) == HeldBy(s.nodes[act.n].pc)
      && forall m :: m in s.nodes && m != act.n ==> t.nodes[m] == s.nodes[m]
  {
  }

  lemma HomeStepKeepsHolds(cfg: Config, s: State, act: Action)
    requires PORT !in s.nodes && Enabled(cfg, s, act)
    requires !TakesLock(act) && !ReleasesLock(act) && !LocalStep(act) && !SessionStep(act)
    ensures var t := Next(cfg, s, act);
      && t.nodes.Keys == s.nodes.Keys && t.locks == s.locks
      && HeldByHome(t.home) == HeldByHome(s.home)
      && forall m :: m in s.nodes ==> HeldBy(t.nodes[m].pc) == HeldBy(s.nodes[m].pc)
  {
  }

  lemma Acquires(s: State, t: State, n: uint16, mode: LockState)
    requires t.nodes.Keys == s.nodes.Keys && (n in s.nodes || n == PORT) && mode != UNLOCKED
    requires HeldIn(s, n).None? && HeldIn(t, n) == Some(mode)
    requires forall m :: m in s.nodes.Keys + {PORT} && m != n ==> HeldIn(t, m) == HeldIn(s, m)
    requires SetLock(s.locks, Request(PORT, mode)) == Reply(t.locks, true)
    ensures LockClients.Steps(Holders(s), Holders(t))
  {
    var act := LockClients.Acquire(n, LockClients.Hold(PORT, mode));
    assert LockClients.Enabled(Holders(s), act);
    assert Holders(t).holds == LockClients.Next(Holders(s), act).holds;
  }

  lemma Releases(s: State, t: State, n: uint16)
    requires t.nodes.Keys == s.nodes.Keys && (n in s.nodes || n == PORT)
    requires HeldIn(s, n).Some? && HeldIn(t, n).None?
    requires forall m :: m in s.nodes.Keys + {PORT} && m != n ==> HeldIn(t, m) == HeldIn(s, m)
    requires SetLock(s.locks, Request(PORT, UNLOCKED)).table == t.locks
    ensures LockClients.Steps(Holders(s), Holders(t))
  {
    var act := LockClients.Release(n);
    assert LockClients.Enabled(Holders(s), act);
    assert Holders(t).holds == LockClients.Next(Holders(s), act).holds;
  }

  lemma Stays(s: State, t: State)
    requires t.nodes.Keys == s.nodes.Keys && t.locks == s.locks
    requires forall m :: m in s.nodes.Keys + {PORT} ==> HeldIn(t, m) == HeldIn(s, m)
    ensures LockClients.Steps(Holders(s), Holders(t))
  {
    assert Holders(s).holds == Holders(t).holds;
  }

  /** The holders after each step of a run. */
  ghost function HolderRun(cfg: Config, s: State, acts: seq<Action>): seq<LockClients.Clients>
    requires CanRun(cfg, s, acts)
    decreases |acts|
  {
    if acts == [] then [Holders(s)]
    else HolderRun(cfg, s, acts[..|acts| - 1]) + [Holders(After(cfg, s, acts))]
  }

  lemma {:induction false} HolderRunIsRun(cfg: Config, s: State, acts: seq<Action>)
    requires ValidConfig(cfg) && Initial(cfg, s) && CanRun(cfg, s, acts)
    ensures var run := HolderRun(cfg, s, acts);
      && LockClients.IsRun(run)
      && run[|run| - 1] == Holders(After(cfg, s, acts))
      && After(cfg, s, acts).nodes.Keys == cfg.nodes
    decreases |acts|
  {
    if acts == [] {
      assert Holders(s).holds == map[];
    } else {
      var before, last := acts[..|acts| - 1], acts[|acts| - 1];
      HolderRunIsRun(cfg, s, before);
      HoldersStep(cfg, After(cfg, s, before), last);
    }
  }

  /** Every state of the holder run belongs to a prefix of the protocol run. */
  lemma {:induction false} HolderRunPrefix(cfg: Config, s: State, acts: seq<Action>, i: nat)
    requires CanRun(cfg, s, acts) && i < |HolderRun(cfg, s, acts)|
    ensures i <= |acts| && CanRun(cfg, s, acts[..i])
    ensures HolderRun(cfg, s, acts)[i] == Holders(After(cfg, s, acts[..i]))
    decreases |acts|
  {
    if acts == [] {
      assert acts[..i] == [];
    } else {
      var before := acts[..|acts| - 1];
      if i < |HolderRun(cfg, s, before)| {
        HolderRunPrefix(cfg, s, before, i);
        assert before[..i] == acts[..i];
      } else {
        HolderRunLength(cfg, s, before);
        assert acts[..i] == acts;
      }
    }
  }

  lemma {:induction false} HolderRunLength(cfg: Config, s: State, acts: seq<Action>)
    requires CanRun(cfg, s, acts)
    ensures |HolderRun(cfg, s, acts)| == |acts| + 1
    decreases |acts|
  {
    if acts != [] {
      HolderRunLength(cfg, s, acts[..|acts| - 1]);
    }
  }

  /** Two different participants are inside a read. */
  ghost predicate ReadsOverlap(s: State) {
    exists m, n :: m != n && HeldIn(s, m) == Some(SHAREDLOCK) && HeldIn(s, n) == Some(SHAREDLOCK)
  }

  /** A write runs beside another read or write. */
  ghost predicate WriteNotAlone(s: State) {
    exists m, n :: m != n && HeldIn(s, m) == Some(EXCLUSIVE) && HeldIn(s, n).Some?
  }

  /** A write overlaps with another operation only in runs in which two reads
      overlapped before. */
  lemma WritesAloneUnlessReadsOverlap(cfg: Config, s: State, acts: seq<Action>)
    requires ValidConfig(cfg) && Initial(cfg, s) && CanRun(cfg, s, acts)
    requires WriteNotAlone(After(cfg, s, acts))
    ensures exists i :: 0 <= i <= |acts| && CanRun(cfg, s, acts[..i]) && ReadsOverlap(After(cfg, s, acts[..i]))
  {
    HolderRunIsRun(cfg, s, acts);
    var run := HolderRun(cfg, s, acts);
    var m, n :| m != n && HeldIn(After(cfg, s, acts), m) == Some(EXCLUSIVE) && HeldIn(After(cfg, s, acts), n).Some?;
    assert LockClients.HoldsIn(run[|run| - 1], m, PORT, EXCLUSIVE);
    assert n in run[|run| - 1].holds && run[|run| - 1].holds[n].id == PORT;
    LockClients.BrokenOnlyAfterOverlap(run, PORT);
    var i :| 0 <= i < |run| && LockClients.ReadersOverlap(run[i], PORT);
    HolderRunPrefix(cfg, s, acts, i);
    var c, d :|
      c != d && LockClients.HoldsIn(run[i], c, PORT, SHAREDLOCK) && LockClients.HoldsIn(run[i], d, PORT, SHAREDLOCK);
    var u := After(cfg, s, acts[..i]);
    assert HeldIn(u, c) == Some(SHAREDLOCK) && HeldIn(u, d) == Some(SHAREDLOCK);
  }

  /** When nothing is in flight, the lock is unlocked. */
  lemma QuietIsUnlocked(cfg: Config, s: State, acts: seq<Action>)
    requires ValidConfig(cfg) && Initial(cfg, s) && CanRun(cfg, s, acts)
    requires var t := After(cfg, s, acts);
      t.home.Listening? && forall n :: n in t.nodes ==> t.nodes[n].pc.Idle?
    ensures StateOf(After(cfg, s, acts).locks, PORT) == UNLOCKED
  {
    HolderRunIsRun(cfg, s, acts);
    assert Holders(After(cfg, s, acts)).holds == map[];
    LockClients.QuietMeansUnlocked(HolderRun(cfg, s, acts), PORT);
  }
}
