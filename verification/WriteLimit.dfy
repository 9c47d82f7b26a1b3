/** What one write does to the copies in the protocol itself: a harmful one leaves a
    wrong copy behind, whatever the threads do meanwhile (src/api.cpp, performWrite). */
module WriteLimit {
  import opened Defs
  import CacheModel
  import opened Calls
  import opened Protocol
  import opened Refinement
  import opened Runs
  import opened Window
  import Atomic

  /** The home is about to tell this node to drop its copy of the address. */
  predicate WillTell(home: HomeMode, n: uint16, a: GlobalAddress) {
    (home.Broadcasting? || home.HBroadcast?) && home.a == a && n in home.rest
  }

  /** The node has its old copy, nobody will take it away, and it is not about to
      change it. */
  ghost predicate Keeps(cfg: Config, s: State, n: uint16, a: GlobalAddress, v: uint64) {
    && n in s.nodes && a in s.cells
    && a in Copies(cfg, s, n) && Copies(cfg, s, n)[a] == v
    && n !in s.cells[a].sharerNodes && !WillTell(s.home, n, a)
    && !s.nodes[n].pc.RReplied? && !s.nodes[n].pc.RFilled? && !s.nodes[n].pc.WAltered?
  }

  /** The node's own write is under way at the home. */
  predicate Writes(s: State, n: uint16) {
    && n in s.nodes
    && ((s.nodes[n].pc.WAltered? && s.home == Session(n)) || (s.home.Broadcasting? && s.home.writer == n))
  }

  /** After a step the node still has its old copy or writes itself, or an operation of
      its own took effect. */
  ghost predicate StillKeeps(cfg: Config, t: State, e: Option<Event>, n: uint16, a: GlobalAddress, v: uint64) {
    Keeps(cfg, t, n, a, v) || Writes(t, n) || (e.Some? && IsEventOf(e.value, n))
  }

  lemma KeepsLocal(cfg: Config, s: State, act: Action, n: uint16, a: GlobalAddress, v: uint64)
    requires Enabled(cfg, s, act) && (Keeps(cfg, s, n, a, v) || Writes(s, n))
    requires act.Refused? || act.ReadLock? || act.WriteLock? || act.Unlock? || act.ServeLockClient?
    ensures StillKeeps(cfg, Next(cfg, s, act), None, n, a, v)
  {
  }

  lemma KeepsLookup(cfg: Config, s: State, m: uint16, n: uint16, a: GlobalAddress, v: uint64)
    requires CanLookup(s, m) && (Keeps(cfg, s, n, a, v) || Writes(s, n))
    ensures StillKeeps(cfg, AfterLookup(s, m), Emit(cfg, s, Lookup(m)), n, a, v)
  {
  }

  lemma KeepsConnection(cfg: Config, s: State, act: Action, n: uint16, a: GlobalAddress, v: uint64)
    requires Enabled(cfg, s, act) && (Keeps(cfg, s, n, a, v) || Writes(s, n))
    requires act.Connect? || act.Reset?
    ensures StillKeeps(cfg, Next(cfg, s, act), None, n, a, v)
  {
  }

  lemma KeepsFill(cfg: Config, s: State, m: uint16, n: uint16, a: GlobalAddress, v: uint64)
    requires CanFill(s, m) && (Keeps(cfg, s, n, a, v) || Writes(s, n))
    ensures StillKeeps(cfg, AfterFill(s, m), None, n, a, v)
  {
  }

  lemma KeepsAlter(cfg: Config, s: State, m: uint16, n: uint16, a: GlobalAddress, v: uint64)
    requires CanAlter(s, m) && (Keeps(cfg, s, n, a, v) || Writes(s, n))
    ensures StillKeeps(cfg, AfterAlter(s, m), None, n, a, v)
  {
  }

  lemma KeepsServeRead(cfg: Config, s: State, m: uint16, n: uint16, a: GlobalAddress, v: uint64)
    requires CanServeRead(s, m) && (Keeps(cfg, s, n, a, v) || Writes(s, n))
    ensures StillKeeps(cfg, AfterServeRead(s, m), Emit(cfg, s, ServeRead(m)), n, a, v)
  {
  }

  lemma KeepsServeWrite(cfg: Config, s: State, m: uint16, n: uint16, a: GlobalAddress, v: uint64)
    requires CanServeWrite(s, m) && (Keeps(cfg, s, n, a, v) || Writes(s, n))
    ensures StillKeeps(cfg, AfterServeWrite(s, m), Emit(cfg, s, ServeWrite(m)), n, a, v)
  {
  }

  lemma KeepsDropped(cfg: Config, ns: NodeState, a: GlobalAddress, b: GlobalAddress)
    requires ValidConfig(cfg) && NodeOk(cfg, ns) && Listens(ns.pc) && b in cfg.addrs
    requires a != b && a in CacheModel.View(ns.cache, cfg.addrs)
    ensures a in CacheModel.View(Dropped(ns, b).cache, cfg.addrs)
    ensures CacheModel.View(Dropped(ns, b).cache, cfg.addrs)[a] == CacheModel.View(ns.cache, cfg.addrs)[a]
  {
    DropNode(cfg, ns, b);
  }

  lemma KeepsInvalidate(cfg: Config, s: State, n: uint16, a: GlobalAddress, v: uint64)
    requires ValidConfig(cfg) && Inv(cfg, s) && CanInvalidate(s) && (Keeps(cfg, s, n, a, v) || Writes(s, n))
    ensures StillKeeps(cfg, AfterInvalidate(s), None, n, a, v)
  {
    if !Writes(s, n) && s.home.rest[0] == n {
      KeepsDropped(cfg, s.nodes[n], a, s.home.a);
    }
  }

  lemma KeepsHomeInvalidate(cfg: Config, s: State, n: uint16, a: GlobalAddress, v: uint64)
    requires ValidConfig(cfg) && Inv(cfg, s) && CanHomeInvalidate(s) && Keeps(cfg, s, n, a, v)
    ensures StillKeeps(cfg, AfterHomeInvalidate(s), None, n, a, v)
  {
    if s.home.rest[0] == n {
      KeepsDropped(cfg, s.nodes[n], a, s.home.a);
    }
  }

  lemma KeepsEnd(cfg: Config, s: State, n: uint16, a: GlobalAddress, v: uint64)
    requires Enabled(cfg, s, EndBroadcast) && (Keeps(cfg, s, n, a, v) || Writes(s, n))
    ensures StillKeeps(cfg, Next(cfg, s, EndBroadcast), Emit(cfg, s, EndBroadcast), n, a, v)
  {
  }

  lemma KeepsHomeLock(cfg: Config, s: State, act: Action, n: uint16, a: GlobalAddress, v: uint64)
    requires Enabled(cfg, s, act) && (Keeps(cfg, s, n, a, v) || Writes(s, n))
    requires act.HomeReadLock? || act.HomeReadUnlock? || act.HomeReadReturn? || act.HomeWriteLock? || act.HomeUnlock?
    ensures StillKeeps(cfg, Next(cfg, s, act), None, n, a, v)
  {
  }

  lemma KeepsHomeWrite(cfg: Config, s: State, act: Action, n: uint16, a: GlobalAddress, v: uint64)
    requires Enabled(cfg, s, act) && (Keeps(cfg, s, n, a, v) || Writes(s, n))
    requires act.HomeCheckSharers? || act.HomeStore?
    ensures StillKeeps(cfg, Next(cfg, s, act), None, n, a, v)
  {
  }

  lemma KeepsStep(cfg: Config, s: State, act: Action, n: uint16, a: GlobalAddress, v: uint64)
    requires ValidConfig(cfg) && Inv(cfg, s) && Enabled(cfg, s, act) && (Keeps(cfg, s, n, a, v) || Writes(s, n))
    ensures StillKeeps(cfg, Next(cfg, s, act), Emit(cfg, s, act), n, a, v)
  {
    if act.Refused? || act.ReadLock? || act.WriteLock? || act.Unlock? || act.ServeLockClient? {
      KeepsLocal(cfg, s, act, n, a, v);
    } else if act.Lookup? {
      KeepsLookup(cfg, s, act.n, n, a, v);
    } else if act.Connect? || act.Reset? {
      KeepsConnection(cfg, s, act, n, a, v);
    } else if act.Fill? {
      KeepsFill(cfg, s, act.n, n, a, v);
    } else if act.AlterCache? {
      KeepsAlter(cfg, s, act.n, n, a, v);
    } else if act.ServeRead? {
      KeepsServeRead(cfg, s, act.n, n, a, v);
    } else if act.ServeWrite? {
      KeepsServeWrite(cfg, s, act.n, n, a, v);
    } else if act.Invalidate? {
      KeepsInvalidate(cfg, s, n, a, v);
    } else if act.HomeInvalidate? {
      KeepsHomeInvalidate(cfg, s, n, a, v);
    } else if act.EndBroadcast? {
      KeepsEnd(cfg, s, n, a, v);
    } else if act.HomeCheckSharers? || act.HomeStore? {
      KeepsHomeWrite(cfg, s, act, n, a, v);
    } else {
      KeepsHomeLock(cfg, s, act, n, a, v);
    }
  }

  lemma {:induction false} KeepsRun(cfg: Config, s: State, acts: seq<Action>, n: uint16, a: GlobalAddress, v: uint64)
    requires ValidConfig(cfg) && Inv(cfg, s) && CanRun(cfg, s, acts) && Keeps(cfg, s, n, a, v)
    ensures Keeps(cfg, After(cfg, s, acts), n, a, v) || Writes(After(cfg, s, acts), n)
         || Events(Trace(cfg, s, acts), n) > 0
    decreases |acts|
  {
    if acts != [] {
      var before, last := acts[..|acts| - 1], acts[|acts| - 1];
      var mid := After(cfg, s, before);
      KeepsRun(cfg, s, before, n, a, v);
      InvLater(cfg, s, before);
      EventsExtend(Trace(cfg, s, before), Emit(cfg, mid, last), n);
      if Keeps(cfg, mid, n, a, v) || Writes(mid, n) {
        KeepsStep(cfg, mid, last, n, a, v);
      }
    }
  }

  /** The node that makes a write harmful. */
  ghost predicate Harmed(cfg: Config, t: State, e: Event, n: uint16)
    requires e.a in t.cells && e.IsWrite()
  {
    && n in t.nodes && n != e.Writer() && e.a in Copies(cfg, t, n)
    && n !in t.cells[e.a].sharerNodes && Copies(cfg, t, n)[e.a] != e.v
  }

  lemma HarmedKeepsWrongCopy(cfg: Config, t: State, acts: seq<Action>, e: Event, n: uint16)
    requires ValidConfig(cfg) && Inv(cfg, t) && t.home.Listening?
    requires CanRun(cfg, t, acts) && Trace(cfg, t, acts) == [e] && e.IsWrite()
    requires e.a in t.cells && Harmed(cfg, t, e, n)
    requires After(cfg, t, acts).home.Listening?
    ensures Keeps(cfg, After(cfg, t, acts), n, e.a, Copies(cfg, t, n)[e.a])
  {
    assert InSession(t.nodes[n].pc) <==> t.home == Session(n);
    KeepsRun(cfg, t, acts, n, e.a, Copies(cfg, t, n)[e.a]);
    assert [e][..0] == [];
    assert Events([e], n) == 0;
  }

  lemma WrittenValue(cfg: Config, t: State, acts: seq<Action>, e: Event)
    requires ValidConfig(cfg) && Inv(cfg, t)
    requires CanRun(cfg, t, acts) && Trace(cfg, t, acts) == [e] && e.IsWrite()
    requires After(cfg, t, acts).home.Listening?
    ensures var u := After(cfg, t, acts);
      e.a in u.cells && u.cells[e.a].data == e.v
  {
    var u := After(cfg, t, acts);
    PartRefinesAtomic(cfg, t, acts);
    InvLater(cfg, t, acts);
    ListeningIsAbstract(cfg, u);
    Atomic.OneWriteStores(Abs(cfg, t), e, Abs(cfg, u));
  }

  lemma SomeoneIsHarmed(cfg: Config, t: State, e: Event) returns (n: uint16)
    requires e.a in t.cells && e.IsWrite() && !HarmlessWrite(cfg, t, e)
    ensures Harmed(cfg, t, e, n)
  {
    n :| n in t.nodes && n != e.Writer() && e.a in Copies(cfg, t, n)
      && n !in t.cells[e.a].sharerNodes && Copies(cfg, t, n)[e.a] != e.v;
  }

  lemma WrongCopy(cfg: Config, u: State, n: uint16, a: GlobalAddress, v: uint64)
    requires Keeps(cfg, u, n, a, v) && u.cells[a].data != v
    ensures !CopiesCurrent(cfg, u)
  {
  }

  lemma HarmfulLeavesWrongCopy(cfg: Config, t: State, acts: seq<Action>, e: Event)
    requires ValidConfig(cfg) && Inv(cfg, t) && t.home.Listening?
    requires CanRun(cfg, t, acts) && Trace(cfg, t, acts) == [e] && e.IsWrite() && e.a in t.cells
    requires After(cfg, t, acts).home.Listening? && !HarmlessWrite(cfg, t, e)
    ensures !CopiesCurrent(cfg, After(cfg, t, acts))
  {
    var n := SomeoneIsHarmed(cfg, t, e);
    HarmedKeepsWrongCopy(cfg, t, acts, e, n);
    WrittenValue(cfg, t, acts, e);
    WrongCopy(cfg, After(cfg, t, acts), n, e.a, Copies(cfg, t, n)[e.a]);
  }

  /** The exact limit of flat memory for a single write. From a quiescent state with
      current copies, any run in which just this write takes effect and which ends
      quiescent ends with current copies exactly when the write was harmless: when
      every other node with a copy was a registered reader or had that value. */
  lemma HarmlessWriteRun(cfg: Config, t: State, acts: seq<Action>, e: Event)
    requires ValidConfig(cfg) && Inv(cfg, t) && t.home.Listening? && CopiesCurrent(cfg, t)
    requires CanRun(cfg, t, acts) && Trace(cfg, t, acts) == [e] && e.IsWrite() && e.a in t.cells
    requires After(cfg, t, acts).home.Listening?
    ensures CopiesCurrent(cfg, After(cfg, t, acts)) <==> HarmlessWrite(cfg, t, e)
  {
    if HarmlessWrite(cfg, t, e) {
      HarmlessKeepsCurrent(cfg, t, acts, e);
    } else {
      HarmfulLeavesWrongCopy(cfg, t, acts, e);
    }
  }
}
