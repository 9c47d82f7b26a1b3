/** The invalidation window: from the home's overwrite to the end of the broadcast
    (src/Receive.cpp, startInvalidations; src/Send.cpp, prepareForInvalidate). */
module Window {
  import opened Defs
  import opened AddressKey
  import opened CacheModel
  import opened Protocol
  import opened Refinement
  import opened Runs
  import Atomic

  /** The home broadcasts the invalidations of the same write. */
  predicate SameBroadcast(s: State, t: State) {
    && s.home.Broadcasting? && t.home.Broadcasting?
    && t.home.writer == s.home.writer && t.home.a == s.home.a && t.home.v == s.home.v && t.home.was == s.home.was
  }

  type Caches = map<uint16, Atomic.Copies>

  ghost function AllCopies(cfg: Config, s: State): Caches {
    map n | n in s.nodes :: Copies(cfg, s, n)
  }

  /** No node has copies afterwards that it did not have before, with the same data. */
  ghost predicate Shrinks(before: Caches, after: Caches) {
    after.Keys == before.Keys && forall m :: m in before ==> Forgets(before[m], after[m])
  }

  /** A hit on a copy that the node has in these caches. */
  predicate HitIn(caches: Caches, e: Event) {
    e.ReadHit? && e.node in caches && e.a in caches[e.node] && e.v == caches[e.node][e.a]
  }

  /** Every event is a hit on a copy that its node has in these caches. */
  predicate AllHitIn(caches: Caches, trace: seq<Event>) {
    forall k :: 0 <= k < |trace| ==> HitIn(caches, trace[k])
  }

  lemma ShrinksTwice(a: Caches, b: Caches, c: Caches)
    requires Shrinks(a, b) && Shrinks(b, c)
    ensures Shrinks(a, c)
  {
    forall m | m in a
      ensures Forgets(a[m], c[m])
    {
      assert Forgets(a[m], b[m]) && Forgets(b[m], c[m]);
    }
  }

  lemma HitBefore(before: Caches, after: Caches, e: Event)
    requires Shrinks(before, after) && HitIn(after, e)
    ensures HitIn(before, e)
  {
    assert Forgets(before[e.node], after[e.node]);
  }

  lemma AllHitBefore(before: Caches, after: Caches, trace: seq<Event>)
    requires Shrinks(before, after) && AllHitIn(after, trace)
    ensures AllHitIn(before, trace)
  {
    forall k | 0 <= k < |trace|
      ensures HitIn(before, trace[k])
    {
      HitBefore(before, after, trace[k]);
    }
  }

  ghost predicate OnlyOldCopies(cfg: Config, s: State, t: State) {
    Shrinks(AllCopies(cfg, s), AllCopies(cfg, t))
  }

  /** From s to t one node keeps at most what it had. */
  lemma OneShrinks(cfg: Config, s: State, t: State, n: uint16)
    requires OneNode(s, t, n) && Forgets(Copies(cfg, s, n), Copies(cfg, t, n))
    ensures OnlyOldCopies(cfg, s, t)
  {
    var before, after := AllCopies(cfg, s), AllCopies(cfg, t);
    forall m | m in before
      ensures Forgets(before[m], after[m])
    {
    }
  }

  /** The steps that are possible at all while the home broadcasts. */
  lemma OnlyLocalSteps(cfg: Config, s: State, act: Action)
    requires Inv(cfg, s) && s.home.Broadcasting? && Enabled(cfg, s, act)
    ensures act.Refused? || act.ReadLock? || act.WriteLock? || act.Lookup? || act.Unlock? || act.ServeLockClient?
         || act.Invalidate? || act.EndBroadcast?
  {
  }

  lemma MoveInWindow(cfg: Config, s: State, n: uint16, pc: Pc, locks: Locks.Table)
    requires n in s.nodes
    ensures OnlyOldCopies(cfg, s, WithPc(s, n, pc).(locks := locks))
  {
    OneShrinks(cfg, s, WithPc(s, n, pc).(locks := locks), n);
  }

  lemma HitInWindow(cfg: Config, s: State, n: uint16)
    requires CanLookup(s, n) && NodeOk(cfg, s.nodes[n]) && Key(s.nodes[n].pc.a) in s.nodes[n].cache.items
    ensures OnlyOldCopies(cfg, s, AfterLookup(s, n))
    ensures var a := s.nodes[n].pc.a;
      HitIn(AllCopies(cfg, s), Atomic.ReadHit(n, a, s.nodes[n].cache.items[Key(a)].data))
  {
    HitNode(cfg, s.nodes[n], s.clock + 1);
    OneShrinks(cfg, s, AfterLookup(s, n), n);
  }

  lemma LookupInWindow(cfg: Config, s: State, n: uint16)
    requires CanLookup(s, n) && NodeOk(cfg, s.nodes[n])
    ensures OnlyOldCopies(cfg, s, AfterLookup(s, n))
    ensures Emit(cfg, s, Lookup(n)).Some? ==> HitIn(AllCopies(cfg, s), Emit(cfg, s, Lookup(n)).value)
  {
    if Key(s.nodes[n].pc.a) in s.nodes[n].cache.items {
      HitInWindow(cfg, s, n);
    } else {
      MoveInWindow(cfg, s, n, RMissed(s.nodes[n].pc.a), s.locks);
    }
  }

  lemma InvalidateInWindow(cfg: Config, s: State)
    requires CollisionFree(cfg.addrs) && CanInvalidate(s) && s.home.a in cfg.addrs
    requires NodeOk(cfg, s.nodes[s.home.rest[0]])
    ensures OnlyOldCopies(cfg, s, AfterInvalidate(s))
  {
    var m := s.home.rest[0];
    DropNode(cfg, s.nodes[m], s.home.a);
    OneShrinks(cfg, s, AfterInvalidate(s), m);
  }

  lemma LocalStepInWindow(cfg: Config, s: State, act: Action)
    requires Enabled(cfg, s, act)
    requires act.Refused? || act.ReadLock? || act.WriteLock? || act.Unlock? || act.ServeLockClient?
    ensures Next(cfg, s, act).home == s.home && OnlyOldCopies(cfg, s, Next(cfg, s, act)) && Emit(cfg, s, act).None?
  {
    match act
    case Refused(_, _, _) =>
    case ReadLock(n, a) => MoveInWindow(cfg, s, n, RLocked(a), Relocked(s, SHAREDLOCK));
    case WriteLock(n, a, v) => MoveInWindow(cfg, s, n, WLocked(a, v), Relocked(s, EXCLUSIVE));
    case Unlock(n) => MoveInWindow(cfg, s, n, Idle, Relocked(s, UNLOCKED));
    case ServeLockClient(n) => MoveInWindow(cfg, s, n, WInvalidated(s.nodes[n].pc.a, s.nodes[n].pc.v), s.locks);
  }

  /** One step inside the window. */
  lemma WindowStep(cfg: Config, s: State, act: Action)
    requires ValidConfig(cfg) && Inv(cfg, s) && s.home.Broadcasting?
    requires Enabled(cfg, s, act) && !act.EndBroadcast?
    ensures SameBroadcast(s, Next(cfg, s, act))
    ensures OnlyOldCopies(cfg, s, Next(cfg, s, act))
    ensures Emit(cfg, s, act).Some? ==> HitIn(AllCopies(cfg, s), Emit(cfg, s, act).value)
  {
    OnlyLocalSteps(cfg, s, act);
    if act.Lookup? {
      LookupInWindow(cfg, s, act.n);
    } else if act.Invalidate? {
      InvalidateInWindow(cfg, s);
    } else {
      LocalStepInWindow(cfg, s, act);
    }
  }

  /** What a step adds to the part of the window that has passed. */
  lemma WindowExtends(start: Caches, mid: Caches, end: Caches, e: Option<Event>, trace: seq<Event>)
    requires Shrinks(start, mid) && AllHitIn(start, trace)
    requires Shrinks(mid, end) && (e.Some? ==> HitIn(mid, e.value))
    ensures Shrinks(start, end) && AllHitIn(start, Extended(trace, e))
  {
    ShrinksTwice(start, mid, end);
    if e.Some? {
      HitBefore(start, mid, e.value);
    }
  }

  /** The steps of a window: none ends the broadcast. */
  predicate NoEnd(acts: seq<Action>) {
    forall i :: 0 <= i < |acts| ==> !acts[i].EndBroadcast?
  }

  /** While the broadcast goes on, no read returns anything but a copy its node had
      when the broadcast began, and nobody gains a copy. */
  lemma {:induction false} WindowIsClosed(cfg: Config, s: State, acts: seq<Action>)
    requires ValidConfig(cfg) && Inv(cfg, s) && s.home.Broadcasting? && CanRun(cfg, s, acts) && NoEnd(acts)
    ensures SameBroadcast(s, After(cfg, s, acts)) && OnlyOldCopies(cfg, s, After(cfg, s, acts))
    ensures AllHitIn(AllCopies(cfg, s), Trace(cfg, s, acts))
    decreases |acts|
  {
    if acts != [] {
      var before, last := acts[..|acts| - 1], acts[|acts| - 1];
      WindowIsClosed(cfg, s, before);
      InvLater(cfg, s, before);
      var mid := After(cfg, s, before);
      WindowStep(cfg, mid, last);
      WindowExtends(AllCopies(cfg, s), AllCopies(cfg, mid), AllCopies(cfg, Next(cfg, mid, last)),
                    Emit(cfg, mid, last), Trace(cfg, s, before));
    }
  }

  /** All the while, the writer stays in prepareForInvalidate: it is neither
      connected nor about to unlock. */
  lemma WriterIsHeldBack(cfg: Config, s: State, acts: seq<Action>)
    requires ValidConfig(cfg) && Inv(cfg, s) && s.home.Broadcasting? && CanRun(cfg, s, acts) && NoEnd(acts)
    ensures var t, w := After(cfg, s, acts), s.home.writer;
      w in t.nodes &&
      (t.nodes[w].pc == WWaiting(s.home.a, s.home.v) || t.nodes[w].pc == WInvalidated(s.home.a, s.home.v))
  {
    WindowIsClosed(cfg, s, acts);
    InvLater(cfg, s, acts);
  }

  /** The overwrite that opens the window gives nobody a copy: until the broadcast
      ends, every read returns what its node had cached before the home overwrote
      the cell. */
  lemma NewValueStaysHidden(cfg: Config, s: State, n: uint16, acts: seq<Action>)
    requires ValidConfig(cfg) && Inv(cfg, s)
    requires CanServeWrite(s, n) && MustInvalidate(s.cells[s.nodes[n].pc.a])
    requires CanRun(cfg, AfterServeWrite(s, n), acts) && NoEnd(acts)
    ensures AllHitIn(AllCopies(cfg, s), Trace(cfg, AfterServeWrite(s, n), acts))
  {
    var t := AfterServeWrite(s, n);
    InvServeWrite(cfg, s, n);
    WindowIsClosed(cfg, t, acts);
    OneShrinks(cfg, s, t, n);
    AllHitBefore(AllCopies(cfg, s), AllCopies(cfg, t), Trace(cfg, t, acts));
  }

  /** The window closes only when no node of the snapshot has a copy of the address. */
  lemma WindowClosesEmpty(cfg: Config, s: State, m: uint16)
    requires Inv(cfg, s) && Enabled(cfg, s, EndBroadcast)
    requires m in s.home.was.sharerNodes
    ensures m in s.nodes && s.home.a !in Copies(cfg, s, m)
  {
  }

  // --- What a call returns is what its event says ---

  /** The event is a read or a write of this remote node. */
  predicate IsEventOf(e: Event, n: uint16) {
    (e.ReadHit? || e.ReadMiss? || e.RemoteWrite?) && e.node == n
  }

  /** The last event of a node. */
  function LastEventOf(trace: seq<Event>, n: uint16): Option<Event> {
    if trace == [] then None
    else
      var last := trace[|trace| - 1];
      if IsEventOf(last, n) then Some(last)
      else LastEventOf(trace[..|trace| - 1], n)
  }

  predicate IsReadOf(e: Option<Event>, n: uint16, a: GlobalAddress, v: uint64) {
    e == Some(Atomic.ReadHit(n, a, v)) || e == Some(Atomic.ReadMiss(n, a, v))
  }

  /** A read that has its value has had its event, with that value; a write that is
      past its wait has had its own. */
  predicate ResultMatches(home: HomeMode, pc: Pc, e: Option<Event>, n: uint16) {
    match pc
    case RReplied(a, v) => IsReadOf(e, n, a, v)
    case RFilled(a, v) => IsReadOf(e, n, a, v)
    case RDone(a, v) => IsReadOf(e, n, a, v)
    case WReplied(a, v) => e == Some(Atomic.RemoteWrite(n, a, v))
    case WReconnected(a, v) => e == Some(Atomic.RemoteWrite(n, a, v))
    case WDone(a, v) => e == Some(Atomic.RemoteWrite(n, a, v))
    case WWaiting(a, v) => e == Some(Atomic.RemoteWrite(n, a, v)) || (home.Broadcasting? && home.writer == n)
    case WInvalidated(a, v) => e == Some(Atomic.RemoteWrite(n, a, v)) || (home.Broadcasting? && home.writer == n)
    case _ => true
  }

  ghost predicate ResultsMatch(s: State, trace: seq<Event>) {
    forall n :: n in s.nodes ==> ResultMatches(s.home, s.nodes[n].pc, LastEventOf(trace, n), n)
  }

  /** The last event of a node after one more, if it is the node's. */
  function EventOf(e: Option<Event>, before: Option<Event>, n: uint16): Option<Event> {
    if e.Some? && IsEventOf(e.value, n) then e else before
  }

  lemma LastEventExtends(trace: seq<Event>, e: Option<Event>, n: uint16)
    ensures LastEventOf(Extended(trace, e), n) == EventOf(e, LastEventOf(trace, n), n)
  {
    if e.Some? {
      var longer := trace + [e.value];
      assert longer[..|longer| - 1] == trace;
    }
  }

  /** A step moves one thread to its next point, or the home ends a broadcast. */
  lemma ResultsOfNodeStep(cfg: Config, s: State, act: Action, e: Option<Event>, n: uint16)
    requires Inv(cfg, s) && Enabled(cfg, s, act) && n in s.nodes && ResultMatches(s.home, s.nodes[n].pc, e, n)
    requires act.Refused? || act.ReadLock? || act.WriteLock? || act.Unlock? || act.ServeLockClient? || act.Lookup?
    ensures ResultMatches(s.home, Next(cfg, s, act).nodes[n].pc, EventOf(Emit(cfg, s, act), e, n), n)
    ensures Next(cfg, s, act).home == s.home
  {
  }

  lemma ResultsOfSessionStep(cfg: Config, s: State, act: Action, e: Option<Event>, n: uint16)
    requires Inv(cfg, s) && Enabled(cfg, s, act) && n in s.nodes && ResultMatches(s.home, s.nodes[n].pc, e, n)
    requires act.Connect? || act.ServeRead? || act.Fill? || act.AlterCache? || act.ServeWrite? || act.Reset?
    ensures var t := Next(cfg, s, act);
      ResultMatches(t.home, t.nodes[n].pc, EventOf(Emit(cfg, s, act), e, n), n)
  {
    if act.ServeWrite? {
      ResultsOfServeWrite(cfg, s, act.n, e, n);
    } else if act.ServeRead? {
      ResultsOfServeRead(cfg, s, act.n, e, n);
    } else {
      ResultsOfClientStep(cfg, s, act, e, n);
    }
  }

  lemma ResultsOfServeWrite(cfg: Config, s: State, m: uint16, e: Option<Event>, n: uint16)
    requires CanServeWrite(s, m) && n in s.nodes && ResultMatches(s.home, s.nodes[n].pc, e, n)
    ensures var t := AfterServeWrite(s, m);
      ResultMatches(t.home, t.nodes[n].pc, EventOf(Emit(cfg, s, ServeWrite(m)), e, n), n)
  {
  }

  lemma ResultsOfServeRead(cfg: Config, s: State, m: uint16, e: Option<Event>, n: uint16)
    requires CanServeRead(s, m) && n in s.nodes && ResultMatches(s.home, s.nodes[n].pc, e, n)
    ensures var t := AfterServeRead(s, m);
      ResultMatches(t.home, t.nodes[n].pc, EventOf(Emit(cfg, s, ServeRead(m)), e, n), n)
  {
  }

  lemma ResultsOfClientStep(cfg: Config, s: State, act: Action, e: Option<Event>, n: uint16)
    requires Inv(cfg, s) && Enabled(cfg, s, act) && n in s.nodes && ResultMatches(s.home, s.nodes[n].pc, e, n)
    requires act.Connect? || act.Fill? || act.AlterCache? || act.Reset?
    ensures var t := Next(cfg, s, act);
      && Emit(cfg, s, act).None?
      && ResultMatches(t.home, t.nodes[n].pc, EventOf(Emit(cfg, s, act), e, n), n)
  {
  }

  lemma ResultsOfBroadcastStep(cfg: Config, s: State, act: Action, e: Option<Event>, n: uint16)
    requires Inv(cfg, s) && Enabled(cfg, s, act) && n in s.nodes && ResultMatches(s.home, s.nodes[n].pc, e, n)
    requires act.Invalidate? || act.EndBroadcast?
    ensures var t := Next(cfg, s, act);
      n in t.nodes && ResultMatches(t.home, t.nodes[n].pc, EventOf(Emit(cfg, s, act), e, n), n)
  {
  }

  lemma ResultsOfHomeStep(cfg: Config, s: State, act: Action, e: Option<Event>, n: uint16)
    requires Enabled(cfg, s, act) && n in s.nodes && ResultMatches(s.home, s.nodes[n].pc, e, n)
    requires act.HomeReadLock? || act.HomeReadUnlock? || act.HomeReadReturn? || act.HomeWriteLock?
          || act.HomeCheckSharers? || act.HomeInvalidate? || act.HomeStore? || act.HomeUnlock?
    ensures var t := Next(cfg, s, act);
      n in t.nodes && ResultMatches(t.home, t.nodes[n].pc, EventOf(Emit(cfg, s, act), e, n), n)
  {
    if act.HomeInvalidate? {
      ResultsOfHomeInvalidate(cfg, s, e, n);
    } else {
      HomeStepIsQuiet(cfg, s, act);
    }
  }

  lemma ResultsOfHomeInvalidate(cfg: Config, s: State, e: Option<Event>, n: uint16)
    requires CanHomeInvalidate(s) && n in s.nodes && ResultMatches(s.home, s.nodes[n].pc, e, n)
    ensures var t := AfterHomeInvalidate(s);
      n in t.nodes && ResultMatches(t.home, t.nodes[n].pc, e, n)
  {
  }

  lemma HomeStepIsQuiet(cfg: Config, s: State, act: Action)
    requires Enabled(cfg, s, act)
    requires act.HomeReadLock? || act.HomeReadUnlock? || act.HomeReadReturn? || act.HomeWriteLock?
          || act.HomeCheckSharers? || act.HomeStore? || act.HomeUnlock?
    ensures var t := Next(cfg, s, act);
      && t.nodes == s.nodes && !s.home.Broadcasting? && !t.home.Broadcasting?
      && (Emit(cfg, s, act).Some? ==> Emit(cfg, s, act).value.HomeRead? || Emit(cfg, s, act).value.HomeWrite?)
  {
  }

  lemma ResultsStep(cfg: Config, s: State, act: Action, trace: seq<Event>, n: uint16)
    requires Inv(cfg, s) && Enabled(cfg, s, act) && ResultsMatch(s, trace) && n in s.nodes
    ensures var t := Next(cfg, s, act);
      n in t.nodes && ResultMatches(t.home, t.nodes[n].pc, LastEventOf(Extended(trace, Emit(cfg, s, act)), n), n)
  {
    var e := LastEventOf(trace, n);
    LastEventExtends(trace, Emit(cfg, s, act), n);
    if act.Refused? || act.ReadLock? || act.WriteLock? || act.Unlock? || act.ServeLockClient? || act.Lookup? {
      ResultsOfNodeStep(cfg, s, act, e, n);
    } else if act.Connect? || act.ServeRead? || act.Fill? || act.AlterCache? || act.ServeWrite? || act.Reset? {
      ResultsOfSessionStep(cfg, s, act, e, n);
    } else if act.Invalidate? || act.EndBroadcast? {
      ResultsOfBroadcastStep(cfg, s, act, e, n);
    } else {
      ResultsOfHomeStep(cfg, s, act, e, n);
    }
  }

  lemma {:induction false} RunResultsMatch(cfg: Config, s: State, acts: seq<Action>)
    requires ValidConfig(cfg) && Initial(cfg, s) && CanRun(cfg, s, acts)
    ensures ResultsMatch(After(cfg, s, acts), Trace(cfg, s, acts))
    decreases |acts|
  {
    if acts != [] {
      var before, last := acts[..|acts| - 1], acts[|acts| - 1];
      var mid := After(cfg, s, before);
      RunResultsMatch(cfg, s, before);
      InvRun(cfg, s, before);
      InvRun(cfg, s, acts);
      forall n | n in After(cfg, s, acts).nodes
        ensures ResultMatches(After(cfg, s, acts).home, After(cfg, s, acts).nodes[n].pc,
                              LastEventOf(Trace(cfg, s, acts), n), n)
      {
        ResultsStep(cfg, mid, last, Trace(cfg, s, before), n);
      }
    }
  }
}
