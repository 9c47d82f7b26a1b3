/** A writer that must wait serves one connection on its own port and then connects
    again (src/Send.cpp, prepareForInvalidate): whether it ever finishes depends on how
    often it is in the snapshot itself. */
module WaitingWriter {
  import opened Defs
  import opened Locks
  import opened Protocol
  import opened Refinement
  import opened Runs
  import StaleCopies
  import StuckCaches

  /** The node has the lock exclusively and no other remote node is in a call. */
  ghost predicate Alone(t: State, n: uint16) {
    && n in t.nodes && StateOf(t.locks, PORT) == EXCLUSIVE
    && forall m :: m in t.nodes && m != n ==> t.nodes[m].pc.Idle?
  }

  function Occurs(list: seq<uint16>, n: uint16): nat {
    if list == [] then 0 else (if list[0] == n then 1 else 0) + Occurs(list[1..], n)
  }

  lemma {:induction false} OccursIn(list: seq<uint16>, n: uint16)
    ensures Occurs(list, n) > 0 <==> n in list
  {
    if list != [] {
      OccursIn(list[1..], n);
      assert list == [list[0]] + list[1..];
    }
  }

  // --- A writer that nobody will tell ---

  /** The writer waits for a connection, and nobody is left that will make one. */
  ghost predicate Abandoned(t: State, n: uint16) {
    && Alone(t, n) && t.nodes[n].pc.WWaiting? && n != LOCK_NODE
    && (t.home == Listening || (t.home.Broadcasting? && n !in t.home.rest))
  }

  lemma AbandonedStep(cfg: Config, t: State, act: Action, n: uint16)
    requires Abandoned(t, n) && Enabled(cfg, t, act)
    ensures act.Refused? || act.Invalidate? || act.EndBroadcast?
    ensures Abandoned(Next(cfg, t, act), n)
  {
  }

  /** It waits for ever, and no request of anybody is granted any more. */
  lemma {:induction false} AbandonedForEver(cfg: Config, t: State, acts: seq<Action>, n: uint16)
    requires Abandoned(t, n) && CanRun(cfg, t, acts)
    ensures var u := After(cfg, t, acts);
      Abandoned(u, n) && u.nodes[n].pc.WWaiting? && !Grants(u, SHAREDLOCK) && !Grants(u, EXCLUSIVE)
    decreases |acts|
  {
    if acts != [] {
      AbandonedForEver(cfg, t, acts[..|acts| - 1], n);
      AbandonedStep(cfg, After(cfg, t, acts[..|acts| - 1]), acts[|acts| - 1], n);
    }
  }

  // --- A writer that must be told twice ---

  /** The home still has to tell the writer after it has stopped listening, while the
      writer wants to connect to the home. */
  ghost predicate Deadlocked(t: State, n: uint16) {
    && Alone(t, n) && t.home.Broadcasting?
    && ((t.nodes[n].pc.WWaiting? && Occurs(t.home.rest, n) >= 2)
        || (t.nodes[n].pc.WInvalidated? && Occurs(t.home.rest, n) >= 1))
  }

  lemma DeadlockedStep(cfg: Config, t: State, act: Action, n: uint16)
    requires Deadlocked(t, n) && Enabled(cfg, t, act)
    ensures act.Refused? || act.Invalidate? || act.ServeLockClient?
    ensures Deadlocked(Next(cfg, t, act), n)
  {
  }

  lemma {:induction false} DeadlockedForEver(cfg: Config, t: State, acts: seq<Action>, n: uint16)
    requires Deadlocked(t, n) && CanRun(cfg, t, acts)
    ensures var u := After(cfg, t, acts);
      Deadlocked(u, n) && !u.nodes[n].pc.Idle? && !Grants(u, SHAREDLOCK) && !Grants(u, EXCLUSIVE)
    decreases |acts|
  {
    if acts != [] {
      DeadlockedForEver(cfg, t, acts[..|acts| - 1], n);
      DeadlockedStep(cfg, After(cfg, t, acts[..|acts| - 1]), acts[|acts| - 1], n);
    }
  }

  // --- A writer that is told once ---

  /** The home is telling the rest of the snapshot, and the writer can be told as often
      as it still must be. */
  ghost predicate GoesWell(t: State, n: uint16) {
    && Alone(t, n) && t.home.Broadcasting? && t.home.writer == n
    && (forall m :: m in t.home.rest ==> m in t.nodes)
    && ((t.nodes[n].pc.WWaiting? && Occurs(t.home.rest, n) <= 1)
        || (t.nodes[n].pc.WInvalidated? && Occurs(t.home.rest, n) == 0))
  }

  lemma TellNext(t: State, n: uint16)
    requires GoesWell(t, n) && t.home.rest != []
    ensures CanInvalidate(t) && GoesWell(AfterInvalidate(t), n)
    ensures AfterInvalidate(t).home.rest == t.home.rest[1..]
    ensures AfterInvalidate(t).nodes[n].pc.WInvalidated? <==> t.nodes[n].pc.WInvalidated? || t.home.rest[0] == n
  {
    OccursIn(t.home.rest, n);
  }

  /** All nodes of the snapshot are told; the writer has then been told if it was in it. */
  lemma {:induction false} TellAll(cfg: Config, s: State, acts: seq<Action>, t: State, n: uint16)
    returns (more: seq<Action>, u: State)
    requires ReachedBy(cfg, s, acts, t) && GoesWell(t, n)
    ensures ReachedBy(cfg, s, more, u) && GoesWell(u, n) && u.home.rest == []
    ensures u.nodes[n].pc.WInvalidated? <==> t.nodes[n].pc.WInvalidated? || Occurs(t.home.rest, n) == 1
    decreases |t.home.rest|
  {
    if t.home.rest == [] {
      more, u := acts, t;
    } else {
      TellNext(t, n);
      Go(cfg, s, acts, t, Invalidate, AfterInvalidate(t));
      more, u := TellAll(cfg, s, acts + [Invalidate], AfterInvalidate(t), n);
    }
  }

  /** The broadcast ends, and the writer connects again, closes and unlocks. */
  lemma Finish(cfg: Config, s: State, acts: seq<Action>, t: State, n: uint16) returns (more: seq<Action>)
    requires ReachedBy(cfg, s, acts, t)
    requires n in t.nodes && t.nodes[n].pc.WInvalidated? && t.home.Broadcasting? && t.home.rest == []
    ensures CanRun(cfg, s, more) && n in After(cfg, s, more).nodes && After(cfg, s, more).nodes[n].pc.Idle?
  {
    var t1 := t.(home := Listening);
    Go(cfg, s, acts, t, EndBroadcast, t1);
    var t2 := AfterConnect(t1, n);
    Go(cfg, s, acts + [EndBroadcast], t1, Connect(n), t2);
    var t3 := AfterReset(t2, n);
    Go(cfg, s, acts + [EndBroadcast] + [Connect(n)], t2, Reset(n), t3);
    var t4 := Next(cfg, t3, Unlock(n));
    Go(cfg, s, acts + [EndBroadcast] + [Connect(n)] + [Reset(n)], t3, Unlock(n), t4);
    more := acts + [EndBroadcast] + [Connect(n)] + [Reset(n)] + [Unlock(n)];
  }

  lemma FinishesWhenTold(cfg: Config, t: State, n: uint16) returns (more: seq<Action>)
    requires GoesWell(t, n) && t.nodes[n].pc.WWaiting?
    requires Occurs(t.home.rest, n) == 1 || n == LOCK_NODE
    ensures CanRun(cfg, t, more) && n in After(cfg, t, more).nodes && After(cfg, t, more).nodes[n].pc.Idle?
  {
    assert ReachedBy(cfg, t, [], t);
    var acts, u := TellAll(cfg, t, [], t, n);
    if u.nodes[n].pc.WWaiting? {
      Go(cfg, t, acts, u, ServeLockClient(n), AfterServeLockClient(u, n));
      more := Finish(cfg, t, acts + [ServeLockClient(n)], AfterServeLockClient(u, n), n);
    } else {
      more := Finish(cfg, t, acts, u, n);
    }
  }

  // --- The exact condition ---

  ghost predicate CanFinish(cfg: Config, t: State, n: uint16) {
    exists acts :: CanRun(cfg, t, acts) && n in After(cfg, t, acts).nodes && After(cfg, t, acts).nodes[n].pc.Idle?
  }

  lemma StartOfWait(cfg: Config, s: State, n: uint16)
    requires Inv(cfg, s) && CanServeWrite(s, n) && MustInvalidate(s.cells[s.nodes[n].pc.a]) && Alone(s, n)
    ensures var t, list := AfterServeWrite(s, n), s.cells[s.nodes[n].pc.a].sharerNodes;
      && Alone(t, n) && t.nodes[n].pc.WWaiting?
      && t.home.Broadcasting? && t.home.writer == n && t.home.rest == list
      && forall m :: m in list ==> m in t.nodes
  {
    assert CellOk(cfg, s.cells[s.nodes[n].pc.a]);
  }

  /** A writer that must wait, with nobody else in a call, can ever finish exactly when
      it is in the snapshot once; on the lock node also when it is not in it, because a
      client of the lock table then takes the place of the home's connection. */
  lemma WriterFinishesExactly(cfg: Config, s: State, n: uint16)
    requires Inv(cfg, s) && CanServeWrite(s, n) && MustInvalidate(s.cells[s.nodes[n].pc.a]) && Alone(s, n)
    ensures var times := Occurs(s.cells[s.nodes[n].pc.a].sharerNodes, n);
      CanFinish(cfg, AfterServeWrite(s, n), n) <==> times == 1 || (times == 0 && n == LOCK_NODE)
  {
    var t, times := AfterServeWrite(s, n), Occurs(s.cells[s.nodes[n].pc.a].sharerNodes, n);
    StartOfWait(cfg, s, n);
    if times == 1 || (times == 0 && n == LOCK_NODE) {
      var acts := FinishesWhenTold(cfg, t, n);
      assert CanFinish(cfg, t, n);
    } else {
      forall acts | CanRun(cfg, t, acts)
        ensures n in After(cfg, t, acts).nodes && !After(cfg, t, acts).nodes[n].pc.Idle?
      {
        NeverFinishes(cfg, t, acts, n);
      }
    }
  }

  lemma NeverFinishes(cfg: Config, t: State, acts: seq<Action>, n: uint16)
    requires Alone(t, n) && t.nodes[n].pc.WWaiting? && t.home.Broadcasting? && CanRun(cfg, t, acts)
    requires Occurs(t.home.rest, n) >= 2 || (Occurs(t.home.rest, n) == 0 && n != LOCK_NODE)
    ensures n in After(cfg, t, acts).nodes && !After(cfg, t, acts).nodes[n].pc.Idle?
  {
    OccursIn(t.home.rest, n);
    if Occurs(t.home.rest, n) == 0 {
      AbandonedForEver(cfg, t, acts, n);
    } else {
      DeadlockedForEver(cfg, t, acts, n);
    }
  }

  // --- A run that gets there ---

  /** For any two remote nodes and any address: when one has read it and the other, not
      on the lock node, writes it, the writer waits for ever and nobody gets the lock
      again. */
  lemma WriterGetsAbandoned(cfg: Config, s: State, m: uint16, n: uint16, a: GlobalAddress, v: uint64)
    returns (acts: seq<Action>)
    requires ValidConfig(cfg) && Initial(cfg, s) && a in cfg.addrs
    requires m in cfg.nodes && n in cfg.nodes && m != n && n != LOCK_NODE
    ensures CanRun(cfg, s, acts)
    ensures After(cfg, s, acts).home.Broadcasting? && Abandoned(After(cfg, s, acts), n)
    ensures forall more :: CanRun(cfg, After(cfg, s, acts), more) ==>
      var u := After(cfg, After(cfg, s, acts), more);
      n in u.nodes && u.nodes[n].pc.WWaiting? && !Grants(u, SHAREDLOCK) && !Grants(u, EXCLUSIVE)
  {
    var acts1, t1 := StuckCaches.Replied(cfg, s, [], s, m, a, 0);
    var acts2, t2 := StuckCaches.Stored(cfg, s, acts1, t1, m, a, s.cells[a].data);
    var t3, acts3 := StaleCopies.Opened(cfg, s, acts2, t2, n, a, v);
    var t4, acts4 := StaleCopies.Altered(cfg, s, acts3, t3, n, a, v);
    var t5 := AfterServeWrite(t4, n);
    Go(cfg, s, acts4, t4, ServeWrite(n), t5);
    acts := acts4 + [ServeWrite(n)];
    forall more | CanRun(cfg, t5, more)
      ensures var u := After(cfg, t5, more);
        n in u.nodes && u.nodes[n].pc.WWaiting? && !Grants(u, SHAREDLOCK) && !Grants(u, EXCLUSIVE)
    {
      AbandonedForEver(cfg, t5, more, n);
    }
  }
}
