/** Clients of the lock table that unlock only what they were granted: where
    mutual exclusion holds, and exactly where it stops (src/api.cpp, read, write
    and setLock). Shared grants are not counted, so the first reader to leave
    unlocks for all. */
module LockClients {
  import opened Defs
  import opened Locks

  datatype Hold = Hold(id: uint16, state: LockState)

  /** The table, and what each client holds between its grant and its unlock. */
  datatype Clients = Clients(table: Table, holds: map<uint16, Hold>)

  datatype Act = Acquire(client: uint16, hold: Hold) | Release(client: uint16)

  const START := Clients(map[], map[])

  predicate Enabled(s: Clients, act: Act) {
    match act
    case Acquire(c, h) =>
      c !in s.holds && h.state != UNLOCKED && SetLock(s.table, Request(h.id, h.state)).granted
    case Release(c) => c in s.holds
  }

  function Next(s: Clients, act: Act): Clients
    requires Enabled(s, act)
  {
    match act
    case Acquire(c, h) => Clients(SetLock(s.table, Request(h.id, h.state)).table, s.holds[c := h])
    case Release(c) => Clients(SetLock(s.table, Request(s.holds[c].id, UNLOCKED)).table, s.holds - {c})
  }

  /** A run: consecutive states, each one step after the other. */
  ghost predicate IsRun(run: seq<Clients>) {
    && |run| > 0
    && run[0] == START
    && forall i :: 0 <= i < |run| - 1 ==> Steps(run[i], run[i + 1])
  }

  ghost predicate Steps(s: Clients, t: Clients) {
    s == t || exists act :: Enabled(s, act) && t == Next(s, act)
  }

  predicate HoldsIn(s: Clients, c: uint16, id: uint16, state: LockState) {
    c in s.holds && s.holds[c] == Hold(id, state)
  }

  /** Two different clients hold the id shared. */
  ghost predicate ReadersOverlap(s: Clients, id: uint16) {
    exists c, d :: c != d && HoldsIn(s, c, id, SHAREDLOCK) && HoldsIn(s, d, id, SHAREDLOCK)
  }

  /** A client holds the id exclusively while another one holds it in any way. */
  ghost predicate ExclusionBroken(s: Clients, id: uint16) {
    exists c, d :: c != d && HoldsIn(s, c, id, EXCLUSIVE) && d in s.holds && s.holds[d].id == id
  }

  /** Someone holds an id whenever the table says it is locked, and holds are real. */
  ghost predicate TableCovered(s: Clients) {
    && (forall id :: StateOf(s.table, id) != UNLOCKED ==>
         exists c :: HoldsIn(s, c, id, StateOf(s.table, id)))
    && forall c :: c in s.holds ==> s.holds[c].state != UNLOCKED
  }

  /** Full agreement of the table with the holders of an id: at most one. */
  ghost predicate SingleHolder(s: Clients, id: uint16) {
    forall c :: c in s.holds && s.holds[c].id == id ==>
      && s.holds[c].state == StateOf(s.table, id)
      && forall d :: d in s.holds && s.holds[d].id == id ==> c == d
  }

  lemma CoveredStep(s: Clients, act: Act)
    requires TableCovered(s) && Enabled(s, act)
    ensures TableCovered(Next(s, act))
  {
    var t := Next(s, act);
    forall id | StateOf(t.table, id) != UNLOCKED
      ensures exists c :: HoldsIn(t, c, id, StateOf(t.table, id))
    {
      match act
      case Acquire(c, h) =>
        if h.id == id {
          assert HoldsIn(t, c, id, StateOf(t.table, id));
        } else {
          var d :| HoldsIn(s, d, id, StateOf(s.table, id));
          assert HoldsIn(t, d, id, StateOf(t.table, id));
        }
      case Release(c) =>
        assert id != s.holds[c].id;
        var d :| HoldsIn(s, d, id, StateOf(s.table, id));
        assert HoldsIn(t, d, id, StateOf(t.table, id));
    }
  }

  lemma SingleHolderStep(s: Clients, act: Act, id: uint16)
    requires TableCovered(s) && SingleHolder(s, id) && Enabled(s, act)
    requires !ReadersOverlap(Next(s, act), id)
    ensures SingleHolder(Next(s, act), id)
  {
    var t := Next(s, act);
    if act.Acquire? && act.hold.id == id {
      forall d | d in s.holds && s.holds[d].id == id
        ensures false
      {
        assert s.holds[d].state == StateOf(s.table, id);
        assert HoldsIn(t, d, id, SHAREDLOCK) && HoldsIn(t, act.client, id, SHAREDLOCK);
      }
    }
  }

  lemma {:induction false} RunIsCovered(run: seq<Clients>)
    requires IsRun(run)
    ensures TableCovered(run[|run| - 1])
  {
    if |run| > 1 {
      var before := run[..|run| - 1];
      assert IsRun(before);
      RunIsCovered(before);
      var s, t := run[|run| - 2], run[|run| - 1];
      assert Steps(s, t);
      if s != t {
        var act :| Enabled(s, act) && t == Next(s, act);
        CoveredStep(s, act);
      }
    }
  }

  lemma {:induction false} NoOverlapKeepsSingleHolder(run: seq<Clients>, id: uint16)
    requires IsRun(run)
    requires forall i :: 0 <= i < |run| ==> !ReadersOverlap(run[i], id)
    ensures SingleHolder(run[|run| - 1], id)
  {
    if |run| > 1 {
      var before := run[..|run| - 1];
      assert IsRun(before);
      RunIsCovered(before);
      NoOverlapKeepsSingleHolder(before, id);
      var s, t := run[|run| - 2], run[|run| - 1];
      assert Steps(s, t);
      if s != t {
        var act :| Enabled(s, act) && t == Next(s, act);
        SingleHolderStep(s, act, id);
      }
    }
  }

  /** If an exclusive holder ever coexists with another holder of the id, two
      readers of it overlapped at some point of the run. */
  lemma BrokenOnlyAfterOverlap(run: seq<Clients>, id: uint16)
    requires IsRun(run) && ExclusionBroken(run[|run| - 1], id)
    ensures exists i :: 0 <= i < |run| && ReadersOverlap(run[i], id)
  {
    if forall i :: 0 <= i < |run| ==> !ReadersOverlap(run[i], id) {
      NoOverlapKeepsSingleHolder(run, id);
    }
  }

  /** The limit is exact: wherever two readers overlap, one reader's unlock lets any
      client that is then idle in exclusively beside the other reader, be it the
      reader that left itself. */
  lemma OverlapCanBreakExclusion(s: Clients, c: uint16, d: uint16, w: uint16, id: uint16)
    requires c != d && HoldsIn(s, c, id, SHAREDLOCK) && HoldsIn(s, d, id, SHAREDLOCK)
    ensures Enabled(s, Release(c))
    ensures w !in Next(s, Release(c)).holds ==>
      && Enabled(Next(s, Release(c)), Acquire(w, Hold(id, EXCLUSIVE)))
      && ExclusionBroken(Next(Next(s, Release(c)), Acquire(w, Hold(id, EXCLUSIVE))), id)
    ensures c !in Next(s, Release(c)).holds
  {
    if w !in Next(s, Release(c)).holds {
      var t := Next(Next(s, Release(c)), Acquire(w, Hold(id, EXCLUSIVE)));
      assert HoldsIn(t, w, id, EXCLUSIVE) && d in t.holds && t.holds[d].id == id;
    }
  }

  /** So exclusion does fail: for any two clients and any id there is a run from the
      start in which one of them ends up exclusive beside the other. */
  lemma ExclusionCanBreak(c: uint16, d: uint16, id: uint16) returns (run: seq<Clients>)
    requires c != d
    ensures IsRun(run) && ExclusionBroken(run[|run| - 1], id)
  {
    var shared := Hold(id, SHAREDLOCK);
    var s1 := Next(START, Acquire(c, shared));
    var s2 := Next(s1, Acquire(d, shared));
    OverlapCanBreakExclusion(s2, c, d, c, id);
    var s3 := Next(s2, Release(c));
    var s4 := Next(s3, Acquire(c, Hold(id, EXCLUSIVE)));
    assert Enabled(START, Acquire(c, shared)) && Enabled(s1, Acquire(d, shared));
    run := [START, s1, s2, s3, s4];
    assert Steps(START, s1) && Steps(s1, s2) && Steps(s2, s3) && Steps(s3, s4);
  }

  /** When no client is inside a read or a write, every lock is unlocked. */
  lemma QuietMeansUnlocked(run: seq<Clients>, id: uint16)
    requires IsRun(run) && run[|run| - 1].holds == map[]
    ensures StateOf(run[|run| - 1].table, id) == UNLOCKED
  {
    RunIsCovered(run);
  }
}
