/** The lock table of the lock node (src/api.cpp, setLock): one request, and the
    law that whole sequences of requests obey. */
module Locks {
  import opened Defs

  type Table = map<uint16, LockState>

  datatype Request = Request(id: uint16, state: LockState)

  datatype Reply = Reply(table: Table, granted: bool)

  /** One request against the table, branch by branch. */
  function SetLock(table: Table, r: Request): Reply {
    if r.id in table then
      if r.state == UNLOCKED then
        Reply(table[r.id := r.state], true)
      else if r.state == EXCLUSIVE && table[r.id] == UNLOCKED then
        Reply(table[r.id := r.state], true)
      else if r.state == SHAREDLOCK && table[r.id] != EXCLUSIVE then
        Reply(table[r.id := r.state], true)
      else
        Reply(table, false)
    else
      Reply(table[r.id := r.state], true)
  }

  /** An id that was never mentioned counts as unlocked. */
  function StateOf(table: Table, id: uint16): LockState {
    if id in table then table[id] else UNLOCKED
  }

  /** Absent ids behave exactly as unlocked ones: tables that read the same answer
      every request the same and go on reading the same. */
  lemma AbsentIsUnlocked(t: Table, u: Table, r: Request)
    requires forall id :: StateOf(t, id) == StateOf(u, id)
    ensures SetLock(t, r).granted == SetLock(u, r).granted
    ensures forall id :: StateOf(SetLock(t, r).table, id) == StateOf(SetLock(u, r).table, id)
  {
    assert StateOf(t, r.id) == StateOf(u, r.id);
    forall id
      ensures StateOf(SetLock(t, r).table, id) == StateOf(SetLock(u, r).table, id)
    {
      assert StateOf(t, id) == StateOf(u, id);
    }
  }

  // --- Sequences of requests, from an empty table ---

  function TableAfter(rs: seq<Request>): Table {
    if rs == [] then map[] else SetLock(TableAfter(rs[..|rs| - 1]), rs[|rs| - 1]).table
  }

  predicate Granted(rs: seq<Request>, i: nat)
    requires i < |rs|
  {
    SetLock(TableAfter(rs[..i]), rs[i]).granted
  }

  /** Request i is granted, asks for this state, and nothing has unlocked its id
      between it and the end of the sequence. */
  predicate StillHeld(rs: seq<Request>, i: nat, state: LockState)
    requires i < |rs|
  {
    && rs[i].state == state
    && Granted(rs, i)
    && forall j :: i < j < |rs| && rs[j].id == rs[i].id ==> rs[j].state != UNLOCKED
  }

  ghost predicate Holds(rs: seq<Request>, id: uint16, state: LockState) {
    exists i :: 0 <= i < |rs| && rs[i].id == id && StillHeld(rs, i, state)
  }

  /** What the table says about an id is what the requests granted since its last
      unlock say. */
  lemma {:induction false} TableTellsHistory(rs: seq<Request>, id: uint16)
    ensures StateOf(TableAfter(rs), id) == EXCLUSIVE <==> Holds(rs, id, EXCLUSIVE)
    ensures StateOf(TableAfter(rs), id) == SHAREDLOCK <==> Holds(rs, id, SHAREDLOCK)
  {
    if rs == [] {
      assert TableAfter(rs) == map[];
    } else {
      var before, last := rs[..|rs| - 1], rs[|rs| - 1];
      TableTellsHistory(before, id);
      HoldsStep(rs, id, EXCLUSIVE);
      HoldsStep(rs, id, SHAREDLOCK);
    }
  }

  lemma StillHeldStep(rs: seq<Request>, i: nat, state: LockState)
    requires i + 1 < |rs|
    ensures var before, last := rs[..|rs| - 1], rs[|rs| - 1];
      StillHeld(rs, i, state) <==>
        StillHeld(before, i, state) && !(last.id == rs[i].id && last.state == UNLOCKED)
  {
    var before, last := rs[..|rs| - 1], rs[|rs| - 1];
    assert before[..i] == rs[..i];
    assert forall j :: i < j < |rs| ==> (j < |before| && rs[j] == before[j]) || j == |rs| - 1;
    if StillHeld(before, i, state) && !(last.id == rs[i].id && last.state == UNLOCKED) {
      assert StillHeld(rs, i, state);
    }
    if StillHeld(rs, i, state) {
      assert StillHeld(before, i, state);
    }
  }

  /** How one more request changes what is held. */
  lemma HoldsStep(rs: seq<Request>, id: uint16, state: LockState)
    requires rs != []
    ensures var before, last := rs[..|rs| - 1], rs[|rs| - 1];
      Holds(rs, id, state) <==>
        || (last.id == id && StillHeld(rs, |rs| - 1, state))
        || (Holds(before, id, state) && !(last.id == id && last.state == UNLOCKED))
  {
    var before, last := rs[..|rs| - 1], rs[|rs| - 1];
    forall i | 0 <= i < |before|
      ensures StillHeld(rs, i, state) <==>
        StillHeld(before, i, state) && !(last.id == rs[i].id && last.state == UNLOCKED)
    {
      StillHeldStep(rs, i, state);
    }
    if Holds(before, id, state) && !(last.id == id && last.state == UNLOCKED) {
      var i :| 0 <= i < |before| && before[i].id == id && StillHeld(before, i, state);
      assert rs[i].id == id && StillHeld(rs, i, state);
    }
  }

  /** The trace law. A request is refused exactly when an exclusive grant on its id
      has not been unlocked, or when it asks for exclusive access and a shared grant
      has not been unlocked. */
  lemma TraceLaw(rs: seq<Request>, r: Request)
    ensures !SetLock(TableAfter(rs), r).granted <==>
      && r.state != UNLOCKED
      && (Holds(rs, r.id, EXCLUSIVE) || (r.state == EXCLUSIVE && Holds(rs, r.id, SHAREDLOCK)))
  {
    TableTellsHistory(rs, r.id);
  }

  /** After an exclusive grant at i, every shared or exclusive request on the id is
      refused until the next unlock of it. */
  lemma ExclusiveShutsOut(rs: seq<Request>, i: nat, k: nat)
    requires i < k < |rs| && Granted(rs, i) && rs[i].state == EXCLUSIVE
    requires forall j :: i < j < k && rs[j].id == rs[i].id ==> rs[j].state != UNLOCKED
    requires rs[k].id == rs[i].id && rs[k].state != UNLOCKED
    ensures !Granted(rs, k)
  {
    assert rs[..k][..i] == rs[..i];
    assert StillHeld(rs[..k], i, EXCLUSIVE);
    TraceLaw(rs[..k], rs[k]);
  }
}
