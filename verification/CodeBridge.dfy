/** The protocol's steps are the node's code: each step changes cells, caches and
    locks exactly as the methods of the node object do. */
module CodeBridge {
  import opened Defs
  import opened AddressKey
  import opened CacheModel
  import opened Locks
  import opened Directory
  import opened NodeModel
  import opened Protocol
  import Atomic

  /** Serving a write is handleWrite: the same cells, and the connection closes
      exactly when the broadcast of the same snapshot begins. */
  lemma ServeWriteIsHandleWrite(s: State, n: uint16, home: NodeValue, size: uint64)
    requires CanServeWrite(s, n) && home.id == PORT && home.cells == s.cells
    ensures var pc, t := s.nodes[n].pc, AfterServeWrite(s, n);
      var sd := Data(size, pc.v, pc.a).Sendable(n);
      var answer := Sent(n, ADDRESS(pc.a.Sendable(n)));
      Hosts(home, InWrite(sd)) &&
      var done := Served(home, InWrite(sd));
      && t.cells == done.node.cells
      && (done.result <==> t.home == s.home)
      && done.node.sent == home.sent +
           if t.home.Broadcasting? then
             [Sent(n, INVALIDATE(pc.a.Sendable(n))), answer] + Invalidations(t.home.rest, pc.a, PORT)
           else [answer]
  {
    var pc := s.nodes[n].pc;
    var sd := Data(size, pc.v, pc.a).Sendable(n);
    assert sd.Received() == Data(size, pc.v, pc.a);
  }

  /** The lookup of a remote read, when it hits, is performRead. */
  lemma LookupIsPerformRead(s: State, n: uint16, node: NodeValue, net: Answers)
    requires CanLookup(s, n) && node.cache == s.nodes[n].cache
    ensures var a := s.nodes[n].pc.a;
      var fetched := Fetched(node, a, n, net, s.clock + 1);
      Key(a) in node.cache.items ==>
        && AfterLookup(s, n).nodes[n] == NodeState(RDone(a, fetched.result.0), fetched.node.cache, s.nodes[n].lost)
        && fetched.node.sent == node.sent
  {
  }

  /** A lock step is the lock node serving the request, and the answer it sends. */
  lemma LockStepIsServed(s: State, mode: LockState, lockNode: NodeValue, client: uint16, passedOn: bool)
    requires lockNode.id == LOCK_NODE && lockNode.locks == s.locks
    ensures var done := Served(lockNode, InLock(client, Request(PORT, mode), passedOn));
      && done.result
      && done.node.locks == Relocked(s, mode)
      && done.node.sent == lockNode.sent + [Sent(client, GRANT(Grants(s, mode)))]
  {
  }

  // --- Whole connections ---

  /** All the steps of a reader's connection are the home serving its two requests and
      the reader's performRead: same cells, same copy, same value, and the home listens
      again. They come to an end exactly when performRead does. */
  lemma ReadSessionIsCode(s: State, n: uint16, home: NodeValue, node: NodeValue, net: Answers)
    requires CanConnect(s, n) && s.nodes[n].pc.RMissed? && s.nodes[n].pc.a in s.cells
    requires home.id == PORT && home.cells == s.cells && Readable(s.cells[s.nodes[n].pc.a])
    requires node.cache == s.nodes[n].cache && Key(s.nodes[n].pc.a) !in node.cache.items
    requires net.data == s.cells[s.nodes[n].pc.a].data
    ensures CanServeRead(AfterConnect(s, n), n)
    ensures var a := s.nodes[n].pc.a;
      var rqs := [InRead(a.Sendable(n)), InReset(n)];
      var fetched := Fetched(node, a, n, net, s.clock + 1);
      var replied := AfterServeRead(AfterConnect(s, n), n);
      && CanServe(home, rqs) && !ServedAll(home, rqs).result
      && (CanFill(replied, n) <==> fetched.result.1)
      && (CanFill(replied, n) ==>
           var end := AfterReset(AfterFill(replied, n), n);
           && end.home == Listening
           && end.cells == ServedAll(home, rqs).node.cells
           && end.nodes[n] == NodeState(RDone(a, fetched.result.0), fetched.node.cache, s.nodes[n].lost))
  {
    ReadSession(home, s.nodes[n].pc.a.Sendable(n));
  }

  /** All the steps of a writer's connection are the first part of the writer's
      performWrite and the home serving the request that it sends, and then the close.
      With readers the home closes the connection itself and turns to the broadcast;
      else the writer closes it. */
  lemma WriteSessionIsCode(s: State, n: uint16, home: NodeValue, node: NodeValue, size: uint64)
    requires CanConnect(s, n) && s.nodes[n].pc.WLocked? && s.nodes[n].pc.a in s.cells
    requires home.id == PORT && home.cells == s.cells && node.cache == s.nodes[n].cache
    ensures var pc, t := s.nodes[n].pc, AfterConnect(s, n);
      var asked := Requested(node, Data(size, pc.v, pc.a), n, s.clock + 1);
      && (CanAlter(t, n) <==> asked.result)
      && (CanAlter(t, n) ==>
           && |asked.node.sent| == |node.sent| + 1 && asked.node.sent[|node.sent|].to == PORT
           && var rqs := [Arriving(n, asked.node.sent[|node.sent|].message), Arriving(n, RESET)];
           var end := AfterServeWrite(AfterAlter(t, n), n);
           && CanServe(home, rqs) && !ServedAll(home, rqs).result
           && end.cells == ServedAll(home, rqs).node.cells
           && end.nodes[n].cache == asked.node.cache
           && (Served(home, rqs[0]).result ==> CanReset(end, n) && AfterReset(end, n).home == Listening)
           && (!Served(home, rqs[0]).result ==>
                && end.home == Broadcasting(n, pc.a, pc.v, s.cells[pc.a], s.cells[pc.a].sharerNodes)
                && end.nodes[n].pc == WWaiting(pc.a, pc.v)))
  {
    var pc := s.nodes[n].pc;
    var sd := Data(size, pc.v, pc.a).Sendable(n);
    assert sd.Received() == Data(size, pc.v, pc.a);
    if HandledWrite(home, sd).result {
      ServedTwo(home, InWrite(sd), InReset(n));
    } else {
      assert ServedAll(home, [InWrite(sd), InReset(n)]) == HandledWrite(home, sd);
    }
  }

  /** A writer that is told while it waits comes out of prepareForInvalidate with the
      cache that serving the invalidation leaves. */
  lemma WaitIsServed(s: State, n: uint16, node: NodeValue, net: Answers)
    requires CanInvalidate(s) && s.home.rest[0] == n && s.nodes[n].pc.WWaiting? && node.cache == s.nodes[n].cache
    requires net.wait && net.incoming == [InInvalidate(s.home.a.Sendable(PORT)), InReset(PORT)]
    ensures CanServe(node, net.incoming)
    ensures var t := AfterInvalidate(s);
      t.nodes[n].cache == Finished(node, net).cache && t.nodes[n].pc.WInvalidated?
  {
    ServedInvalidation(node, s.home.a.Sendable(PORT), PORT);
  }

  /** All the steps of the writer's second connection are the home serving the one
      request that it makes there, which closes the connection and changes nothing. */
  lemma SecondConnectionIsCode(s: State, n: uint16, home: NodeValue)
    requires CanConnect(s, n) && s.nodes[n].pc.WInvalidated?
    requires home.id == PORT && home.cells == s.cells
    ensures var pc, done := s.nodes[n].pc, ServedAll(home, [InReset(n)]);
      && CanReset(AfterConnect(s, n), n)
      && var end := AfterReset(AfterConnect(s, n), n);
         && !done.result && end.home == Listening && end.cells == done.node.cells
         && done.node.sent == home.sent + [Sent(n, RESET)]
         && end.nodes[n] == s.nodes[n].(pc := WDone(pc.a, pc.v))
  {
  }

  // --- Whole broadcasts, whatever the other threads do meanwhile ---

  /** The home is telling nodes to drop their copies. */
  predicate Telling(home: HomeMode) {
    home.Broadcasting? || home.HBroadcast?
  }

  predicate IsTelling(act: Action) {
    act.Invalidate? || act.HomeInvalidate?
  }

  /** No step ends the telling. */
  predicate StillTelling(acts: seq<Action>) {
    forall i :: 0 <= i < |acts| ==> !acts[i].EndBroadcast? && !acts[i].HomeStore?
  }

  function Tellings(acts: seq<Action>): nat {
    if acts == [] then 0
    else Tellings(acts[..|acts| - 1]) + if IsTelling(acts[|acts| - 1]) then 1 else 0
  }

  /** The cache without the stamps that lookups leave. */
  function Unstamped(cache: CacheState): CacheState {
    cache.(items := map k | k in cache.items :: cache.items[k].(lastused := 0))
  }

  /** What is left of a cache when its node has served an invalidation and a reset. */
  function ServedDrop(cache: CacheState, a: GlobalAddress): CacheState {
    var node := NodeValue(0, map[], map[], cache, []);
    ServedInvalidation(node, a.Sendable(PORT), PORT);
    ServedAll(node, [InInvalidate(a.Sendable(PORT)), InReset(PORT)]).node.cache
  }

  lemma ServedDropIsRemove(cache: CacheState, a: GlobalAddress)
    ensures ServedDrop(cache, a) == Remove(cache, a)
  {
    ServedInvalidation(NodeValue(0, map[], map[], cache, []), a.Sendable(PORT), PORT);
  }

  function CacheAfter(cache: CacheState, a: GlobalAddress, told: bool): CacheState {
    if told then ServedDrop(cache, a) else cache
  }

  /** One cache is the other after the node was told, if it was; it is so to the last
      stamp unless the node has looked something up meanwhile. */
  ghost predicate CacheFollows(after: CacheState, before: CacheState, a: GlobalAddress, told: bool, looked: bool) {
    && Unstamped(after) == Unstamped(CacheAfter(before, a, told))
    && (!looked ==> after == CacheAfter(before, a, told))
  }

  lemma FollowsTold(after: CacheState, before: CacheState, a: GlobalAddress, told: bool, looked: bool)
    requires CacheFollows(after, before, a, told, looked)
    ensures CacheFollows(Remove(after, a), before, a, true, looked)
  {
    ServedDropIsRemove(before, a);
    var gone := CacheAfter(before, a, told);
    assert Unstamped(Remove(after, a)) == Remove(Unstamped(after), a);
    assert Unstamped(Remove(gone, a)) == Remove(Unstamped(gone), a);
    assert Remove(gone, a) == Remove(before, a) by {
      assert before.items - {Key(a)} - {Key(a)} == before.items - {Key(a)};
    }
  }

  lemma FollowsTouched(after: CacheState, before: CacheState, a: GlobalAddress, told: bool, looked: bool,
                       b: GlobalAddress, now: nat)
    requires CacheFollows(after, before, a, told, looked)
    ensures CacheFollows(Touch(after, b, now), before, a, told, true)
  {
    assert Unstamped(Touch(after, b, now)) == Unstamped(after);
  }

  /** How far the telling has come: which nodes have been told, what their caches are,
      and that the home's cells are as they were. */
  ghost predicate ToldSoFar(s: State, acts: seq<Action>, t: State)
    requires Telling(s.home)
  {
    var k := Tellings(acts);
    && k <= |s.home.rest|
    && t.home == s.home.(rest := s.home.rest[k..])
    && t.cells == s.cells && t.nodes.Keys == s.nodes.Keys
    && forall m :: m in s.nodes ==>
         CacheFollows(t.nodes[m].cache, s.nodes[m].cache, s.home.a, m in s.home.rest[..k], Lookup(m) in acts)
  }

  lemma OtherStepWhileTelling(cfg: Config, s: State, act: Action)
    requires Telling(s.home) && Enabled(cfg, s, act)
    requires !IsTelling(act) && !act.EndBroadcast? && !act.HomeStore?
    ensures var t := Next(cfg, s, act);
      && t.home == s.home && t.cells == s.cells && t.nodes.Keys == s.nodes.Keys
      && forall m :: m in s.nodes ==>
           t.nodes[m].cache == if act == Lookup(m) then Touch(s.nodes[m].cache, s.nodes[m].pc.a, s.clock + 1)
                               else s.nodes[m].cache
  {
  }

  lemma FollowsList(after: CacheState, before: CacheState, a: GlobalAddress, list: seq<uint16>, k: nat, m: uint16,
                    looked: bool)
    requires k < |list| && CacheFollows(after, before, a, m in list[..k], looked)
    ensures CacheFollows(if m == list[k] then Remove(after, a) else after, before, a, m in list[..k + 1], looked)
  {
    assert list[..k + 1] == list[..k] + [list[k]];
    if m == list[k] {
      FollowsTold(after, before, a, m in list[..k], looked);
    }
  }

  /** From s to t the home has told the next node of its list. */
  ghost predicate TellsNext(s: State, t: State)
    requires Telling(s.home)
  {
    var rest := s.home.rest;
    && rest != [] && rest[0] in s.nodes
    && t.home == s.home.(rest := rest[1..]) && t.cells == s.cells && t.nodes.Keys == s.nodes.Keys
    && forall m :: m in s.nodes ==>
         t.nodes[m].cache == if m == rest[0] then Remove(s.nodes[m].cache, s.home.a) else s.nodes[m].cache
  }

  lemma TellingStep(cfg: Config, s: State, act: Action)
    requires Telling(s.home) && Enabled(cfg, s, act) && IsTelling(act)
    ensures TellsNext(s, Next(cfg, s, act))
  {
  }

  lemma ToldOneMore(s: State, before: seq<Action>, mid: State, act: Action, t: State)
    requires Telling(s.home) && ToldSoFar(s, before, mid) && TellsNext(mid, t) && IsTelling(act)
    ensures ToldSoFar(s, before + [act], t)
  {
    var acts, k, list := before + [act], Tellings(before), s.home.rest;
    assert acts[..|acts| - 1] == before;
    assert list[k..][1..] == list[k + 1..];
    forall m | m in s.nodes
      ensures CacheFollows(t.nodes[m].cache, s.nodes[m].cache, s.home.a, m in list[..k + 1], Lookup(m) in acts)
    {
      var looked := Lookup(m) in before;
      assert looked <==> Lookup(m) in acts;
      FollowsList(mid.nodes[m].cache, s.nodes[m].cache, s.home.a, list, k, m, looked);
    }
  }

  lemma ToldAsBefore(cfg: Config, s: State, before: seq<Action>, mid: State, act: Action)
    requires Telling(s.home) && ToldSoFar(s, before, mid) && Enabled(cfg, mid, act)
    requires !IsTelling(act) && !act.EndBroadcast? && !act.HomeStore?
    ensures ToldSoFar(s, before + [act], Next(cfg, mid, act))
  {
    OtherStepWhileTelling(cfg, mid, act);
    var acts, k, list, t := before + [act], Tellings(before), s.home.rest, Next(cfg, mid, act);
    assert acts[..|acts| - 1] == before;
    forall m | m in s.nodes
      ensures CacheFollows(t.nodes[m].cache, s.nodes[m].cache, s.home.a, m in list[..k], Lookup(m) in acts)
    {
      assert CacheFollows(mid.nodes[m].cache, s.nodes[m].cache, s.home.a, m in list[..k], Lookup(m) in before);
      if act == Lookup(m) {
        FollowsTouched(mid.nodes[m].cache, s.nodes[m].cache, s.home.a, m in list[..k], Lookup(m) in before,
                       mid.nodes[m].pc.a, mid.clock + 1);
      }
    }
  }

  /** Under every schedule the home tells the nodes of its list in order, one with each
      of its steps, and nothing else changes a cell or takes away a copy. */
  lemma {:induction false} TellingRun(cfg: Config, s: State, acts: seq<Action>)
    requires Telling(s.home) && CanRun(cfg, s, acts) && StillTelling(acts)
    ensures ToldSoFar(s, acts, After(cfg, s, acts))
    decreases |acts|
  {
    if acts != [] {
      var before, last := acts[..|acts| - 1], acts[|acts| - 1];
      var mid := After(cfg, s, before);
      TellingRun(cfg, s, before);
      assert acts == before + [last];
      if IsTelling(last) {
        TellingStep(cfg, mid, last);
        ToldOneMore(s, before, mid, last, Next(cfg, mid, last));
      } else {
        ToldAsBefore(cfg, s, before, mid, last);
      }
    }
  }

  /** When all of a list have been told, whatever else happened, the nodes of the list
      have the caches of served invalidations, the others have theirs. */
  ghost predicate AllTold(s: State, acts: seq<Action>, t: State, a: GlobalAddress, list: seq<uint16>) {
    && t.nodes.Keys == s.nodes.Keys
    && forall m :: m in s.nodes ==>
         CacheFollows(t.nodes[m].cache, s.nodes[m].cache, a, m in list, Lookup(m) in acts)
  }

  /** A served write with readers, from the overwrite to the end of its broadcast, under
      every schedule, is handleWrite at the home and handleInvalidation at each node it
      sends to: the same cells, the same messages to the same nodes, the same caches. */
  lemma InvalidatingWriteIsCode(cfg: Config, s: State, n: uint16, acts: seq<Action>, home: NodeValue, size: uint64)
    requires CanServeWrite(s, n) && MustInvalidate(s.cells[s.nodes[n].pc.a])
    requires home.id == PORT && home.cells == s.cells
    requires CanRun(cfg, AfterServeWrite(s, n), acts) && StillTelling(acts)
    requires Enabled(cfg, After(cfg, AfterServeWrite(s, n), acts), EndBroadcast)
    ensures var pc, list := s.nodes[n].pc, s.cells[s.nodes[n].pc.a].sharerNodes;
      var t := After(cfg, AfterServeWrite(s, n), acts);
      var sd := Data(size, pc.v, pc.a).Sendable(n);
      && Hosts(home, InWrite(sd))
      && Tellings(acts) == |list|
      && t.cells == Served(home, InWrite(sd)).node.cells
      && AllTold(s, acts, t, pc.a, list)
      && Served(home, InWrite(sd)).node.sent == home.sent
           + [Sent(n, INVALIDATE(pc.a.Sendable(n))), Sent(n, ADDRESS(pc.a.Sendable(n)))]
           + Invalidations(list, pc.a, PORT)
  {
    var list := s.cells[s.nodes[n].pc.a].sharerNodes;
    TellingRun(cfg, AfterServeWrite(s, n), acts);
    assert list[..|list|] == list;
    ServeWriteIsHandleWrite(s, n, home, size);
  }

  /** The nodes that the home's own write must tell. */
  function ToTell(cell: SaveData): seq<uint16> {
    if LocalWriteGuard(cell) then cell.sharerNodes else []
  }

  /** A write of the home's own, from its guard to its store, under every schedule, is
      the local branch of write at the home and handleInvalidation at each node it sends
      to. */
  lemma HomeWriteIsCode(cfg: Config, s: State, acts: seq<Action>, home: NodeValue, size: uint64, net: Answers)
    requires CanHomeCheckSharers(s) && home.id == PORT && home.cells == s.cells && net.lock
    requires CanRun(cfg, AfterHomeCheckSharers(s), acts) && StillTelling(acts)
    requires CanHomeStore(After(cfg, AfterHomeCheckSharers(s), acts))
    ensures var a, list := s.home.a, ToTell(s.cells[s.home.a]);
      var t := AfterHomeStore(After(cfg, AfterHomeCheckSharers(s), acts));
      var data := Data(size, s.home.v, a);
      && Tellings(acts) == |list|
      && t.cells == WriteOwn(home, data, net).node.cells
      && AllTold(s, acts, t, a, list)
      && StoreOwn(home, data).sent == home.sent + Invalidations(list, a, PORT)
      && WriteOwn(home, data, net).result == Some(a)
  {
    var list := ToTell(s.cells[s.home.a]);
    TellingRun(cfg, AfterHomeCheckSharers(s), acts);
    assert list[..|list|] == list;
  }

  // --- The home's own read ---

  predicate ReadsAt(home: HomeMode, a: GlobalAddress) {
    home == HReadLocked(a) || home == HReadUnlocked(a)
  }

  lemma ReadingStep(cfg: Config, s: State, act: Action, a: GlobalAddress)
    requires ReadsAt(s.home, a) && Enabled(cfg, s, act) && !act.HomeReadReturn?
    ensures ReadsAt(Next(cfg, s, act).home, a) && Next(cfg, s, act).cells == s.cells
  {
  }

  lemma {:induction false} ReadingRun(cfg: Config, s: State, acts: seq<Action>, a: GlobalAddress)
    requires ReadsAt(s.home, a) && CanRun(cfg, s, acts)
    requires forall i :: 0 <= i < |acts| ==> !acts[i].HomeReadReturn?
    ensures ReadsAt(After(cfg, s, acts).home, a) && After(cfg, s, acts).cells == s.cells
    decreases |acts|
  {
    if acts != [] {
      ReadingRun(cfg, s, acts[..|acts| - 1], a);
      ReadingStep(cfg, After(cfg, s, acts[..|acts| - 1]), acts[|acts| - 1], a);
    }
  }

  /** A read of the home's own, from its lock to its return, under every schedule, gives
      the value of the local branch of read, although that is fetched after the unlock. */
  lemma HomeReadIsCode(cfg: Config, s: State, acts: seq<Action>, home: NodeValue, net: Answers)
    requires s.home.HReadLocked? && s.home.a in s.cells && home.id == PORT && home.cells == s.cells && net.lock
    requires CanRun(cfg, s, acts) && forall i :: 0 <= i < |acts| ==> !acts[i].HomeReadReturn?
    requires Enabled(cfg, After(cfg, s, acts), HomeReadReturn)
    ensures Emit(cfg, After(cfg, s, acts), HomeReadReturn)
         == Some(Atomic.HomeRead(s.home.a, ReadOwn(home, s.home.a, net).result))
    ensures After(cfg, s, acts).cells == ReadOwn(home, s.home.a, net).node.cells
  {
    ReadingRun(cfg, s, acts, s.home.a);
  }
}
