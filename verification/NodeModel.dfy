/** One node's code as value functions: what a call or a served request does to the
    node's locks, memory and cache, and what it sends (src/api.cpp, src/Receive.cpp,
    src/Send.cpp). The answers of other nodes are parameters. */
module NodeModel {
  import opened Defs
  import opened AddressKey
  import opened CacheModel
  import opened Directory
  import opened Locks

  datatype Message =
    | LOCKS(request: Request)
    | READ(sga: SendGlobalAddr)
    | WRITE(sd: SendingData)
    | INVALIDATE(sga: SendGlobalAddr)
    | RESET
    | DATA(v: uint64)
    | ADDRESS(sga: SendGlobalAddr)
    | GRANT(granted: bool)
    | REMOVED(count: nat)
    | FREE(sga: SendGlobalAddr)

  datatype Sent = Sent(to: uint16, message: Message)

  datatype NodeValue = NodeValue(
    id: uint16,
    locks: Table,
    cells: map<GlobalAddress, SaveData>,
    cache: CacheState,
    sent: seq<Sent>)

  /** What the other nodes answer during one call: the lock node to the lock and the
      unlock, the home to a read, the home to a write and whether it makes the writer
      wait, and the requests served while waiting. */
  datatype Answers = Answers(lock: bool, unlock: bool, data: uint64, address: GlobalAddress,
                             wait: bool, incoming: seq<Incoming>)

  /** A request with all that serving it depends on besides the node: what the lock
      node answers if the request is passed on to it, what the allocator returns, what
      the home answers if a release is passed on to it. */
  datatype Incoming =
    | InRead(sga: SendGlobalAddr)
    | InWrite(sd: SendingData)
    | InLock(client: uint16, request: Request, passedOn: bool)
    | InMalloc(sga: SendGlobalAddr, block: Block)
    | InFree(sga: SendGlobalAddr, answer: GlobalAddress)
    | InInvalidate(sga: SendGlobalAddr)
    | InReset(client: uint16)
    | InOther

  /** The allocator's pointer, and what happens to stand in the new block. */
  datatype Block = Block(ptr: uint64, data: uint64, owner: uint16)

  datatype Outcome<T> = Outcome(node: NodeValue, result: T)

  /** What a node has to serve when another one has sent it this request. */
  function Arriving(from: uint16, m: Message): Incoming {
    match m
    case LOCKS(r) => InLock(from, r, false)
    case READ(sga) => InRead(sga)
    case WRITE(sd) => InWrite(sd)
    case FREE(sga) => InFree(sga, GlobalAddress(0, 0, 0))
    case INVALIDATE(sga) => InInvalidate(sga)
    case RESET => InReset(from)
    case _ => InOther
  }

  // --- Locks ---

  /** setLock: the lock node answers from its table, any other node asks it. */
  function AskLock(n: NodeValue, r: Request, reply: bool): Outcome<bool> {
    if n.id == LOCK_NODE then
      var answer := SetLock(n.locks, r);
      Outcome(n.(locks := answer.table), answer.granted)
    else
      Outcome(n.(sent := n.sent + [Sent(LOCK_NODE, LOCKS(r)), Sent(LOCK_NODE, RESET)]), reply)
  }

  // --- Invalidations ---

  /** broadcastInvalidations: one connection per entry of the list, repeats included. */
  function Invalidations(nodes: seq<uint16>, ga: GlobalAddress, src: uint16): seq<Sent> {
    if nodes == [] then []
    else
      var before, last := nodes[..|nodes| - 1], nodes[|nodes| - 1];
      Invalidations(before, ga, src) + [Sent(last, INVALIDATE(ga.Sendable(src))), Sent(last, RESET)]
  }

  // --- The home's own accesses ---

  function StoreOwn(n: NodeValue, data: Data): NodeValue
    requires data.ga in n.cells
  {
    var cell := n.cells[data.ga];
    var told := if LocalWriteGuard(cell) then Invalidations(cell.sharerNodes, data.ga, n.id) else [];
    n.(sent := n.sent + told, cells := n.cells[data.ga := LocallyWritten(data.data, n.id)])
  }

  /** Malloc: a new block with an unshared cell. */
  function Allocated(n: NodeValue, size: uint64, block: Block): NodeValue {
    n.(cells := n.cells[GlobalAddress(size, block.ptr, n.id) := SaveData(block.data, UNSHARED, block.owner, [])])
  }

  function Released(n: NodeValue, ga: GlobalAddress): NodeValue
    requires ga in n.cells
  {
    var cell := n.cells[ga];
    var told := if FreeGuard(cell) then Invalidations(cell.sharerNodes, ga, n.id) else [];
    n.(sent := n.sent + told, cells := n.cells - {ga})
  }

  /** Free: a block of the node itself is released, any other one is the home's affair. */
  function Freed(n: NodeValue, ga: GlobalAddress, answer: GlobalAddress): Outcome<GlobalAddress>
    requires ga.id == n.id ==> ga in n.cells
  {
    if ga.id == n.id then Outcome(Released(n, ga), GlobalAddress(0, 0, ga.id))
    else Outcome(n.(sent := n.sent + [Sent(PORT, FREE(ga.Sendable(n.id))), Sent(PORT, RESET)]), answer)
  }

  /** Node::write on an address of the node itself. */
  function WriteOwn(n: NodeValue, data: Data, net: Answers): Outcome<Option<GlobalAddress>>
    requires data.ga in n.cells
  {
    var locked := AskLock(n, Request(data.ga.id, EXCLUSIVE), net.lock);
    if locked.result then
      Outcome(AskLock(StoreOwn(locked.node, data), Request(data.ga.id, UNLOCKED), net.unlock).node, Some(data.ga))
    else Outcome(locked.node, None)
  }

  /** Node::read on an address of the node itself; a refused lock reads as zero. */
  function ReadOwn(n: NodeValue, ga: GlobalAddress, net: Answers): Outcome<uint64>
    requires ga in n.cells
  {
    var locked := AskLock(n, Request(ga.id, SHAREDLOCK), net.lock);
    if locked.result then
      var unlocked := AskLock(locked.node, Request(ga.id, UNLOCKED), net.unlock).node;
      Outcome(unlocked, unlocked.cells[ga].data)
    else Outcome(locked.node, 0)
  }

  // --- Serving a connection ---

  function HandledRead(n: NodeValue, sga: SendGlobalAddr): NodeValue
    requires sga.Received() in n.cells
  {
    var ga := sga.Received();
    n.(cells := n.cells[ga := Registered(n.cells[ga], sga.srcID)],
       sent := n.sent + [Sent(sga.srcID, DATA(n.cells[ga].data))])
  }

  /** handleWrite: without sharers a plain answer; with sharers the notice, the
      overwrite, the answer, and then the invalidation of the snapshot. */
  function HandledWrite(n: NodeValue, sd: SendingData): Outcome<bool>
    requires sd.Received().ga in n.cells
  {
    var data, src := sd.Received(), sd.sga.srcID;
    var cell := n.cells[data.ga];
    var stored := n.cells[data.ga := RemotelyWritten(data.data, src)];
    var answer := Sent(src, ADDRESS(data.ga.Sendable(src)));
    if Readable(cell) && RemoteWriteGuard(cell) then
      Outcome(n.(cells := stored,
                 sent := n.sent + [Sent(src, INVALIDATE(data.ga.Sendable(src))), answer]
                         + Invalidations(cell.sharerNodes, data.ga, n.id)),
              false)
    else Outcome(n.(cells := stored, sent := n.sent + [answer]), true)
  }

  function HandledInvalidation(n: NodeValue, sga: SendGlobalAddr): NodeValue {
    var ga := sga.Received();
    n.(cache := Remove(n.cache, ga),
       sent := n.sent + [Sent(sga.srcID, REMOVED(if Key(ga) in n.cache.items then 1 else 0))])
  }

  /** The request can be served: the block it names is here, and the allocator gives
      out no block that is live. */
  predicate Hosts(n: NodeValue, rq: Incoming) {
    match rq
    case InRead(sga) => sga.Received() in n.cells && Readable(n.cells[sga.Received()])
    case InWrite(sd) => sd.Received().ga in n.cells
    case InLock(_, _, _) => true
    case InMalloc(sga, block) => GlobalAddress(sga.size, block.ptr, n.id) !in n.cells
    case InFree(sga, _) => sga.id == n.id ==> sga.Received() in n.cells
    case InInvalidate(_) => true
    case InReset(_) => true
    case InOther => true
  }

  /** Node::receive: one request, and whether the connection stays open. */
  function Served(n: NodeValue, rq: Incoming): Outcome<bool>
    requires Hosts(n, rq)
  {
    match rq
    case InRead(sga) => Outcome(HandledRead(n, sga), true)
    case InWrite(sd) => HandledWrite(n, sd)
    case InLock(client, r, answer) =>
      var locked := AskLock(n, r, answer);
      Outcome(locked.node.(sent := locked.node.sent + [Sent(client, GRANT(locked.result))]), true)
    case InMalloc(sga, block) =>
      var ga := GlobalAddress(sga.size, block.ptr, n.id);
      var extended := Allocated(n, sga.size, block);
      Outcome(extended.(sent := n.sent + [Sent(sga.srcID, ADDRESS(ga.Sendable(sga.srcID)))]), true)
    case InFree(sga, answer) =>
      var freed := Freed(n, sga.Received(), answer);
      Outcome(freed.node.(sent := freed.node.sent + [Sent(sga.srcID, ADDRESS(freed.result.Sendable(sga.srcID)))]), true)
    case InInvalidate(sga) => Outcome(HandledInvalidation(n, sga), true)
    case InReset(client) => Outcome(n.(sent := n.sent + [Sent(client, RESET)]), false)
    case InOther => Outcome(n, true)
  }

  /** Every request that is reached finds what it needs. */
  predicate CanServe(n: NodeValue, rqs: seq<Incoming>)
    decreases |rqs|
  {
    rqs == [] ||
    (Hosts(n, rqs[0]) && var step := Served(n, rqs[0]); step.result ==> CanServe(step.node, rqs[1..]))
  }

  /** Node::connectAndReceive: requests in turn until one closes the connection. */
  function ServedAll(n: NodeValue, rqs: seq<Incoming>): Outcome<bool>
    requires CanServe(n, rqs)
    decreases |rqs|
  {
    if rqs == [] then Outcome(n, true)
    else
      var step := Served(n, rqs[0]);
      if step.result then ServedAll(step.node, rqs[1..]) else step
  }

  // --- A remote node's accesses ---

  /** performRead elsewhere: the cached data, or a request to the home and a store.
      The result tells whether the call comes back. */
  ghost function Fetched(n: NodeValue, ga: GlobalAddress, src: uint16, net: Answers, now: nat): Outcome<(uint64, bool)> {
    var k := Key(ga);
    if k in n.cache.items then
      Outcome(n.(cache := Touch(n.cache, ga, now)), (n.cache.items[k].data, true))
    else
      var added := Add(n.cache, ga, CacheItem(ga, net.data, now, now));
      var asked := n.sent + [Sent(PORT, READ(ga.Sendable(src)))];
      if Returns(added.outcome)
      then Outcome(n.(cache := added.cache, sent := asked + [Sent(PORT, RESET)]), (net.data, true))
      else Outcome(n.(cache := added.cache, sent := asked), (net.data, false))
  }

  /** Node::read of another node's memory. */
  ghost function ReadElsewhere(n: NodeValue, ga: GlobalAddress, net: Answers, now: nat): Outcome<(uint64, bool)> {
    var locked := AskLock(n, Request(ga.id, SHAREDLOCK), net.lock);
    if locked.result then
      var fetched := Fetched(locked.node, ga, n.id, net, now);
      if fetched.result.1
      then Outcome(AskLock(fetched.node, Request(ga.id, UNLOCKED), net.unlock).node, fetched.result)
      else fetched
    else Outcome(locked.node, (0, true))
  }

  /** performWrite elsewhere, up to the request: the own copy is altered first. */
  ghost function Requested(n: NodeValue, data: Data, src: uint16, now: nat): Outcome<bool> {
    var altered := Alter(n.cache, data.ga, CacheItem(data.ga, data.data, now, now));
    if Returns(altered.outcome)
    then Outcome(n.(cache := altered.cache, sent := n.sent + [Sent(PORT, WRITE(data.Sendable(src)))]), true)
    else Outcome(n.(cache := altered.cache), false)
  }

  /** The rest of it: the wait in prepareForInvalidate if the home asks for it, and
      the close on whichever connection is open then. */
  function Finished(n: NodeValue, net: Answers): NodeValue
    requires net.wait ==> CanServe(n, net.incoming)
  {
    var served := if net.wait then ServedAll(n, net.incoming).node else n;
    served.(sent := served.sent + [Sent(PORT, RESET)])
  }

  /** What is served while a write elsewhere waits can be served. */
  ghost predicate CanWait(n: NodeValue, data: Data, net: Answers, now: nat) {
    var locked := AskLock(n, Request(data.ga.id, EXCLUSIVE), net.lock);
    net.wait && locked.result ==> CanServe(Requested(locked.node, data, n.id, now).node, net.incoming)
  }

  /** Node::write to another node's memory. */
  ghost function WriteElsewhere(n: NodeValue, data: Data, net: Answers, now: nat): Outcome<(Option<GlobalAddress>, bool)>
    requires CanWait(n, data, net, now)
  {
    var locked := AskLock(n, Request(data.ga.id, EXCLUSIVE), net.lock);
    if locked.result then
      var asked := Requested(locked.node, data, n.id, now);
      if asked.result then
        var unlocked := AskLock(Finished(asked.node, net), Request(data.ga.id, UNLOCKED), net.unlock).node;
        Outcome(unlocked, (Some(net.address), true))
      else Outcome(asked.node, (None, false))
    else Outcome(locked.node, (None, true))
  }

  // --- What the functions promise ---

  /** No lock is held. */
  ghost predicate Quiet(n: NodeValue) {
    forall id :: StateOf(n.locks, id) == UNLOCKED
  }

  /** On the lock node, with no other client about, a node's own write and read are
      never refused and leave every lock unlocked. */
  lemma OwnAccessIsGranted(n: NodeValue, data: Data, net: Answers)
    requires n.id == LOCK_NODE && Quiet(n) && data.ga in n.cells
    ensures WriteOwn(n, data, net).result == Some(data.ga)
    ensures Quiet(WriteOwn(n, data, net).node)
    ensures ReadOwn(n, data.ga, net).result == n.cells[data.ga].data
    ensures Quiet(ReadOwn(n, data.ga, net).node)
    ensures ReadOwn(n, data.ga, net).node.cells == n.cells
  {
    assert StateOf(n.locks, data.ga.id) == UNLOCKED;
    forall id
      ensures StateOf(WriteOwn(n, data, net).node.locks, id) == UNLOCKED
      ensures StateOf(ReadOwn(n, data.ga, net).node.locks, id) == UNLOCKED
    {
      assert StateOf(n.locks, id) == UNLOCKED;
    }
  }

  /** There a read returns the value of the last write to its address, whatever is
      written to other addresses. */
  lemma OwnReadAfterWrite(n: NodeValue, data: Data, ga: GlobalAddress, net: Answers, net': Answers)
    requires n.id == LOCK_NODE && Quiet(n) && data.ga in n.cells && ga in n.cells
    ensures var after := WriteOwn(n, data, net).node;
      ga in after.cells &&
      ReadOwn(after, ga, net').result == if ga == data.ga then data.data else n.cells[ga].data
  {
    OwnAccessIsGranted(n, data, net);
    var after := WriteOwn(n, data, net).node;
    OwnAccessIsGranted(after, Data(0, 0, ga), net');
  }

  /** The broadcast connects to every entry of the list, in order. */
  lemma {:induction false} InvalidationsAt(nodes: seq<uint16>, ga: GlobalAddress, src: uint16, i: nat)
    requires i < |nodes|
    ensures |Invalidations(nodes, ga, src)| == 2 * |nodes|
    ensures Invalidations(nodes, ga, src)[2 * i] == Sent(nodes[i], INVALIDATE(ga.Sendable(src)))
    ensures Invalidations(nodes, ga, src)[2 * i + 1] == Sent(nodes[i], RESET)
    decreases |nodes|
  {
    var before := nodes[..|nodes| - 1];
    if i < |before| {
      InvalidationsAt(before, ga, src, i);
    } else if before != [] {
      InvalidationsAt(before, ga, src, 0);
    }
  }

  /** Whichever node serves an invalidation of an address has no copy of it afterwards,
      and keeps its copies under other keys. */
  predicate Drops(m: NodeValue, sga: SendGlobalAddr, ga: GlobalAddress) {
    && Key(ga) !in HandledInvalidation(m, sga).cache.items
    && forall k :: k in m.cache.items && k != Key(ga) ==>
         k in HandledInvalidation(m, sga).cache.items && HandledInvalidation(m, sga).cache.items[k] == m.cache.items[k]
  }

  /** A freed block is gone, and each of its readers is sent a message on which any
      node m drops its copy. */
  lemma FreeDropsCopies(n: NodeValue, ga: GlobalAddress, i: nat, m: NodeValue)
    requires ga in n.cells && SharedMeansSharers(n.cells[ga]) && i < |n.cells[ga].sharerNodes|
    ensures Released(n, ga).cells == n.cells - {ga}
    ensures |Released(n, ga).sent| == |n.sent| + 2 * |n.cells[ga].sharerNodes|
    ensures var told := Released(n, ga).sent[|n.sent| + 2 * i];
      told.to == n.cells[ga].sharerNodes[i] && told.message.INVALIDATE? && Drops(m, told.message.sga, ga)
  {
    InvalidationsAt(n.cells[ga].sharerNodes, ga, n.id, i);
  }

  /** So it is when the node overwrites its own cell, which then has no readers. */
  lemma OwnWriteDropsCopies(n: NodeValue, data: Data, i: nat, m: NodeValue)
    requires data.ga in n.cells && SharedMeansSharers(n.cells[data.ga]) && i < |n.cells[data.ga].sharerNodes|
    ensures var after := StoreOwn(n, data);
      && after.cells[data.ga].data == data.data && SharedMeansSharers(after.cells[data.ga])
      && after.cells[data.ga].sharerNodes == []
      && |after.sent| == |n.sent| + 2 * |n.cells[data.ga].sharerNodes|
      && var told := after.sent[|n.sent| + 2 * i];
         told.to == n.cells[data.ga].sharerNodes[i] && told.message.INVALIDATE? && Drops(m, told.message.sga, data.ga)
  {
    InvalidationsAt(n.cells[data.ga].sharerNodes, data.ga, n.id, i);
  }

  /** And when it overwrites a cell for a remote writer. The writer hears first that
      it must wait and then gets its answer, both before any reader is told. */
  lemma ServedWriteDropsCopies(n: NodeValue, sd: SendingData, i: nat, m: NodeValue)
    requires var ga := sd.Received().ga;
      ga in n.cells && SharedMeansSharers(n.cells[ga]) && i < |n.cells[ga].sharerNodes|
    ensures var ga, w, done := sd.Received().ga, sd.sga.srcID, HandledWrite(n, sd);
      && !done.result
      && done.node.cells[ga].data == sd.data && done.node.cells[ga].ownerNode == w
      && SharedMeansSharers(done.node.cells[ga]) && done.node.cells[ga].sharerNodes == []
      && |done.node.sent| == |n.sent| + 2 + 2 * |n.cells[ga].sharerNodes|
      && done.node.sent[|n.sent|] == Sent(w, INVALIDATE(ga.Sendable(w)))
      && done.node.sent[|n.sent| + 1] == Sent(w, ADDRESS(ga.Sendable(w)))
      && var told := done.node.sent[|n.sent| + 2 + 2 * i];
         told.to == n.cells[ga].sharerNodes[i] && told.message.INVALIDATE? && Drops(m, told.message.sga, ga)
  {
    var ga := sd.Received().ga;
    InvalidationsAt(n.cells[ga].sharerNodes, ga, n.id, i);
  }

  /** A remote writer that still has a copy afterwards reads its own value back from
      it and asks nobody; without a copy it asks the home. */
  lemma RemoteWriteThenRead(n: NodeValue, data: Data, src: uint16, now: nat, net: Answers, later: nat)
    requires Requested(n, data, src, now).result
    ensures var m := Requested(n, data, src, now).node;
      var fetched := Fetched(m, data.ga, src, net, later);
      if Key(data.ga) in m.cache.items
      then fetched.result == (data.data, true) && fetched.node.sent == m.sent
      else fetched.result.0 == net.data && fetched.node.sent[|m.sent|..][..1] == [Sent(PORT, READ(data.ga.Sendable(src)))]
  {
    if n.cache.available < data.ga.size {
      MakeRoomOnlyRemoves(n.cache, data.ga.size);
    }
  }

  /** An invalidation and a reset, served in one connection. */
  lemma ServedInvalidation(n: NodeValue, sga: SendGlobalAddr, home: uint16)
    ensures var rqs := [InInvalidate(sga), InReset(home)];
      && CanServe(n, rqs)
      && var dropped := HandledInvalidation(n, sga);
         ServedAll(n, rqs) == Outcome(dropped.(sent := dropped.sent + [Sent(home, RESET)]), false)
  {
    var rqs := [InInvalidate(sga), InReset(home)];
    assert rqs[1..] == [InReset(home)];
    assert CanServe(HandledInvalidation(n, sga), rqs[1..]);
  }

  /** A writer that was itself in the snapshot is invalidated while it waits; then it
      has no copy, and its next read asks the home. */
  lemma InvalidatedWriterAsksAgain(n: NodeValue, data: Data, net: Answers, home: uint16, later: nat)
    requires net.wait && net.incoming == [InInvalidate(data.ga.Sendable(home)), InReset(home)]
    ensures CanServe(n, net.incoming)
    ensures var m := Finished(n, net);
      && Key(data.ga) !in m.cache.items
      && var fetched := Fetched(m, data.ga, n.id, net, later);
         && fetched.result.0 == net.data
         && fetched.node.sent[|m.sent|..][..1] == [Sent(PORT, READ(data.ga.Sendable(n.id)))]
  {
    ServedInvalidation(n, data.ga.Sendable(home), home);
  }

  /** A request that closes the connection is the last one that has an effect. */
  lemma {:induction false} NothingServedAfterClose(n: NodeValue, rqs: seq<Incoming>, more: seq<Incoming>)
    requires CanServe(n, rqs) && !ServedAll(n, rqs).result
    ensures CanServe(n, rqs + more) && ServedAll(n, rqs + more) == ServedAll(n, rqs)
    decreases |rqs|
  {
    assert (rqs + more)[1..] == rqs[1..] + more;
    if Served(n, rqs[0]).result {
      NothingServedAfterClose(Served(n, rqs[0]).node, rqs[1..], more);
    }
  }

  /** A reader's session: the cell is registered, the reader gets the data, and the
      home listens again. */
  lemma ReadSession(n: NodeValue, sga: SendGlobalAddr)
    requires Hosts(n, InRead(sga))
    ensures var rqs := [InRead(sga), InReset(sga.srcID)];
      CanServe(n, rqs) &&
      var done := ServedAll(n, rqs);
      && !done.result
      && done.node.cells == n.cells[sga.Received() := Registered(n.cells[sga.Received()], sga.srcID)]
      && done.node.sent == n.sent + [Sent(sga.srcID, DATA(n.cells[sga.Received()].data)), Sent(sga.srcID, RESET)]
  {
    var rqs := [InRead(sga), InReset(sga.srcID)];
    var step := Served(n, rqs[0]);
    assert rqs[1..] == [InReset(sga.srcID)];
    assert CanServe(step.node, rqs[1..]);
    assert step.node.sent + [Sent(sga.srcID, RESET)]
        == n.sent + [Sent(sga.srcID, DATA(n.cells[sga.Received()].data)), Sent(sga.srcID, RESET)];
  }

  /** Two requests of one connection, the first of which leaves it open. */
  lemma ServedTwo(n: NodeValue, first: Incoming, second: Incoming)
    requires Hosts(n, first) && Served(n, first).result && Hosts(Served(n, first).node, second)
    ensures CanServe(n, [first, second]) && ServedAll(n, [first, second]) == Served(Served(n, first).node, second)
  {
    var rqs, m := [first, second], Served(n, first).node;
    assert rqs[1..] == [second];
    assert [second][1..] == [];
    var last := Served(m, second);
    assert last == Outcome(last.node, last.result);
    assert ServedAll(last.node, [second][1..]) == Outcome(last.node, true);
    assert ServedAll(m, [second]) == last;
  }

  /** A client that allocates and then frees over one connection leaves the home's
      memory as it was, and is answered with the block and then with a null one. */
  lemma AllocateThenFree(n: NodeValue, sga: SendGlobalAddr, block: Block, answer: GlobalAddress)
    requires GlobalAddress(sga.size, block.ptr, n.id) !in n.cells
    ensures var back := GlobalAddress(sga.size, block.ptr, n.id).Sendable(sga.srcID);
      var rqs := [InMalloc(sga, block), InFree(back, answer)];
      && CanServe(n, rqs)
      && var done := ServedAll(n, rqs);
         && done.result && done.node.cells == n.cells
         && done.node.sent
            == n.sent + [Sent(sga.srcID, ADDRESS(back)), Sent(sga.srcID, ADDRESS(SendGlobalAddr(0, 0, n.id, sga.srcID)))]
  {
    var ga := GlobalAddress(sga.size, block.ptr, n.id);
    var back := ga.Sendable(sga.srcID);
    ServedTwo(n, InMalloc(sga, block), InFree(back, answer));
    var first := Served(n, InMalloc(sga, block)).node;
    assert back.Received() == ga;
    assert first.cells - {ga} == n.cells;
    assert first.sent + [] == first.sent;
  }
}
