/** What the calls of a node say to the others, word for word, and what comes of it when
    the others serve just that (src/api.cpp, src/Send.cpp, src/Receive.cpp). */
module Conversations {
  import opened Defs
  import opened AddressKey
  import opened CacheModel
  import opened Directory
  import opened Locks
  import opened NodeModel

  /** One connection to the lock node. */
  function LockTalk(id: uint16, state: LockState): seq<Sent> {
    [Sent(2000, LOCKS(Request(id, state))), Sent(2000, RESET)]
  }

  /** One connection of a reader to the home. */
  function ReadTalk(ga: GlobalAddress, src: uint16): seq<Sent> {
    [Sent(3000, READ(SendGlobalAddr(ga.size, ga.ptr, ga.id, src))), Sent(3000, RESET)]
  }

  /** The request of a writer to the home. */
  function WriteRequest(data: Data, src: uint16): Sent {
    Sent(3000, WRITE(SendingData(data.size, data.data, SendGlobalAddr(data.ga.size, data.ga.ptr, data.ga.id, src))))
  }

  // --- Off the lock node ---

  /** The lock node's answer decides. A refused call says nothing but its request, and
      changes nothing: a read gives zero, a write no address. */
  lemma RefusedElsewhere(n: NodeValue, data: Data, net: Answers, now: nat)
    requires n.id != LOCK_NODE && !net.lock
    ensures CanWait(n, data, net, now)
    ensures WriteElsewhere(n, data, net, now)
         == Outcome(n.(sent := n.sent + LockTalk(data.ga.id, EXCLUSIVE)), (None, true))
    ensures ReadElsewhere(n, data.ga, net, now)
         == Outcome(n.(sent := n.sent + LockTalk(data.ga.id, SHAREDLOCK)), (0, true))
  {
  }

  lemma RefusedOwn(n: NodeValue, data: Data, net: Answers)
    requires n.id != LOCK_NODE && !net.lock && data.ga in n.cells
    ensures WriteOwn(n, data, net) == Outcome(n.(sent := n.sent + LockTalk(data.ga.id, EXCLUSIVE)), None)
    ensures ReadOwn(n, data.ga, net) == Outcome(n.(sent := n.sent + LockTalk(data.ga.id, SHAREDLOCK)), 0)
  {
  }

  /** A granted read asks for the lock first and gives it back last. In between it says
      nothing when it hits, and has one connection to the home when it misses. */
  lemma ReadTalks(n: NodeValue, ga: GlobalAddress, net: Answers, now: nat)
    requires n.id != LOCK_NODE && net.lock
    ensures var done, k := ReadElsewhere(n, ga, net, now), Key(ga);
      var added := Add(n.cache, ga, CacheItem(ga, net.data, now, now));
      if k in n.cache.items then
        && done.result == (n.cache.items[k].data, true)
        && done.node == n.(cache := Touch(n.cache, ga, now),
                           sent := n.sent + (LockTalk(ga.id, SHAREDLOCK) + LockTalk(ga.id, UNLOCKED)))
      else if Returns(added.outcome) then
        && done.result == (net.data, true)
        && done.node == n.(cache := added.cache,
                           sent := n.sent + (LockTalk(ga.id, SHAREDLOCK) + ReadTalk(ga, n.id)
                                             + LockTalk(ga.id, UNLOCKED)))
      else
        && !done.result.1
        && done.node.sent == n.sent + (LockTalk(ga.id, SHAREDLOCK) + ReadTalk(ga, n.id)[..1])
  {
  }

  /** So does a granted write that need not wait. */
  lemma WriteTalks(n: NodeValue, data: Data, net: Answers, now: nat)
    requires n.id != LOCK_NODE && net.lock && !net.wait
    ensures CanWait(n, data, net, now)
    ensures var done, id := WriteElsewhere(n, data, net, now), data.ga.id;
      var altered := Alter(n.cache, data.ga, CacheItem(data.ga, data.data, now, now));
      if Returns(altered.outcome) then
        && done.result == (Some(net.address), true)
        && done.node == n.(cache := altered.cache,
                           sent := n.sent + (LockTalk(id, EXCLUSIVE) + [WriteRequest(data, n.id), Sent(3000, RESET)]
                                             + LockTalk(id, UNLOCKED)))
      else
        && done.result == (None, false)
        && done.node == n.(cache := altered.cache, sent := n.sent + LockTalk(id, EXCLUSIVE))
  {
  }

  lemma {:induction false} ServingKeepsId(n: NodeValue, rqs: seq<Incoming>)
    requires CanServe(n, rqs)
    ensures ServedAll(n, rqs).node.id == n.id
    decreases |rqs|
  {
    if rqs != [] && Served(n, rqs[0]).result {
      ServingKeepsId(Served(n, rqs[0]).node, rqs[1..]);
    }
  }

  /** A write that must wait serves what comes in after its request, and then closes its
      second connection and gives the lock back. */
  lemma WaitingWriteTalks(n: NodeValue, data: Data, net: Answers, now: nat)
    requires n.id != LOCK_NODE && net.lock && net.wait && CanWait(n, data, net, now)
    requires Returns(Alter(n.cache, data.ga, CacheItem(data.ga, data.data, now, now)).outcome)
    ensures var done, id := WriteElsewhere(n, data, net, now), data.ga.id;
      var waiting := n.(cache := Alter(n.cache, data.ga, CacheItem(data.ga, data.data, now, now)).cache,
                        sent := n.sent + (LockTalk(id, EXCLUSIVE) + [WriteRequest(data, n.id)]));
      && done.result == (Some(net.address), true)
      && CanServe(waiting, net.incoming)
      && var served := ServedAll(waiting, net.incoming).node;
         done.node == served.(sent := served.sent + ([Sent(3000, RESET)] + LockTalk(id, UNLOCKED)))
  {
    var id := data.ga.id;
    var asked := Requested(AskLock(n, Request(id, EXCLUSIVE), net.lock).node, data, n.id, now).node;
    assert asked.sent == n.sent + (LockTalk(id, EXCLUSIVE) + [WriteRequest(data, n.id)]);
    ServingKeepsId(asked, net.incoming);
  }

  /** Granted accesses of a node to its own memory: the invalidations, if any, come
      between the two connections to the lock node. */
  lemma OwnAccessTalks(n: NodeValue, data: Data, net: Answers)
    requires n.id != LOCK_NODE && net.lock && data.ga in n.cells && SharedMeansSharers(n.cells[data.ga])
    ensures var done, id := WriteOwn(n, data, net), data.ga.id;
      && done.result == Some(data.ga)
      && done.node == n.(cells := n.cells[data.ga := SaveData(data.data, UNSHARED, n.id, [])],
                         sent := n.sent + (LockTalk(id, EXCLUSIVE)
                                           + Invalidations(n.cells[data.ga].sharerNodes, data.ga, n.id)
                                           + LockTalk(id, UNLOCKED)))
    ensures var done, id := ReadOwn(n, data.ga, net), data.ga.id;
      && done.result == n.cells[data.ga].data
      && done.node == n.(sent := n.sent + (LockTalk(id, SHAREDLOCK) + LockTalk(id, UNLOCKED)))
  {
  }

  /** Freeing another node's block is one connection to the home, whose answer is the
      result; the node itself does not change. */
  lemma FreeTalks(n: NodeValue, ga: GlobalAddress, answer: GlobalAddress)
    requires ga.id != n.id
    ensures Freed(n, ga, answer)
         == Outcome(n.(sent := n.sent + [Sent(3000, FREE(SendGlobalAddr(ga.size, ga.ptr, ga.id, n.id))),
                                         Sent(3000, RESET)]),
                    answer)
  {
  }

  /** A lock request that reaches another node than the lock node is passed on, and the
      client gets the lock node's answer. */
  lemma LockRequestIsPassedOn(n: NodeValue, client: uint16, r: Request, passedOn: bool)
    requires n.id != LOCK_NODE
    ensures Served(n, InLock(client, r, passedOn))
         == Outcome(n.(sent := n.sent + (LockTalk(r.id, r.state) + [Sent(client, GRANT(passedOn))])), true)
  {
  }

  /** An allocation answers with the block that the allocator gave, which gets a cell
      without readers in front of whatever stood there. */
  lemma AllocationIsServed(n: NodeValue, sga: SendGlobalAddr, block: Block)
    requires Hosts(n, InMalloc(sga, block))
    ensures Served(n, InMalloc(sga, block))
         == Outcome(n.(cells := n.cells[GlobalAddress(sga.size, block.ptr, n.id)
                                        := SaveData(block.data, UNSHARED, block.owner, [])],
                       sent := n.sent + [Sent(sga.srcID,
                                              ADDRESS(SendGlobalAddr(sga.size, block.ptr, n.id, sga.srcID)))]), true)
  {
  }

  /** A request to free a block of another node is passed on too, and the client gets its answer. */
  lemma FreeRequestIsPassedOn(n: NodeValue, sga: SendGlobalAddr, answer: GlobalAddress)
    requires sga.id != n.id
    ensures Served(n, InFree(sga, answer))
         == Outcome(n.(sent := n.sent + [Sent(3000, FREE(SendGlobalAddr(sga.size, sga.ptr, sga.id, n.id))),
                                         Sent(3000, RESET),
                                         Sent(sga.srcID, ADDRESS(answer.Sendable(sga.srcID)))]), true)
  {
  }

  /** A request of no known kind is ignored, and the connection stays open. */
  lemma OtherRequestsAreIgnored(n: NodeValue)
    ensures Served(n, InOther) == Outcome(n, true)
  {
  }

  /** An invalidated node answers whoever told it how many items it removed. */
  lemma InvalidationAnswer(n: NodeValue, sga: SendGlobalAddr)
    ensures HandledInvalidation(n, sga).sent
         == n.sent + [Sent(sga.srcID, REMOVED(if Key(sga.Received()) in n.cache.items then 1 else 0))]
  {
  }

  // --- On the lock node ---

  /** Every lock but one is as it was. */
  ghost predicate OnlyChanges(t: Table, u: Table, id: uint16, state: LockState) {
    forall i :: StateOf(u, i) == if i == id then state else StateOf(t, i)
  }

  /** The lock node is its own judge: a write is refused if and only if the lock is held
      at all, a read if and only if it is held exclusively. A refused call says nothing
      and changes nothing. */
  lemma RefusedAtLockNode(n: NodeValue, data: Data, net: Answers, now: nat)
    requires n.id == LOCK_NODE
    ensures StateOf(n.locks, data.ga.id) != UNLOCKED ==>
      CanWait(n, data, net, now) && WriteElsewhere(n, data, net, now) == Outcome(n, (None, true))
    ensures StateOf(n.locks, data.ga.id) == EXCLUSIVE ==>
      ReadElsewhere(n, data.ga, net, now) == Outcome(n, (0, true))
    ensures data.ga in n.cells && StateOf(n.locks, data.ga.id) != UNLOCKED ==>
      WriteOwn(n, data, net) == Outcome(n, None)
    ensures data.ga in n.cells && StateOf(n.locks, data.ga.id) == EXCLUSIVE ==>
      ReadOwn(n, data.ga, net) == Outcome(n, 0)
  {
  }

  /** A granted read on the lock node leaves the lock unlocked. */
  lemma ReadAtLockNode(n: NodeValue, ga: GlobalAddress, net: Answers, now: nat)
    requires n.id == LOCK_NODE && StateOf(n.locks, ga.id) != EXCLUSIVE
    ensures var done, fetched := ReadElsewhere(n, ga, net, now), Fetched(n, ga, n.id, net, now);
      && done.result == fetched.result
      && done.node.cache == fetched.node.cache && done.node.cells == n.cells
      && done.node.sent == fetched.node.sent
      && (done.result.1 ==> OnlyChanges(n.locks, done.node.locks, ga.id, UNLOCKED))
    ensures var done, k := ReadElsewhere(n, ga, net, now), Key(ga);
      done.result.1 ==>
        && done.result.0 == (if k in n.cache.items then n.cache.items[k].data else net.data)
        && done.node.sent == n.sent + if k in n.cache.items then [] else ReadTalk(ga, n.id)
  {
  }

  /** So does a granted write that need not wait. */
  lemma WriteAtLockNode(n: NodeValue, data: Data, net: Answers, now: nat)
    requires n.id == LOCK_NODE && StateOf(n.locks, data.ga.id) == UNLOCKED && !net.wait
    ensures CanWait(n, data, net, now)
    ensures var done := WriteElsewhere(n, data, net, now);
      var altered := Alter(n.cache, data.ga, CacheItem(data.ga, data.data, now, now));
      && done.result == (if Returns(altered.outcome) then (Some(net.address), true) else (None, false))
      && done.node.cache == altered.cache && done.node.cells == n.cells
      && (Returns(altered.outcome) ==>
           && done.node.sent == n.sent + [WriteRequest(data, n.id), Sent(3000, RESET)]
           && OnlyChanges(n.locks, done.node.locks, data.ga.id, UNLOCKED))
  {
  }

  /** A write that waits there serves lock clients meanwhile, against a table in which
      its own lock is taken; in the end that lock is unlocked. */
  lemma WaitingWriteAtLockNode(n: NodeValue, data: Data, net: Answers, now: nat)
    requires n.id == LOCK_NODE && StateOf(n.locks, data.ga.id) == UNLOCKED && net.wait && CanWait(n, data, net, now)
    requires Returns(Alter(n.cache, data.ga, CacheItem(data.ga, data.data, now, now)).outcome)
    ensures var waiting := Requested(n.(locks := n.locks[data.ga.id := EXCLUSIVE]), data, n.id, now).node;
      && CanServe(waiting, net.incoming)
      && var done, served := WriteElsewhere(n, data, net, now), ServedAll(waiting, net.incoming).node;
         && done.result == (Some(net.address), true)
         && done.node.cache == served.cache && done.node.cells == served.cells
         && done.node.sent == served.sent + [Sent(3000, RESET)]
         && OnlyChanges(served.locks, done.node.locks, data.ga.id, UNLOCKED)
  {
    var waiting := Requested(n.(locks := n.locks[data.ga.id := EXCLUSIVE]), data, n.id, now).node;
    assert AskLock(n, Request(data.ga.id, EXCLUSIVE), net.lock).node == n.(locks := n.locks[data.ga.id := EXCLUSIVE]);
    ServingKeepsId(waiting, net.incoming);
  }

  /** With no other client about, remote accesses of the lock node are granted and leave
      no lock behind when they come back. */
  lemma RemoteAccessKeepsQuiet(n: NodeValue, data: Data, net: Answers, now: nat)
    requires n.id == LOCK_NODE && Quiet(n) && !net.wait
    ensures var done := ReadElsewhere(n, data.ga, net, now);
      done.result.1 ==> Quiet(done.node)
    ensures CanWait(n, data, net, now)
    ensures var done := WriteElsewhere(n, data, net, now);
      done.result.1 ==> done.result.0.Some? && Quiet(done.node)
  {
    assert StateOf(n.locks, data.ga.id) == UNLOCKED;
    ReadAtLockNode(n, data.ga, net, now);
    WriteAtLockNode(n, data, net, now);
    QuietAfter(n.locks, ReadElsewhere(n, data.ga, net, now).node, data.ga.id);
    QuietAfter(n.locks, WriteElsewhere(n, data, net, now).node, data.ga.id);
  }

  lemma QuietAfter(t: Table, m: NodeValue, id: uint16)
    requires forall i :: StateOf(t, i) == UNLOCKED
    ensures OnlyChanges(t, m.locks, id, UNLOCKED) ==> Quiet(m)
  {
  }

  // --- What comes of it ---

  /** The server of a connection after it has served the two messages at i that a node
      has sent, the second of which closes it. */
  function Hears(server: NodeValue, from: uint16, said: seq<Sent>, i: nat): NodeValue
    requires i + 1 < |said| && said[i + 1].message == RESET
    requires Hosts(server, Arriving(from, said[i].message)) && Served(server, Arriving(from, said[i].message)).result
  {
    ServedTwo(server, Arriving(from, said[i].message), InReset(from));
    ServedAll(server, [Arriving(from, said[i].message), Arriving(from, said[i + 1].message)]).node
  }

  /** The lock node hears a request for a free lock, or an unlock. */
  lemma LockHeard(lock: NodeValue, from: uint16, said: seq<Sent>, i: nat, id: uint16, state: LockState)
    requires lock.id == 2000 && i + 1 < |said|
    requires said[i] == LockTalk(id, state)[0] && said[i + 1] == LockTalk(id, state)[1]
    requires state == UNLOCKED || StateOf(lock.locks, id) == UNLOCKED
    ensures Hosts(lock, Arriving(from, said[i].message)) && Served(lock, Arriving(from, said[i].message)).result
    ensures var heard := Hears(lock, from, said, i);
      && heard.id == lock.id && heard.cells == lock.cells
      && heard.sent == lock.sent + [Sent(from, GRANT(true)), Sent(from, RESET)]
      && OnlyChanges(lock.locks, heard.locks, id, state)
  {
    ServedTwo(lock, InLock(from, Request(id, state), false), InReset(from));
  }

  lemma WriteHeard(home: NodeValue, from: uint16, said: seq<Sent>, i: nat, data: Data)
    requires i + 1 < |said| && said[i] == WriteRequest(data, from) && said[i + 1].message == RESET
    requires data.ga in home.cells && SharedMeansSharers(home.cells[data.ga]) && home.cells[data.ga].sharerNodes == []
    ensures Hosts(home, Arriving(from, said[i].message)) && Served(home, Arriving(from, said[i].message)).result
    ensures Hears(home, from, said, i)
         == home.(cells := home.cells[data.ga := SaveData(data.data, EXCLUS, from, [])],
                  sent := home.sent + [Sent(from, ADDRESS(data.ga.Sendable(from))), Sent(from, RESET)])
  {
    assert data.Sendable(from).Received() == data;
    ServedTwo(home, InWrite(data.Sendable(from)), InReset(from));
  }

  lemma ReadHeard(home: NodeValue, from: uint16, said: seq<Sent>, i: nat, ga: GlobalAddress)
    requires i + 1 < |said| && said[i] == ReadTalk(ga, from)[0] && said[i + 1].message == RESET
    requires ga in home.cells && Readable(home.cells[ga])
    ensures Hosts(home, Arriving(from, said[i].message)) && Served(home, Arriving(from, said[i].message)).result
    ensures var cell := home.cells[ga];
      Hears(home, from, said, i)
      == home.(cells := home.cells[ga := SaveData(cell.data, SHARED, cell.ownerNode, cell.sharerNodes + [from])],
               sent := home.sent + [Sent(from, DATA(cell.data)), Sent(from, RESET)])
  {
    assert ga.Sendable(from).Received() == ga;
    ServedTwo(home, InRead(ga.Sendable(from)), InReset(from));
  }

  /** A node that lives neither with the lock table nor with the memory. */
  predicate IsClient(n: NodeValue) {
    n.id != 2000 && n.id != 3000
  }

  /** The six messages of a call are heard by the lock node, the home and the lock node. */
  ghost predicate HeardCall(lock: NodeValue, home: NodeValue, from: uint16, said: seq<Sent>,
                            lock': NodeValue, home': NodeValue)
  {
    && |said| == 6 && [said[0].to, said[2].to, said[4].to] == [2000, 3000, 2000]
    && [said[1].message, said[3].message, said[5].message] == [RESET, RESET, RESET]
    && Hosts(lock, Arriving(from, said[0].message)) && Served(lock, Arriving(from, said[0].message)).result
    && Hosts(home, Arriving(from, said[2].message)) && Served(home, Arriving(from, said[2].message)).result
    && home' == Hears(home, from, said, 2)
    && var taken := Hears(lock, from, said, 0);
       && Hosts(taken, Arriving(from, said[4].message)) && Served(taken, Arriving(from, said[4].message)).result
       && lock' == Hears(taken, from, said, 4)
  }

  /** What a write says, and what the lock node and the home hear of it. */
  lemma WriteArrives(lock: NodeValue, home: NodeValue, w: NodeValue, data: Data, now: nat)
    returns (said: seq<Sent>, lock': NodeValue, home': NodeValue)
    requires lock.id == 2000 && home.id == 3000 && IsClient(w) && StateOf(lock.locks, data.ga.id) == UNLOCKED
    requires data.ga in home.cells && SharedMeansSharers(home.cells[data.ga]) && home.cells[data.ga].sharerNodes == []
    requires Returns(Alter(w.cache, data.ga, CacheItem(data.ga, data.data, now, now)).outcome)
    ensures var net := Answers(true, true, 0, data.ga, false, []);
      && CanWait(w, data, net, now)
      && var done := WriteElsewhere(w, data, net, now);
         && done.result == (Some(data.ga), true) && done.node.sent == w.sent + said
    ensures HeardCall(lock, home, w.id, said, lock', home')
    ensures var taken := Hears(lock, w.id, said, 0);
      && OnlyChanges(lock.locks, taken.locks, data.ga.id, EXCLUSIVE)
      && taken.sent == lock.sent + [Sent(w.id, GRANT(true)), Sent(w.id, RESET)]
    ensures lock'.id == 2000 && OnlyChanges(lock.locks, lock'.locks, data.ga.id, UNLOCKED)
    ensures home'.id == 3000
    ensures home'.cells == home.cells[data.ga := SaveData(data.data, EXCLUS, w.id, [])]
    ensures home'.sent == home.sent + [Sent(w.id, ADDRESS(data.ga.Sendable(w.id))), Sent(w.id, RESET)]
  {
    var net := Answers(true, true, 0, data.ga, false, []);
    var id := data.ga.id;
    WriteTalks(w, data, net, now);
    said := LockTalk(id, EXCLUSIVE) + [WriteRequest(data, w.id), Sent(3000, RESET)] + LockTalk(id, UNLOCKED);
    LockHeard(lock, w.id, said, 0, id, EXCLUSIVE);
    var taken := Hears(lock, w.id, said, 0);
    WriteHeard(home, w.id, said, 2, data);
    home' := Hears(home, w.id, said, 2);
    LockHeard(taken, w.id, said, 4, id, UNLOCKED);
    lock' := Hears(taken, w.id, said, 4);
  }

  /** What a read that misses says, what the lock node and the home hear of it, and that
      the home's answer is what it returns. */
  lemma ReadArrives(lock: NodeValue, home: NodeValue, r: NodeValue, ga: GlobalAddress, now: nat)
    returns (said: seq<Sent>, lock': NodeValue, home': NodeValue)
    requires lock.id == 2000 && home.id == 3000 && IsClient(r) && StateOf(lock.locks, ga.id) == UNLOCKED
    requires ga in home.cells && Readable(home.cells[ga]) && Key(ga) !in r.cache.items
    requires Returns(Add(r.cache, ga, CacheItem(ga, home.cells[ga].data, now, now)).outcome)
    ensures var data := home.cells[ga].data;
      var done := ReadElsewhere(r, ga, Answers(true, true, data, ga, false, []), now);
      && done.result == (data, true) && done.node.sent == r.sent + said
      && home'.sent == home.sent + [Sent(r.id, DATA(data)), Sent(r.id, RESET)]
    ensures HeardCall(lock, home, r.id, said, lock', home')
    ensures var taken := Hears(lock, r.id, said, 0);
      && OnlyChanges(lock.locks, taken.locks, ga.id, SHAREDLOCK)
      && taken.sent == lock.sent + [Sent(r.id, GRANT(true)), Sent(r.id, RESET)]
    ensures lock'.id == 2000 && OnlyChanges(lock.locks, lock'.locks, ga.id, UNLOCKED)
    ensures var cell := home.cells[ga];
      home'.cells == home.cells[ga := SaveData(cell.data, SHARED, cell.ownerNode, cell.sharerNodes + [r.id])]
  {
    var net := Answers(true, true, home.cells[ga].data, ga, false, []);
    ReadTalks(r, ga, net, now);
    said := LockTalk(ga.id, SHAREDLOCK) + ReadTalk(ga, r.id) + LockTalk(ga.id, UNLOCKED);
    LockHeard(lock, r.id, said, 0, ga.id, SHAREDLOCK);
    var taken := Hears(lock, r.id, said, 0);
    ReadHeard(home, r.id, said, 2, ga);
    home' := Hears(home, r.id, said, 2);
    LockHeard(taken, r.id, said, 4, ga.id, UNLOCKED);
    lock' := Hears(taken, r.id, said, 4);
  }

  /** One client writes a block, another reads it: with the lock node and the home hearing
      just what the two calls say, the read returns what was written, the reader is
      registered, the writer owns the cell, and the lock is free again. */
  lemma WrittenThenRead(lock: NodeValue, home: NodeValue, w: NodeValue, r: NodeValue, data: Data, now: nat, later: nat)
    returns (said: seq<Sent>, lock1: NodeValue, home1: NodeValue, heard: seq<Sent>, lock2: NodeValue, home2: NodeValue)
    requires lock.id == 2000 && home.id == 3000 && IsClient(w) && IsClient(r) && Quiet(lock)
    requires data.ga in home.cells && SharedMeansSharers(home.cells[data.ga]) && home.cells[data.ga].sharerNodes == []
    requires Returns(Alter(w.cache, data.ga, CacheItem(data.ga, data.data, now, now)).outcome)
    requires Key(data.ga) !in r.cache.items
    requires Returns(Add(r.cache, data.ga, CacheItem(data.ga, data.data, later, later)).outcome)
    ensures CanWait(w, data, Answers(true, true, 0, data.ga, false, []), now)
    ensures WriteElsewhere(w, data, Answers(true, true, 0, data.ga, false, []), now).node.sent == w.sent + said
    ensures HeardCall(lock, home, w.id, said, lock1, home1)
    ensures var read := ReadElsewhere(r, data.ga, Answers(true, true, data.data, data.ga, false, []), later);
      read.result == (data.data, true) && read.node.sent == r.sent + heard
    ensures HeardCall(lock1, home1, r.id, heard, lock2, home2)
    ensures home2.sent == home1.sent + [Sent(r.id, DATA(data.data)), Sent(r.id, RESET)]
    ensures home2.cells == home.cells[data.ga := SaveData(data.data, SHARED, w.id, [r.id])]
    ensures Quiet(lock1) && Quiet(lock2)
  {
    assert StateOf(lock.locks, data.ga.id) == UNLOCKED;
    said, lock1, home1 := WriteArrives(lock, home, w, data, now);
    QuietAfter(lock.locks, lock1, data.ga.id);
    assert StateOf(lock1.locks, data.ga.id) == UNLOCKED;
    heard, lock2, home2 := ReadArrives(lock1, home1, r, data.ga, later);
    QuietAfter(lock1.locks, lock2, data.ga.id);
    assert [] + [r.id] == [r.id];
  }

  /** The two requests that main.cpp's client sends to the home. */
  function ClientSays(ga: GlobalAddress, size: uint64, v: uint64, w: uint64): seq<Sent> {
    [WriteRequest(Data(size, v, ga), 2000), Sent(3000, RESET), WriteRequest(Data(size, w, ga), 2000), Sent(3000, RESET)]
  }

  /** The calls of main.cpp's client, which is the lock node itself: it writes a block of
      the home and reads it twice, writes it again and reads it. Every read returns the
      value written last, and only the writes speak to the home; no lock is left. */
  lemma ClientOnLockNode(n: NodeValue, ga: GlobalAddress, size: uint64, v: uint64, w: uint64)
    returns (n1: NodeValue, n2: NodeValue, n3: NodeValue, n4: NodeValue, n5: NodeValue)
    requires n.id == 2000 && Quiet(n) && n.cache == EMPTY_CACHE && ga.size <= CAPACITY
    ensures Writes(n, Data(size, v, ga), 1, n1)
    ensures ReadElsewhere(n1, ga, Granting(ga), 2) == Outcome(n2, (v, true))
    ensures ReadElsewhere(n2, ga, Granting(ga), 3) == Outcome(n3, (v, true))
    ensures Writes(n3, Data(size, w, ga), 4, n4)
    ensures ReadElsewhere(n4, ga, Granting(ga), 5) == Outcome(n5, (w, true))
    ensures Quiet(n5) && n5.sent == n.sent + ClientSays(ga, size, v, w)
  {
    n1 := ClientWrites(n, Data(size, v, ga), 1);
    n2 := ClientReads(n1, ga, 2);
    n3 := ClientReads(n2, ga, 3);
    n4 := ClientWrites(n3, Data(size, w, ga), 4);
    n5 := ClientReads(n4, ga, 5);
  }

  /** A home that hears them has the second value, owned by the client. */
  lemma ClientIsHeard(home: NodeValue, ga: GlobalAddress, size: uint64, v: uint64, w: uint64)
    requires home.id == 3000
    requires ga in home.cells && SharedMeansSharers(home.cells[ga]) && home.cells[ga].sharerNodes == []
    ensures var said := ClientSays(ga, size, v, w);
      && Hosts(home, Arriving(2000, said[0].message)) && Served(home, Arriving(2000, said[0].message)).result
      && var once := Hears(home, 2000, said, 0);
         && Hosts(once, Arriving(2000, said[2].message)) && Served(once, Arriving(2000, said[2].message)).result
         && Hears(once, 2000, said, 2).cells == home.cells[ga := SaveData(w, EXCLUS, 2000, [])]
  {
    var said := ClientSays(ga, size, v, w);
    WriteHeard(home, 2000, said, 0, Data(size, v, ga));
    WriteHeard(Hears(home, 2000, said, 0), 2000, said, 2, Data(size, w, ga));
  }

  /** The home answers a write with its address and makes nobody wait. */
  function Granting(ga: GlobalAddress): Answers {
    Answers(true, true, 0, ga, false, [])
  }

  ghost predicate Writes(n: NodeValue, data: Data, now: nat, m: NodeValue) {
    && CanWait(n, data, Granting(data.ga), now)
    && WriteElsewhere(n, data, Granting(data.ga), now) == Outcome(m, (Some(data.ga), true))
  }

  /** A write of the lock node that overwrites its copy or has room for one. */
  lemma ClientWrites(n: NodeValue, data: Data, now: nat) returns (m: NodeValue)
    requires n.id == 2000 && Quiet(n) && data.ga.size <= CAPACITY
    requires Key(data.ga) in n.cache.items || data.ga.size <= n.cache.available
    ensures Writes(n, data, now, m)
    ensures m.id == 2000 && Quiet(m) && m.sent == n.sent + [WriteRequest(data, 2000), Sent(3000, RESET)]
    ensures Key(data.ga) in m.cache.items && m.cache.items[Key(data.ga)].data == data.data
  {
    var net := Granting(data.ga);
    var item := CacheItem(data.ga, data.data, now, now);
    assert StateOf(n.locks, data.ga.id) == UNLOCKED;
    WriteAtLockNode(n, data, net, now);
    if Key(data.ga) in n.cache.items {
      OverwriteInPlace(n.cache, data.ga, item);
    } else {
      StoreWithRoom(n.cache, data.ga, item);
    }
    m := WriteElsewhere(n, data, net, now).node;
    QuietAfter(n.locks, m, data.ga.id);
  }

  /** A read of the lock node that hits. */
  lemma ClientReads(n: NodeValue, ga: GlobalAddress, now: nat) returns (m: NodeValue)
    requires n.id == 2000 && Quiet(n) && Key(ga) in n.cache.items
    ensures ReadElsewhere(n, ga, Granting(ga), now)
         == Outcome(m, (n.cache.items[Key(ga)].data, true))
    ensures m.id == 2000 && Quiet(m) && m.sent == n.sent
    ensures Key(ga) in m.cache.items && m.cache.items[Key(ga)].data == n.cache.items[Key(ga)].data
  {
    assert StateOf(n.locks, ga.id) == UNLOCKED;
    var net := Granting(ga);
    ReadAtLockNode(n, ga, net, now);
    m := ReadElsewhere(n, ga, net, now).node;
    QuietAfter(n.locks, m, ga.id);
  }
}
