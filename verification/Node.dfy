/** The node object (src/Node.h) with the methods of src/api.cpp, src/Receive.cpp
    and src/Send.cpp, updating locks, memory, cache and the log of sent messages. */
module NodeObject {
  import opened Defs
  import opened CacheModel
  import opened CacheObject
  import opened Directory
  import opened Locks
  import opened NodeModel

  /** The addresses of one node and size with a pointer below n. */
  function Below(n: nat, size: uint64, id: uint16): set<GlobalAddress>
    requires n <= TWO_TO_THE_64
  {
    set ptr: uint64 | 0 <= ptr < n :: GlobalAddress(size, ptr, id)
  }

  lemma {:induction false} BelowCount(n: nat, size: uint64, id: uint16)
    requires n <= TWO_TO_THE_64
    ensures |Below(n, size, id)| == n
  {
    if n > 0 {
      BelowCount(n - 1, size, id);
      assert Below(n, size, id) == Below(n - 1, size, id) + {GlobalAddress(size, n - 1, id)};
    }
  }

  /** While memory is not exhausted there is a pointer to return. */
  lemma FreshExists(used: set<GlobalAddress>, size: uint64, id: uint16)
    requires |used| < TWO_TO_THE_64
    ensures exists ptr: uint64 :: GlobalAddress(size, ptr, id) !in used
  {
    BelowCount(TWO_TO_THE_64, size, id);
    if Below(TWO_TO_THE_64, size, id) <= used {
      SubsetCount(Below(TWO_TO_THE_64, size, id), used);
    }
  }

  lemma {:induction false} SubsetCount<T>(a: set<T>, b: set<T>)
    requires a <= b
    ensures |a| <= |b|
  {
    assert b == a + (b - a);
  }

  class Node {
    var id: uint16
    var locks: Table
    var cells: map<GlobalAddress, SaveData>
    const cache: Cache
    var sent: seq<Sent>

    ghost predicate Valid()
      reads this, cache
    {
      cache.Valid()
    }

    ghost function Value(): NodeValue
      reads this, cache
    {
      NodeValue(id, locks, cells, cache.State(), sent)
    }

    constructor (id: uint16)
      ensures Valid() && fresh(cache)
      ensures Value() == NodeValue(id, map[], map[], EMPTY_CACHE, [])
    {
      this.id := id;
      locks := map[];
      cells := map[];
      cache := new Cache();
      sent := [];
    }

    predicate IsLocal(ga: GlobalAddress)
      reads this
    {
      ga.id == id
    }

    method SetLock(lockId: uint16, state: LockState, reply: bool) returns (granted: bool)
      modifies this`locks, this`sent
      ensures Outcome(Value(), granted) == AskLock(old(Value()), Request(lockId, state), reply)
    {
      if id == LOCK_NODE {
        if lockId in locks {
          if state == UNLOCKED {
            locks := locks[lockId := state];
            return true;
          } else if state == EXCLUSIVE && locks[lockId] == UNLOCKED {
            locks := locks[lockId := state];
            return true;
          } else if state == SHAREDLOCK && locks[lockId] != EXCLUSIVE {
            locks := locks[lockId := state];
            return true;
          } else {
            return false;
          }
        } else {
          locks := locks[lockId := state];
          return true;
        }
      } else {
        sent := sent + [Sent(LOCK_NODE, LOCKS(Request(lockId, state))), Sent(LOCK_NODE, RESET)];
        granted := reply;
      }
    }

    /** The allocator's pointer and the initial data are arbitrary; the cell in front
        of the block is taken to be unshared. */
    method Malloc(size: uint64) returns (ga: GlobalAddress)
      requires |cells| < TWO_TO_THE_64
      modifies this`cells
      ensures ga !in old(cells) && ga.size == size && ga.id == id
      ensures cells.Keys == old(cells).Keys + {ga}
      ensures forall a :: a in old(cells) ==> cells[a] == old(cells)[a]
      ensures cells[ga].iscached == UNSHARED && cells[ga].sharerNodes == []
    {
      assert |cells| == |cells.Keys|;
      FreshExists(cells.Keys, size, id);
      var ptr: uint64 :| GlobalAddress(size, ptr, id) !in cells;
      var data: uint64, owner: uint16 := *, *;
      ga := Allocate(size, Block(ptr, data, owner));
    }

    /** What Malloc does with the block that the allocator returns. */
    method Allocate(size: uint64, block: Block) returns (ga: GlobalAddress)
      modifies this`cells
      ensures Value() == Allocated(old(Value()), size, block)
      ensures ga == GlobalAddress(size, block.ptr, id)
    {
      ga := GlobalAddress(size, block.ptr, id);
      cells := cells[ga := SaveData(block.data, UNSHARED, block.owner, [])];
    }

    method BroadcastInvalidations(nodes: seq<uint16>, ga: GlobalAddress)
      modifies this`sent
      ensures sent == old(sent) + Invalidations(nodes, ga, id)
    {
      var i := 0;
      while i < |nodes|
        invariant 0 <= i <= |nodes|
        invariant sent == old(sent) + Invalidations(nodes[..i], ga, id)
      {
        assert nodes[..i + 1][..i] == nodes[..i];
        sent := sent + [Sent(nodes[i], INVALIDATE(ga.Sendable(id))), Sent(nodes[i], RESET)];
        i := i + 1;
      }
      assert nodes[..|nodes|] == nodes;
    }

    /** Frees a block of this node, after invalidating its sharers, or asks the home to
        free another one. */
    method Free(ga: GlobalAddress, answer: GlobalAddress) returns (res: GlobalAddress)
      requires IsLocal(ga) ==> ga in cells
      modifies this`cells, this`sent
      ensures Outcome(Value(), res) == Freed(old(Value()), ga, answer)
    {
      if IsLocal(ga) {
        var d := cells[ga];
        if d.iscached >= 0 && d.sharerNodes != [] {
          BroadcastInvalidations(d.sharerNodes, ga);
        }
        cells := cells - {ga};
        res := GlobalAddress(0, 0, ga.id);
      } else {
        sent := sent + [Sent(PORT, FREE(ga.Sendable(id))), Sent(PORT, RESET)];
        res := answer;
      }
    }

    /** performRead on this node's memory: the cell, unless its state is corrupt. */
    function LocalCell(ga: GlobalAddress): (cell: Option<SaveData>)
      requires ga in cells
      reads this
      ensures cell == if Readable(cells[ga]) then Some(cells[ga]) else None
    {
      var data := cells[ga];
      if data.iscached < 0 || data.iscached > 2 then None else Some(data)
    }

    /** Node::read. The value of a local cell is read after the unlock; a refused
        lock reads as zero. `back` tells whether the call comes back. */
    method Read(ga: GlobalAddress, net: Answers, now: nat) returns (v: uint64, back: bool)
      requires Valid() && now > 0
      requires IsLocal(ga) ==> ga in cells && Readable(cells[ga])
      modifies this`locks, this`sent, cache
      ensures Valid()
      ensures IsLocal(ga) ==> back && Outcome(Value(), v) == ReadOwn(old(Value()), ga, net)
      ensures !IsLocal(ga) ==> Outcome(Value(), (v, back)) == ReadElsewhere(old(Value()), ga, net, now)
    {
      back := true;
      var granted := SetLock(ga.id, SHAREDLOCK, net.lock);
      if granted {
        if IsLocal(ga) {
          var result := LocalCell(ga);
          var _ := SetLock(ga.id, UNLOCKED, net.unlock);
          v := cells[ga].data;
        } else {
          v, back := PerformRead(ga, id, net, now);
          if back {
            var _ := SetLock(ga.id, UNLOCKED, net.unlock);
          }
        }
      } else {
        v := 0;
      }
    }

    /** Node::write. */
    method Write(data: Data, net: Answers, now: nat) returns (result: Option<GlobalAddress>, back: bool)
      requires Valid() && now > 0
      requires IsLocal(data.ga) ==> data.ga in cells
      requires !IsLocal(data.ga) ==> CanWait(Value(), data, net, now)
      modifies this, cache
      ensures Valid() && id == old(id)
      ensures IsLocal(data.ga) ==> back && Outcome(Value(), result) == WriteOwn(old(Value()), data, net)
      ensures !IsLocal(data.ga) ==> Outcome(Value(), (result, back)) == WriteElsewhere(old(Value()), data, net, now)
    {
      result, back := None, true;
      var granted := SetLock(data.ga.id, EXCLUSIVE, net.lock);
      if granted {
        if IsLocal(data.ga) {
          StoreOwnCell(data);
          result := Some(data.ga);
        } else {
          var address;
          address, back := PerformWrite(data, id, net, now);
          if !back {
            return;
          }
          result := Some(address);
        }
        var _ := SetLock(data.ga.id, UNLOCKED, net.unlock);
      }
    }

    /** The local branch of Node::write: invalidate the sharers, then overwrite. */
    method StoreOwnCell(data: Data)
      requires data.ga in cells
      modifies this`cells, this`sent
      ensures Value() == StoreOwn(old(Value()), data)
    {
      var d := cells[data.ga];
      if d.iscached >= 0 && d.sharerNodes != [] && d.iscached < 3 {
        BroadcastInvalidations(d.sharerNodes, data.ga);
      }
      cells := cells[data.ga := SaveData(data.data, UNSHARED, id, [])];
    }

    // --- The home's handlers ---

    method HandleRead(sga: SendGlobalAddr)
      requires Hosts(Value(), InRead(sga))
      modifies this`cells, this`sent
      ensures Value() == HandledRead(old(Value()), sga)
    {
      var gaddr := sga.Received();
      var data := LocalCell(gaddr).value;
      cells := cells[gaddr := data.(iscached := SHARED, sharerNodes := data.sharerNodes + [sga.srcID])];
      sent := sent + [Sent(sga.srcID, DATA(data.data))];
    }

    /** performWrite at the home on behalf of a remote node. */
    method StoreFor(data: Data, srcID: uint16)
      requires data.ga in cells
      modifies this`cells
      ensures cells == old(cells)[data.ga := RemotelyWritten(data.data, srcID)]
    {
      cells := cells[data.ga := SaveData(data.data, EXCLUS, srcID, [])];
    }

    method HandleWrite(sd: SendingData) returns (connected: bool)
      requires Hosts(Value(), InWrite(sd))
      modifies this`cells, this`sent
      ensures Outcome(Value(), connected) == HandledWrite(old(Value()), sd)
    {
      var data, src := sd.Received(), sd.sga.srcID;
      var olddata := LocalCell(data.ga);
      if olddata.Some? {
        if olddata.value.iscached > UNSHARED && olddata.value.sharerNodes != [] && olddata.value.iscached < 3 {
          StartInvalidations(data, olddata.value.sharerNodes, src);
          return false;
        } else {
          StoreFor(data, src);
          sent := sent + [Sent(src, ADDRESS(data.ga.Sendable(src)))];
        }
      } else {
        StoreFor(data, src);
        sent := sent + [Sent(src, ADDRESS(data.ga.Sendable(src)))];
      }
      connected := true;
    }

    /** Tells the writer to wait, overwrites, answers, closes, and only then
        invalidates the snapshot. */
    method StartInvalidations(data: Data, nodes: seq<uint16>, srcID: uint16)
      requires data.ga in cells
      modifies this`cells, this`sent
      ensures cells == old(cells)[data.ga := RemotelyWritten(data.data, srcID)]
      ensures sent == old(sent)
        + [Sent(srcID, INVALIDATE(data.ga.Sendable(srcID))), Sent(srcID, ADDRESS(data.ga.Sendable(srcID)))]
        + Invalidations(nodes, data.ga, id)
    {
      sent := sent + [Sent(srcID, INVALIDATE(data.ga.Sendable(srcID)))];
      StoreFor(data, srcID);
      sent := sent + [Sent(srcID, ADDRESS(data.ga.Sendable(srcID)))];
      BroadcastInvalidations(nodes, data.ga);
    }

    method HandleInvalidation(sga: SendGlobalAddr)
      requires Valid()
      modifies this`sent, cache
      ensures Valid()
      ensures Value() == HandledInvalidation(old(Value()), sga)
    {
      var res := cache.RemoveCacheItem(sga.Received());
      sent := sent + [Sent(sga.srcID, REMOVED(res))];
    }

    method HandleLocks(client: uint16, r: Request, answer: bool)
      modifies this`locks, this`sent
      ensures Outcome(Value(), true) == Served(old(Value()), InLock(client, r, answer))
    {
      var lock := SetLock(r.id, r.state, answer);
      sent := sent + [Sent(client, GRANT(lock))];
    }

    method HandleAllocation(sga: SendGlobalAddr, block: Block)
      requires Hosts(Value(), InMalloc(sga, block))
      modifies this`cells, this`sent
      ensures Outcome(Value(), true) == Served(old(Value()), InMalloc(sga, block))
    {
      var gaddr := sga.Received();
      var newgaddr := Allocate(gaddr.size, block);
      sent := sent + [Sent(sga.srcID, ADDRESS(newgaddr.Sendable(sga.srcID)))];
    }

    method HandleFree(sga: SendGlobalAddr, answer: GlobalAddress)
      requires Hosts(Value(), InFree(sga, answer))
      modifies this`cells, this`sent
      ensures Outcome(Value(), true) == Served(old(Value()), InFree(sga, answer))
    {
      var gaddr := sga.Received();
      var res := Free(gaddr, answer);
      sent := sent + [Sent(sga.srcID, ADDRESS(res.Sendable(sga.srcID)))];
    }

    /** One request of a connection; false when it closes the connection. */
    method Receive(rq: Incoming) returns (connected: bool)
      requires Valid() && Hosts(Value(), rq)
      modifies this, cache
      ensures Valid() && id == old(id)
      ensures Outcome(Value(), connected) == Served(old(Value()), rq)
    {
      match rq
      case InRead(sga) =>
        HandleRead(sga);
        return true;
      case InWrite(sd) =>
        connected := HandleWrite(sd);
      case InLock(client, r, answer) =>
        HandleLocks(client, r, answer);
        return true;
      case InMalloc(sga, block) =>
        HandleAllocation(sga, block);
        return true;
      case InFree(sga, answer) =>
        HandleFree(sga, answer);
        return true;
      case InInvalidate(sga) =>
        HandleInvalidation(sga);
        return true;
      case InReset(client) =>
        sent := sent + [Sent(client, RESET)];
        return false;
      case InOther =>
        return true;
    }

    /** Serves one connection until a request closes it. */
    method ConnectAndReceive(rqs: seq<Incoming>) returns (connected: bool)
      requires Valid() && CanServe(Value(), rqs)
      modifies this, cache
      ensures Valid() && id == old(id)
      ensures Outcome(Value(), connected) == ServedAll(old(Value()), rqs)
    {
      connected := true;
      var i := 0;
      while connected && i < |rqs|
        invariant 0 <= i <= |rqs|
        invariant Valid() && id == old(id)
        invariant connected ==>
          CanServe(Value(), rqs[i..]) && ServedAll(old(Value()), rqs) == ServedAll(Value(), rqs[i..])
        invariant !connected ==> ServedAll(old(Value()), rqs) == Outcome(Value(), false)
        decreases |rqs| - i
      {
        assert rqs[i..][1..] == rqs[i + 1..];
        connected := Receive(rqs[i]);
        i := i + 1;
      }
    }

    // --- Accesses to another node's memory ---

    /** performRead elsewhere. When the store does not come back, what the node has
        sent by then stands. */
    method PerformRead(ga: GlobalAddress, srcID: uint16, net: Answers, now: nat) returns (v: uint64, back: bool)
      requires Valid() && !IsLocal(ga) && now > 0
      modifies this`sent, cache
      ensures Valid()
      ensures Outcome(Value(), (v, back)) == Fetched(old(Value()), ga, srcID, net, now)
    {
      var cacheItem := cache.GetCacheItem(ga, now);
      if cacheItem.None? {
        sent := sent + [Sent(PORT, READ(ga.Sendable(srcID)))];
        v := net.data;
        var outcome := cache.AddCacheItem(ga, CacheItem(ga, v, now, now));
        back := Returns(outcome);
        if back {
          sent := sent + [Sent(PORT, RESET)];
        }
      } else {
        v, back := cacheItem.value.data, true;
      }
    }

    /** performWrite elsewhere: alters the own copy, sends the request, waits to be
        invalidated if told to, and closes the connection. */
    method PerformWrite(data: Data, srcID: uint16, net: Answers, now: nat)
      returns (result: GlobalAddress, back: bool)
      requires Valid() && !IsLocal(data.ga) && now > 0
      requires net.wait ==> CanServe(Requested(Value(), data, srcID, now).node, net.incoming)
      modifies this, cache
      ensures Valid() && id == old(id)
      ensures var asked := Requested(old(Value()), data, srcID, now);
        && back == asked.result
        && result == net.address
        && Value() == if back then Finished(asked.node, net) else asked.node
    {
      result := net.address;
      var outcome := cache.AlterCacheItem(CacheItem(data.ga, data.data, now, now), data.ga);
      back := Returns(outcome);
      if back {
        sent := sent + [Sent(PORT, WRITE(data.Sendable(srcID)))];
        if net.wait {
          var _ := ConnectAndReceive(net.incoming);
        }
        sent := sent + [Sent(PORT, RESET)];
      }
    }
  }
}
