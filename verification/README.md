# A verified model of the distributed memory

The repository is a small distributed shared memory. A home node keeps a directory
cell in front of every block it has allocated (value, state, last writer, registered
readers). Other nodes read and write the blocks over one connection at a time and
keep copies in a bounded cache. A lock node keeps a table of shared and exclusive
locks, and a chained hash table stores its values in allocated blocks.

This project models that code in Dafny and proves what it keeps over whole runs.
`dafny verify dfyconfig.toml` checks everything.

## How it is built

| file | what it holds |
|---|---|
| Defs.dfy | addresses, messages, directory cells, lock states |
| Bits.dfy, AddressKey.dfy, MixHash.dfy | exclusive-or on numbers, the cache key, the 32-bit mixing function |
| CacheModel.dfy, Cache.dfy | the bounded cache: its operations on values, and the class that updates its fields |
| Locks.dfy, LockClients.dfy | the lock table, laws of request sequences, clients that unlock what they were granted |
| Directory.dfy | what a read or a write does to a cell, and the three guards |
| Atomic.dfy | the memory as whole reads and writes, with all traces of them |
| Protocol.dfy | the same memory as an interleaving of the threads' steps |
| Refinement.dfy, Runs.dfy, Window.dfy, Bytes.dfy, LockBridge.dfy | the interleaving refines the atomic memory; what follows for every run |
| Calls.dfy | each call takes effect once, between its start and its return, and a read returns what it then read |
| WriteLimit.dfy | what one write does to the copies in the protocol |
| StaleCopies.dfy, ExclusionLimit.dfy, StuckCaches.dfy, WaitingWriter.dfy | runs in which a copy goes stale, a write runs beside a read, a cache is used up, or a writer waits for ever, and when there are none |
| NodeModel.dfy, Node.dfy, CodeBridge.dfy | the node's methods, what each does to locks, memory, cache and the messages sent, and why the protocol's steps are these methods |
| Conversations.dfy | what the calls say to the other nodes, word for word, and what comes of it when those serve just that |
| TableModel.dfy, HashTable.dfy, TableRuns.dfy, EndToEnd.dfy | the hash table as stacks of values, the linked structure, whole runs of it, and programs on the objects |

The two levels of the memory meet in `Runs.InterleavingRefinesAtomic`: each run of
lock, connect, cache, request, reply, invalidate, reconnect, reset and unlock steps
is a run of whole reads and writes with the same events in the same order. A miss
takes effect when the home serves it, a hit when the lookup finds the item, a write
when the home stores it, and an invalidating write when its broadcast ends.
`Calls.CallTakesEffectOnce` adds that this happens exactly once in each call, after
it began and before it returns.

Methods that change state are proved against value functions
(`CacheModel.Add`, `NodeModel.Served`, `TableRuns.Step` and so on); the lemmas are
about those functions, and `CodeBridge` ties the protocol to them: the two kinds of
connection a reader or writer makes, the writer's second connection, the lock requests,
and, under every schedule of the other threads, the broadcasts and the home's own read
and write.

## Where the code differs from its names and comments

The model follows the code.

- `removeOldestItem` removes the item used last, not the one used longest ago
  (src/Cache.cpp:41-44).
- When room must be made, `addCacheItem` makes it and then stores nothing
  (src/Cache.cpp:22-26).
- `removeCacheItem` does not give the bytes back (src/Cache.cpp:32-36). So enough
  invalidations leave an eviction loop with nothing to evict; it never ends.
  `StuckCaches.CacheGetsStuck` leads any remote node there with any block that is not
  empty, by reads of its own and writes of the home; `Bytes.FillStuckExactly` and
  `Bytes.AlterStuckExactly` say when a reader and a writer can go on.
- `addCacheItem` under a key that is filed already takes the size off once more and
  stores nothing (src/Cache.cpp:19-21). The protocol never does this
  (`Bytes.StoresAreOfAbsentKeys`).
- `insert` says "if not exists" but does not look (app/HashTable.h:79-93). A key
  stands for a stack of values.
- Shared locks are not counted (src/api.cpp:123-126). The first reader to leave
  unlocks for all. With one remote node and one address a write can run beside a read
  (`ExclusionLimit.WriteBesideRead`), always after two reads overlapped
  (`LockBridge.WritesAloneUnlessReadsOverlap`).
- A remote writer keeps a copy but is not a sharer (src/api.cpp:172,
  src/api.cpp:180), so the next writer leaves that copy in place. Therefore the
  memory is not flat in general: `StaleCopies.FlatForAllRunsExactly` shows that all
  runs are flat only if there is no remote node or no address. A run is flat when no
  address has a second writer after a remote one (`Runs.RunsAreFlat`), and
  `WriteLimit.HarmlessWriteRun` says of each single write, whatever the threads do
  meanwhile, when it keeps all copies correct.
- A writer that must wait serves one connection and then connects to the home again
  (src/Send.cpp:125-131). With nobody else in a call it can finish exactly if it is in
  the snapshot once, or, on the lock node, also if it is not in it
  (`WaitingWriter.WriterFinishesExactly`). `WaitingWriter.WriterGetsAbandoned` leads
  any two remote nodes and any address to a writer that waits for ever with the lock.
- The cache key separates blocks of one size bracket, but not blocks of different
  brackets (`AddressKey.CrossBracketCollision`).

## Assumptions

- All remotely accessed addresses live on the one home that `defs::port` names, their
  sizes are at most 512, and no two of them share a cache key
  (`Protocol.ValidConfig`). `AddressKey.BracketIsCollisionFree` gives a case in which
  the last one holds.
- Allocation returns fresh addresses whose cell is UNSHARED without sharers.
- Time stamps are after the epoch; a counter replaces the clock. Within one call the
  two stamps of an item and its lookup stamp are taken to be the same.
- `std::hash` of an integer is the integer. `sizeof(defs::SaveData)` is 40.
- A session is a reliable, ordered exchange of requests and replies. A connection to
  the home is possible exactly while it listens; the lock node always answers.
- A remote node accepts an invalidation while its thread is idle or waits in
  `prepareForInvalidate`.
- Answers of other nodes, the allocator's pointer and initial data, and the current
  time are parameters or arbitrary values.

## Model

| member | source | states |
|---|---|---|
| AddressKey.KeyFits | util/GlobalAddressHash.h:17-23 | the key of any address fits the 64-bit word that holds it |
| AddressKey.KeyBits | util/GlobalAddressHash.h:18-23 | each bit of the key is the exclusive-or of the bits of size and pointer and of the node id's bit one place below |
| AddressKey.KeySurvivesTheWire | util/defs.h:40-103 | the wire forms hold the fields in their places and convert back, and sender and receiver use the same cache key whatever the source id |
| AddressKey.KeyCollision | util/GlobalAddressHash.h:17-23 | two blocks of one home collide if and only if sizes and pointers differ in the same binary digits |
| AddressKey.KeySeparation | util/GlobalAddressHash.h:17-23 | disjoint blocks of one power-of-two size bracket, or both below 32 bytes, never share a key |
| AddressKey.CrossBracketCollision | util/GlobalAddressHash.h:17-23 | two given disjoint blocks of different brackets do share a key |
| AddressKey.BracketIsCollisionFree | util/GlobalAddressHash.h:17-23 | the live blocks of one home in one size bracket are collision-free |
| Bits.XorIsBitwise | util/GlobalAddressHash.h:22 | the exclusive-or of the model is the exclusive-or of each binary digit |
| Bits.ShrIsDivision | app/HashTable.h:27-31 | the right shift of the model is the quotient by a power of two |
| MixHash.HashInFull | app/HashTable.h:26-33 | the hash in terms of exclusive-or, quotients and remainders, with the literals 61, 16, 3, 4, 0x27d4eb2d and 15 of the source |
| MixHash.HashIsBijection | app/HashTable.h:26-33 | the mixing function has a two-sided inverse on all 32-bit words |
| MixHash.BucketsAreEven | app/HashTable.h:47 | each of the 64 buckets is the image of exactly 2^26 keys |
| CacheModel.MakeRoomAccounts | src/Cache.cpp:22-26 | the eviction loop loses no bytes and ends with room if and only if free and cached bytes together cover the request |
| CacheModel.VictimsArePrefix | src/Cache.cpp:38-49 | every victim comes before every survivor in descending order of last use, ties by smaller key |
| CacheModel.LatestIsUsedLast | src/Cache.cpp:38-49 | the item that goes was used no earlier than any other, and has the smallest key among those used then |
| CacheModel.VictimsWereUsedLast | src/Cache.cpp:22-26 | no survivor of the loop was used after a victim |
| CacheModel.VictimsAreShortest | src/Cache.cpp:22-26 | any prefix of that order with enough bytes contains all victims |
| CacheModel.SurvivorsKeepTheirItems | src/Cache.cpp:38-49 | survivors keep their items and the room gained is the sum of the victims' sizes |
| CacheModel.LookupMakesFirstVictim | src/Cache.cpp:51-59 | a lookup stamps the item it finds and nothing else, which makes that item the next victim |
| CacheModel.LookupMiss | src/Cache.cpp:51-59 | a lookup that finds nothing changes nothing |
| CacheModel.StoreWithRoom | src/Cache.cpp:18-21 | with room an absent key is filed and its bytes are taken; a filed key keeps its item and the bytes are taken all the same |
| CacheModel.StoreWithoutRoom | src/Cache.cpp:22-29 | without room nothing is filed; it comes back exactly when free and cached bytes cover the block, else nothing is left; a block above the capacity changes nothing |
| CacheModel.OverwriteInPlace | src/Cache.cpp:62-64 | an overwrite gives a filed key the new item and leaves bytes and other items alone |
| CacheModel.InvalidationKeepsFreeBytes | src/Cache.cpp:32-36 | an invalidation takes out the key and gives no byte back |
| CacheModel.EvictWraps | src/Cache.cpp:47 | the free bytes wrap around a 64-bit word |
| CacheModel.AddAfterMiss | src/Cache.cpp:16-30 | storing an absent address adds at most that address with its data; everything else stays or is forgotten |
| CacheModel.AlterStores | src/Cache.cpp:61-69 | after a write no older data of the address is left in the cache |
| CacheModel.RemoveDrops | src/Cache.cpp:32-36 | an invalidation removes exactly the address it names |
| CacheModel.AddConserves | src/Cache.cpp:16-30 | free, cached and lost bytes add up to the capacity after any store, except that a store under a key already filed loses its size |
| CacheModel.StuckOnlyAfterInvalidations | src/Cache.cpp:23-25 | a store spins for ever if and only if lost bytes and the block exceed the capacity |
| CacheModel.OpRefinesPlainMap | src/Cache.cpp:16-69 | every operation is a step of a partial map: with room a store stores and forgets nothing, an overwrite always stores, without room a store stores nothing and may forget, a lookup changes nothing, an invalidation removes its address |
| CacheModel.HitsReturnLastStored | src/Cache.cpp:16-69 | over every sequence of operations a hit returns what was stored last for that address and not invalidated since |
| CacheObject.Cache.constructor | src/Cache.cpp:10-14 | a new cache is empty with 512 free bytes |
| CacheObject.Cache.AddCacheItem | src/Cache.cpp:16-30 | new state and outcome are those of the value function, for all five ways it can end |
| CacheObject.Cache.RemoveCacheItem | src/Cache.cpp:32-36 | removes the item and tells whether there was one; free bytes stay |
| CacheObject.Cache.FindLatest | src/Cache.cpp:39-46 | the scan finds the item used last, ties by smallest key, and without items the zero item |
| CacheObject.Cache.RemoveOldestItem | src/Cache.cpp:38-49 | evicts that item and gives its bytes back; without items nothing changes |
| CacheObject.Cache.GetCacheItem | src/Cache.cpp:51-59 | a hit is found with a new stamp; a miss changes nothing |
| CacheObject.Cache.AlterCacheItem | src/Cache.cpp:61-69 | overwrites in place or adds |
| Locks.AbsentIsUnlocked | src/api.cpp:110-133 | an absent id behaves as an unlocked one, now and later |
| Locks.TableTellsHistory | src/api.cpp:110-133 | the table's state of an id is what was granted since its last unlock, in both directions |
| Locks.TraceLaw | src/api.cpp:110-133 | after any requests, a request is refused if and only if an exclusive grant is not unlocked, or it is exclusive and a shared grant is not |
| Locks.ExclusiveShutsOut | src/api.cpp:119-128 | after an exclusive grant every shared or exclusive request on the id is refused until an unlock of it |
| Directory.GuardsAgreeExactly | src/api.cpp:39 | on any cell the three guards agree and the cell can be read if and only if its state is one of the three and, when UNSHARED, it has no sharers |
| LockClients.BrokenOnlyAfterOverlap | src/api.cpp:110-133 | an exclusive holder coexists with another holder only in runs in which two readers overlapped before |
| LockClients.OverlapCanBreakExclusion | src/api.cpp:116-126 | wherever two readers overlap, one unlock lets any client that is then idle write beside the other reader, the one that left included |
| LockClients.ExclusionCanBreak | src/api.cpp:116-126 | for any two clients and any id there is such a run from an empty table |
| LockClients.QuietMeansUnlocked | src/api.cpp:61-66 | when no client is inside a read or a write every lock is unlocked |
| LockBridge.HolderRunIsRun | src/api.cpp:142-168 | the lock requests of every interleaving are a run of such clients |
| LockBridge.WritesAloneUnlessReadsOverlap | src/api.cpp:142-168 | in every interleaving a write overlaps another access only if two reads overlapped earlier |
| LockBridge.QuietIsUnlocked | src/api.cpp:61-66 | when no read or write is in flight the home's lock is unlocked |
| ExclusionLimit.WriteBesideRead | src/api.cpp:110-168 | for every remote node and address there is a run of the protocol in which the home writes beside that node's read |
| ExclusionLimit.ExclusionForAllRunsExactly | src/api.cpp:110-168 | writes are alone in all runs of a configuration if and only if it has no remote node or no address |
| Atomic.TraceInvariant | src/Receive.cpp:122-170 | in every reachable memory the cells hold the last write, the sharers are the misses since it, and each copy is what its node obtained last |
| Atomic.DirectoryAgreement | src/Receive.cpp:122-170 | a copy of a node that is sharer or owner equals the home's data |
| Atomic.StaleExplained | src/api.cpp:170-184 | a copy of any other node is the last value that node wrote, with a later write by someone else |
| Atomic.FetchedIsNeverStale | src/Receive.cpp:148-150 | a copy obtained by a miss equals the home's data and the last write |
| Atomic.FlatMemory | src/api.cpp:61-190 | with one writer per address after a remote write, every read returns the last value written |
| Atomic.OnlyHitsCanBeStale | src/Receive.cpp:122-135 | whoever writes, misses and the home's own reads return the last value written |
| Atomic.CoherenceDecidesReads | src/api.cpp:72-107 | every possible next read is right if and only if all copies equal the home's data |
| Atomic.WriteKeepsCoherence | src/Receive.cpp:148-157 | a write keeps all copies correct if and only if every other node with a copy is a registered reader or holds that value already |
| Refinement.InvStep | src/Receive.cpp:68-88 | one session at a time, cache contents and broadcast progress are kept by every step |
| Refinement.SimStep | src/Receive.cpp:137-216 | every step is one whole read or write, or none, up to forgetting |
| Runs.InvRun | src/Receive.cpp:68-88 | the invariant holds in every reachable state |
| Runs.InterleavingRefinesAtomic | src/Receive.cpp:68-88 | every interleaving is a run of whole reads and writes with the same events |
| Runs.RunsAreFlat | src/api.cpp:61-190 | every interleaving with one writer per address after a remote write has only reads of the last value written |
| Runs.QuiescentAgreement | src/Receive.cpp:122-170 | directory agreement whenever the home listens, in every run |
| Runs.QuiescentStaleness | src/api.cpp:170-184 | the exact explanation of stale copies whenever the home listens, in every run |
| Runs.QuiescentFetched | src/Receive.cpp:148-150 | a copy obtained by a miss is current and registered whenever the home listens |
| Runs.GuardsAlwaysAgree | src/api.cpp:39 | at every moment the guards of free, local write and remote write agree, and the home's read of a cell never fails |
| Runs.SharersAreMissesSinceWrite | src/Receive.cpp:127-128 | at every moment SHARED means that there are sharers, and the sharer list is, in order and with repeats, the misses served since the last write that took effect; of a cell being overwritten under a broadcast the snapshot is that list and no sharers are left |
| Runs.DirectoryMatchesTrace | src/api.cpp:155-173 | in every state of every run a cell has the last value, the last writer, and is EXCLUS if and only if that was a remote node and no miss was served since |
| Runs.QuiescentCopiesDecideReads | src/api.cpp:72-107 | whenever the home listens, every possible next read is right if and only if all cached copies equal the home's data |
| WriteLimit.HarmlessWriteRun | src/Receive.cpp:137-216 | from a quiescent state with right copies, every run with just one write, of whatever steps, ends with right copies if and only if every other node with a copy was a registered reader or held that value already |
| Calls.CallsMatchEvents | src/api.cpp:61-190 | in every run the calls a node has started are as many as its events, plus one while its call is pending |
| Calls.CallTakesEffectOnce | src/api.cpp:61-190 | a call that is no longer pending has had exactly one event, after its own start |
| Calls.FinishedRead | src/api.cpp:61-107 | the value a read is about to return is that of this event of its own |
| Calls.FinishedWrite | src/api.cpp:142-190 | a write that is about to return has had its event, with its own value |
| Calls.ReadsReturnLastWrite | src/api.cpp:61-107 | with one writer per address after a remote write, every read returns the value of the last write at a moment between its start and its return |
| WaitingWriter.WriterFinishesExactly | src/Send.cpp:119-132 | a waiting writer, with nobody else in a call, can ever finish if and only if it is in the snapshot once, or is the lock node and not in it |
| WaitingWriter.AbandonedForEver | src/Send.cpp:119-132 | a waiting writer that is off the lock node and not to be told waits in every continuation, and no request for the lock is granted any more |
| WaitingWriter.DeadlockedForEver | src/Send.cpp:119-144 | a waiting writer that must be told twice never finishes in any continuation, nor is the lock granted |
| WaitingWriter.WriterGetsAbandoned | src/Send.cpp:119-132 | for any two remote nodes and any address a read by one and a write by the other, not on the lock node, lead there |
| StaleCopies.SecondWriterLeavesStaleCopy | src/api.cpp:170-184 | for any two remote nodes, any address and any values there is a run in which the first writer then reads its old value |
| StaleCopies.HomeWriterLeavesStaleCopy | src/api.cpp:148-158 | so there is with a write of the home's own |
| StaleCopies.FlatForAllRunsExactly | src/api.cpp:61-190 | all runs of a configuration are flat if and only if it has no remote node or no address |
| Window.WindowIsClosed | src/Receive.cpp:206-214 | during a broadcast nobody gains a copy and every read is a hit on a copy its node had when it began |
| Window.WriterIsHeldBack | src/Send.cpp:119-132 | during a broadcast the writer is still in prepareForInvalidate, before its reconnect and its unlock |
| Window.NewValueStaysHidden | src/Receive.cpp:196-214 | from the overwrite to the end of the broadcast every read returns a copy from before the overwrite |
| Window.WindowClosesEmpty | src/Send.cpp:134-144 | the broadcast ends only when no node of the snapshot has a copy |
| Bytes.BytesAreConserved | src/Cache.cpp:10-49 | in every reachable state of every node free, cached and lost bytes add up to 512 |
| Bytes.FillStuckExactly | src/api.cpp:95 | in every run a reader with its reply can go on if and only if the lost bytes leave room for the block |
| Bytes.AlterStuckExactly | src/api.cpp:180 | in every run a connected writer can go on if and only if it has a copy or the lost bytes leave room for the block |
| Bytes.StoresAreOfAbsentKeys | src/Cache.cpp:19-21 | no store of any run meets a key that is filed already |
| StuckCaches.CacheGetsStuck | src/Cache.cpp:22-36 | for every remote node and every block that is not empty there is a run that leaves the node in the endless eviction loop |
| StuckCaches.NeverStuckExactly | src/Cache.cpp:22-36 | no reader or writer of any run gets stuck if and only if there is no remote node or all blocks are empty |
| NodeModel.OwnAccessIsGranted | src/api.cpp:61-168 | on the lock node, with no lock held, an own read or write is never refused and leaves all locks unlocked |
| NodeModel.OwnReadAfterWrite | src/api.cpp:142-168 | there a read returns the value written, and other addresses keep theirs |
| NodeModel.InvalidationsAt | src/Send.cpp:134-144 | the broadcast sends one invalidation and one reset to each listed node, in order |
| NodeModel.FreeDropsCopies | src/api.cpp:35-46 | a freed block is gone, and each registered reader is sent a message on which any node drops exactly its copy |
| NodeModel.OwnWriteDropsCopies | src/api.cpp:148-158 | the same for a local write, whose cell then has the data and no readers |
| NodeModel.ServedWriteDropsCopies | src/Receive.cpp:196-216 | the same for a served write; the writer is first told to wait and answered, before any reader is told |
| NodeModel.RemoteWriteThenRead | src/api.cpp:170-190 | a remote writer reads its own value back while it has a copy, asking nobody, and asks the home otherwise |
| NodeModel.InvalidatedWriterAsksAgain | src/Send.cpp:119-132 | a writer invalidated during its wait has no copy and asks the home next |
| NodeModel.AllocateThenFree | src/Receive.cpp:90-110 | a client that allocates and frees over one connection leaves the memory as it was and gets both answers |
| NodeModel.NothingServedAfterClose | src/Receive.cpp:84-87 | requests after one that closes the connection have no effect |
| NodeModel.ReadSession | src/Receive.cpp:122-135 | a reader's session registers it, answers with the data and ends |
| Conversations.RefusedElsewhere | src/api.cpp:134-146 | off the lock node a refused access to another node's memory says nothing but its lock request, changes nothing, and gives zero or no address |
| Conversations.RefusedOwn | src/api.cpp:134-146 | so does a refused access to the node's own memory |
| Conversations.RefusedAtLockNode | src/api.cpp:110-133 | on the lock node a write is refused when the lock is held, a read when it is held exclusively; a refused call says and changes nothing |
| Conversations.ReadTalks | src/api.cpp:61-99 | all that a granted read says, asks and leaves: shared lock first, unlock last, in between nothing or one connection to the home |
| Conversations.WriteTalks | src/api.cpp:142-190 | all that a granted write says, asks and leaves: exclusive lock first, unlock last, in between the request with size, value and address and the close |
| Conversations.WaitingWriteTalks | src/Send.cpp:83-132 | the same with the wait: what comes in is served after the request and before the second close |
| Conversations.OwnAccessTalks | src/api.cpp:61-168 | all that granted accesses to own memory say: the invalidations of the readers come between lock and unlock |
| Conversations.ReadAtLockNode | src/api.cpp:61-70 | a read on the lock node that comes back leaves its lock unlocked and all others alone |
| Conversations.WriteAtLockNode | src/api.cpp:142-168 | so does a write |
| Conversations.WaitingWriteAtLockNode | src/api.cpp:142-168 | a write that waits there serves with its lock taken and unlocks it in the end |
| Conversations.RemoteAccessKeepsQuiet | src/api.cpp:61-168 | on the lock node with no lock held remote accesses are granted and leave no lock |
| Conversations.FreeTalks | src/api.cpp:47-58 | freeing another node's block is one connection to the home, whose answer is the result |
| Conversations.LockRequestIsPassedOn | src/Receive.cpp:112-120 | a lock request at another node is passed on and answered with the lock node's answer |
| Conversations.FreeRequestIsPassedOn | src/Receive.cpp:101-110 | so is a request to free another node's block |
| Conversations.AllocationIsServed | src/Receive.cpp:90-99 | the block given, its cell, and the answer to the client |
| Conversations.InvalidationAnswer | src/Receive.cpp:172-181 | an invalidated node answers how many items it removed |
| Conversations.OtherRequestsAreIgnored | src/Receive.cpp:62-64 | an unknown request changes nothing and keeps the connection |
| Conversations.WriteArrives | src/api.cpp:142-190 | when lock node and home serve just what a write says, the lock is taken and given back, the home has the value and the writer its answer |
| Conversations.ReadArrives | src/api.cpp:61-107 | when they serve just what a read says, the home's answer is what it returns, and the reader is registered |
| Conversations.WrittenThenRead | src/api.cpp:61-190 | what one client writes another one reads |
| Conversations.ClientOnLockNode | main.cpp:52-64 | the writes and reads of the program's client: each read returns the value written last, only the writes speak to the home, no lock is left |
| Conversations.ClientIsHeard | main.cpp:52-64 | a home that hears them has the second value, owned by the client |
| NodeObject.Node.SetLock | src/api.cpp:110-140 | the table, the messages and the answer are those of the value function, on the lock node and elsewhere |
| NodeObject.Node.Malloc | src/api.cpp:12-19 | a block of the requested size that was not live, with an unshared cell; all other cells stay |
| NodeObject.Node.Free | src/api.cpp:35-58 | own blocks are released after their sharers were told; other blocks are the home's affair, with its answer |
| NodeObject.Node.Read | src/api.cpp:61-70 | whole new state and result for local, cached, fetched and refused reads |
| NodeObject.Node.Write | src/api.cpp:142-168 | whole new state and result for local, remote and refused writes |
| NodeObject.Node.PerformRead | src/api.cpp:81-106 | a hit sends nothing; a miss asks the home, stores the answer and closes |
| NodeObject.Node.PerformWrite | src/api.cpp:175-189 | the own copy is altered, the request sent, the wait served, the connection closed |
| NodeObject.Node.HandleRead | src/Receive.cpp:122-135 | the reader is registered and answered |
| NodeObject.Node.HandleWrite | src/Receive.cpp:137-170 | the connection closes if and only if sharers had to be invalidated |
| NodeObject.Node.StartInvalidations | src/Receive.cpp:196-216 | the writer is told to wait, then the cell is overwritten, then the snapshot is invalidated |
| NodeObject.Node.HandleInvalidation | src/Receive.cpp:172-181 | the item is removed and the count answered |
| NodeObject.Node.HandleLocks | src/Receive.cpp:112-120 | the request is decided by the table, or by the lock node if this is another one, and answered |
| NodeObject.Node.HandleAllocation | src/Receive.cpp:90-99 | a block of the requested size with an unshared cell, answered with its address |
| NodeObject.Node.HandleFree | src/Receive.cpp:101-110 | the block is freed and the result answered |
| NodeObject.Node.Receive | src/Receive.cpp:10-66 | one request of any kind changes the node as the value function says, and tells whether the connection stays open |
| NodeObject.Node.ConnectAndReceive | src/Receive.cpp:68-88 | requests are served in order until one closes the connection |
| CodeBridge.ReadSessionIsCode | src/Receive.cpp:68-135 | all steps of a reader's connection are the home serving its requests and the reader's performRead, and end exactly when that comes back |
| CodeBridge.WriteSessionIsCode | src/Receive.cpp:68-170 | all steps of a writer's connection are the writer's alter and request and the home serving the very request that was sent; with readers the home closes |
| CodeBridge.WaitIsServed | src/Send.cpp:119-132 | an invalidation step at a waiting writer leaves the cache that its wait leaves |
| CodeBridge.SecondConnectionIsCode | src/Send.cpp:128-131 | all steps of the writer's second connection are the home serving its reset, which changes nothing else |
| CodeBridge.InvalidatingWriteIsCode | src/Receive.cpp:196-216 | under every schedule an overwrite and its broadcast give the cells and messages of handleWrite, and each addressed node, and no other, the cache after handleInvalidation, up to stamps of lookups made meanwhile |
| CodeBridge.HomeWriteIsCode | src/api.cpp:148-158 | under every schedule the home's own write, from guard to store, gives the cells and messages of write, and each addressed node, and no other, the cache after handleInvalidation |
| CodeBridge.HomeReadIsCode | src/api.cpp:61-70 | under every schedule the home's own read gives the value of read's local branch, which is fetched after the unlock |
| CodeBridge.LockStepIsServed | src/Receive.cpp:112-120 | a lock step is the lock node serving the request, answer included |
| CodeBridge.LookupIsPerformRead | src/api.cpp:83-84 | its lookup step is performRead's hit |
| TableModel.InsertPushes | app/HashTable.h:86-93 | insert pushes on the stack of its key and leaves other keys alone |
| TableModel.LookupReadsTop | app/HashTable.h:133-145 | get reads the top of the stack |
| TableModel.ErasePops | app/HashTable.h:104-123 | erase pops one value, re-exposing the older one, and leaves other keys alone |
| TableModel.TotalIsSumOfHeights | app/HashTable.h:195-197 | the number of elements is the sum of the heights of all stacks |
| TableModel.SizeZero | app/HashTable.h:204-207 | it is zero if and only if every stack is empty |
| HashTableObject.HashTable.constructor | app/HashTable.h:54-56 | 64 empty chains |
| HashTableObject.HashTable.Walk | app/HashTable.h:105-122 | the walk stops at the first element of the key, with its predecessor, or at the end |
| HashTableObject.HashTable.Insert | app/HashTable.h:86-93 | a fresh block, linked in front, holding the value; every other block and chain stays; chains stay linked and apart |
| HashTableObject.HashTable.Get | app/HashTable.h:133-145 | the value of the first element of the key; table and memory stay |
| HashTableObject.HashTable.Index | app/HashTable.h:156-175 | a found value, or one new element whose unwritten value is returned |
| HashTableObject.HashTable.Erase | app/HashTable.h:104-123 | the first element of the key is gone and its block freed, and nothing else |
| HashTableObject.HashTable.Clear | app/HashTable.h:212-222 | all chains are empty, and exactly their blocks are freed, each when it was still live |
| HashTableObject.HashTable.Count | app/HashTable.h:186-188 | one if the key has a value, else zero |
| HashTableObject.HashTable.Size | app/HashTable.h:195-197 | the sum of the heights of all stacks |
| HashTableObject.HashTable.Empty | app/HashTable.h:204-207 | true if and only if every stack is empty |
| TableRuns.StackHoldsUnerased | app/HashTable.h:86-145 | in every run the stack of a key holds its un-erased insertions, found by reading the calls backwards |
| TableRuns.GetsReturnLatest | app/HashTable.h:133-145 | every get of every run returns the latest un-erased insertion of its key, or nothing if there is none |
| TableRuns.RunsConserveBlocks | app/HashTable.h:86-123 | over every run the chains' addresses are distinct and live, and the other live blocks stay the same |
| EndToEnd.Run | app/HashTable.h:86-222 | any program on a table object is a run of the table model |
| EndToEnd.Execute | app/HashTable.h:86-222 | any program on the objects gets these answers and conserves the blocks |

## Left out

- NodeObject.Node.Malloc: the remote fallback when the local allocator fails (src/api.cpp:20-31) is not modelled, and the content of the new cell is assumed unshared, because the code never initialises it.
- NodeObject.Node.Free: the home's answer to the release of another node's block is a parameter; reuse of a freed address by remote copies is not modelled.
- NodeObject.Node.HandleRead: a read request for a block that the node does not have is not served; the code would pass it on and then write directory fields into the raw reply.
- NodeObject.Node.HandleWrite: a write request for a block that the node does not have is not served; the code would pass it on after reading directory fields from the raw reply.
- NodeObject.Node.Receive: the same requests, and blocks freed here that are not live.
- NodeObject.Node.ConnectAndReceive: the same requests within a connection.
- NodeObject.Node.Read: a local cell with a corrupt state is excluded, because the code then dereferences a null pointer; `Runs.GuardsAlwaysAgree` shows that the home never meets one.
- NodeObject.Node.PerformRead: the answer of the home is a parameter here; the protocol supplies it.
- NodeObject.Node.PerformWrite: the requests served while the writer waits are a parameter here; the protocol supplies them.
- CacheObject.Cache.AddCacheItem: a loop that never ends and the abort for blocks above 512 bytes are reported as outcomes; the protocol has no step after them.
- HashTableObject.HashTable.Index: the returned reference, which points at a local variable, is modelled as the value only.
- HashTableObject.HashTable.Insert: memory is not exhausted (fewer than 2^64 live blocks); values are 64-bit words.
- HashTableObject.HashTable.Clear: that the elements themselves are not deleted by clear, and the destructor, are not modelled.
- EndToEnd.Execute: one client, running on the lock node, with no other node connected.
- AddressKey.KeySeparation: blocks of different size brackets are not covered, because there it is false.
- Runs.RunsAreFlat: only runs without a second writer after a remote one, because otherwise it is false; `StaleCopies` has the runs.
- Liveness in general; of a waiting writer `WaitingWriter` says when it can finish if nobody else is in a call, not that it will.
- Allocation and release of home blocks while remote nodes are running; the set of addresses is fixed in the protocol.
- Nodes other than the configured home serving remote accesses.
- Sockets, queue pairs, buffers, byte layout of messages, connect retries and time-outs.
- Raw memory: a copy of a cell is the value, not the bytes of a struct that holds a vector.
- Printing, `main.cpp` apart from its server loop and its client's first writes and reads, and the unused `state` field of the cache.
