/** The bounded cache of a node as a value (src/Cache.cpp): what each operation
    does to the byte budget and to the items, and what the eviction loop removes. */
module CacheModel {
  import opened Defs
  import opened AddressKey

  const CAPACITY := 512

  datatype CacheItem = CacheItem(globalAddress: GlobalAddress, data: uint64, created: nat, lastused: nat)

  type Items = map<nat, CacheItem>

  datatype CacheState = CacheState(available: uint64, items: Items)

  /** How an insertion ends: a new entry; an entry that was there already and
      stays; room made but nothing inserted; an eviction loop with nothing left to
      evict, which never ends; a block that exceeds the capacity, which aborts. */
  datatype AddOutcome = Inserted | KeptOld | MadeRoom | Spins | Aborts

  datatype AddResult = AddResult(cache: CacheState, outcome: AddOutcome)

  /** The insertion comes back to its caller. */
  predicate Returns(outcome: AddOutcome) {
    outcome != Spins && outcome != Aborts
  }

  const EMPTY_CACHE := CacheState(CAPACITY, map[])

  // --- The item that removeOldestItem picks ---

  /** j is removed before k: used later, or at the same time and under a smaller key. */
  predicate Before(items: Items, j: nat, k: nat)
    requires j in items && k in items
  {
    items[j].lastused > items[k].lastused || (items[j].lastused == items[k].lastused && j < k)
  }

  ghost predicate IsLatest(items: Items, k: nat) {
    k in items && forall j :: j in items && j != k ==> Before(items, k, j)
  }

  lemma {:induction false} LatestExists(items: Items)
    requires items != map[]
    ensures exists k :: IsLatest(items, k)
    decreases |items|
  {
    var j :| j in items;
    var rest := items - {j};
    if rest == map[] {
      assert items.Keys == {j} by {
        assert forall k :: k in items && k != j ==> k in rest;
      }
      assert IsLatest(items, j);
    } else {
      LatestExists(rest);
      var k :| IsLatest(rest, k);
      assert forall i :: i in items && i != j ==> i in rest && rest[i] == items[i];
      if Before(items, j, k) {
        assert IsLatest(items, j);
      } else {
        assert IsLatest(items, k);
      }
    }
  }

  /** The key of the item that goes first: the most recently used one. */
  ghost function Latest(items: Items): (k: nat)
    requires items != map[]
    ensures IsLatest(items, k)
  {
    LatestExists(items);
    var k :| IsLatest(items, k);
    k
  }

  // --- The eviction loop ---

  function WrapAdd(x: uint64, y: uint64): uint64 {
    (x + y) % TWO_TO_THE_64
  }

  /** One item goes. Without items nothing changes: the scan finds the zero item, whose
      size is added and whose key is not there. */
  ghost function Evict(cache: CacheState): CacheState {
    if cache.items == map[] then cache else
    var k := Latest(cache.items);
    CacheState(WrapAdd(cache.available, cache.items[k].globalAddress.size), cache.items - {k})
  }

  /** The state in which the loop stops, or in which it has nothing left to evict. */
  ghost function MakeRoom(cache: CacheState, size: uint64): CacheState
    decreases |cache.items|
  {
    if cache.available >= size || cache.items == map[] then cache
    else MakeRoom(Evict(cache), size)
  }

  // --- The operations ---

  ghost function Add(cache: CacheState, ga: GlobalAddress, item: CacheItem): AddResult {
    if ga.size > CAPACITY then
      AddResult(cache, Aborts)
    else if cache.available >= ga.size then
      var k := Key(ga);
      var left: uint64 := cache.available - ga.size;
      if k in cache.items
      then AddResult(CacheState(left, cache.items), KeptOld)
      else AddResult(CacheState(left, cache.items[k := item]), Inserted)
    else
      var room := MakeRoom(cache, ga.size);
      AddResult(room, if room.available >= ga.size then MadeRoom else Spins)
  }

  function Remove(cache: CacheState, ga: GlobalAddress): CacheState {
    cache.(items := cache.items - {Key(ga)})
  }

  function Touch(cache: CacheState, ga: GlobalAddress, now: nat): CacheState {
    var k := Key(ga);
    if k in cache.items then cache.(items := cache.items[k := cache.items[k].(lastused := now)]) else cache
  }

  ghost function Alter(cache: CacheState, ga: GlobalAddress, item: CacheItem): AddResult {
    var k := Key(ga);
    if k in cache.items
    then AddResult(cache.(items := cache.items[k := item]), Inserted)
    else Add(cache, ga, item)
  }

  // --- Byte accounting ---

  ghost function SizeSum(items: Items): nat
    decreases |items|
  {
    if items == map[] then 0
    else var k :| k in items; items[k].globalAddress.size + SizeSum(items - {k})
  }

  /** The sum does not depend on the order in which items are taken away. */
  lemma {:induction false} SizeSumRemove(items: Items, k: nat)
    requires k in items
    ensures SizeSum(items) == items[k].globalAddress.size + SizeSum(items - {k})
    decreases |items|
  {
    var j :| j in items && SizeSum(items) == items[j].globalAddress.size + SizeSum(items - {j});
    if j != k {
      SizeSumRemove(items - {j}, k);
      SizeSumRemove(items - {k}, j);
      assert items - {j} - {k} == items - {k} - {j};
    }
  }

  lemma SizeSumInsert(items: Items, k: nat, item: CacheItem)
    requires k !in items
    ensures SizeSum(items[k := item]) == SizeSum(items) + item.globalAddress.size
  {
    SizeSumRemove(items[k := item], k);
    assert items[k := item] - {k} == items;
  }

  lemma SizeSumReplace(items: Items, k: nat, item: CacheItem)
    requires k in items && item.globalAddress.size == items[k].globalAddress.size
    ensures SizeSum(items[k := item]) == SizeSum(items)
  {
    SizeSumRemove(items, k);
    SizeSumRemove(items[k := item], k);
    assert items[k := item] - {k} == items - {k};
  }

  ghost function Restrict(items: Items, keys: set<nat>): Items {
    map k | k in items && k in keys :: items[k]
  }

  // --- What the eviction loop removes ---

  ghost function Victims(cache: CacheState, size: uint64): set<nat> {
    cache.items.Keys - MakeRoom(cache, size).items.Keys
  }

  /** A set of keys that contains, with an item, everything that goes before it. */
  ghost predicate IsPrefix(items: Items, keys: set<nat>) {
    keys <= items.Keys &&
    forall j, k :: j in keys && k in items && k !in keys ==> Before(items, j, k)
  }

  ghost predicate FitsWord(cache: CacheState) {
    cache.available + SizeSum(cache.items) < TWO_TO_THE_64
  }

  lemma EvictAccounts(cache: CacheState)
    requires cache.items != map[] && FitsWord(cache)
    ensures var evicted := Evict(cache);
      evicted.available == cache.available + cache.items[Latest(cache.items)].globalAddress.size &&
      evicted.available + SizeSum(evicted.items) == cache.available + SizeSum(cache.items)
  {
    SizeSumRemove(cache.items, Latest(cache.items));
  }

  /** The loop only takes items away. */
  lemma {:induction false} MakeRoomOnlyRemoves(cache: CacheState, size: uint64)
    ensures var room := MakeRoom(cache, size);
      room.items.Keys <= cache.items.Keys && forall k :: k in room.items ==> room.items[k] == cache.items[k]
    decreases |cache.items|
  {
    if cache.available < size && cache.items != map[] {
      MakeRoomOnlyRemoves(Evict(cache), size);
    }
  }

  /** The loop loses no bytes, and ends with enough room exactly when free and
      cached bytes together cover the request. */
  lemma {:induction false} MakeRoomAccounts(cache: CacheState, size: uint64)
    requires FitsWord(cache)
    ensures var room := MakeRoom(cache, size);
      && room.available + SizeSum(room.items) == cache.available + SizeSum(cache.items)
      && (room.available >= size <==> cache.available + SizeSum(cache.items) >= size)
    decreases |cache.items|
  {
    if cache.available < size && cache.items != map[] {
      EvictAccounts(cache);
      MakeRoomAccounts(Evict(cache), size);
    }
  }

  /** Every victim goes before every survivor: no survivor was used after a victim. */
  lemma {:induction false} VictimsArePrefix(cache: CacheState, size: uint64)
    ensures IsPrefix(cache.items, Victims(cache, size))
    decreases |cache.items|
  {
    if cache.available < size && cache.items != map[] {
      var first := Latest(cache.items);
      var rest := Evict(cache);
      VictimsArePrefix(rest, size);
      VictimsStep(cache, size);
      PrefixStep(cache.items, Victims(rest, size));
    }
  }

  lemma VictimsStep(cache: CacheState, size: uint64)
    requires cache.available < size && cache.items != map[]
    ensures Victims(cache, size) == Victims(Evict(cache), size) + {Latest(cache.items)}
  {
    MakeRoomOnlyRemoves(Evict(cache), size);
  }

  lemma PrefixStep(items: Items, keys: set<nat>)
    requires items != map[] && IsPrefix(items - {Latest(items)}, keys)
    ensures IsPrefix(items, keys + {Latest(items)})
  {
    var first := Latest(items);
    forall j, k | j in keys + {first} && k in items && k !in keys + {first}
      ensures Before(items, j, k)
    {
      if j != first {
        assert Before(items - {first}, j, k);
      }
    }
  }

  /** The survivors keep their items, and the room made is the victims' bytes. */
  lemma SurvivorsKeepTheirItems(cache: CacheState, size: uint64)
    requires FitsWord(cache)
    ensures var room, victims := MakeRoom(cache, size), Victims(cache, size);
      && room.items == Restrict(cache.items, cache.items.Keys - victims)
      && room.available == cache.available + SizeSum(Restrict(cache.items, victims))
  {
    MakeRoomOnlyRemoves(cache, size);
    MakeRoomAccounts(cache, size);
    SizeSumSplit(cache.items, Victims(cache, size));
  }

  lemma {:induction false} SizeSumSplit(items: Items, keys: set<nat>)
    requires keys <= items.Keys
    ensures SizeSum(items) == SizeSum(Restrict(items, keys)) + SizeSum(Restrict(items, items.Keys - keys))
    decreases |items|
  {
    if items == map[] {
      assert Restrict(items, keys) == map[] && Restrict(items, items.Keys - keys) == map[];
    } else {
      var k :| k in items;
      SizeSumRemove(items, k);
      SizeSumSplit(items - {k}, keys - {k});
      RestrictWithout(items, keys, k);
      RestrictWithout(items, items.Keys - keys, k);
      assert items.Keys - keys - {k} == (items - {k}).Keys - (keys - {k});
    }
  }

  /** One item less. */
  lemma RestrictWithout(items: Items, keys: set<nat>, k: nat)
    requires k in items
    ensures SizeSum(Restrict(items, keys))
         == SizeSum(Restrict(items - {k}, keys - {k})) + if k in keys then items[k].globalAddress.size else 0
  {
    var whole := Restrict(items, keys);
    assert Restrict(items - {k}, keys - {k}) == whole - {k};
    if k in keys {
      SizeSumRemove(whole, k);
    } else {
      assert whole - {k} == whole;
    }
  }

  /** The victims are the shortest prefix that makes room: any prefix with enough
      bytes contains them all. */
  lemma {:induction false} VictimsAreShortest(cache: CacheState, size: uint64, keys: set<nat>)
    requires FitsWord(cache)
    requires IsPrefix(cache.items, keys)
    requires cache.available + SizeSum(Restrict(cache.items, keys)) >= size
    ensures Victims(cache, size) <= keys
    decreases |cache.items|
  {
    if cache.available < size && cache.items != map[] {
      var first := Latest(cache.items);
      var rest := Evict(cache);
      EvictAccounts(cache);
      PrefixHasLatest(cache.items, keys);
      var chosen := Restrict(cache.items, keys);
      SizeSumRemove(chosen, first);
      assert chosen - {first} == Restrict(rest.items, keys - {first});
      PrefixShrinks(cache.items, keys);
      VictimsAreShortest(rest, size, keys - {first});
      VictimsStep(cache, size);
    }
  }

  lemma PrefixShrinks(items: Items, keys: set<nat>)
    requires items != map[] && IsPrefix(items, keys)
    ensures IsPrefix(items - {Latest(items)}, keys - {Latest(items)})
  {
    var first := Latest(items);
    forall j, k | j in keys - {first} && k in items - {first} && k !in keys - {first}
      ensures Before(items - {first}, j, k)
    {
      assert Before(items, j, k);
    }
  }

  lemma PrefixHasLatest(items: Items, keys: set<nat>)
    requires items != map[] && IsPrefix(items, keys)
    requires SizeSum(Restrict(items, keys)) > 0
    ensures Latest(items) in keys
  {
    var j :| j in Restrict(items, keys);
    assert Latest(items) !in keys ==> Before(items, j, Latest(items));
    assert j != Latest(items) ==> Before(items, Latest(items), j);
  }

  // --- The cache as a partial map that may forget ---

  /** Items are filed under the key of their own address, which is a known one, and
      are stamped after the epoch. */
  ghost predicate Tagged(cache: CacheState, addrs: set<GlobalAddress>) {
    forall k :: k in cache.items ==>
      var item := cache.items[k];
      item.globalAddress in addrs && Key(item.globalAddress) == k && item.lastused > 0
  }

  /** Address to data, as a lookup sees it. */
  ghost function View(cache: CacheState, addrs: set<GlobalAddress>): map<GlobalAddress, uint64> {
    map a | a in addrs && Key(a) in cache.items :: cache.items[Key(a)].data
  }

  /** small results from big by forgetting entries. */
  ghost predicate Forgets<K, V>(big: map<K, V>, small: map<K, V>) {
    small.Keys <= big.Keys && forall k :: k in small ==> small[k] == big[k]
  }

  /** Free, cached and lost bytes make up the capacity; bytes are lost when an
      invalidation removes an item without giving its bytes back. */
  ghost predicate Conserved(cache: CacheState, lost: nat) {
    cache.available + SizeSum(cache.items) + lost == CAPACITY
  }

  ghost function LostBytes(cache: CacheState, ga: GlobalAddress): nat {
    if Key(ga) in cache.items then cache.items[Key(ga)].globalAddress.size else 0
  }

  lemma MakeRoomForgets(cache: CacheState, addrs: set<GlobalAddress>, size: uint64)
    requires Tagged(cache, addrs)
    ensures Tagged(MakeRoom(cache, size), addrs)
    ensures Forgets(View(cache, addrs), View(MakeRoom(cache, size), addrs))
  {
    MakeRoomOnlyRemoves(cache, size);
  }

  lemma InsertView(cache: CacheState, addrs: set<GlobalAddress>, a: GlobalAddress, item: CacheItem, left: uint64)
    requires CollisionFree(addrs) && Tagged(cache, addrs)
    requires a in addrs && item.globalAddress == a && item.lastused > 0
    ensures var after := CacheState(left, cache.items[Key(a) := item]);
      && Tagged(after, addrs)
      && View(after, addrs) == View(cache, addrs)[a := item.data]
  {
  }

  lemma AddWithRoom(cache: CacheState, addrs: set<GlobalAddress>, a: GlobalAddress, item: CacheItem)
    requires CollisionFree(addrs) && Tagged(cache, addrs)
    requires a in addrs && item.globalAddress == a && item.lastused > 0 && Key(a) !in cache.items
    requires a.size <= CAPACITY && a.size <= cache.available
    ensures var after := Add(cache, a, item).cache;
      Tagged(after, addrs) && Forgets(View(cache, addrs)[a := item.data], View(after, addrs))
  {
    InsertView(cache, addrs, a, item, cache.available - a.size);
  }

  lemma AddWithoutRoom(cache: CacheState, addrs: set<GlobalAddress>, a: GlobalAddress, item: CacheItem)
    requires Tagged(cache, addrs) && a !in View(cache, addrs)
    requires a.size > CAPACITY || a.size > cache.available
    ensures var after := Add(cache, a, item).cache;
      Tagged(after, addrs) && Forgets(View(cache, addrs)[a := item.data], View(after, addrs))
  {
    MakeRoomForgets(cache, addrs, a.size);
  }

  /** Storing after a miss: the address may be there with the new data, and nothing
      else appears. */
  lemma AddAfterMiss(cache: CacheState, addrs: set<GlobalAddress>, a: GlobalAddress, item: CacheItem)
    requires CollisionFree(addrs) && Tagged(cache, addrs)
    requires a in addrs && item.globalAddress == a && item.lastused > 0 && a !in View(cache, addrs)
    ensures var after := Add(cache, a, item).cache;
      Tagged(after, addrs) && Forgets(View(cache, addrs)[a := item.data], View(after, addrs))
  {
    if a.size > CAPACITY || a.size > cache.available {
      AddWithoutRoom(cache, addrs, a, item);
    } else {
      AddWithRoom(cache, addrs, a, item);
    }
  }

  /** A write stores its data or nothing; an older copy of the address never stays. */
  lemma AlterStores(cache: CacheState, addrs: set<GlobalAddress>, a: GlobalAddress, item: CacheItem)
    requires CollisionFree(addrs) && Tagged(cache, addrs)
    requires a in addrs && item.globalAddress == a && item.lastused > 0
    ensures var after := Alter(cache, a, item).cache;
      Tagged(after, addrs) && Forgets(View(cache, addrs)[a := item.data], View(after, addrs))
  {
    if Key(a) in cache.items {
      InsertView(cache, addrs, a, item, cache.available);
    } else {
      AddAfterMiss(cache, addrs, a, item);
    }
  }

  lemma RemoveKeys(cache: CacheState, addrs: set<GlobalAddress>, a: GlobalAddress)
    requires CollisionFree(addrs) && a in addrs
    ensures View(Remove(cache, a), addrs).Keys == View(cache, addrs).Keys - {a}
  {
    var before, after := View(cache, addrs), View(Remove(cache, a), addrs);
    forall b | b in addrs
      ensures b in after <==> b in before && b != a
    {
      assert Key(b) == Key(a) ==> b == a;
    }
  }

  /** An invalidation removes exactly the address it names. */
  lemma RemoveDrops(cache: CacheState, addrs: set<GlobalAddress>, a: GlobalAddress)
    requires CollisionFree(addrs) && Tagged(cache, addrs) && a in addrs
    ensures Tagged(Remove(cache, a), addrs)
    ensures View(Remove(cache, a), addrs) == View(cache, addrs) - {a}
  {
    RemoveKeys(cache, addrs, a);
  }

  /** A lookup only stamps the item it finds. */
  lemma TouchKeeps(cache: CacheState, addrs: set<GlobalAddress>, a: GlobalAddress, now: nat)
    requires Tagged(cache, addrs) && now > 0
    ensures Tagged(Touch(cache, a, now), addrs)
    ensures View(Touch(cache, a, now), addrs) == View(cache, addrs)
  {
  }

  // --- No byte is created, and only invalidations lose any ---

  /** Storing conserves the bytes, unless the key is filed already and there is room:
      then the size is taken off once more and nothing is stored for it. */
  lemma AddConserves(cache: CacheState, a: GlobalAddress, item: CacheItem, lost: nat)
    requires Conserved(cache, lost) && item.globalAddress == a
    ensures var added := Add(cache, a, item);
      Conserved(added.cache, lost + if added.outcome == KeptOld then a.size else 0)
  {
    if cache.available < a.size {
      MakeRoomAccounts(cache, a.size);
    } else if Key(a) !in cache.items {
      SizeSumInsert(cache.items, Key(a), item);
    }
  }

  /** Overwriting an item in place conserves them, as the address has one size. */
  lemma AlterConserves(cache: CacheState, addrs: set<GlobalAddress>, a: GlobalAddress, item: CacheItem, lost: nat)
    requires CollisionFree(addrs) && Tagged(cache, addrs) && a in addrs
    requires Conserved(cache, lost) && item.globalAddress == a
    ensures Conserved(Alter(cache, a, item).cache, lost)
  {
    if Key(a) in cache.items {
      SizeSumReplace(cache.items, Key(a), item);
    } else {
      AddConserves(cache, a, item, lost);
    }
  }

  /** An invalidation loses the bytes of the item it removes. */
  lemma RemoveLoses(cache: CacheState, a: GlobalAddress, lost: nat)
    requires Conserved(cache, lost)
    ensures Conserved(Remove(cache, a), lost + LostBytes(cache, a))
  {
    if Key(a) in cache.items {
      SizeSumRemove(cache.items, Key(a));
    } else {
      assert cache.items - {Key(a)} == cache.items;
    }
  }

  lemma TouchConserves(cache: CacheState, a: GlobalAddress, now: nat, lost: nat)
    requires Conserved(cache, lost)
    ensures Conserved(Touch(cache, a, now), lost)
  {
    var k := Key(a);
    if k in cache.items {
      SizeSumReplace(cache.items, k, cache.items[k].(lastused := now));
    }
  }

  /** Eviction gets stuck exactly when invalidations have used up the room. */
  lemma StuckOnlyAfterInvalidations(cache: CacheState, a: GlobalAddress, item: CacheItem, lost: nat)
    requires Conserved(cache, lost) && a.size <= CAPACITY
    ensures Add(cache, a, item).outcome == Spins <==> lost + a.size > CAPACITY
  {
    MakeRoomAccounts(cache, a.size);
  }

  // --- What each operation does in full ---

  /** The item that goes first was used no earlier than any other, and of those used
      at the same time it has the smallest key. */
  lemma LatestIsUsedLast(items: Items, j: nat)
    requires j in items
    ensures var k := Latest(items);
      && k in items
      && items[k].lastused >= items[j].lastused
      && (items[k].lastused == items[j].lastused ==> k <= j)
  {
    var k := Latest(items);
    assert j != k ==> Before(items, k, j);
  }

  /** So no survivor of the loop was used after a victim. */
  lemma VictimsWereUsedLast(cache: CacheState, size: uint64, victim: nat, survivor: nat)
    requires victim in Victims(cache, size) && survivor in MakeRoom(cache, size).items
    ensures victim in cache.items && survivor in cache.items
    ensures cache.items[victim].lastused >= cache.items[survivor].lastused
    ensures cache.items[victim].lastused == cache.items[survivor].lastused ==> victim < survivor
  {
    VictimsArePrefix(cache, size);
    MakeRoomOnlyRemoves(cache, size);
    assert Before(cache.items, victim, survivor);
  }

  /** A lookup stamps the item it finds and nothing else. Being the last one used, that
      item is then the first one to go. */
  lemma LookupMakesFirstVictim(cache: CacheState, a: GlobalAddress, now: nat)
    requires Key(a) in cache.items && forall k :: k in cache.items ==> cache.items[k].lastused < now
    ensures var after, k := Touch(cache, a, now), Key(a);
      && after.available == cache.available && after.items.Keys == cache.items.Keys
      && after.items[k] == cache.items[k].(lastused := now)
      && (forall j :: j in cache.items && j != k ==> after.items[j] == cache.items[j])
      && IsLatest(after.items, k)
      && Evict(after).items.Keys == cache.items.Keys - {k}
  {
    var after, k := Touch(cache, a, now), Key(a);
    assert IsLatest(after.items, k);
    var j := Latest(after.items);
    assert j != k ==> Before(after.items, j, k) && Before(after.items, k, j);
  }

  /** A lookup that finds nothing changes nothing. */
  lemma LookupMiss(cache: CacheState, a: GlobalAddress, now: nat)
    requires Key(a) !in cache.items
    ensures Touch(cache, a, now) == cache
  {
  }

  /** A store with room files an absent key and takes exactly its bytes; a filed key
      keeps its item and the bytes are taken all the same. */
  lemma StoreWithRoom(cache: CacheState, a: GlobalAddress, item: CacheItem)
    requires a.size <= CAPACITY && a.size <= cache.available
    ensures var added, k := Add(cache, a, item), Key(a);
      && added.outcome == (if k in cache.items then KeptOld else Inserted)
      && added.cache.available + a.size == cache.available
      && added.cache.items.Keys == cache.items.Keys + {k}
      && (forall j :: j in cache.items ==> added.cache.items[j] == cache.items[j])
      && (k !in cache.items ==> added.cache.items[k] == item)
  {
  }

  /** A store without room files nothing. It comes back when the loop has made room,
      and otherwise nothing is left; a block that exceeds the capacity changes nothing. */
  lemma StoreWithoutRoom(cache: CacheState, a: GlobalAddress, item: CacheItem)
    requires FitsWord(cache) && a.size > cache.available
    ensures var added := Add(cache, a, item);
      && added.cache.items.Keys <= cache.items.Keys
      && (forall j :: j in added.cache.items ==> added.cache.items[j] == cache.items[j])
      && (Returns(added.outcome) <==> a.size <= CAPACITY && cache.available + SizeSum(cache.items) >= a.size)
      && (Returns(added.outcome) ==> added.outcome == MadeRoom && added.cache.available >= a.size)
      && (a.size > CAPACITY ==> added == AddResult(cache, Aborts))
      && (!Returns(added.outcome) && a.size <= CAPACITY ==> added.outcome == Spins && added.cache.items == map[])
  {
    MakeRoomOnlyRemoves(cache, a.size);
    MakeRoomAccounts(cache, a.size);
    MakeRoomStops(cache, a.size);
  }

  lemma {:induction false} MakeRoomStops(cache: CacheState, size: uint64)
    ensures var room := MakeRoom(cache, size);
      room.available >= size || room.items == map[]
    decreases |cache.items|
  {
    if cache.available < size && cache.items != map[] {
      MakeRoomStops(Evict(cache), size);
    }
  }

  /** An overwrite gives the filed key the new item, stamps included, in the old one's
      place; no byte changes hands. */
  lemma OverwriteInPlace(cache: CacheState, a: GlobalAddress, item: CacheItem)
    requires Key(a) in cache.items
    ensures var altered, k := Alter(cache, a, item), Key(a);
      && Returns(altered.outcome)
      && altered.cache.available == cache.available
      && altered.cache.items.Keys == cache.items.Keys
      && altered.cache.items[k] == item
      && forall j :: j in cache.items && j != k ==> altered.cache.items[j] == cache.items[j]
  {
  }

  /** An invalidation takes the key out and gives no byte back. */
  lemma InvalidationKeepsFreeBytes(cache: CacheState, a: GlobalAddress)
    ensures var after, k := Remove(cache, a), Key(a);
      && after.available == cache.available
      && after.items.Keys == cache.items.Keys - {k}
      && forall j :: j in after.items ==> after.items[j] == cache.items[j]
  {
  }

  /** An eviction wraps the free bytes around a 64-bit word. */
  lemma EvictWraps(cache: CacheState)
    requires cache.items != map[]
    ensures var size := cache.items[Latest(cache.items)].globalAddress.size;
      exists laps: int :: Evict(cache).available == cache.available + size - laps * TWO_TO_THE_64
  {
    var sum := cache.available + cache.items[Latest(cache.items)].globalAddress.size;
    assert sum == sum / TWO_TO_THE_64 * TWO_TO_THE_64 + sum % TWO_TO_THE_64;
    assert Evict(cache).available == sum - sum / TWO_TO_THE_64 * TWO_TO_THE_64;
  }

  // --- Whole runs of one cache ---

  datatype Op =
    | AddOp(a: GlobalAddress, d: uint64, now: nat)
    | AlterOp(a: GlobalAddress, d: uint64, now: nat)
    | GetOp(a: GlobalAddress, now: nat)
    | RemoveOp(a: GlobalAddress)

  ghost function Apply(cache: CacheState, op: Op): CacheState {
    match op
    case AddOp(a, d, now) => Add(cache, a, CacheItem(a, d, now, now)).cache
    case AlterOp(a, d, now) => Alter(cache, a, CacheItem(a, d, now, now)).cache
    case GetOp(a, now) => Touch(cache, a, now)
    case RemoveOp(a) => Remove(cache, a)
  }

  ghost function Run(ops: seq<Op>): CacheState {
    if ops == [] then EMPTY_CACHE else Apply(Run(ops[..|ops| - 1]), ops[|ops| - 1])
  }

  ghost predicate LegalOps(ops: seq<Op>, addrs: set<GlobalAddress>) {
    forall i :: 0 <= i < |ops| ==> ops[i].a in addrs && (ops[i].RemoveOp? || ops[i].now > 0)
  }

  /** What was stored last for an address and not invalidated since. Adding an
      address that is still cached stores nothing. */
  ghost function LastStored(ops: seq<Op>, addrs: set<GlobalAddress>, a: GlobalAddress): Option<uint64> {
    if ops == [] then None else
    var before := ops[..|ops| - 1];
    match ops[|ops| - 1]
    case AddOp(b, d, _) =>
      if b == a && a !in View(Run(before), addrs) then Some(d) else LastStored(before, addrs, a)
    case AlterOp(b, d, _) => if b == a then Some(d) else LastStored(before, addrs, a)
    case GetOp(_, _) => LastStored(before, addrs, a)
    case RemoveOp(b) => if b == a then None else LastStored(before, addrs, a)
  }

  /** The step of the plain map. With room a store stores and forgets nothing; without
      room it stores nothing and may forget, except that an overwrite in place always
      stores. An add of a present address keeps the older data. */
  ghost predicate PlainMapStep(before: map<GlobalAddress, uint64>, op: Op, room: bool,
                               after: map<GlobalAddress, uint64>)
  {
    match op
    case AddOp(a, d, _) =>
      if room then after == if a in before then before else before[a := d] else Forgets(before, after)
    case AlterOp(a, d, _) =>
      if room || a in before then after == before[a := d] else Forgets(before, after)
    case GetOp(_, _) => after == before
    case RemoveOp(a) => after == before - {a}
  }

  ghost predicate HasRoom(cache: CacheState, a: GlobalAddress) {
    a.size <= CAPACITY && a.size <= cache.available
  }

  lemma AddIsStep(cache: CacheState, addrs: set<GlobalAddress>, a: GlobalAddress, item: CacheItem)
    requires CollisionFree(addrs) && Tagged(cache, addrs) && a in addrs && item.globalAddress == a && item.lastused > 0
    ensures var before, after := View(cache, addrs), View(Add(cache, a, item).cache, addrs);
      && Tagged(Add(cache, a, item).cache, addrs)
      && if HasRoom(cache, a) then after == (if a in before then before else before[a := item.data])
         else Forgets(before, after)
  {
    if HasRoom(cache, a) {
      if Key(a) !in cache.items {
        InsertView(cache, addrs, a, item, cache.available - a.size);
      }
    } else {
      MakeRoomForgets(cache, addrs, a.size);
    }
  }

  /** One operation refines one step of the plain map. */
  lemma OpRefinesPlainMap(cache: CacheState, addrs: set<GlobalAddress>, op: Op)
    requires CollisionFree(addrs) && Tagged(cache, addrs)
    requires op.a in addrs && (op.RemoveOp? || op.now > 0)
    ensures Tagged(Apply(cache, op), addrs)
    ensures PlainMapStep(View(cache, addrs), op, HasRoom(cache, op.a), View(Apply(cache, op), addrs))
  {
    match op
    case AddOp(a, d, now) => AddIsStep(cache, addrs, a, CacheItem(a, d, now, now));
    case AlterOp(a, d, now) =>
      if Key(a) in cache.items {
        InsertView(cache, addrs, a, CacheItem(a, d, now, now), cache.available);
      } else {
        AddIsStep(cache, addrs, a, CacheItem(a, d, now, now));
      }
    case GetOp(a, now) => TouchKeeps(cache, addrs, a, now);
    case RemoveOp(a) => RemoveDrops(cache, addrs, a);
  }

  /** After any sequence of operations on collision-free addresses, a hit returns
      the data stored last for that very address; an invalidated address misses
      until it is stored again. */
  lemma {:induction false} HitsReturnLastStored(ops: seq<Op>, addrs: set<GlobalAddress>)
    requires CollisionFree(addrs) && LegalOps(ops, addrs)
    ensures Tagged(Run(ops), addrs)
    ensures forall a :: a in View(Run(ops), addrs) ==> LastStored(ops, addrs, a) == Some(View(Run(ops), addrs)[a])
  {
    if ops != [] {
      var before, last := ops[..|ops| - 1], ops[|ops| - 1];
      HitsReturnLastStored(before, addrs);
      OpRefinesPlainMap(Run(before), addrs, last);
    }
  }
}
