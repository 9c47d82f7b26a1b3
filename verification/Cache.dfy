/** The cache object of a node (src/Cache.cpp), updated in place. */
module CacheObject {
  import opened Defs
  import opened AddressKey
  import opened CacheModel

  /** Every item was stamped after the epoch, as the system clock does. */
  ghost predicate Stamped(items: Items) {
    forall k :: k in items ==> items[k].lastused > 0
  }

  lemma LatestIsUnique(items: Items, j: nat, k: nat)
    requires IsLatest(items, j) && IsLatest(items, k)
    ensures j == k
  {
  }

  predicate IsLeast(keys: set<nat>, k: nat) {
    k in keys && forall j :: j in keys ==> k <= j
  }

  lemma {:induction false} LeastExists(keys: set<nat>)
    requires keys != {}
    ensures exists k :: IsLeast(keys, k)
    decreases |keys|
  {
    var j :| j in keys;
    var rest := keys - {j};
    if rest == {} {
      assert keys == {j};
      assert IsLeast(keys, j);
    } else {
      LeastExists(rest);
      var k :| IsLeast(rest, k);
      LeastExtends(rest, j, k);
      assert keys == rest + {j};
    }
  }

  lemma LeastExtends(rest: set<nat>, j: nat, k: nat)
    requires IsLeast(rest, k)
    ensures IsLeast(rest + {j}, if j < k then j else k)
  {
  }

  const ZERO_ITEM := CacheItem(GlobalAddress(0, 0, 0), 0, 0, 0)

  class Cache {
    var maxsize: uint64
    var availablesize: uint64
    var items: Items

    ghost predicate Valid()
      reads this
    {
      maxsize == CAPACITY && Stamped(items)
    }

    ghost function State(): CacheState
      reads this
    {
      CacheState(availablesize, items)
    }

    constructor ()
      ensures Valid() && State() == EMPTY_CACHE
      ensures maxsize == 512 && availablesize == 512
    {
      maxsize := 512;
      availablesize := 512;
      items := map[];
    }

    /** Inserts when the bytes are free; otherwise evicts until they would be, and
        inserts nothing. A loop with nothing left to evict never ends: it is
        reported as `Spins`. */
    method AddCacheItem(gaddr: GlobalAddress, cacheItem: CacheItem) returns (outcome: AddOutcome)
      requires Valid() && cacheItem.lastused > 0
      modifies this
      ensures Valid()
      ensures AddResult(State(), outcome) == Add(old(State()), gaddr, cacheItem)
    {
      if gaddr.size <= maxsize {
        if availablesize >= gaddr.size {
          var k := Key(gaddr);
          if k in items {
            outcome := KeptOld;
          } else {
            items := items[k := cacheItem];
            outcome := Inserted;
          }
          availablesize := availablesize - gaddr.size;
        } else {
          while availablesize < gaddr.size
            invariant Valid()
            invariant MakeRoom(State(), gaddr.size) == MakeRoom(old(State()), gaddr.size)
            decreases |items|
          {
            if items == map[] {
              return Spins;
            }
            RemoveOldestItem();
          }
          outcome := MadeRoom;
        }
      } else {
        outcome := Aborts;
      }
    }

    method RemoveCacheItem(ga: GlobalAddress) returns (res: nat)
      requires Valid()
      modifies this
      ensures Valid()
      ensures State() == Remove(old(State()), ga)
      ensures res == if Key(ga) in old(items) then 1 else 0
    {
      var k := Key(ga);
      res := if k in items then 1 else 0;
      items := items - {k};
    }

    /** Scans the items in key order for the greatest stamp, from the epoch on. Without
        items the zero item that the scan starts with is left. */
    method FindLatest() returns (latest: (nat, CacheItem))
      requires Valid()
      ensures if items == map[] then latest == (0, ZERO_ITEM)
              else IsLatest(items, latest.0) && latest.1 == items[latest.0]
    {
      latest := (0, ZERO_ITEM);
      var rest := items.Keys;
      while rest != {}
        invariant rest <= items.Keys
        invariant forall j, k :: j in items && j !in rest && k in rest ==> j < k
        invariant rest == items.Keys ==> latest == (0, ZERO_ITEM)
        invariant rest < items.Keys ==>
          && latest.0 in items && latest.0 !in rest && latest.1 == items[latest.0]
          && forall j :: j in items && j !in rest && j != latest.0 ==> Before(items, latest.0, j)
        decreases |rest|
      {
        LeastExists(rest);
        var k :| IsLeast(rest, k);
        if latest.1.lastused < items[k].lastused {
          latest := (k, items[k]);
        }
        rest := rest - {k};
      }
    }

    method RemoveOldestItem()
      requires Valid()
      modifies this
      ensures Valid()
      ensures State() == Evict(old(State()))
    {
      var latest := FindLatest();
      if items != map[] {
        LatestIsUnique(items, latest.0, Latest(items));
      }
      availablesize := WrapAdd(availablesize, latest.1.globalAddress.size);
      items := items - {latest.0};
    }

    /** A hit stamps the item with the current time. */
    method GetCacheItem(ga: GlobalAddress, now: nat) returns (found: Option<CacheItem>)
      requires Valid() && now > 0
      modifies this
      ensures Valid()
      ensures State() == Touch(old(State()), ga, now)
      ensures found.None? <==> Key(ga) !in old(items)
      ensures found.Some? ==> found.value == items[Key(ga)] && found.value.data == old(items)[Key(ga)].data
    {
      var k := Key(ga);
      if k in items {
        items := items[k := items[k].(lastused := now)];
        found := Some(items[k]);
      } else {
        found := None;
      }
    }

    method AlterCacheItem(ci: CacheItem, ga: GlobalAddress) returns (outcome: AddOutcome)
      requires Valid() && ci.lastused > 0
      modifies this
      ensures Valid()
      ensures AddResult(State(), outcome) == Alter(old(State()), ga, ci)
    {
      var k := Key(ga);
      if k in items {
        items := items[k := ci];
        outcome := Inserted;
      } else {
        outcome := AddCacheItem(ga, ci);
      }
    }
  }
}
