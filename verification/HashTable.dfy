/** The hash table object (app/HashTable.h): 64 chains of linked elements, whose
    values live in memory allocated from a node. */
module HashTableObject {
  import opened Defs
  import opened Directory
  import opened MixHash
  import opened NodeModel
  import opened NodeObject
  import opened TableModel
  import opened TableRuns

  class Elem {
    const key: uint32
    const gaddr: GlobalAddress
    var next: Elem?

    constructor (key: uint32, gaddr: GlobalAddress, next: Elem?)
      ensures this.key == key && this.gaddr == gaddr && this.next == next
    {
      this.key := key;
      this.gaddr := gaddr;
      this.next := next;
    }
  }

  type Links = seq<Elem>

  /** The node is the lock node and the memory is its own, so nobody is asked. */
  const NO_ANSWERS := Answers(false, false, 0, GlobalAddress(0, 0, 0), false, [])

  ghost function EntryOf(e: Elem, cells: map<GlobalAddress, SaveData>): Entry {
    Entry(e.key, e.gaddr, if e.gaddr in cells then cells[e.gaddr].data else 0)
  }

  ghost function ChainOf(links: Links, cells: map<GlobalAddress, SaveData>): Chain {
    seq(|links|, i requires 0 <= i < |links| => EntryOf(links[i], cells))
  }

  ghost function ChainsOf(chains: seq<Links>, cells: map<GlobalAddress, SaveData>): Chains
    requires |chains| == BUCKETS
  {
    seq(BUCKETS, b requires 0 <= b < BUCKETS => ChainOf(chains[b], cells))
  }

  /** The element at i, or null past the end. */
  ghost function At(links: Links, i: nat): Elem? {
    if i < |links| then links[i] else null
  }

  /** The elements are linked in this order. */
  ghost predicate Linked(head: Elem?, links: Links)
    reads links
  {
    head == At(links, 0) && forall i :: 0 <= i < |links| ==> links[i].next == At(links, i + 1)
  }

  /** A live block of the node without sharers. */
  ghost predicate Usable(ga: GlobalAddress, cells: map<GlobalAddress, SaveData>, id: uint16) {
    ga in cells && ga.id == id && SharedMeansSharers(cells[ga]) && cells[ga].sharerNodes == []
  }

  ghost predicate AllUsable(chains: seq<Links>, cells: map<GlobalAddress, SaveData>, id: uint16)
    requires |chains| == BUCKETS
  {
    forall b, i :: 0 <= b < BUCKETS && 0 <= i < |chains[b]| ==> Usable(chains[b][i].gaddr, cells, id)
  }

  /** The blocks of the chains are usable and pairwise distinct, every element is in
      the bucket of its key, and there are n elements. */
  ghost predicate Stored(chains: seq<Links>, cells: map<GlobalAddress, SaveData>, id: uint16, n: nat)
    requires |chains| == BUCKETS
  {
    var t := ChainsOf(chains, cells);
    AllUsable(chains, cells, id) && InBuckets(t) && DistinctAddresses(t) && n == Total(t)
  }

  /** Chains whose cells keep their data keep their entries. */
  lemma ModelFrame(chains: seq<Links>, cells: map<GlobalAddress, SaveData>, cells': map<GlobalAddress, SaveData>)
    requires |chains| == BUCKETS
    requires forall b, i :: 0 <= b < BUCKETS && 0 <= i < |chains[b]| ==>
      EntryOf(chains[b][i], cells') == EntryOf(chains[b][i], cells)
    ensures ChainsOf(chains, cells') == ChainsOf(chains, cells)
  {
    forall b | 0 <= b < BUCKETS
      ensures ChainOf(chains[b], cells') == ChainOf(chains[b], cells)
    {
    }
  }

  function Pushed(chains: seq<Links>, e: Elem): seq<Links>
    requires |chains| == BUCKETS
  {
    var b := HashBucket(e.key);
    chains[b := [e] + chains[b]]
  }

  function TakenOut(chains: seq<Links>, b: nat, i: nat): seq<Links>
    requires b < |chains| && i < |chains[b]|
  {
    chains[b := chains[b][..i] + chains[b][i + 1..]]
  }

  lemma PushedModel(chains: seq<Links>, cells: map<GlobalAddress, SaveData>, e: Elem)
    requires |chains| == BUCKETS
    ensures ChainsOf(Pushed(chains, e), cells) == InsertEntry(ChainsOf(chains, cells), EntryOf(e, cells))
  {
    var b := HashBucket(e.key);
    assert ChainOf([e] + chains[b], cells) == [EntryOf(e, cells)] + ChainOf(chains[b], cells);
  }

  lemma TakenOutModel(chains: seq<Links>, b: nat, i: nat,
                      cells: map<GlobalAddress, SaveData>, cells': map<GlobalAddress, SaveData>)
    requires |chains| == BUCKETS && b < BUCKETS && i < |chains[b]|
    requires DistinctAddresses(ChainsOf(chains, cells)) && cells' == cells - {chains[b][i].gaddr}
    ensures var before := ChainsOf(chains, cells);
      ChainsOf(TakenOut(chains, b, i), cells') == before[b := Without(before[b], i)]
  {
    var before, after := ChainsOf(chains, cells), TakenOut(chains, b, i);
    forall c | 0 <= c < BUCKETS
      ensures ChainOf(after[c], cells') == before[b := Without(before[b], i)][c]
    {
      forall j | 0 <= j < |after[c]|
        ensures EntryOf(after[c][j], cells') == before[b := Without(before[b], i)][c][j]
      {
        var k := Back(c, j, b, i);
        assert after[c][j] == chains[c][k];
        assert before[c][k].gaddr != before[b][i].gaddr;
      }
    }
  }

  /** A new element with a new usable block keeps everything stored. */
  lemma StoredPushed(chains: seq<Links>, cells: map<GlobalAddress, SaveData>, cells': map<GlobalAddress, SaveData>,
                     id: uint16, n: nat, e: Elem)
    requires |chains| == BUCKETS && Stored(chains, cells, id, n)
    requires e.gaddr !in cells && Usable(e.gaddr, cells', id)
    requires forall a :: a in cells ==> a in cells' && cells'[a] == cells[a]
    ensures Stored(Pushed(chains, e), cells', id, n + 1)
    ensures ChainsOf(Pushed(chains, e), cells') == InsertEntry(ChainsOf(chains, cells), EntryOf(e, cells'))
  {
    var t, x := ChainsOf(chains, cells), EntryOf(e, cells');
    ModelFrame(chains, cells, cells');
    PushedModel(chains, cells', e);
    AddressesAreLive(chains, cells, id);
    InsertCounts(t, x);
    DistinctInsert(t, x);
    BucketsKept(t, x, e.key);
    PushedUsable(chains, cells, cells', id, e);
  }

  lemma PushedUsable(chains: seq<Links>, cells: map<GlobalAddress, SaveData>, cells': map<GlobalAddress, SaveData>,
                     id: uint16, e: Elem)
    requires |chains| == BUCKETS && AllUsable(chains, cells, id)
    requires Usable(e.gaddr, cells', id)
    requires forall a :: a in cells ==> a in cells' && cells'[a] == cells[a]
    ensures AllUsable(Pushed(chains, e), cells', id)
  {
    var k, after: seq<Links> := HashBucket(e.key), Pushed(chains, e);
    forall b, i | 0 <= b < BUCKETS && 0 <= i < |after[b]|
      ensures Usable(after[b][i].gaddr, cells', id)
    {
      assert after[b][i] == if b != k then chains[b][i] else if i == 0 then e else chains[b][i - 1];
    }
  }

  lemma AddressesAreLive(chains: seq<Links>, cells: map<GlobalAddress, SaveData>, id: uint16)
    requires |chains| == BUCKETS && AllUsable(chains, cells, id)
    ensures Addresses(ChainsOf(chains, cells)) <= cells.Keys
  {
  }

  /** Taking an element out and freeing its block keeps the others stored. */
  lemma StoredTakenOut(chains: seq<Links>, cells: map<GlobalAddress, SaveData>, cells': map<GlobalAddress, SaveData>,
                       id: uint16, n: nat, b: nat, i: nat)
    requires |chains| == BUCKETS && Stored(chains, cells, id, n)
    requires b < BUCKETS && i < |chains[b]| && cells' == cells - {chains[b][i].gaddr}
    ensures n > 0 && Stored(TakenOut(chains, b, i), cells', id, n - 1)
    ensures var before := ChainsOf(chains, cells);
      ChainsOf(TakenOut(chains, b, i), cells') == before[b := Without(before[b], i)]
  {
    var t := ChainsOf(chains, cells);
    TakenOutModel(chains, b, i, cells, cells');
    WithoutAddresses(t, b, i);
    FlatUpdate(t, b, Without(t[b], i), BUCKETS);
    TakenOutUsable(chains, cells, cells', id, b, i);
  }

  lemma TakenOutUsable(chains: seq<Links>, cells: map<GlobalAddress, SaveData>, cells': map<GlobalAddress, SaveData>,
                       id: uint16, b: nat, i: nat)
    requires |chains| == BUCKETS && AllUsable(chains, cells, id) && DistinctAddresses(ChainsOf(chains, cells))
    requires b < BUCKETS && i < |chains[b]| && cells' == cells - {chains[b][i].gaddr}
    ensures AllUsable(TakenOut(chains, b, i), cells', id)
  {
    var t, after: seq<Links> := ChainsOf(chains, cells), TakenOut(chains, b, i);
    forall c, j | 0 <= c < BUCKETS && 0 <= j < |after[c]|
      ensures Usable(after[c][j].gaddr, cells', id)
    {
      var k := Back(c, j, b, i);
      assert after[c][j] == chains[c][k];
      assert t[c][k].gaddr != t[b][i].gaddr;
    }
  }

  lemma NothingStored(chains: seq<Links>, cells: map<GlobalAddress, SaveData>, id: uint16, n: nat)
    requires |chains| == BUCKETS && Stored(chains, cells, id, n)
    requires forall c :: 0 <= c < BUCKETS ==> chains[c] == []
    ensures n == 0 && NoEntries(ChainsOf(chains, cells)) && Addresses(ChainsOf(chains, cells)) == {}
  {
    FlatOfEmpty(ChainsOf(chains, cells), BUCKETS);
  }

  /** The element before position i of chain b, if there is one, is nowhere else. */
  ghost predicate Alone(chains: seq<Links>, b: nat, i: nat)
    requires b < |chains| && i <= |chains[b]|
  {
    i > 0 ==>
      forall c, j :: 0 <= c < |chains| && 0 <= j < |chains[c]| && chains[c][j] == chains[b][i - 1] ==>
        c == b && j == i - 1
  }

  lemma StoredIsAlone(chains: seq<Links>, cells: map<GlobalAddress, SaveData>, id: uint16, n: nat, b: nat, i: nat)
    requires |chains| == BUCKETS && Stored(chains, cells, id, n) && b < BUCKETS && i <= |chains[b]|
    ensures Alone(chains, b, i)
  {
    var t := ChainsOf(chains, cells);
    forall c, j | i > 0 && 0 <= c < |chains| && 0 <= j < |chains[c]| && chains[c][j] == chains[b][i - 1]
      ensures c == b && j == i - 1
    {
      assert t[c][j].gaddr == t[b][i - 1].gaddr;
    }
  }

  class HashTable {
    const node: Node
    const valueSize: uint64
    var amountElements: nat
    const storage: array<Elem?>
    ghost var chains: seq<Links>
    ghost var elems: set<Elem>

    /** The elements are linked as the chains say. */
    ghost predicate ShapeOk()
      reads this, storage, elems
    {
      && storage.Length == BUCKETS && |chains| == BUCKETS
      && (forall b, i :: 0 <= b < BUCKETS && 0 <= i < |chains[b]| ==> chains[b][i] in elems)
      && forall b :: 0 <= b < BUCKETS ==> Linked(storage[b], chains[b])
    }

    /** The node is the lock node and no lock is held. */
    ghost predicate NodeOk()
      reads node, node.cache
    {
      node.Valid() && node.id == LOCK_NODE && Quiet(node.Value())
    }

    ghost predicate Valid()
      reads this, storage, elems, node, node.cache
    {
      NodeOk() && ShapeOk() && Stored(chains, node.cells, node.id, amountElements)
    }

    /** The chains with the values that the memory holds. */
    ghost function Model(): Chains
      reads this, node
      requires |chains| == BUCKETS
    {
      ChainsOf(chains, node.cells)
    }

    /** The chains together with the live blocks of the node. */
    ghost function Contents(): Store
      reads this, node
      requires |chains| == BUCKETS
    {
      Store(Model(), node.cells.Keys)
    }

    constructor (n: Node, valueSize: uint64)
      requires n.Valid() && n.id == LOCK_NODE && Quiet(n.Value())
      ensures Valid() && fresh(storage) && elems == {} && node == n
      ensures NoEntries(Model())
    {
      node := n;
      this.valueSize := valueSize;
      amountElements := 0;
      storage := new Elem?[BUCKETS](_ => null);
      chains := seq(BUCKETS, _ => []);
      elems := {};
      new;
      FlatOfEmpty(Model(), BUCKETS);
    }

    /** A read of the table's memory, which is never refused. */
    method ReadBlock(ga: GlobalAddress) returns (v: uint64)
      requires NodeOk() && Usable(ga, node.cells, node.id)
      modifies node`locks, node`sent, node.cache
      ensures NodeOk() && v == node.cells[ga].data
    {
      OwnAccessIsGranted(node.Value(), Data(0, 0, ga), NO_ANSWERS);
      var back;
      v, back := node.Read(ga, NO_ANSWERS, 1);
    }

    /** A write of the table's memory, which is never refused. */
    method WriteBlock(data: Data)
      requires NodeOk() && Usable(data.ga, node.cells, node.id)
      modifies node, node.cache
      ensures NodeOk() && node.id == old(node.id)
      ensures node.cells == old(node.cells)[data.ga := LocallyWritten(data.data, node.id)]
    {
      OwnAccessIsGranted(node.Value(), data, NO_ANSWERS);
      var _, _ := node.Write(data, NO_ANSWERS, 1);
    }

    /** A block without sharers is freed in silence. */
    method FreeBlock(ga: GlobalAddress)
      requires NodeOk() && Usable(ga, node.cells, node.id)
      modifies node`cells, node`sent
      ensures NodeOk() && node.cells == old(node.cells) - {ga}
    {
      var _ := node.Free(ga, ga);
    }

    /** The walk along a chain that get, erase and operator[] all begin with. */
    method Walk(key: uint32) returns (oldBucket: Elem?, bucket: Elem?, ghost i: nat)
      requires ShapeOk()
      ensures var links := chains[HashBucket(key)];
        && i == Find(Model()[HashBucket(key)], key)
        && i <= |links| && bucket == At(links, i)
        && oldBucket == if i == 0 then null else links[i - 1]
      ensures bucket == null <==> Lookup(Model(), key).None?
    {
      ghost var links := chains[HashBucket(key)];
      oldBucket, bucket, i := null, storage[HashBucket(key)], 0;
      while bucket != null && bucket.key != key
        invariant i <= |links| && bucket == At(links, i)
        invariant oldBucket == if i == 0 then null else links[i - 1]
        invariant forall j :: 0 <= j < i ==> links[j].key != key
        decreases |links| - i
      {
        assert Linked(storage[HashBucket(key)], links);
        oldBucket, bucket, i := bucket, bucket.next, i + 1;
      }
      FindUnique(Model()[HashBucket(key)], key, i);
    }

    /** Reads the value of an element that Walk found. */
    method ReadFound(bucket: Elem, ghost b: nat, ghost i: nat) returns (value: uint64)
      requires Valid() && b < BUCKETS && i < |chains[b]| && bucket == chains[b][i]
      modifies node`locks, node`sent, node.cache
      ensures Valid() && Contents() == old(Contents())
      ensures value == Model()[b][i].value
    {
      value := ReadBlock(bucket.gaddr);
    }

    method Get(key: uint32) returns (value: Option<uint64>)
      requires Valid()
      modifies node`locks, node`sent, node.cache
      ensures Valid()
      ensures Step(old(Contents()), Got(key, value), Contents())
    {
      var _, bucket, i := Walk(key);
      if bucket != null {
        var v := ReadFound(bucket, HashBucket(key), i);
        return Some(v);
      }
      value := None;
    }

    /** Links a new element in front of its chain and counts it. */
    method PushFront(key: uint32, gadd: GlobalAddress) returns (e: Elem)
      requires ShapeOk()
      modifies this, storage
      ensures ShapeOk() && fresh(elems - old(elems))
      ensures e.key == key && e.gaddr == gadd
      ensures chains == Pushed(old(chains), e)
      ensures amountElements == old(amountElements) + 1
    {
      var b := HashBucket(key);
      e := new Elem(key, gadd, storage[b]);
      storage[b] := e;
      amountElements := amountElements + 1;
      chains := chains[b := [e] + chains[b]];
      elems := elems + {e};
      forall c | 0 <= c < BUCKETS
        ensures Linked(storage[c], chains[c])
      {
        assert old(Linked(storage[c], chains[c]));
      }
    }

    /** Allocates a block and links a new element for it in front. */
    method NewElem(key: uint32) returns (e: Elem)
      requires Valid() && |node.cells| < TWO_TO_THE_64
      modifies this, storage, node`cells
      ensures NodeOk() && ShapeOk() && fresh(elems - old(elems))
      ensures e.key == key && chains == Pushed(old(chains), e)
      ensures amountElements == old(amountElements) + 1
      ensures e.gaddr !in old(node.cells) && e.gaddr.size == valueSize
      ensures Usable(e.gaddr, node.cells, node.id)
      ensures node.cells.Keys == old(node.cells).Keys + {e.gaddr}
      ensures forall a :: a in old(node.cells) ==> node.cells[a] == old(node.cells)[a]
    {
      var gadd := node.Malloc(valueSize);
      e := PushFront(key, gadd);
    }

    /** Allocates, links a new element in front and writes the value. No check for
        an existing key. */
    method Insert(key: uint32, value: uint64)
      requires Valid() && |node.cells| < TWO_TO_THE_64
      modifies this, storage, node, node.cache
      ensures Valid() && fresh(elems - old(elems))
      ensures Added(old(Contents()), key, value, Contents())
      ensures Model()[HashBucket(key)][0].gaddr.size == valueSize
    {
      var e := NewElem(key);
      WriteBlock(Data(valueSize, value, e.gaddr));
      StoredPushed(old(chains), old(node.cells), node.cells, node.id, old(amountElements), e);
    }

    /** `operator[]`: the value found, or a new element whose block is not written. */
    method Index(key: uint32) returns (value: uint64)
      requires Valid() && |node.cells| < TWO_TO_THE_64
      modifies this, storage, node, node.cache
      ensures Valid() && fresh(elems - old(elems))
      ensures Step(old(Contents()), Indexed(key, value), Contents())
    {
      var _, bucket, i := Walk(key);
      if bucket != null {
        value := ReadFound(bucket, HashBucket(key), i);
      } else {
        value := IndexNew(key);
      }
    }

    method IndexNew(key: uint32) returns (value: uint64)
      requires Valid() && |node.cells| < TWO_TO_THE_64
      modifies this, storage, node, node.cache
      ensures Valid() && fresh(elems - old(elems))
      ensures Added(old(Contents()), key, value, Contents())
    {
      var e := NewElem(key);
      value := ReadBlock(e.gaddr);
      StoredPushed(old(chains), old(node.cells), node.cells, node.id, old(amountElements), e);
    }

    /** Takes the first element out of a chain. */
    method PopFront(b: nat)
      requires ShapeOk() && b < BUCKETS && |chains[b]| > 0
      modifies this`chains, storage
      ensures ShapeOk() && chains == TakenOut(old(chains), b, 0)
    {
      assert Linked(storage[b], chains[b]);
      storage[b] := storage[b].next;
      chains := TakenOut(chains, b, 0);
      forall c | 0 <= c < BUCKETS
        ensures Linked(storage[c], chains[c])
      {
        assert old(Linked(storage[c], chains[c]));
      }
    }

    /** Takes an element that has a predecessor out of its chain. */
    method UnlinkAfter(oldBucket: Elem, bucket: Elem, ghost b: nat, ghost i: nat)
      requires ShapeOk() && b < BUCKETS && 0 < i < |chains[b]| && Alone(chains, b, i)
      requires oldBucket == chains[b][i - 1] && bucket == chains[b][i]
      modifies this`chains, oldBucket
      ensures ShapeOk() && chains == TakenOut(old(chains), b, i)
    {
      assert Linked(storage[b], chains[b]);
      oldBucket.next := bucket.next;
      chains := TakenOut(chains, b, i);
      forall c | 0 <= c < BUCKETS
        ensures Linked(storage[c], chains[c])
      {
        assert old(Linked(storage[c], chains[c]));
      }
    }

    /** Takes an element out of its chain and frees its block. */
    method Unlink(b: nat, oldBucket: Elem?, bucket: Elem, ghost i: nat)
      requires NodeOk() && Usable(bucket.gaddr, node.cells, node.id)
      requires ShapeOk() && b < BUCKETS && i < |chains[b]| && Alone(chains, b, i)
      requires bucket == chains[b][i] && oldBucket == if i == 0 then null else chains[b][i - 1]
      modifies this`chains, storage, elems, node`cells, node`sent
      ensures ShapeOk() && chains == TakenOut(old(chains), b, i)
      ensures NodeOk() && node.cells == old(node.cells) - {bucket.gaddr}
    {
      if oldBucket != null {
        UnlinkAfter(oldBucket, bucket, b, i);
      } else {
        PopFront(b);
      }
      FreeBlock(bucket.gaddr);
    }

    /** erase for the element that Walk found. */
    method Remove(key: uint32, oldBucket: Elem?, bucket: Elem, ghost i: nat)
      requires Valid()
      requires var links := chains[HashBucket(key)];
        i < |links| && bucket == links[i] && oldBucket == if i == 0 then null else links[i - 1]
      modifies this`chains, this`amountElements, storage, elems, node`cells, node`sent
      ensures Valid() && elems == old(elems)
      ensures var b := HashBucket(key);
        && Model() == old(Model())[b := Without(old(Model())[b], i)]
        && node.cells.Keys == old(node.cells).Keys - {old(Model())[b][i].gaddr}
    {
      StoredIsAlone(chains, node.cells, node.id, amountElements, HashBucket(key), i);
      Unlink(HashBucket(key), oldBucket, bucket, i);
      StoredTakenOut(old(chains), old(node.cells), node.cells, node.id, amountElements, HashBucket(key), i);
      amountElements := amountElements - 1;
    }

    /** Removes the newest element of the key, if there is one, and frees its block. */
    method Erase(key: uint32)
      requires Valid()
      modifies this, storage, elems, node`cells, node`sent
      ensures Valid() && elems == old(elems)
      ensures Step(old(Contents()), Erased(key), Contents())
    {
      var oldBucket, bucket, i := Walk(key);
      if bucket != null {
        Remove(key, oldBucket, bucket, i);
      }
    }

    /** One round of clear's inner loop. */
    method PopAndFree(b: nat, ghost n: nat)
      requires NodeOk() && ShapeOk() && Stored(chains, node.cells, node.id, n)
      requires b < BUCKETS && |chains[b]| > 0
      modifies this`chains, storage, node`cells, node`sent
      ensures NodeOk() && ShapeOk() && n > 0 && Stored(chains, node.cells, node.id, n - 1)
      ensures chains == TakenOut(old(chains), b, 0)
      ensures node.cells.Keys - Addresses(Model()) == old(node.cells.Keys - Addresses(Model()))
    {
      assert Linked(storage[b], chains[b]);
      var oldBucket := storage[b];
      PopFront(b);
      FreeBlock(oldBucket.gaddr);
      StoredTakenOut(old(chains), old(node.cells), node.cells, node.id, n, b, 0);
      WithoutAddresses(old(Model()), b, 0);
    }

    /** clear's inner loop. */
    method ClearChain(b: nat, ghost n: nat) returns (ghost m: nat)
      requires NodeOk() && ShapeOk() && Stored(chains, node.cells, node.id, n) && b < BUCKETS
      modifies this`chains, storage, node`cells, node`sent
      ensures NodeOk() && ShapeOk() && Stored(chains, node.cells, node.id, m)
      ensures chains == old(chains)[b := []]
      ensures node.cells.Keys - Addresses(Model()) == old(node.cells.Keys - Addresses(Model()))
    {
      m := n;
      while storage[b] != null
        invariant NodeOk() && ShapeOk() && Stored(chains, node.cells, node.id, m)
        invariant chains == old(chains)[b := chains[b]]
        invariant node.cells.Keys - Addresses(Model()) == old(node.cells.Keys - Addresses(Model()))
        decreases |chains[b]|
      {
        assert Linked(storage[b], chains[b]);
        PopAndFree(b, m);
        m := m - 1;
      }
      assert Linked(storage[b], chains[b]);
    }

    /** Pops every element of every chain and frees its block. A block freed twice
        would fail the requirement of Free that it is live. */
    method Clear()
      requires Valid()
      modifies this, storage, node`cells, node`sent
      ensures Valid() && elems == old(elems)
      ensures Step(old(Contents()), Cleared, Contents())
    {
      ghost var n := amountElements;
      var b := 0;
      while b < BUCKETS
        invariant b <= BUCKETS && elems == old(elems)
        invariant NodeOk() && ShapeOk() && Stored(chains, node.cells, node.id, n)
        invariant forall c :: 0 <= c < b ==> chains[c] == []
        invariant node.cells.Keys - Addresses(Model()) == old(node.cells.Keys - Addresses(Model()))
      {
        n := ClearChain(b, n);
        b := b + 1;
      }
      amountElements := 0;
      NothingStored(chains, node.cells, node.id, n);
    }

    method Count(key: uint32) returns (n: uint64)
      requires Valid()
      modifies node`locks, node`sent, node.cache
      ensures Valid()
      ensures Contents() == old(Contents())
      ensures n == if Stack(Model(), key) == [] then 0 else 1
    {
      var value := Get(key);
      LookupReadsTop(Model(), key);
      n := if value.Some? then 1 else 0;
    }

    function Size(): (n: nat)
      requires Valid()
      reads this, storage, elems, node, node.cache
      ensures n == Heights(Flat(Model(), BUCKETS), KeysOf(Model()))
    {
      TotalIsSumOfHeights(Model());
      amountElements
    }

    predicate Empty()
      requires Valid()
      reads this, storage, elems, node, node.cache
      ensures Empty() <==> forall key :: Stack(Model(), key) == []
    {
      SizeZero(Model());
      Size() == 0
    }
  }
}
