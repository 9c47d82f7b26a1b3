/** The chained hash table (app/HashTable.h) as a value: 64 chains of entries, and
    the map from keys to stacks of values that it stands for. */
module TableModel {
  import opened Defs
  import opened MixHash

  /** An element of a chain with the value stored at its address. */
  datatype Entry = Entry(key: uint32, gaddr: GlobalAddress, value: uint64)

  type Chain = seq<Entry>

  type Chains = t: seq<Chain> | |t| == BUCKETS witness seq(BUCKETS, _ => [])

  ghost predicate NoEntries(t: Chains) {
    forall b :: 0 <= b < BUCKETS ==> t[b] == []
  }

  /** Every entry is in the bucket of its key. */
  ghost predicate InBuckets(t: Chains) {
    forall b, i :: 0 <= b < BUCKETS && 0 <= i < |t[b]| ==> HashBucket(t[b][i].key) == b
  }

  // --- The operations on chains ---

  function InsertEntry(t: Chains, e: Entry): Chains {
    var b := HashBucket(e.key);
    t[b := [e] + t[b]]
  }

  /** The position of the first entry with the key, or the length of the chain. */
  function Find(chain: Chain, key: uint32): (i: nat)
    ensures i <= |chain|
    ensures i < |chain| ==> chain[i].key == key
    ensures forall j :: 0 <= j < i ==> chain[j].key != key
  {
    if chain == [] || chain[0].key == key then 0 else 1 + Find(chain[1..], key)
  }

  /** Nothing before i has the key, so i decides the search. */
  lemma {:induction false} FindUnique(chain: Chain, key: uint32, i: nat)
    requires i <= |chain| && forall j :: 0 <= j < i ==> chain[j].key != key
    requires i < |chain| ==> chain[i].key == key
    ensures Find(chain, key) == i
  {
    if i < |chain| {
      assert chain[i].key == key;
    }
  }

  function Without(chain: Chain, i: nat): Chain {
    if i < |chain| then chain[..i] + chain[i + 1..] else chain
  }

  function EraseKey(t: Chains, key: uint32): Chains {
    var b := HashBucket(key);
    t[b := Without(t[b], Find(t[b], key))]
  }

  function Lookup(t: Chains, key: uint32): Option<uint64> {
    var chain := t[HashBucket(key)];
    var i := Find(chain, key);
    if i < |chain| then Some(chain[i].value) else None
  }

  // --- The stacks they stand for ---

  /** The values of the entries with the key, the newest first. */
  function StackOf(chain: Chain, key: uint32): seq<uint64> {
    if chain == [] then []
    else (if chain[0].key == key then [chain[0].value] else []) + StackOf(chain[1..], key)
  }

  function Stack(t: Chains, key: uint32): seq<uint64> {
    StackOf(t[HashBucket(key)], key)
  }

  function Top(stack: seq<uint64>): Option<uint64> {
    if stack == [] then None else Some(stack[0])
  }

  function Popped(stack: seq<uint64>): seq<uint64> {
    if stack == [] then [] else stack[1..]
  }

  /** insert pushes on the stack of its key and leaves the other keys alone. */
  lemma InsertPushes(t: Chains, e: Entry, key: uint32)
    ensures Stack(InsertEntry(t, e), key) == if key == e.key then [e.value] + Stack(t, key) else Stack(t, key)
  {
    var b := HashBucket(e.key);
    assert ([e] + t[b])[1..] == t[b];
  }

  /** get reads the top of the stack. */
  lemma {:induction false} FindReadsTop(chain: Chain, key: uint32)
    ensures var i := Find(chain, key);
      Top(StackOf(chain, key)) == if i < |chain| then Some(chain[i].value) else None
  {
    if chain != [] && chain[0].key != key {
      FindReadsTop(chain[1..], key);
    }
  }

  lemma LookupReadsTop(t: Chains, key: uint32)
    ensures Lookup(t, key) == Top(Stack(t, key))
  {
    FindReadsTop(t[HashBucket(key)], key);
  }

  lemma StackOfCons(e: Entry, rest: Chain, key: uint32)
    ensures StackOf([e] + rest, key) == (if e.key == key then [e.value] else []) + StackOf(rest, key)
  {
    assert ([e] + rest)[1..] == rest;
  }

  lemma WithoutLater(chain: Chain, i: nat)
    requires chain != []
    ensures Without(chain, i + 1) == [chain[0]] + Without(chain[1..], i)
  {
    assert chain == [chain[0]] + chain[1..];
  }

  /** Removing the first entry of a key pops its stack and no other. */
  lemma {:induction false} WithoutPops(chain: Chain, key: uint32, other: uint32)
    ensures StackOf(Without(chain, Find(chain, key)), other)
         == if other == key then Popped(StackOf(chain, key)) else StackOf(chain, other)
  {
    if chain != [] {
      var e, rest := chain[0], chain[1..];
      StackOfCons(e, rest, other);
      assert chain == [e] + rest;
      if e.key != key {
        WithoutPops(rest, key, other);
        WithoutLater(chain, Find(rest, key));
        StackOfCons(e, Without(rest, Find(rest, key)), other);
      } else {
        assert Without(chain, 0) == rest;
      }
    }
  }

  /** erase pops one value, which re-exposes the older one, and leaves other keys alone. */
  lemma ErasePops(t: Chains, key: uint32, other: uint32)
    ensures Stack(EraseKey(t, key), other) == if other == key then Popped(Stack(t, key)) else Stack(t, other)
  {
    WithoutPops(t[HashBucket(key)], key, other);
  }

  lemma BucketsKept(t: Chains, e: Entry, key: uint32)
    requires InBuckets(t)
    ensures InBuckets(InsertEntry(t, e)) && InBuckets(EraseKey(t, key))
  {
  }

  // --- Counting ---

  /** The entries of the first n chains, one after the other. */
  function Flat(t: Chains, n: nat): Chain
    requires n <= BUCKETS
  {
    if n == 0 then [] else Flat(t, n - 1) + t[n - 1]
  }

  function Total(t: Chains): nat {
    |Flat(t, BUCKETS)|
  }

  lemma Associates<T>(a: seq<T>, b: seq<T>, c: seq<T>)
    ensures (a + b) + c == a + (b + c)
  {
  }

  lemma {:induction false} StackOfConcat(c: Chain, d: Chain, key: uint32)
    ensures StackOf(c + d, key) == StackOf(c, key) + StackOf(d, key)
  {
    if c == [] {
      assert c + d == d;
    } else {
      var e, rest := c[0], c[1..];
      assert c == [e] + rest;
      StackOfConcat(rest, d, key);
      StackOfCons(e, rest, key);
      StackOfCons(e, rest + d, key);
      Associates([e], rest, d);
      Associates(if e.key == key then [e.value] else [], StackOf(rest, key), StackOf(d, key));
    }
  }

  lemma {:induction false} StackOfForeign(chain: Chain, key: uint32)
    requires forall i :: 0 <= i < |chain| ==> chain[i].key != key
    ensures StackOf(chain, key) == []
  {
    if chain != [] {
      StackOfForeign(chain[1..], key);
    }
  }

  lemma StackInBucket(t: Chains, b: nat, key: uint32)
    requires InBuckets(t) && b < BUCKETS
    ensures StackOf(t[b], key) == if HashBucket(key) == b then Stack(t, key) else []
  {
    if HashBucket(key) != b {
      StackOfForeign(t[b], key);
    }
  }

  lemma {:induction false} StackOfFlat(t: Chains, n: nat, key: uint32)
    requires InBuckets(t) && n <= BUCKETS
    ensures StackOf(Flat(t, n), key) == if HashBucket(key) < n then Stack(t, key) else []
  {
    if n > 0 {
      var before, last := StackOf(Flat(t, n - 1), key), StackOf(t[n - 1], key);
      StackOfFlat(t, n - 1, key);
      StackOfConcat(Flat(t, n - 1), t[n - 1], key);
      StackInBucket(t, n - 1, key);
      assert before == [] ==> before + last == last;
      assert last == [] ==> before + last == before;
    }
  }

  /** The heights of the stacks of these keys, added up. */
  ghost function Heights(chain: Chain, keys: set<uint32>): nat
    decreases |keys|
  {
    if keys == {} then 0
    else var k :| k in keys; |StackOf(chain, k)| + Heights(chain, keys - {k})
  }

  lemma {:induction false} HeightsTakeOut(chain: Chain, keys: set<uint32>, k: uint32)
    requires k in keys
    ensures Heights(chain, keys) == |StackOf(chain, k)| + Heights(chain, keys - {k})
    decreases |keys|
  {
    var j :| j in keys && Heights(chain, keys) == |StackOf(chain, j)| + Heights(chain, keys - {j});
    if j != k {
      HeightsTakeOut(chain, keys - {j}, k);
      HeightsTakeOut(chain, keys - {k}, j);
      assert keys - {j} - {k} == keys - {k} - {j};
    }
  }

  /** Heights of chains in which every key has a stack of the same height. */
  lemma {:induction false} HeightsAgree(c: Chain, d: Chain, keys: set<uint32>)
    requires forall k :: k in keys ==> |StackOf(c, k)| == |StackOf(d, k)|
    ensures Heights(c, keys) == Heights(d, keys)
    decreases |keys|
  {
    if keys != {} {
      var k :| k in keys;
      HeightsTakeOut(c, keys, k);
      HeightsTakeOut(d, keys, k);
      HeightsAgree(c, d, keys - {k});
    }
  }

  lemma {:induction false} HeightsOfNothing(keys: set<uint32>)
    ensures Heights([], keys) == 0
    decreases |keys|
  {
    if keys != {} {
      var k :| k in keys;
      HeightsTakeOut([], keys, k);
      HeightsOfNothing(keys - {k});
    }
  }

  /** The heights of all stacks add up to the number of entries. */
  lemma {:induction false} HeightsCountEntries(chain: Chain, keys: set<uint32>)
    requires forall i :: 0 <= i < |chain| ==> chain[i].key in keys
    ensures Heights(chain, keys) == |chain|
  {
    if chain == [] {
      HeightsOfNothing(keys);
    } else {
      var k, rest := chain[0].key, chain[1..];
      HeightsCountEntries(rest, keys);
      HeightsTakeOut(chain, keys, k);
      HeightsTakeOut(rest, keys, k);
      HeightsAgree(chain, rest, keys - {k});
    }
  }

  ghost function KeysOf(t: Chains): set<uint32> {
    set i | 0 <= i < Total(t) :: Flat(t, BUCKETS)[i].key
  }

  /** The number of entries is the sum of the heights of the stacks of all keys. */
  lemma TotalIsSumOfHeights(t: Chains)
    requires InBuckets(t)
    ensures Total(t) == Heights(Flat(t, BUCKETS), KeysOf(t))
    ensures forall k :: StackOf(Flat(t, BUCKETS), k) == Stack(t, k)
    ensures forall k :: k !in KeysOf(t) ==> Stack(t, k) == []
  {
    HeightsCountEntries(Flat(t, BUCKETS), KeysOf(t));
    forall k
      ensures StackOf(Flat(t, BUCKETS), k) == Stack(t, k)
      ensures k !in KeysOf(t) ==> Stack(t, k) == []
    {
      StackOfFlat(t, BUCKETS, k);
      if k !in KeysOf(t) {
        StackOfForeign(Flat(t, BUCKETS), k);
      }
    }
  }

  /** There are no entries exactly when every stack is empty. */
  lemma SizeZero(t: Chains)
    requires InBuckets(t)
    ensures Total(t) == 0 <==> forall key :: Stack(t, key) == []
  {
    TotalIsSumOfHeights(t);
    if Total(t) > 0 {
      var flat := Flat(t, BUCKETS);
      assert StackOf(flat, flat[0].key) != [];
      assert Stack(t, flat[0].key) != [];
    }
  }

  // --- How the number of entries changes ---

  lemma {:induction false} FlatUpdate(t: Chains, b: nat, chain: Chain, n: nat)
    requires b < BUCKETS && n <= BUCKETS
    ensures |Flat(t[b := chain], n)| == |Flat(t, n)| + if b < n then |chain| - |t[b]| else 0
  {
    if n > 0 {
      FlatUpdate(t, b, chain, n - 1);
    }
  }

  lemma InsertCounts(t: Chains, e: Entry)
    ensures Total(InsertEntry(t, e)) == Total(t) + 1
  {
    var b := HashBucket(e.key);
    FlatUpdate(t, b, [e] + t[b], BUCKETS);
  }

  lemma {:induction false} FlatOfEmpty(t: Chains, n: nat)
    requires n <= BUCKETS && forall b :: 0 <= b < n ==> t[b] == []
    ensures Flat(t, n) == []
  {
    if n > 0 {
      FlatOfEmpty(t, n - 1);
    }
  }

  // --- Addresses ---

  /** The addresses held by the chains. */
  ghost function Addresses(t: Chains): set<GlobalAddress> {
    set b, i | 0 <= b < BUCKETS && 0 <= i < |t[b]| :: t[b][i].gaddr
  }

  /** No address occurs twice. */
  ghost predicate DistinctAddresses(t: Chains) {
    forall b, i, c, j ::
      0 <= b < BUCKETS && 0 <= i < |t[b]| && 0 <= c < BUCKETS && 0 <= j < |t[c]| && t[b][i].gaddr == t[c][j].gaddr
      ==> b == c && i == j
  }

  lemma DistinctInsert(t: Chains, e: Entry)
    requires DistinctAddresses(t) && e.gaddr !in Addresses(t)
    ensures DistinctAddresses(InsertEntry(t, e))
  {
    var u, k := InsertEntry(t, e), HashBucket(e.key);
    forall b, i, c, j |
      0 <= b < BUCKETS && 0 <= i < |u[b]| && 0 <= c < BUCKETS && 0 <= j < |u[c]| && u[b][i].gaddr == u[c][j].gaddr
      ensures b == c && i == j
    {
      assert u[b][i] == if b != k then t[b][i] else if i == 0 then e else t[b][i - 1];
      assert u[c][j] == if c != k then t[c][j] else if j == 0 then e else t[c][j - 1];
    }
  }

  /** An insertion adds its address. */
  lemma InsertAddresses(t: Chains, e: Entry)
    ensures Addresses(InsertEntry(t, e)) == Addresses(t) + {e.gaddr}
  {
    var u, k := InsertEntry(t, e), HashBucket(e.key);
    assert u[k][0] == e;
    forall b, i | 0 <= b < BUCKETS && 0 <= i < |t[b]|
      ensures t[b][i].gaddr in Addresses(u)
    {
      assert t[b][i] == u[b][if b == k then i + 1 else i];
    }
    forall b, i | 0 <= b < BUCKETS && 0 <= i < |u[b]|
      ensures u[b][i].gaddr in Addresses(t) + {e.gaddr}
    {
      assert u[b][i] == if b != k then t[b][i] else if i == 0 then e else t[b][i - 1];
    }
  }

  /** Taking one entry out takes its address out, and only that. */
  lemma WithoutAddresses(t: Chains, k: nat, p: nat)
    requires DistinctAddresses(t) && k < BUCKETS && p < |t[k]|
    ensures var u: Chains := t[k := Without(t[k], p)];
      DistinctAddresses(u) && Addresses(u) == Addresses(t) - {t[k][p].gaddr}
  {
    var u: Chains := t[k := Without(t[k], p)];
    forall b, i | 0 <= b < BUCKETS && 0 <= i < |u[b]|
      ensures var j := Back(b, i, k, p); j < |t[b]| && u[b][i] == t[b][j] && !(b == k && j == p)
    {
    }
    forall b, i | 0 <= b < BUCKETS && 0 <= i < |t[b]| && !(b == k && i == p)
      ensures t[b][i].gaddr in Addresses(u)
    {
      assert t[b][i] == u[b][if b == k && i > p then i - 1 else i];
    }
    forall b, i, c, j |
      0 <= b < BUCKETS && 0 <= i < |u[b]| && 0 <= c < BUCKETS && 0 <= j < |u[c]| && u[b][i].gaddr == u[c][j].gaddr
      ensures b == c && i == j
    {
      assert t[b][Back(b, i, k, p)].gaddr == t[c][Back(c, j, k, p)].gaddr;
    }
  }

  /** Where the entry at i of chain b was before position p of chain k was taken out. */
  function Back(b: nat, i: nat, k: nat, p: nat): nat {
    if b == k && i >= p then i + 1 else i
  }
}
