/** Whole runs of the hash table: what a get returns after any sequence of calls, and
    which blocks are then live (app/HashTable.h). */
module TableRuns {
  import opened Defs
  import opened MixHash
  import opened TableModel

  /** The chains and the live blocks of the node. */
  datatype Store = Store(chains: Chains, live: set<GlobalAddress>)

  /** A call that came back, with its answer. */
  datatype Event =
    | Inserted(key: uint32, value: uint64)
    | Got(key: uint32, result: Option<uint64>)
    | Indexed(key: uint32, value: uint64)
    | Erased(key: uint32)
    | Cleared

  /** A new block was allocated and its element stands in front. */
  ghost predicate Added(s: Store, key: uint32, value: uint64, s': Store) {
    var chain := s'.chains[HashBucket(key)];
    && |chain| > 0
    && chain[0].gaddr !in s.live
    && s'.live == s.live + {chain[0].gaddr}
    && s'.chains == InsertEntry(s.chains, Entry(key, chain[0].gaddr, value))
  }

  /** The block of the element that an erase finds. */
  ghost function FoundBlock(t: Chains, key: uint32): set<GlobalAddress> {
    var chain, i := t[HashBucket(key)], Find(t[HashBucket(key)], key);
    if i < |chain| then {chain[i].gaddr} else {}
  }

  ghost predicate Step(s: Store, ev: Event, s': Store) {
    match ev
    case Inserted(key, value) => Added(s, key, value, s')
    case Got(key, result) => s' == s && result == Lookup(s.chains, key)
    case Indexed(key, value) =>
      if Lookup(s.chains, key).None? then Added(s, key, value, s') else s' == s && Lookup(s.chains, key) == Some(value)
    case Erased(key) => s' == Store(EraseKey(s.chains, key), s.live - FoundBlock(s.chains, key))
    case Cleared => NoEntries(s'.chains) && s'.live == s.live - Addresses(s.chains)
  }

  ghost predicate IsRun(states: seq<Store>, events: seq<Event>) {
    && |states| == |events| + 1
    && forall i :: 0 <= i < |events| ==> Step(states[i], events[i], states[i + 1])
  }

  lemma RunExtends(states: seq<Store>, events: seq<Event>, ev: Event, s: Store)
    requires IsRun(states, events) && Step(states[|events|], ev, s)
    ensures IsRun(states + [s], events + [ev])
  {
  }

  // --- What the calls do to the stack of one key ---

  ghost function StackStep(stack: seq<uint64>, ev: Event, key: uint32): seq<uint64> {
    match ev
    case Inserted(k, value) => if k == key then [value] + stack else stack
    case Got(_, _) => stack
    case Indexed(k, value) => if k == key && stack == [] then [value] else stack
    case Erased(k) => if k == key then Popped(stack) else stack
    case Cleared => []
  }

  lemma StepMovesStack(s: Store, ev: Event, s': Store, key: uint32)
    requires Step(s, ev, s')
    ensures Stack(s'.chains, key) == StackStep(Stack(s.chains, key), ev, key)
  {
    match ev
    case Inserted(k, value) =>
      InsertPushes(s.chains, Entry(k, s'.chains[HashBucket(k)][0].gaddr, value), key);
    case Got(_, _) =>
    case Indexed(k, value) =>
      LookupReadsTop(s.chains, k);
      if Lookup(s.chains, k).None? {
        InsertPushes(s.chains, Entry(k, s'.chains[HashBucket(k)][0].gaddr, value), key);
      }
    case Erased(k) =>
      ErasePops(s.chains, k, key);
    case Cleared =>
  }

  ghost function Nth(stack: seq<uint64>, n: nat): Option<uint64> {
    if n < |stack| then Some(stack[n]) else None
  }

  /** The value of the latest insertion of the key that no later erase took away, when
      `erased` erases of it are still to be matched. Read backwards from the end of the
      events; `below` is what the stack held before them. operator[] counts as an
      insertion when nothing is left to find. */
  ghost function Unerased(below: seq<uint64>, events: seq<Event>, key: uint32, erased: nat): Option<uint64> {
    if events == [] then
      Nth(below, erased)
    else
      var before, ev := events[..|events| - 1], events[|events| - 1];
      match ev
      case Inserted(k, value) =>
        if k != key then Unerased(below, before, key, erased)
        else if erased == 0 then Some(value)
        else Unerased(below, before, key, erased - 1)
      case Indexed(k, value) =>
        if k != key || Unerased(below, before, key, 0).Some? then Unerased(below, before, key, erased)
        else if erased == 0 then Some(value)
        else None
      case Got(_, _) => Unerased(below, before, key, erased)
      case Erased(k) => Unerased(below, before, key, if k == key then erased + 1 else erased)
      case Cleared => None
  }

  /** One more event moves the un-erased values as it moves the stack. */
  lemma UnerasedStep(below: seq<uint64>, before: seq<Event>, ev: Event, key: uint32, stack: seq<uint64>, n: nat)
    requires Unerased(below, before, key, 0) == Nth(stack, 0)
    requires Unerased(below, before, key, n) == Nth(stack, n)
    requires Unerased(below, before, key, n + 1) == Nth(stack, n + 1)
    requires n > 0 ==> Unerased(below, before, key, n - 1) == Nth(stack, n - 1)
    ensures Unerased(below, before + [ev], key, n) == Nth(StackStep(stack, ev, key), n)
  {
    assert (before + [ev])[..|before|] == before;
  }

  /** In every run the stack of a key holds its un-erased values, the latest on top. */
  lemma {:induction false} StackHoldsUnerased(states: seq<Store>, events: seq<Event>, key: uint32, n: nat)
    requires IsRun(states, events)
    ensures Unerased(Stack(states[0].chains, key), events, key, n) == Nth(Stack(states[|events|].chains, key), n)
    decreases |events|
  {
    if events != [] {
      var last := |events| - 1;
      var before, ev := events[..last], events[last];
      assert events == before + [ev];
      assert IsRun(states[..last + 1], before);
      StackHoldsUnerased(states[..last + 1], before, key, 0);
      StackHoldsUnerased(states[..last + 1], before, key, n);
      StackHoldsUnerased(states[..last + 1], before, key, n + 1);
      if n > 0 {
        StackHoldsUnerased(states[..last + 1], before, key, n - 1);
      }
      StepMovesStack(states[last], ev, states[last + 1], key);
      UnerasedStep(Stack(states[0].chains, key), before, ev, key, Stack(states[last].chains, key), n);
    }
  }

  /** Every get of every run returns the value of the latest un-erased insertion of its
      key, and nothing exactly when there is none. */
  lemma GetsReturnLatest(states: seq<Store>, events: seq<Event>, i: nat)
    requires IsRun(states, events) && i < |events| && events[i].Got?
    ensures var key := events[i].key;
      events[i].result == Unerased(Stack(states[0].chains, key), events[..i], key, 0)
  {
    var key := events[i].key;
    assert IsRun(states[..i + 1], events[..i]);
    assert Step(states[i], events[i], states[i + 1]);
    StackHoldsUnerased(states[..i + 1], events[..i], key, 0);
    LookupReadsTop(states[i].chains, key);
  }

  /** Every get in these events, and a get after them, returns the latest un-erased
      insertion of its key. */
  ghost predicate AnswersAreLatest(s: Store, events: seq<Event>, s': Store) {
    && (forall i :: 0 <= i < |events| && events[i].Got? ==>
         events[i].result == Unerased(Stack(s.chains, events[i].key), events[..i], events[i].key, 0))
    && forall key :: Lookup(s'.chains, key) == Unerased(Stack(s.chains, key), events, key, 0)
  }

  lemma RunAnswers(states: seq<Store>, events: seq<Event>)
    requires IsRun(states, events)
    ensures AnswersAreLatest(states[0], events, states[|events|])
  {
    forall i | 0 <= i < |events| && events[i].Got?
      ensures events[i].result == Unerased(Stack(states[0].chains, events[i].key), events[..i], events[i].key, 0)
    {
      GetsReturnLatest(states, events, i);
    }
    forall key
      ensures Lookup(states[|events|].chains, key) == Unerased(Stack(states[0].chains, key), events, key, 0)
    {
      StackHoldsUnerased(states, events, key, 0);
      LookupReadsTop(states[|events|].chains, key);
    }
  }

  // --- Which blocks are live ---

  lemma AtMostOneMore<T>(a: set<T>, b: set<T>, x: T)
    requires b <= a + {x}
    ensures |b| <= |a| + 1
  {
    assert a + {x} == b + (a + {x} - b);
  }

  /** A call allocates at most one block. */
  lemma StepGrows(s: Store, ev: Event, s': Store)
    requires Step(s, ev, s')
    ensures |s'.live| <= |s.live| + 1
  {
    var b := if ev.Cleared? then 0 else HashBucket(ev.key);
    var a := if s'.chains[b] == [] then GlobalAddress(0, 0, 0) else s'.chains[b][0].gaddr;
    AtMostOneMore(s.live, s'.live, a);
  }

  /** The chains hold live blocks, each once. */
  ghost predicate Owned(s: Store) {
    DistinctAddresses(s.chains) && Addresses(s.chains) <= s.live
  }

  lemma AddedOwns(s: Store, key: uint32, value: uint64, s': Store)
    requires Owned(s) && Added(s, key, value, s')
    ensures Owned(s') && s'.live - Addresses(s'.chains) == s.live - Addresses(s.chains)
  {
    var e := Entry(key, s'.chains[HashBucket(key)][0].gaddr, value);
    DistinctInsert(s.chains, e);
    InsertAddresses(s.chains, e);
  }

  lemma ErasedOwns(s: Store, key: uint32, s': Store)
    requires Owned(s) && Step(s, Erased(key), s')
    ensures Owned(s') && s'.live - Addresses(s'.chains) == s.live - Addresses(s.chains)
  {
    var b, i := HashBucket(key), Find(s.chains[HashBucket(key)], key);
    if i < |s.chains[b]| {
      WithoutAddresses(s.chains, b, i);
      assert s.chains[b][i].gaddr in Addresses(s.chains);
    } else {
      assert s'.chains == s.chains;
    }
  }

  lemma StepOwns(s: Store, ev: Event, s': Store)
    requires Owned(s) && Step(s, ev, s')
    ensures Owned(s') && s'.live - Addresses(s'.chains) == s.live - Addresses(s.chains)
  {
    match ev
    case Inserted(key, value) => AddedOwns(s, key, value, s');
    case Got(_, _) =>
    case Indexed(key, value) =>
      if Lookup(s.chains, key).None? {
        AddedOwns(s, key, value, s');
      }
    case Erased(key) => ErasedOwns(s, key, s');
    case Cleared =>
  }

  /** Over every run the live blocks outside the chains stay the same, so the blocks of
      the chains are, each once, what the table allocated and did not free. */
  lemma {:induction false} RunsConserveBlocks(states: seq<Store>, events: seq<Event>)
    requires IsRun(states, events) && Owned(states[0])
    ensures var s, s' := states[0], states[|events|];
      Owned(s') && s'.live - Addresses(s'.chains) == s.live - Addresses(s.chains)
    decreases |events|
  {
    if events != [] {
      var last := |events| - 1;
      assert IsRun(states[..last + 1], events[..last]);
      RunsConserveBlocks(states[..last + 1], events[..last]);
      StepOwns(states[last], events[last], states[last + 1]);
    }
  }
}
