/** The memory as whole reads and writes: directory cells at the home and one
    partial map per remote node, which may forget at any time. Every property
    here is about all traces of such operations. */
module Atomic {
  import opened Defs
  import opened CacheModel
  import opened Directory

  datatype Event =
    | ReadHit(node: uint16, a: GlobalAddress, v: uint64)
    | ReadMiss(node: uint16, a: GlobalAddress, v: uint64)
    | RemoteWrite(node: uint16, a: GlobalAddress, v: uint64)
    | HomeRead(a: GlobalAddress, v: uint64)
    | HomeWrite(a: GlobalAddress, v: uint64)
  {
    predicate IsWrite() { RemoteWrite? || HomeWrite? }
    predicate IsRead() { !IsWrite() }
    function Writer(): uint16
      requires IsWrite()
    {
      if RemoteWrite? then node else PORT
    }
  }

  type Copies = map<GlobalAddress, uint64>

  datatype Memory = Memory(cells: map<GlobalAddress, SaveData>, caches: map<uint16, Copies>)

  predicate Enabled(m: Memory, e: Event) {
    && e.a in m.cells
    && match e
       case ReadHit(n, a, v) => n in m.caches && a in m.caches[n] && v == m.caches[n][a]
       case ReadMiss(n, a, v) => n in m.caches && a !in m.caches[n] && v == m.cells[a].data
       case RemoteWrite(n, _, _) => n in m.caches
       case HomeRead(a, v) => v == m.cells[a].data
       case HomeWrite(_, _) => true
  }

  function Stored(copies: Copies, a: GlobalAddress, v: uint64): Copies {
    copies[a := v]
  }

  function Invalidated(caches: map<uint16, Copies>, nodes: seq<uint16>, a: GlobalAddress): map<uint16, Copies> {
    map n | n in caches :: if n in nodes then caches[n] - {a} else caches[n]
  }

  /** A miss registers the reader and copies the data. A remote write copies its
      data into the writer's cache first, then drops the copies of all registered
      readers, which may include the writer. */
  function Apply(m: Memory, e: Event): Memory
    requires Enabled(m, e)
  {
    match e
    case ReadHit(_, _, _) => m
    case ReadMiss(n, a, v) =>
      Memory(m.cells[a := Registered(m.cells[a], n)], m.caches[n := Stored(m.caches[n], a, v)])
    case RemoteWrite(n, a, v) =>
      Memory(m.cells[a := RemotelyWritten(v, n)],
             Invalidated(m.caches[n := Stored(m.caches[n], a, v)], m.cells[a].sharerNodes, a))
    case HomeRead(_, _) => m
    case HomeWrite(a, v) =>
      Memory(m.cells[a := LocallyWritten(v, PORT)], Invalidated(m.caches, m.cells[a].sharerNodes, a))
  }

  /** Caches may forget copies between operations. */
  ghost predicate Evicted(m: Memory, t: Memory) {
    && m.cells == t.cells
    && m.caches.Keys == t.caches.Keys
    && forall n :: n in m.caches ==> Forgets(m.caches[n], t.caches[n])
  }

  /** No copies yet, and freshly allocated cells. */
  ghost predicate Initial(m: Memory) {
    && PORT !in m.caches
    && (forall n :: n in m.caches ==> m.caches[n] == map[])
    && forall a :: a in m.cells ==> m.cells[a].iscached == UNSHARED && m.cells[a].sharerNodes == []
  }

  /** t can be reached from m by exactly these operations, with forgetting between. */
  ghost predicate Reaches(m: Memory, trace: seq<Event>, t: Memory)
    decreases |trace|
  {
    if trace == [] then Evicted(m, t)
    else
      var before, last := trace[..|trace| - 1], trace[|trace| - 1];
      exists mid :: Reaches(m, before, mid) && Enabled(mid, last) && Evicted(Apply(mid, last), t)
  }

  lemma EvictedTwice(m: Memory, t: Memory, u: Memory)
    requires Evicted(m, t) && Evicted(t, u)
    ensures Evicted(m, u)
  {
  }

  /** Forgetting at the end of a run is part of the run. */
  lemma ReachesThenEvicts(m: Memory, trace: seq<Event>, t: Memory, u: Memory)
    requires Reaches(m, trace, t) && Evicted(t, u)
    ensures Reaches(m, trace, u)
  {
    if trace == [] {
      EvictedTwice(m, t, u);
    } else {
      var before, last := trace[..|trace| - 1], trace[|trace| - 1];
      var mid :| Reaches(m, before, mid) && Enabled(mid, last) && Evicted(Apply(mid, last), t);
      EvictedTwice(Apply(mid, last), t, u);
    }
  }

  lemma ReachesThenApplies(m: Memory, trace: seq<Event>, t: Memory, e: Event, u: Memory)
    requires Reaches(m, trace, t) && Enabled(t, e) && Evicted(Apply(t, e), u)
    ensures Reaches(m, trace + [e], u)
  {
    var longer := trace + [e];
    assert longer[..|longer| - 1] == trace && longer[|longer| - 1] == e;
  }

  // --- What a trace says ---

  /** The value of the last write to an address. */
  function LastWrite(m: Memory, trace: seq<Event>, a: GlobalAddress): uint64
    requires a in m.cells
  {
    if trace == [] then m.cells[a].data
    else
      var last := trace[|trace| - 1];
      if last.IsWrite() && last.a == a then last.v else LastWrite(m, trace[..|trace| - 1], a)
  }

  /** Who wrote an address last. */
  function LastWriter(trace: seq<Event>, a: GlobalAddress): Option<uint16> {
    if trace == [] then None
    else
      var last := trace[|trace| - 1];
      if last.IsWrite() && last.a == a then Some(last.Writer()) else LastWriter(trace[..|trace| - 1], a)
  }

  /** The readers served by a miss since the last write, in order and with repeats. */
  function MissesSinceWrite(trace: seq<Event>, a: GlobalAddress): seq<uint16> {
    if trace == [] then []
    else
      var before, last := trace[..|trace| - 1], trace[|trace| - 1];
      if last.a != a then MissesSinceWrite(before, a)
      else if last.IsWrite() then []
      else if last.ReadMiss? then MissesSinceWrite(before, a) + [last.node]
      else MissesSinceWrite(before, a)
  }

  /** The directory state that a trace calls for: shared once a miss was served since the
      last write; else exclusive after a remote write, and unshared after a write of the
      home's own or no write at all. */
  function StateSaid(trace: seq<Event>, a: GlobalAddress): int {
    if MissesSinceWrite(trace, a) != [] then SHARED
    else if LastWriter(trace, a).Some? && LastWriter(trace, a).value != PORT then EXCLUS
    else UNSHARED
  }

  /** How a node last obtained a copy of an address. */
  datatype Origin = NoCopy | Fetched(v: uint64) | Wrote(v: uint64)

  function LastOrigin(trace: seq<Event>, n: uint16, a: GlobalAddress): Origin {
    if trace == [] then NoCopy
    else
      var before, last := trace[..|trace| - 1], trace[|trace| - 1];
      if last.ReadMiss? && last.node == n && last.a == a then Fetched(last.v)
      else if last.RemoteWrite? && last.node == n && last.a == a then Wrote(last.v)
      else LastOrigin(before, n, a)
  }

  // --- The invariant of all traces ---

  /** A cell holds what the trace says. */
  ghost predicate CellAgrees(m: Memory, trace: seq<Event>, t: Memory, a: GlobalAddress)
    requires a in m.cells && a in t.cells
  {
    var cell := t.cells[a];
    && cell.data == LastWrite(m, trace, a)
    && cell.sharerNodes == MissesSinceWrite(trace, a)
    && SharedMeansSharers(cell)
    && cell.iscached == StateSaid(trace, a)
    && (LastWriter(trace, a).Some? ==> cell.ownerNode == LastWriter(trace, a).value)
  }

  /** A copy is what its node obtained last; a fetched one is registered and current. */
  ghost predicate CopyAgrees(m: Memory, trace: seq<Event>, t: Memory, n: uint16, a: GlobalAddress)
    requires a in m.cells && n in t.caches
  {
    a in t.caches[n] ==>
      match LastOrigin(trace, n, a)
      case NoCopy => false
      case Fetched(v) => t.caches[n][a] == v && n in MissesSinceWrite(trace, a) && v == LastWrite(m, trace, a)
      case Wrote(v) => t.caches[n][a] == v
  }

  ghost predicate Agrees(m: Memory, trace: seq<Event>, t: Memory) {
    && t.cells.Keys == m.cells.Keys
    && t.caches.Keys == m.caches.Keys
    && PORT !in t.caches
    && (forall n, a :: n in t.caches && a in t.caches[n] ==> a in t.cells)
    && (forall a :: a in t.cells ==> CellAgrees(m, trace, t, a))
    && (forall n, a :: n in t.caches && a in t.cells ==> CopyAgrees(m, trace, t, n, a))
  }

  /** What one more operation does to what a trace says of an address. */
  lemma TraceExtends(m: Memory, before: seq<Event>, e: Event, a: GlobalAddress)
    requires a in m.cells
    ensures var trace, writes := before + [e], e.IsWrite() && e.a == a;
      && LastWrite(m, trace, a) == (if writes then e.v else LastWrite(m, before, a))
      && LastWriter(trace, a) == (if writes then Some(e.Writer()) else LastWriter(before, a))
      && MissesSinceWrite(trace, a) == (if writes then []
                                        else if e.ReadMiss? && e.a == a then MissesSinceWrite(before, a) + [e.node]
                                        else MissesSinceWrite(before, a))
  {
    var trace := before + [e];
    assert trace[..|trace| - 1] == before;
  }

  lemma CellStep(m: Memory, before: seq<Event>, mid: Memory, e: Event, t: Memory, a: GlobalAddress)
    requires a in m.cells && a in mid.cells && Enabled(mid, e) && Evicted(Apply(mid, e), t)
    requires CellAgrees(m, before, mid, a) && PORT !in mid.caches
    ensures a in t.cells && CellAgrees(m, before + [e], t, a)
  {
    TraceExtends(m, before, e, a);
  }

  lemma CopyStep(m: Memory, before: seq<Event>, mid: Memory, e: Event, t: Memory, n: uint16, a: GlobalAddress)
    requires a in m.cells && a in mid.cells && n in mid.caches
    requires Enabled(mid, e) && Evicted(Apply(mid, e), t)
    requires CellAgrees(m, before, mid, a) && CopyAgrees(m, before, mid, n, a)
    ensures n in t.caches && CopyAgrees(m, before + [e], t, n, a)
  {
    var trace := before + [e];
    assert trace[..|trace| - 1] == before;
  }

  lemma KeysStep(m: Memory, mid: Memory, e: Event, t: Memory)
    requires mid.cells.Keys == m.cells.Keys && mid.caches.Keys == m.caches.Keys
    requires forall n, a :: n in mid.caches && a in mid.caches[n] ==> a in mid.cells
    requires Enabled(mid, e) && Evicted(Apply(mid, e), t)
    ensures t.cells.Keys == m.cells.Keys && t.caches.Keys == m.caches.Keys
    ensures forall n, a :: n in t.caches && a in t.caches[n] ==> a in t.cells
  {
  }

  lemma {:induction false} TraceInvariant(m: Memory, trace: seq<Event>, t: Memory)
    requires Initial(m) && Reaches(m, trace, t)
    ensures Agrees(m, trace, t)
    decreases |trace|
  {
    if trace != [] {
      var before, last := trace[..|trace| - 1], trace[|trace| - 1];
      var mid :| Reaches(m, before, mid) && Enabled(mid, last) && Evicted(Apply(mid, last), t);
      TraceInvariant(m, before, mid);
      assert trace == before + [last];
      AgreesStep(m, before, mid, last, t);
    }
  }

  lemma AgreesStep(m: Memory, before: seq<Event>, mid: Memory, e: Event, t: Memory)
    requires Agrees(m, before, mid) && Enabled(mid, e) && Evicted(Apply(mid, e), t)
    ensures Agrees(m, before + [e], t)
  {
    KeysStep(m, mid, e, t);
    forall a | a in t.cells
      ensures CellAgrees(m, before + [e], t, a)
    {
      CellStep(m, before, mid, e, t, a);
    }
    forall n, a | n in t.caches && a in t.cells
      ensures CopyAgrees(m, before + [e], t, n, a)
    {
      assert CellAgrees(m, before, mid, a) && CopyAgrees(m, before, mid, n, a);
      CopyStep(m, before, mid, e, t, n, a);
    }
  }

  // --- Directory agreement and stale copies ---

  /** A node that the directory lists as sharer or owner, and that has a copy, has
      the home's data. */
  lemma DirectoryAgreement(m: Memory, trace: seq<Event>, t: Memory, n: uint16, a: GlobalAddress)
    requires Initial(m) && Reaches(m, trace, t)
    requires n in t.caches && a in t.caches[n]
    ensures a in t.cells
    ensures n in t.cells[a].sharerNodes || n == t.cells[a].ownerNode ==> t.caches[n][a] == t.cells[a].data
  {
    TraceInvariant(m, trace, t);
    assert CellAgrees(m, trace, t, a) && CopyAgrees(m, trace, t, n, a);
    OwnWriteIsLast(m, trace, n, a);
  }

  /** A copy that a node wrote: the node is still the last writer, or another node
      has written since. A reader that wrote and is registered must have missed since. */
  lemma {:induction false} OwnWriteIsLast(m: Memory, trace: seq<Event>, n: uint16, a: GlobalAddress)
    requires a in m.cells && n != PORT
    ensures LastOrigin(trace, n, a).Wrote? ==>
      && LastWriter(trace, a).Some?
      && (LastWriter(trace, a) == Some(n) ==> LastOrigin(trace, n, a).v == LastWrite(m, trace, a))
      && n !in MissesSinceWrite(trace, a)
    decreases |trace|
  {
    if trace != [] {
      OwnWriteIsLast(m, trace[..|trace| - 1], n, a);
    }
  }

  /** The write at i by n is followed by another writer's, and by none of n's. */
  predicate SupersededAt(trace: seq<Event>, n: uint16, a: GlobalAddress, v: uint64, i: nat, j: nat)
  {
    && i < j < |trace|
    && trace[i] == RemoteWrite(n, a, v)
    && trace[j].IsWrite() && trace[j].a == a && trace[j].Writer() != n
    && forall k :: i < k < |trace| && trace[k].RemoteWrite? && trace[k].a == a ==> trace[k].node != n
  }

  /** Stale copies are exactly explained: a copy whose node is neither sharer nor
      owner is the last value that node wrote, superseded by another writer. */
  lemma StaleExplained(m: Memory, trace: seq<Event>, t: Memory, n: uint16, a: GlobalAddress)
    requires Initial(m) && Reaches(m, trace, t)
    requires n in t.caches && a in t.caches[n]
    ensures a in t.cells
    ensures n !in t.cells[a].sharerNodes && n != t.cells[a].ownerNode ==>
      exists i, j :: SupersededAt(trace, n, a, t.caches[n][a], i, j)
  {
    TraceInvariant(m, trace, t);
    assert CellAgrees(m, trace, t, a) && CopyAgrees(m, trace, t, n, a);
    OwnWriteIsLast(m, trace, n, a);
    if n !in t.cells[a].sharerNodes && n != t.cells[a].ownerNode {
      SupersededSomewhere(trace, n, a);
    }
  }

  lemma {:induction false} SupersededSomewhere(trace: seq<Event>, n: uint16, a: GlobalAddress)
    requires LastOrigin(trace, n, a).Wrote? && LastWriter(trace, a) != Some(n)
    ensures exists i, j :: SupersededAt(trace, n, a, LastOrigin(trace, n, a).v, i, j)
    decreases |trace|
  {
    var before, last := trace[..|trace| - 1], trace[|trace| - 1];
    var v := LastOrigin(before, n, a).v;
    assert LastOrigin(trace, n, a) == LastOrigin(before, n, a);
    if last.IsWrite() && last.a == a {
      var i := WroteSomewhere(before, n, a);
      assert SupersededAt(trace, n, a, v, i, |trace| - 1);
    } else {
      SupersededSomewhere(before, n, a);
      var i, j :| SupersededAt(before, n, a, v, i, j);
      assert SupersededAt(trace, n, a, v, i, j);
    }
  }

  lemma {:induction false} WroteSomewhere(trace: seq<Event>, n: uint16, a: GlobalAddress) returns (i: nat)
    requires LastOrigin(trace, n, a).Wrote?
    ensures i < |trace| && trace[i] == RemoteWrite(n, a, LastOrigin(trace, n, a).v)
    ensures forall k :: i < k < |trace| && trace[k].RemoteWrite? && trace[k].a == a ==> trace[k].node != n
    decreases |trace|
  {
    var before, last := trace[..|trace| - 1], trace[|trace| - 1];
    if last.RemoteWrite? && last.node == n && last.a == a {
      i := |trace| - 1;
    } else {
      i := WroteSomewhere(before, n, a);
    }
  }

  /** A copy obtained by a read miss is never stale. */
  lemma FetchedIsNeverStale(m: Memory, trace: seq<Event>, t: Memory, n: uint16, a: GlobalAddress)
    requires Initial(m) && Reaches(m, trace, t)
    requires n in t.caches && a in t.caches[n] && LastOrigin(trace, n, a).Fetched?
    ensures a in t.cells && a in m.cells
    ensures t.caches[n][a] == t.cells[a].data == LastWrite(m, trace, a)
    ensures n in t.cells[a].sharerNodes
  {
    TraceInvariant(m, trace, t);
    assert CellAgrees(m, trace, t, a) && CopyAgrees(m, trace, t, n, a);
  }

  // --- Flat memory ---

  /** Once a remote node has written an address, nobody else writes it. */
  ghost predicate OneRemoteWriter(trace: seq<Event>) {
    forall i, j :: 0 <= i < j < |trace| && trace[i].RemoteWrite? && trace[j].IsWrite() && trace[j].a == trace[i].a
      ==> trace[j].Writer() == trace[i].node
  }

  /** Every read returns the value of the last write before it. */
  ghost predicate Flat(m: Memory, trace: seq<Event>) {
    forall k :: 0 <= k < |trace| && trace[k].IsRead() && trace[k].a in m.cells ==>
      trace[k].v == LastWrite(m, trace[..k], trace[k].a)
  }

  /** The memory is coherent: every copy equals the home's data. */
  ghost predicate Coherent(t: Memory) {
    forall n, a :: n in t.caches && a in t.caches[n] && a in t.cells ==> t.caches[n][a] == t.cells[a].data
  }

  lemma OneRemoteWriterIsCoherent(m: Memory, trace: seq<Event>, t: Memory)
    requires Initial(m) && Reaches(m, trace, t) && OneRemoteWriter(trace)
    ensures Coherent(t)
  {
    forall n, a | n in t.caches && a in t.caches[n] && a in t.cells
      ensures t.caches[n][a] == t.cells[a].data
    {
      DirectoryAgreement(m, trace, t, n, a);
      StaleExplained(m, trace, t, n, a);
    }
  }

  /** With one remote writer per address the memory is flat: hits, misses and the
      home's own reads all return the last value written. */
  lemma {:induction false} FlatMemory(m: Memory, trace: seq<Event>, t: Memory)
    requires Initial(m) && Reaches(m, trace, t) && OneRemoteWriter(trace)
    ensures Flat(m, trace)
    decreases |trace|
  {
    if trace != [] {
      var before, last := trace[..|trace| - 1], trace[|trace| - 1];
      var mid :| Reaches(m, before, mid) && Enabled(mid, last) && Evicted(Apply(mid, last), t);
      FlatMemory(m, before, mid);
      OneRemoteWriterIsCoherent(m, before, mid);
      TraceInvariant(m, before, mid);
      assert CellAgrees(m, before, mid, last.a);
      FlatExtends(m, trace);
    }
  }

  lemma FlatExtends(m: Memory, trace: seq<Event>)
    requires trace != [] && Flat(m, trace[..|trace| - 1])
    requires var last := trace[|trace| - 1];
      last.IsRead() && last.a in m.cells ==> last.v == LastWrite(m, trace[..|trace| - 1], last.a)
    ensures Flat(m, trace)
  {
    var before := trace[..|trace| - 1];
    forall k | 0 <= k < |trace| && trace[k].IsRead() && trace[k].a in m.cells
      ensures trace[k].v == LastWrite(m, trace[..k], trace[k].a)
    {
      if k < |before| {
        assert before[..k] == trace[..k];
      }
    }
  }

  /** Whatever the writers do, misses and the home's own reads are never stale. */
  lemma OnlyHitsCanBeStale(m: Memory, trace: seq<Event>, t: Memory, e: Event)
    requires Initial(m) && Reaches(m, trace, t) && Enabled(t, e) && (e.ReadMiss? || e.HomeRead?)
    ensures e.a in m.cells && e.v == LastWrite(m, trace, e.a)
  {
    TraceInvariant(m, trace, t);
    assert CellAgrees(m, trace, t, e.a);
  }

  /** Every read that is possible next returns the value of the last write. */
  ghost predicate NextReadsAreRight(m: Memory, trace: seq<Event>, t: Memory) {
    forall e :: Enabled(t, e) && e.IsRead() ==> e.a in m.cells && e.v == LastWrite(m, trace, e.a)
  }

  lemma CoherentReads(m: Memory, trace: seq<Event>, t: Memory)
    requires Agrees(m, trace, t) && Coherent(t)
    ensures NextReadsAreRight(m, trace, t)
  {
    forall e | Enabled(t, e) && e.IsRead()
      ensures e.a in m.cells && e.v == LastWrite(m, trace, e.a)
    {
      assert CellAgrees(m, trace, t, e.a);
    }
  }

  lemma RightReadsCohere(m: Memory, trace: seq<Event>, t: Memory)
    requires Agrees(m, trace, t) && NextReadsAreRight(m, trace, t)
    ensures Coherent(t)
  {
    forall n, a | n in t.caches && a in t.caches[n] && a in t.cells
      ensures t.caches[n][a] == t.cells[a].data
    {
      assert Enabled(t, ReadHit(n, a, t.caches[n][a]));
      assert CellAgrees(m, trace, t, a);
    }
  }

  /** Coherence decides the reads: in a reachable memory every read that is possible
      next returns the last value written exactly when the memory is coherent. */
  lemma CoherenceDecidesReads(m: Memory, trace: seq<Event>, t: Memory)
    requires Initial(m) && Reaches(m, trace, t)
    ensures Coherent(t) <==> NextReadsAreRight(m, trace, t)
  {
    TraceInvariant(m, trace, t);
    if Coherent(t) {
      CoherentReads(m, trace, t);
    }
    if NextReadsAreRight(m, trace, t) {
      RightReadsCohere(m, trace, t);
    }
  }

  /** Every other node with a copy of the written address is a registered reader or
      has that value already. */
  ghost predicate Harmless(t: Memory, e: Event)
    requires e.a in t.cells && e.IsWrite()
  {
    forall n :: n in t.caches && n != e.Writer() && e.a in t.caches[n] ==>
      n in t.cells[e.a].sharerNodes || t.caches[n][e.a] == e.v
  }

  /** A write leaves a coherent memory coherent exactly when it is harmless. */
  lemma WriteKeepsCoherence(t: Memory, e: Event)
    requires PORT !in t.caches && Coherent(t) && Enabled(t, e) && e.IsWrite()
    ensures Coherent(Apply(t, e)) <==> Harmless(t, e)
  {
    var u := Apply(t, e);
    if Coherent(u) {
      forall n | n in t.caches && n != e.Writer() && e.a in t.caches[n] && n !in t.cells[e.a].sharerNodes
        ensures t.caches[n][e.a] == e.v
      {
        assert u.caches[n][e.a] == u.cells[e.a].data;
      }
    }
    if Harmless(t, e) {
      forall n, a | n in u.caches && a in u.caches[n] && a in u.cells
        ensures u.caches[n][a] == u.cells[a].data
      {
        if a != e.a {
          assert t.caches[n][a] == t.cells[a].data;
        }
      }
    }
  }

  lemma EvictionKeepsCoherence(m: Memory, t: Memory)
    requires Evicted(m, t) && Coherent(m)
    ensures Coherent(t)
  {
    forall n, a | n in t.caches && a in t.caches[n] && a in t.cells
      ensures t.caches[n][a] == t.cells[a].data
    {
      assert Forgets(m.caches[n], t.caches[n]);
    }
  }

  /** One harmless write, with forgetting before and after it, keeps the memory coherent. */
  lemma HarmlessWriteReaches(m: Memory, e: Event, t: Memory)
    requires PORT !in m.caches && Coherent(m) && Reaches(m, [e], t) && e.IsWrite() && e.a in m.cells
    requires Harmless(m, e)
    ensures Coherent(t)
  {
    var before: seq<Event> := [e][..0];
    var mid :| Reaches(m, before, mid) && Enabled(mid, e) && Evicted(Apply(mid, e), t);
    EvictionKeepsCoherence(m, mid);
    forall n | n in mid.caches && n != e.Writer() && e.a in mid.caches[n]
      ensures n in mid.cells[e.a].sharerNodes || mid.caches[n][e.a] == e.v
    {
      assert Forgets(m.caches[n], mid.caches[n]);
    }
    WriteKeepsCoherence(mid, e);
    EvictionKeepsCoherence(Apply(mid, e), t);
  }

  /** One write, with forgetting before and after it, leaves its value at the home. */
  lemma OneWriteStores(m: Memory, e: Event, t: Memory)
    requires Reaches(m, [e], t) && e.IsWrite()
    ensures e.a in t.cells && t.cells[e.a].data == e.v
  {
    var before: seq<Event> := [e][..0];
    var mid :| Reaches(m, before, mid) && Enabled(mid, e) && Evicted(Apply(mid, e), t);
    assert mid.cells == m.cells;
  }
}
