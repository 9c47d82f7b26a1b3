/** What holds in every run of the interleaved protocol. */
module Runs {
  import opened Defs
  import opened CacheModel
  import opened Directory
  import opened Protocol
  import opened Refinement
  import Atomic

  /** Initially the atomic memory is initial too. */
  lemma InitialOk(cfg: Config, s: State)
    requires ValidConfig(cfg) && Initial(cfg, s)
    ensures Inv(cfg, s)
    ensures Atomic.Initial(Abs(cfg, s))
  {
    assert forall n :: n in s.nodes ==> AbsCopies(cfg, s.nodes[n], None) == map[];
  }

  lemma {:induction false} InvLater(cfg: Config, s: State, acts: seq<Action>)
    requires ValidConfig(cfg) && Inv(cfg, s) && CanRun(cfg, s, acts)
    ensures Inv(cfg, After(cfg, s, acts))
    decreases |acts|
  {
    if acts != [] {
      InvLater(cfg, s, acts[..|acts| - 1]);
      InvStep(cfg, After(cfg, s, acts[..|acts| - 1]), acts[|acts| - 1]);
    }
  }

  lemma InvRun(cfg: Config, s: State, acts: seq<Action>)
    requires ValidConfig(cfg) && Initial(cfg, s) && CanRun(cfg, s, acts)
    ensures Inv(cfg, After(cfg, s, acts))
  {
    InitialOk(cfg, s);
    InvLater(cfg, s, acts);
  }

  /** A part of a run, from any state in which the invariant holds. */
  lemma {:induction false} PartRefinesAtomic(cfg: Config, s: State, acts: seq<Action>)
    requires ValidConfig(cfg) && Inv(cfg, s) && CanRun(cfg, s, acts)
    ensures Atomic.Reaches(Abs(cfg, s), Trace(cfg, s, acts), Abs(cfg, After(cfg, s, acts)))
    decreases |acts|
  {
    if acts != [] {
      var before, last := acts[..|acts| - 1], acts[|acts| - 1];
      PartRefinesAtomic(cfg, s, before);
      InvLater(cfg, s, before);
      SimStep(cfg, After(cfg, s, before), last);
      ExtendRun(cfg, s, before, last);
    }
  }

  /** The refinement: every interleaving is a run of whole reads and writes, with
      exactly its events, in the order in which they took effect. */
  lemma InterleavingRefinesAtomic(cfg: Config, s: State, acts: seq<Action>)
    requires ValidConfig(cfg) && Initial(cfg, s) && CanRun(cfg, s, acts)
    ensures Atomic.Initial(Abs(cfg, s))
    ensures Atomic.Reaches(Abs(cfg, s), Trace(cfg, s, acts), Abs(cfg, After(cfg, s, acts)))
  {
    InitialOk(cfg, s);
    PartRefinesAtomic(cfg, s, acts);
  }

  lemma ExtendRun(cfg: Config, s: State, before: seq<Action>, last: Action)
    requires CanRun(cfg, s, before) && Enabled(cfg, After(cfg, s, before), last)
    requires var mid := After(cfg, s, before);
      && Atomic.Reaches(Abs(cfg, s), Trace(cfg, s, before), Abs(cfg, mid))
      && Simulates(cfg, mid, Emit(cfg, mid, last), Next(cfg, mid, last))
    ensures CanRun(cfg, s, before + [last])
    ensures Atomic.Reaches(Abs(cfg, s), Trace(cfg, s, before + [last]), Abs(cfg, After(cfg, s, before + [last])))
  {
    var acts := before + [last];
    assert acts[..|acts| - 1] == before && acts[|acts| - 1] == last;
    var mid := After(cfg, s, before);
    match Emit(cfg, mid, last)
    case None =>
      Atomic.ReachesThenEvicts(Abs(cfg, s), Trace(cfg, s, before), Abs(cfg, mid), Abs(cfg, Next(cfg, mid, last)));
    case Some(e) =>
      Atomic.ReachesThenApplies(Abs(cfg, s), Trace(cfg, s, before), Abs(cfg, mid), e, Abs(cfg, Next(cfg, mid, last)));
  }

  /** A run so far, and where it is. */
  ghost predicate ReachedBy(cfg: Config, s: State, acts: seq<Action>, t: State) {
    CanRun(cfg, s, acts) && After(cfg, s, acts) == t
  }

  function Extended(trace: seq<Event>, e: Option<Event>): seq<Event> {
    match e
    case None => trace
    case Some(op) => trace + [op]
  }

  /** A run with one more step, and with what takes effect with it. */
  lemma Go(cfg: Config, s: State, acts: seq<Action>, t: State, act: Action, u: State)
    requires ReachedBy(cfg, s, acts, t) && Enabled(cfg, t, act) && Next(cfg, t, act) == u
    ensures ReachedBy(cfg, s, acts + [act], u)
    ensures Trace(cfg, s, acts + [act]) == Extended(Trace(cfg, s, acts), Emit(cfg, t, act))
  {
    var longer := acts + [act];
    assert longer[..|longer| - 1] == acts && longer[|longer| - 1] == act;
  }

  // --- Flat memory ---

  /** In every interleaving in which no address has a second writer after a remote
      one, every read, hit or miss or the home's own, has the value of the last write. */
  lemma RunsAreFlat(cfg: Config, s: State, acts: seq<Action>)
    requires ValidConfig(cfg) && Initial(cfg, s) && CanRun(cfg, s, acts)
    requires Atomic.OneRemoteWriter(Trace(cfg, s, acts))
    ensures Atomic.Flat(Abs(cfg, s), Trace(cfg, s, acts))
  {
    InterleavingRefinesAtomic(cfg, s, acts);
    Atomic.FlatMemory(Abs(cfg, s), Trace(cfg, s, acts), Abs(cfg, After(cfg, s, acts)));
  }

  // --- Quiescent states ---

  /** A node's cached data, by address. */
  ghost function Copies(cfg: Config, s: State, n: uint16): Atomic.Copies
    requires n in s.nodes
  {
    View(s.nodes[n].cache, cfg.addrs)
  }

  /** While the home listens, the concrete cells and caches are the abstract ones. */
  lemma ListeningIsAbstract(cfg: Config, s: State)
    requires Inv(cfg, s) && s.home.Listening?
    ensures Abs(cfg, s).cells == s.cells
    ensures Abs(cfg, s).caches.Keys == s.nodes.Keys
    ensures forall n :: n in s.nodes ==> Abs(cfg, s).caches[n] == Copies(cfg, s, n)
  {
    NothingPending(cfg, s);
  }

  /** Directory agreement: in every quiescent state of every run, a copy held by a
      registered sharer or by the owner equals the home's data. */
  lemma QuiescentAgreement(cfg: Config, s: State, acts: seq<Action>, n: uint16, a: GlobalAddress)
    requires ValidConfig(cfg) && Initial(cfg, s) && CanRun(cfg, s, acts)
    requires var t := After(cfg, s, acts);
      t.home.Listening? && n in t.nodes && a in Copies(cfg, t, n)
    ensures var t := After(cfg, s, acts);
      a in t.cells &&
      (n in t.cells[a].sharerNodes || n == t.cells[a].ownerNode ==> Copies(cfg, t, n)[a] == t.cells[a].data)
  {
    var t := After(cfg, s, acts);
    InterleavingRefinesAtomic(cfg, s, acts);
    InvRun(cfg, s, acts);
    ListeningIsAbstract(cfg, t);
    Atomic.DirectoryAgreement(Abs(cfg, s), Trace(cfg, s, acts), Abs(cfg, t), n, a);
  }

  /** Stale copies are exactly explained: in every quiescent state a copy of a node
      that is neither sharer nor owner is the last value the node wrote, and another
      node or the home has written since. */
  lemma QuiescentStaleness(cfg: Config, s: State, acts: seq<Action>, n: uint16, a: GlobalAddress)
    requires ValidConfig(cfg) && Initial(cfg, s) && CanRun(cfg, s, acts)
    requires var t := After(cfg, s, acts);
      t.home.Listening? && n in t.nodes && a in Copies(cfg, t, n)
    ensures var t := After(cfg, s, acts);
      a in t.cells &&
      (n !in t.cells[a].sharerNodes && n != t.cells[a].ownerNode ==>
        exists i, j :: Atomic.SupersededAt(Trace(cfg, s, acts), n, a, Copies(cfg, t, n)[a], i, j))
  {
    var t := After(cfg, s, acts);
    InterleavingRefinesAtomic(cfg, s, acts);
    InvRun(cfg, s, acts);
    ListeningIsAbstract(cfg, t);
    Atomic.StaleExplained(Abs(cfg, s), Trace(cfg, s, acts), Abs(cfg, t), n, a);
  }

  /** A copy obtained by a read miss is never stale in a quiescent state. */
  lemma QuiescentFetched(cfg: Config, s: State, acts: seq<Action>, n: uint16, a: GlobalAddress)
    requires ValidConfig(cfg) && Initial(cfg, s) && CanRun(cfg, s, acts)
    requires var t := After(cfg, s, acts);
      t.home.Listening? && n in t.nodes && a in Copies(cfg, t, n)
    requires Atomic.LastOrigin(Trace(cfg, s, acts), n, a).Fetched?
    ensures var t := After(cfg, s, acts);
      a in t.cells && Copies(cfg, t, n)[a] == t.cells[a].data && n in t.cells[a].sharerNodes
  {
    var t := After(cfg, s, acts);
    InterleavingRefinesAtomic(cfg, s, acts);
    InvRun(cfg, s, acts);
    ListeningIsAbstract(cfg, t);
    Atomic.FetchedIsNeverStale(Abs(cfg, s), Trace(cfg, s, acts), Abs(cfg, t), n, a);
  }

  /** At every moment of every run the three differently written guards agree on
      every cell, and the cell can be read. */
  lemma {:induction false} GuardsAlwaysAgree(cfg: Config, s: State, acts: seq<Action>, a: GlobalAddress)
    requires ValidConfig(cfg) && Initial(cfg, s) && CanRun(cfg, s, acts) && a in cfg.addrs
    ensures a in After(cfg, s, acts).cells && GuardsAgree(After(cfg, s, acts).cells[a])
  {
    InvRun(cfg, s, acts);
    assert CellOk(cfg, After(cfg, s, acts).cells[a]);
  }

  /** In every state of every run SHARED means that there are sharers, and the sharer
      list is, with repeats and in order, the list of readers served by a miss since
      the last write that has taken effect. The cell that is being overwritten while
      the home broadcasts has no sharers, and the snapshot being told is that list. */
  lemma SharersAreMissesSinceWrite(cfg: Config, s: State, acts: seq<Action>, a: GlobalAddress)
    requires ValidConfig(cfg) && Initial(cfg, s) && CanRun(cfg, s, acts) && a in cfg.addrs
    ensures var t := After(cfg, s, acts);
      var misses := Atomic.MissesSinceWrite(Trace(cfg, s, acts), a);
      && a in t.cells
      && (t.cells[a].iscached == SHARED <==> t.cells[a].sharerNodes != [])
      && if t.home.Broadcasting? && a == t.home.a
         then t.cells[a].sharerNodes == [] && t.home.was.sharerNodes == misses
         else t.cells[a].sharerNodes == misses
  {
    var t := After(cfg, s, acts);
    InterleavingRefinesAtomic(cfg, s, acts);
    InvRun(cfg, s, acts);
    Atomic.TraceInvariant(Abs(cfg, s), Trace(cfg, s, acts), Abs(cfg, t));
    assert Atomic.CellAgrees(Abs(cfg, s), Trace(cfg, s, acts), Abs(cfg, t), a);
    assert CellOk(cfg, t.cells[a]);
  }

  /** A cell is what the operations that have taken effect say: last value, last writer,
      and one of the three states. */
  ghost predicate CellIsSaid(m: Atomic.Memory, trace: seq<Event>, cell: SaveData, a: GlobalAddress)
    requires a in m.cells
  {
    var writer := Atomic.LastWriter(trace, a);
    && cell.data == Atomic.LastWrite(m, trace, a)
    && (writer.Some? ==> cell.ownerNode == writer.value)
    && (cell.iscached == SHARED <==> Atomic.MissesSinceWrite(trace, a) != [])
    && (cell.iscached == EXCLUS <==> Atomic.MissesSinceWrite(trace, a) == [] && writer.Some? && writer.value != PORT)
  }

  /** In every state of every run the directory is what the operations say: a cell is
      EXCLUS exactly when a remote node wrote it last and no miss was served since. The
      cell being overwritten while the home broadcasts is already EXCLUS and owned by
      the new writer, and what it was before is what the operations say. */
  lemma DirectoryMatchesTrace(cfg: Config, s: State, acts: seq<Action>, a: GlobalAddress)
    requires ValidConfig(cfg) && Initial(cfg, s) && CanRun(cfg, s, acts) && a in cfg.addrs
    ensures var t := After(cfg, s, acts);
      && a in t.cells && a in Abs(cfg, s).cells
      && if t.home.Broadcasting? && a == t.home.a
         then CellIsSaid(Abs(cfg, s), Trace(cfg, s, acts), t.home.was, a)
              && t.cells[a] == SaveData(t.home.v, EXCLUS, t.home.writer, [])
         else CellIsSaid(Abs(cfg, s), Trace(cfg, s, acts), t.cells[a], a)
  {
    var t := After(cfg, s, acts);
    InterleavingRefinesAtomic(cfg, s, acts);
    InvRun(cfg, s, acts);
    Atomic.TraceInvariant(Abs(cfg, s), Trace(cfg, s, acts), Abs(cfg, t));
    assert Atomic.CellAgrees(Abs(cfg, s), Trace(cfg, s, acts), Abs(cfg, t), a);
  }

  // --- Where flatness stops ---

  /** Every copy equals the home's data. */
  ghost predicate CopiesCurrent(cfg: Config, t: State) {
    forall n, a :: n in t.nodes && a in Copies(cfg, t, n) && a in t.cells ==> Copies(cfg, t, n)[a] == t.cells[a].data
  }

  lemma CurrentIsCoherent(cfg: Config, t: State)
    requires Inv(cfg, t) && t.home.Listening?
    ensures CopiesCurrent(cfg, t) <==> Atomic.Coherent(Abs(cfg, t))
  {
    ListeningIsAbstract(cfg, t);
    var caches := Abs(cfg, t).caches;
    assert forall n :: n in t.nodes <==> n in caches;
  }

  /** In every quiescent state the copies decide the reads: each read that is possible
      next returns the last value written exactly when all copies are current. */
  lemma QuiescentCopiesDecideReads(cfg: Config, s: State, acts: seq<Action>)
    requires ValidConfig(cfg) && Initial(cfg, s) && CanRun(cfg, s, acts)
    requires After(cfg, s, acts).home.Listening?
    ensures var t := After(cfg, s, acts);
      CopiesCurrent(cfg, t) <==> Atomic.NextReadsAreRight(Abs(cfg, s), Trace(cfg, s, acts), Abs(cfg, t))
  {
    var t := After(cfg, s, acts);
    InterleavingRefinesAtomic(cfg, s, acts);
    InvRun(cfg, s, acts);
    CurrentIsCoherent(cfg, t);
    Atomic.CoherenceDecidesReads(Abs(cfg, s), Trace(cfg, s, acts), Abs(cfg, t));
  }

  /** Every node with a copy of the written address is the writer, or a registered
      reader, or has that value already. */
  ghost predicate HarmlessWrite(cfg: Config, t: State, e: Event)
    requires e.a in t.cells && e.IsWrite()
  {
    forall n :: n in t.nodes && n != e.Writer() && e.a in Copies(cfg, t, n) ==>
      n in t.cells[e.a].sharerNodes || Copies(cfg, t, n)[e.a] == e.v
  }

  lemma HarmlessIsAbstract(cfg: Config, t: State, e: Event)
    requires ValidConfig(cfg) && Inv(cfg, t) && t.home.Listening? && e.IsWrite() && e.a in t.cells
    ensures PORT !in Abs(cfg, t).caches && e.a in Abs(cfg, t).cells
    ensures HarmlessWrite(cfg, t, e) <==> Atomic.Harmless(Abs(cfg, t), e)
  {
    ListeningIsAbstract(cfg, t);
    var caches := Abs(cfg, t).caches;
    assert forall n :: n in t.nodes <==> n in caches;
  }

  lemma CoherentAfterHarmless(cfg: Config, t: State, e: Event, u: State)
    requires ValidConfig(cfg) && Inv(cfg, t) && t.home.Listening? && CopiesCurrent(cfg, t)
    requires e.IsWrite() && e.a in t.cells && HarmlessWrite(cfg, t, e)
    requires Inv(cfg, u) && u.home.Listening? && Atomic.Reaches(Abs(cfg, t), [e], Abs(cfg, u))
    ensures CopiesCurrent(cfg, u)
  {
    HarmlessIsAbstract(cfg, t, e);
    CurrentIsCoherent(cfg, t);
    Atomic.HarmlessWriteReaches(Abs(cfg, t), e, Abs(cfg, u));
    CurrentIsCoherent(cfg, u);
  }

  /** Whatever else the threads do meanwhile, a run in which just one harmless write
      takes effect goes from current copies to current copies. */
  lemma HarmlessKeepsCurrent(cfg: Config, t: State, acts: seq<Action>, e: Event)
    requires ValidConfig(cfg) && Inv(cfg, t) && t.home.Listening? && CopiesCurrent(cfg, t)
    requires CanRun(cfg, t, acts) && Trace(cfg, t, acts) == [e] && e.IsWrite()
    requires e.a in t.cells && HarmlessWrite(cfg, t, e)
    requires After(cfg, t, acts).home.Listening?
    ensures CopiesCurrent(cfg, After(cfg, t, acts))
  {
    var u := After(cfg, t, acts);
    PartRefinesAtomic(cfg, t, acts);
    InvLater(cfg, t, acts);
    CoherentAfterHarmless(cfg, t, e, u);
  }
}
