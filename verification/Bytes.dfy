/** Byte conservation in every cache of every run of the protocol. */
module Bytes {
  import opened Defs
  import opened AddressKey
  import opened CacheModel
  import opened Protocol
  import opened Refinement
  import opened Runs

  ghost predicate AllConserved(s: State) {
    forall n :: n in s.nodes ==> Conserved(s.nodes[n].cache, s.nodes[n].lost)
  }

  lemma BytesLookup(s: State, n: uint16)
    requires AllConserved(s) && CanLookup(s, n)
    ensures AllConserved(AfterLookup(s, n))
  {
    TouchConserves(s.nodes[n].cache, s.nodes[n].pc.a, s.clock + 1, s.nodes[n].lost);
  }

  lemma BytesFill(cfg: Config, s: State, n: uint16)
    requires Inv(cfg, s) && AllConserved(s) && CanFill(s, n)
    ensures AllConserved(AfterFill(s, n))
  {
    var ns := s.nodes[n];
    assert NodeOk(cfg, ns);
    AddConserves(ns.cache, ns.pc.a, NewItem(s, ns.pc.a, ns.pc.v), ns.lost);
  }

  lemma BytesAlter(cfg: Config, s: State, n: uint16)
    requires CollisionFree(cfg.addrs) && Inv(cfg, s) && AllConserved(s) && CanAlter(s, n)
    ensures AllConserved(AfterAlter(s, n))
  {
    var ns := s.nodes[n];
    assert NodeOk(cfg, ns);
    AlterConserves(ns.cache, cfg.addrs, ns.pc.a, NewItem(s, ns.pc.a, ns.pc.v), ns.lost);
  }

  lemma BytesInvalidate(s: State)
    requires AllConserved(s) && CanInvalidate(s)
    ensures AllConserved(AfterInvalidate(s))
  {
    var ns := s.nodes[s.home.rest[0]];
    RemoveLoses(ns.cache, s.home.a, ns.lost);
  }

  lemma BytesHomeInvalidate(s: State)
    requires AllConserved(s) && CanHomeInvalidate(s)
    ensures AllConserved(AfterHomeInvalidate(s))
  {
    var ns := s.nodes[s.home.rest[0]];
    RemoveLoses(ns.cache, s.home.a, ns.lost);
  }

  lemma CacheStepConserves(cfg: Config, s: State, act: Action)
    requires ValidConfig(cfg) && Inv(cfg, s) && AllConserved(s) && Enabled(cfg, s, act)
    requires act.Lookup? || act.Fill? || act.AlterCache? || act.Invalidate? || act.HomeInvalidate?
    ensures AllConserved(Next(cfg, s, act))
  {
    match act
    case Lookup(n) => BytesLookup(s, n);
    case Fill(n) => BytesFill(cfg, s, n);
    case AlterCache(n) => BytesAlter(cfg, s, n);
    case Invalidate => BytesInvalidate(s);
    case HomeInvalidate => BytesHomeInvalidate(s);
  }

  lemma BytesStep(cfg: Config, s: State, act: Action)
    requires ValidConfig(cfg) && Inv(cfg, s) && AllConserved(s) && Enabled(cfg, s, act)
    ensures AllConserved(Next(cfg, s, act))
  {
    if act.Lookup? || act.Fill? || act.AlterCache? || act.Invalidate? || act.HomeInvalidate? {
      CacheStepConserves(cfg, s, act);
    } else {
      OtherStepKeepsCaches(cfg, s, act);
    }
  }

  /** A step without a cache operation moves threads, cells and locks only. */
  ghost predicate SameCaches(s: State, t: State) {
    && t.nodes.Keys == s.nodes.Keys
    && forall n :: n in s.nodes ==> t.nodes[n].cache == s.nodes[n].cache && t.nodes[n].lost == s.nodes[n].lost
  }

  lemma OtherStepKeepsCaches(cfg: Config, s: State, act: Action)
    requires Enabled(cfg, s, act)
    requires !act.Lookup? && !act.Fill? && !act.AlterCache? && !act.Invalidate? && !act.HomeInvalidate?
    ensures SameCaches(s, Next(cfg, s, act))
  {
    if act.Connect? || act.ServeRead? || act.ServeWrite? || act.Reset? {
      SessionStepKeepsCaches(cfg, s, act);
    } else {
      QuietStepKeepsCaches(cfg, s, act);
    }
  }

  lemma SessionStepKeepsCaches(cfg: Config, s: State, act: Action)
    requires Enabled(cfg, s, act)
    requires act.Connect? || act.ServeRead? || act.ServeWrite? || act.Reset?
    ensures SameCaches(s, Next(cfg, s, act))
  {
  }

  lemma QuietStepKeepsCaches(cfg: Config, s: State, act: Action)
    requires Enabled(cfg, s, act)
    requires !act.Lookup? && !act.Fill? && !act.AlterCache? && !act.Invalidate? && !act.HomeInvalidate?
    requires !act.Connect? && !act.ServeRead? && !act.ServeWrite? && !act.Reset?
    ensures SameCaches(s, Next(cfg, s, act))
  {
  }

  /** In every reachable state of every node: free bytes, cached bytes and the bytes
      of invalidated items make up the capacity. So cached bytes never exceed it and
      the free bytes never wrap around. */
  lemma {:induction false} BytesAreConserved(cfg: Config, s: State, acts: seq<Action>)
    requires ValidConfig(cfg) && Initial(cfg, s) && CanRun(cfg, s, acts)
    ensures forall n :: n in After(cfg, s, acts).nodes ==>
      var ns := After(cfg, s, acts).nodes[n];
      ns.cache.available + SizeSum(ns.cache.items) + ns.lost == CAPACITY
    decreases |acts|
  {
    if acts != [] {
      var before, last := acts[..|acts| - 1], acts[|acts| - 1];
      BytesAreConserved(cfg, s, before);
      InvRun(cfg, s, before);
      BytesStep(cfg, After(cfg, s, before), last);
    } else {
      assert SizeSum(map[]) == 0;
    }
  }

  /** A reader whose reply has come can go on exactly when the bytes lost to
      invalidations leave room for the block. */
  lemma FillStuckExactly(cfg: Config, s: State, acts: seq<Action>, n: uint16)
    requires ValidConfig(cfg) && Initial(cfg, s) && CanRun(cfg, s, acts)
    requires var t := After(cfg, s, acts);
      n in t.nodes && t.nodes[n].pc.RReplied?
    ensures var t := After(cfg, s, acts);
      CanFill(t, n) <==> t.nodes[n].lost + t.nodes[n].pc.a.size <= CAPACITY
  {
    var t := After(cfg, s, acts);
    var ns := t.nodes[n];
    InvRun(cfg, s, acts);
    BytesAreConserved(cfg, s, acts);
    assert NodeOk(cfg, ns);
    StuckOnlyAfterInvalidations(ns.cache, ns.pc.a, NewItem(t, ns.pc.a, ns.pc.v), ns.lost);
  }

  /** A writer with an open connection can go on exactly when it has a copy to
      overwrite, or the lost bytes leave room for the block. */
  lemma AlterStuckExactly(cfg: Config, s: State, acts: seq<Action>, n: uint16)
    requires ValidConfig(cfg) && Initial(cfg, s) && CanRun(cfg, s, acts)
    requires var t := After(cfg, s, acts);
      n in t.nodes && t.nodes[n].pc.WConnected?
    ensures var t := After(cfg, s, acts);
      var ns := t.nodes[n];
      CanAlter(t, n) <==> Key(ns.pc.a) in ns.cache.items || ns.lost + ns.pc.a.size <= CAPACITY
  {
    var t := After(cfg, s, acts);
    var ns := t.nodes[n];
    InvRun(cfg, s, acts);
    BytesAreConserved(cfg, s, acts);
    assert NodeOk(cfg, ns);
    StuckOnlyAfterInvalidations(ns.cache, ns.pc.a, NewItem(t, ns.pc.a, ns.pc.v), ns.lost);
  }

  /** No store of the protocol meets a key that is filed already. */
  lemma StoresAreOfAbsentKeys(cfg: Config, s: State, acts: seq<Action>, n: uint16)
    requires ValidConfig(cfg) && Initial(cfg, s) && CanRun(cfg, s, acts) && n in After(cfg, s, acts).nodes
    ensures var t := After(cfg, s, acts);
      && (t.nodes[n].pc.RReplied? ==> FillResult(t, n).outcome != KeptOld)
      && (t.nodes[n].pc.WConnected? ==> AlterResult(t, n).outcome != KeptOld)
  {
    InvRun(cfg, s, acts);
    assert NodeOk(cfg, After(cfg, s, acts).nodes[n]);
  }
}
