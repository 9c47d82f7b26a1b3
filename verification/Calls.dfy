/** Each call of a remote node takes effect exactly once, between its first and its
    last step, and what it returns is what it then read (src/api.cpp, read and write). */
module Calls {
  import opened Defs
  import opened Protocol
  import opened Refinement
  import opened Runs
  import opened Window
  import Atomic

  /** The step begins a read or a write of the node: its lock is granted. */
  predicate IsStart(act: Action, n: uint16) {
    (act.ReadLock? || act.WriteLock?) && act.n == n
  }

  function One(b: bool): nat {
    if b then 1 else 0
  }

  function Starts(acts: seq<Action>, n: uint16): nat {
    if acts == [] then 0
    else Starts(acts[..|acts| - 1], n) + One(IsStart(acts[|acts| - 1], n))
  }

  function Events(trace: seq<Event>, n: uint16): nat {
    if trace == [] then 0
    else Events(trace[..|trace| - 1], n) + One(IsEventOf(trace[|trace| - 1], n))
  }

  /** The node is inside a call that has not taken effect yet. */
  predicate Pending(home: HomeMode, pc: Pc, n: uint16) {
    || pc.RLocked? || pc.RMissed? || pc.RConnected? || pc.WLocked? || pc.WConnected? || pc.WAltered?
    || ((pc.WWaiting? || pc.WInvalidated?) && home.Broadcasting? && home.writer == n)
  }

  // --- Calls and events are counted alike ---

  /** What the step starts and what is pending before is what takes effect and what is
      pending after it. */
  ghost predicate Balanced(s: State, t: State, start: bool, e: Option<Event>, n: uint16) {
    && n in s.nodes && n in t.nodes
    && One(Pending(s.home, s.nodes[n].pc, n)) + One(start)
       == One(Pending(t.home, t.nodes[n].pc, n)) + One(e.Some? && IsEventOf(e.value, n))
  }

  lemma BalancedNodeStep(cfg: Config, s: State, act: Action, n: uint16)
    requires Inv(cfg, s) && Enabled(cfg, s, act) && n in s.nodes
    requires act.Refused? || act.ReadLock? || act.WriteLock? || act.Unlock? || act.ServeLockClient?
    ensures Balanced(s, Next(cfg, s, act), IsStart(act, n), Emit(cfg, s, act), n)
  {
  }

  lemma BalancedLookup(cfg: Config, s: State, act: Action, n: uint16)
    requires Inv(cfg, s) && Enabled(cfg, s, act) && n in s.nodes && act.Lookup?
    ensures Balanced(s, Next(cfg, s, act), IsStart(act, n), Emit(cfg, s, act), n)
  {
  }

  lemma BalancedClientStep(cfg: Config, s: State, act: Action, n: uint16)
    requires Inv(cfg, s) && Enabled(cfg, s, act) && n in s.nodes
    requires act.Connect? || act.Fill? || act.AlterCache? || act.Reset?
    ensures Balanced(s, Next(cfg, s, act), IsStart(act, n), Emit(cfg, s, act), n)
  {
  }

  lemma BalancedServeStep(cfg: Config, s: State, act: Action, n: uint16)
    requires Inv(cfg, s) && Enabled(cfg, s, act) && n in s.nodes
    requires act.ServeRead? || act.ServeWrite?
    ensures Balanced(s, Next(cfg, s, act), IsStart(act, n), Emit(cfg, s, act), n)
  {
  }

  lemma BalancedBroadcastStep(cfg: Config, s: State, act: Action, n: uint16)
    requires Inv(cfg, s) && Enabled(cfg, s, act) && n in s.nodes
    requires act.Invalidate? || act.EndBroadcast?
    ensures Balanced(s, Next(cfg, s, act), IsStart(act, n), Emit(cfg, s, act), n)
  {
  }

  lemma BalancedHomeStep(cfg: Config, s: State, act: Action, n: uint16)
    requires Inv(cfg, s) && Enabled(cfg, s, act) && n in s.nodes
    requires act.HomeReadLock? || act.HomeReadUnlock? || act.HomeReadReturn? || act.HomeWriteLock?
          || act.HomeCheckSharers? || act.HomeInvalidate? || act.HomeStore? || act.HomeUnlock?
    ensures Balanced(s, Next(cfg, s, act), IsStart(act, n), Emit(cfg, s, act), n)
  {
    if !act.HomeInvalidate? {
      HomeStepIsQuiet(cfg, s, act);
    }
  }

  lemma BalancedStep(cfg: Config, s: State, act: Action, n: uint16)
    requires Inv(cfg, s) && Enabled(cfg, s, act) && n in s.nodes
    ensures Balanced(s, Next(cfg, s, act), IsStart(act, n), Emit(cfg, s, act), n)
  {
    if act.Refused? || act.ReadLock? || act.WriteLock? || act.Unlock? || act.ServeLockClient? {
      BalancedNodeStep(cfg, s, act, n);
    } else if act.Lookup? {
      BalancedLookup(cfg, s, act, n);
    } else if act.Connect? || act.Fill? || act.AlterCache? || act.Reset? {
      BalancedClientStep(cfg, s, act, n);
    } else if act.ServeRead? || act.ServeWrite? {
      BalancedServeStep(cfg, s, act, n);
    } else if act.Invalidate? || act.EndBroadcast? {
      BalancedBroadcastStep(cfg, s, act, n);
    } else {
      BalancedHomeStep(cfg, s, act, n);
    }
  }

  lemma EventsExtend(trace: seq<Event>, e: Option<Event>, n: uint16)
    ensures Events(Extended(trace, e), n) == Events(trace, n) + One(e.Some? && IsEventOf(e.value, n))
  {
    if e.Some? {
      var longer := trace + [e.value];
      assert longer[..|longer| - 1] == trace;
    }
  }

  /** In every run every call of a node has taken effect exactly once, except that its
      present call may be pending. */
  lemma {:induction false} CallsMatchEvents(cfg: Config, s: State, acts: seq<Action>, n: uint16)
    requires ValidConfig(cfg) && Initial(cfg, s) && CanRun(cfg, s, acts) && n in cfg.nodes
    ensures var t := After(cfg, s, acts);
      && n in t.nodes
      && Starts(acts, n) == Events(Trace(cfg, s, acts), n) + One(Pending(t.home, t.nodes[n].pc, n))
    decreases |acts|
  {
    if acts != [] {
      var before, last := acts[..|acts| - 1], acts[|acts| - 1];
      var mid := After(cfg, s, before);
      CallsMatchEvents(cfg, s, before, n);
      InvRun(cfg, s, before);
      BalancedStep(cfg, mid, last, n);
      EventsExtend(Trace(cfg, s, before), Emit(cfg, mid, last), n);
    }
  }

  // --- Where the present call began ---

  predicate IsRead(pc: Pc) {
    pc.RLocked? || pc.RMissed? || pc.RConnected? || pc.RReplied? || pc.RFilled? || pc.RDone?
  }

  /** The step with which a call that is at this point began. */
  function StartOf(pc: Pc, n: uint16): Action
    requires !pc.Idle?
  {
    if IsRead(pc) then ReadLock(n, pc.a) else WriteLock(n, pc.a, pc.v)
  }

  /** A step that starts no call of the node leaves it in the same call, or out of one. */
  ghost predicate SameCall(s: State, t: State, n: uint16) {
    && n in s.nodes && n in t.nodes
    && (!t.nodes[n].pc.Idle? ==> !s.nodes[n].pc.Idle? && StartOf(t.nodes[n].pc, n) == StartOf(s.nodes[n].pc, n))
  }

  lemma SameCallLocal(cfg: Config, s: State, act: Action, n: uint16)
    requires Enabled(cfg, s, act) && n in s.nodes && !IsStart(act, n)
    requires act.Refused? || act.ReadLock? || act.WriteLock? || act.Unlock? || act.ServeLockClient? || act.Lookup?
          || act.Fill? || act.AlterCache?
    ensures SameCall(s, Next(cfg, s, act), n)
  {
  }

  lemma SameCallSession(cfg: Config, s: State, act: Action, n: uint16)
    requires Enabled(cfg, s, act) && n in s.nodes
    requires act.Connect? || act.ServeRead? || act.ServeWrite? || act.Reset?
    ensures SameCall(s, Next(cfg, s, act), n)
  {
  }

  lemma SameCallHome(cfg: Config, s: State, act: Action, n: uint16)
    requires Enabled(cfg, s, act) && n in s.nodes
    requires act.Invalidate? || act.EndBroadcast?
          || act.HomeReadLock? || act.HomeReadUnlock? || act.HomeReadReturn? || act.HomeWriteLock?
          || act.HomeCheckSharers? || act.HomeInvalidate? || act.HomeStore? || act.HomeUnlock?
    ensures SameCall(s, Next(cfg, s, act), n)
  {
  }

  lemma SameCallStep(cfg: Config, s: State, act: Action, n: uint16)
    requires Enabled(cfg, s, act) && n in s.nodes && !IsStart(act, n)
    ensures SameCall(s, Next(cfg, s, act), n)
  {
    if act.Connect? || act.ServeRead? || act.ServeWrite? || act.Reset? {
      SameCallSession(cfg, s, act, n);
    } else if act.Refused? || act.ReadLock? || act.WriteLock? || act.Unlock? || act.ServeLockClient? || act.Lookup?
           || act.Fill? || act.AlterCache? {
      SameCallLocal(cfg, s, act, n);
    } else {
      SameCallHome(cfg, s, act, n);
    }
  }

  /** The call of the node that is at this point began with step i of the run. */
  predicate BeganAt(acts: seq<Action>, n: uint16, pc: Pc, i: nat) {
    && !pc.Idle?
    && i < |acts| && acts[i] == StartOf(pc, n)
    && forall j :: i < j < |acts| ==> !IsStart(acts[j], n)
  }

  lemma BeganEarlier(acts: seq<Action>, n: uint16, pc: Pc, pc': Pc, i: nat)
    requires acts != [] && BeganAt(acts[..|acts| - 1], n, pc, i) && !IsStart(acts[|acts| - 1], n)
    requires !pc'.Idle? && StartOf(pc', n) == StartOf(pc, n)
    ensures BeganAt(acts, n, pc', i)
  {
    var before := acts[..|acts| - 1];
    forall j | i < j < |acts|
      ensures !IsStart(acts[j], n)
    {
      if j < |before| {
        assert acts[j] == before[j];
      }
    }
  }

  lemma {:induction false} CallBegan(cfg: Config, s: State, acts: seq<Action>, n: uint16) returns (i: nat)
    requires Initial(cfg, s) && CanRun(cfg, s, acts)
    requires n in After(cfg, s, acts).nodes && !After(cfg, s, acts).nodes[n].pc.Idle?
    ensures BeganAt(acts, n, After(cfg, s, acts).nodes[n].pc, i)
    decreases |acts|
  {
    var before, last := acts[..|acts| - 1], acts[|acts| - 1];
    var mid := After(cfg, s, before);
    if IsStart(last, n) {
      i := |acts| - 1;
    } else {
      NodesStay(cfg, mid, last);
      SameCallStep(cfg, mid, last, n);
      i := CallBegan(cfg, s, before, n);
      BeganEarlier(acts, n, mid.nodes[n].pc, After(cfg, s, acts).nodes[n].pc, i);
    }
  }

  lemma NodesStay(cfg: Config, s: State, act: Action)
    requires Enabled(cfg, s, act)
    ensures Next(cfg, s, act).nodes.Keys == s.nodes.Keys
  {
  }

  // --- The part of the run before a step ---

  lemma {:induction false} RunUpTo(cfg: Config, s: State, acts: seq<Action>, i: nat)
    requires CanRun(cfg, s, acts) && i <= |acts|
    ensures CanRun(cfg, s, acts[..i])
    ensures Trace(cfg, s, acts[..i]) <= Trace(cfg, s, acts)
    ensures i < |acts| ==> Enabled(cfg, After(cfg, s, acts[..i]), acts[i])
    decreases |acts|
  {
    if i == |acts| {
      assert acts[..i] == acts;
    } else {
      var before := acts[..|acts| - 1];
      assert before[..i] == acts[..i];
      RunUpTo(cfg, s, before, i);
    }
  }

  lemma {:induction false} StartsSince(acts: seq<Action>, n: uint16, i: nat)
    requires i < |acts| && IsStart(acts[i], n) && forall j :: i < j < |acts| ==> !IsStart(acts[j], n)
    ensures Starts(acts, n) == Starts(acts[..i], n) + 1
    decreases |acts|
  {
    var before := acts[..|acts| - 1];
    assert before[..i] == acts[..i];
    if i < |before| {
      StartsSince(before, n, i);
    }
  }

  // --- The event of the present call ---

  /** The one event of the node at or after position p is at k, and it is its last. */
  ghost predicate OnlyEventSince(trace: seq<Event>, n: uint16, p: nat, k: nat) {
    && p <= k < |trace| && IsEventOf(trace[k], n) && LastEventOf(trace, n) == Some(trace[k])
    && forall j :: p <= j < |trace| && IsEventOf(trace[j], n) ==> j == k
  }

  lemma {:induction false} EventsGrow(trace: seq<Event>, earlier: seq<Event>, n: uint16)
    requires earlier <= trace
    ensures Events(trace, n) >= Events(earlier, n)
    ensures Events(trace, n) == Events(earlier, n) ==>
      forall j :: |earlier| <= j < |trace| ==> !IsEventOf(trace[j], n)
    decreases |trace|
  {
    if earlier != trace {
      var before := trace[..|trace| - 1];
      EventsGrow(before, earlier, n);
      assert forall j :: |earlier| <= j < |trace| - 1 ==> trace[j] == before[j];
    }
  }

  lemma {:induction false} OneEventSince(trace: seq<Event>, earlier: seq<Event>, n: uint16) returns (k: nat)
    requires earlier <= trace && Events(trace, n) == Events(earlier, n) + 1
    ensures OnlyEventSince(trace, n, |earlier|, k)
    decreases |trace|
  {
    var before := trace[..|trace| - 1];
    assert earlier != trace;
    if IsEventOf(trace[|trace| - 1], n) {
      EventsGrow(before, earlier, n);
      k := |trace| - 1;
    } else {
      k := OneEventSince(before, earlier, n);
    }
    assert forall j :: |earlier| <= j < |before| ==> trace[j] == before[j];
  }

  /** The present call of the node began with step i, and event k, which came after
      that, is the only one that the node has had since. */
  ghost predicate TookEffect(cfg: Config, s: State, acts: seq<Action>, n: uint16, i: nat, k: nat)
    requires CanRun(cfg, s, acts) && n in After(cfg, s, acts).nodes
  {
    && BeganAt(acts, n, After(cfg, s, acts).nodes[n].pc, i)
    && CanRun(cfg, s, acts[..i])
    && OnlyEventSince(Trace(cfg, s, acts), n, |Trace(cfg, s, acts[..i])|, k)
  }

  /** A call begins at an idle node. */
  lemma StartsIdle(cfg: Config, s: State, act: Action, n: uint16)
    requires Enabled(cfg, s, act) && IsStart(act, n)
    ensures n in s.nodes && s.nodes[n].pc.Idle?
  {
  }

  /** What was counted when the present call began. */
  lemma CountAtStart(cfg: Config, s: State, acts: seq<Action>, n: uint16, i: nat)
    requires ValidConfig(cfg) && Initial(cfg, s) && CanRun(cfg, s, acts) && n in cfg.nodes
    requires i < |acts| && IsStart(acts[i], n)
    ensures CanRun(cfg, s, acts[..i]) && Trace(cfg, s, acts[..i]) <= Trace(cfg, s, acts)
    ensures Starts(acts[..i], n) == Events(Trace(cfg, s, acts[..i]), n)
  {
    RunUpTo(cfg, s, acts, i);
    StartsIdle(cfg, After(cfg, s, acts[..i]), acts[i], n);
    CallsMatchEvents(cfg, s, acts[..i], n);
  }

  /** In every run a call that is no longer pending has taken effect exactly once,
      after it began. */
  lemma CallTakesEffectOnce(cfg: Config, s: State, acts: seq<Action>, n: uint16) returns (i: nat, k: nat)
    requires ValidConfig(cfg) && Initial(cfg, s) && CanRun(cfg, s, acts) && n in After(cfg, s, acts).nodes
    requires var t := After(cfg, s, acts);
      !t.nodes[n].pc.Idle? && !Pending(t.home, t.nodes[n].pc, n)
    ensures TookEffect(cfg, s, acts, n, i, k)
  {
    i := CallBegan(cfg, s, acts, n);
    RunNodes(cfg, s, acts);
    CountAtStart(cfg, s, acts, n, i);
    CallsMatchEvents(cfg, s, acts, n);
    StartsSince(acts, n, i);
    k := OneEventSince(Trace(cfg, s, acts), Trace(cfg, s, acts[..i]), n);
  }

  lemma RunNodes(cfg: Config, s: State, acts: seq<Action>)
    requires ValidConfig(cfg) && Initial(cfg, s) && CanRun(cfg, s, acts)
    ensures After(cfg, s, acts).nodes.Keys == cfg.nodes
  {
    InvRun(cfg, s, acts);
  }

  /** A write that is about to return has taken effect with its own value. */
  lemma FinishedWrite(cfg: Config, s: State, acts: seq<Action>, n: uint16) returns (i: nat, k: nat)
    requires ValidConfig(cfg) && Initial(cfg, s) && CanRun(cfg, s, acts)
    requires n in After(cfg, s, acts).nodes && After(cfg, s, acts).nodes[n].pc.WDone?
    ensures TookEffect(cfg, s, acts, n, i, k)
    ensures var pc := After(cfg, s, acts).nodes[n].pc;
      Trace(cfg, s, acts)[k] == Atomic.RemoteWrite(n, pc.a, pc.v)
  {
    i, k := CallTakesEffectOnce(cfg, s, acts, n);
    RunResultsMatch(cfg, s, acts);
  }

  /** The value that a read is about to return is that of its own event. */
  lemma FinishedRead(cfg: Config, s: State, acts: seq<Action>, n: uint16) returns (i: nat, k: nat)
    requires ValidConfig(cfg) && Initial(cfg, s) && CanRun(cfg, s, acts)
    requires n in After(cfg, s, acts).nodes && After(cfg, s, acts).nodes[n].pc.RDone?
    ensures TookEffect(cfg, s, acts, n, i, k)
    ensures var pc, e := After(cfg, s, acts).nodes[n].pc, Trace(cfg, s, acts)[k];
      e == Atomic.ReadHit(n, pc.a, pc.v) || e == Atomic.ReadMiss(n, pc.a, pc.v)
  {
    i, k := CallTakesEffectOnce(cfg, s, acts, n);
    RunResultsMatch(cfg, s, acts);
  }

  /** Flat memory for the callers: with one writer per address after a remote write,
      the value that any read returns is that of the last write at some moment between
      its start and its return. */
  lemma ReadsReturnLastWrite(cfg: Config, s: State, acts: seq<Action>, n: uint16) returns (i: nat, k: nat)
    requires ValidConfig(cfg) && Initial(cfg, s) && CanRun(cfg, s, acts)
    requires n in After(cfg, s, acts).nodes && After(cfg, s, acts).nodes[n].pc.RDone?
    requires Atomic.OneRemoteWriter(Trace(cfg, s, acts))
    ensures TookEffect(cfg, s, acts, n, i, k)
    ensures var pc := After(cfg, s, acts).nodes[n].pc;
      && pc.a in Abs(cfg, s).cells
      && pc.v == Atomic.LastWrite(Abs(cfg, s), Trace(cfg, s, acts)[..k], pc.a)
  {
    i, k := FinishedRead(cfg, s, acts, n);
    RunsAreFlat(cfg, s, acts);
    InvRun(cfg, s, acts);
    InitialOk(cfg, s);
    assert NodeOk(cfg, After(cfg, s, acts).nodes[n]);
    assert Trace(cfg, s, acts)[k].a in Abs(cfg, s).cells;
  }
}
