/** Programs on a table whose node is the lock node: every call sequence is a run of
    the table model, so the results of TableRuns hold of the objects. */
module EndToEnd {
  import opened Defs
  import opened TableModel
  import opened TableRuns
  import opened HashTableObject

  datatype Op = Insert(key: uint32, value: uint64) | Get(key: uint32) | Index(key: uint32) | Erase(key: uint32) | Clear

  /** The event reports this call. */
  predicate Reports(ev: Event, op: Op) {
    match op
    case Insert(key, value) => ev == Inserted(key, value)
    case Get(key) => ev.Got? && ev.key == key
    case Index(key) => ev.Indexed? && ev.key == key
    case Erase(key) => ev == Erased(key)
    case Clear => ev == Cleared
  }

  /** The events report the first calls of the program. */
  ghost predicate ReportAll(events: seq<Event>, ops: seq<Op>) {
    |events| <= |ops| && forall i :: 0 <= i < |events| ==> Reports(events[i], ops[i])
  }

  lemma ReportsExtend(events: seq<Event>, ops: seq<Op>, ev: Event)
    requires ReportAll(events, ops) && |events| < |ops| && Reports(ev, ops[|events|])
    ensures ReportAll(events + [ev], ops)
  {
  }

  method Perform(h: HashTable, op: Op) returns (ev: Event)
    requires h.Valid() && |h.node.cells| < TWO_TO_THE_64
    modifies h, h.storage, h.elems, h.node, h.node.cache
    ensures h.Valid() && fresh(h.elems - old(h.elems))
    ensures Reports(ev, op)
    ensures Step(old(h.Contents()), ev, h.Contents())
  {
    match op
    case Insert(key, value) =>
      h.Insert(key, value);
      ev := Inserted(key, value);
    case Get(key) =>
      var result := h.Get(key);
      ev := Got(key, result);
    case Index(key) =>
      var value := h.Index(key);
      ev := Indexed(key, value);
    case Erase(key) =>
      h.Erase(key);
      ev := Erased(key);
    case Clear =>
      h.Clear();
      ev := Cleared;
  }

  /** The next call of a run. */
  method Continue(h: HashTable, op: Op, ghost states: seq<Store>, ghost events: seq<Event>)
    returns (ev: Event, ghost states': seq<Store>)
    requires h.Valid() && |h.node.cells.Keys| < TWO_TO_THE_64
    requires IsRun(states, events) && states[|events|] == h.Contents()
    modifies h, h.storage, h.elems, h.node, h.node.cache
    ensures h.Valid() && fresh(h.elems - old(h.elems))
    ensures Reports(ev, op) && |h.node.cells.Keys| <= |old(h.node.cells).Keys| + 1
    ensures IsRun(states', events + [ev]) && states'[0] == states[0] && states'[|events| + 1] == h.Contents()
  {
    assert |h.node.cells| == |h.node.cells.Keys|;
    ev := Perform(h, op);
    ghost var after := h.Contents();
    StepGrows(old(h.Contents()), ev, after);
    RunExtends(states, events, ev, after);
    states' := states + [after];
  }

  /** Makes the calls one after the other. */
  method Run(h: HashTable, ops: seq<Op>) returns (events: seq<Event>, ghost states: seq<Store>)
    requires h.Valid() && |h.node.cells.Keys| + |ops| <= TWO_TO_THE_64
    modifies h, h.storage, h.elems, h.node, h.node.cache
    ensures h.Valid()
    ensures |events| == |ops| && ReportAll(events, ops)
    ensures IsRun(states, events) && states[0] == old(h.Contents()) && states[|events|] == h.Contents()
  {
    events, states := [], [h.Contents()];
    while |events| < |ops|
      invariant ReportAll(events, ops)
      invariant h.Valid() && fresh(h.elems - old(h.elems))
      invariant |h.node.cells.Keys| + |ops| - |events| <= TWO_TO_THE_64
      invariant IsRun(states, events) && states[0] == old(h.Contents()) && states[|events|] == h.Contents()
    {
      var ev;
      ev, states := Continue(h, ops[|events|], states, events);
      ReportsExtend(events, ops, ev);
      events := events + [ev];
    }
  }

  /** Runs a program. Every get returns the value of the latest un-erased insertion of
      its key; at the end the live blocks are those of the chains, each once, and
      those that were live outside them before. */
  method Execute(h: HashTable, ops: seq<Op>) returns (events: seq<Event>)
    requires h.Valid() && |h.node.cells.Keys| + |ops| <= TWO_TO_THE_64
    modifies h, h.storage, h.elems, h.node, h.node.cache
    ensures h.Valid()
    ensures |events| == |ops| && ReportAll(events, ops)
    ensures AnswersAreLatest(old(h.Contents()), events, h.Contents())
    ensures Owned(h.Contents())
    ensures h.Contents().live - Addresses(h.Model()) == old(h.Contents().live - Addresses(h.Model()))
  {
    AddressesAreLive(h.chains, h.node.cells, h.node.id);
    ghost var states;
    events, states := Run(h, ops);
    RunAnswers(states, events);
    RunsConserveBlocks(states, events);
  }
}
