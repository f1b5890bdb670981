/**
 * Whole runs of the fence store: any sequence of calls, each interrupted anywhere or not,
 * takes the durable heads through a run of the abstract steps of module FenceHistory.
 */
module FenceRun {
  import opened Basics
  import opened FenceRecord
  import FenceDisk
  import FenceHistory
  import FenceStore

  datatype Call =
    | Operate(op: FenceHistory.Operation)
    | RequireFresh(expected: Record, now: Option<int>)
    | List

  /** The operations among the calls, in order. */
  function Operations(calls: seq<Call>): seq<FenceHistory.Operation> {
    if calls == [] then []
    else
      var last := calls[|calls| - 1];
      Operations(calls[..|calls| - 1]) + if last.Operate? then [last.op] else []
  }

  function OpsOf(events: seq<FenceHistory.Event>): seq<FenceHistory.Operation> {
    seq(|events|, i requires 0 <= i < |events| => events[i].op)
  }

  /** One call; the events are the abstract step it took, if it was an operation. */
  method Perform(store: FenceStore.FenceStore, call: Call) returns (r: FenceHistory.Outcome,
      ghost events: seq<FenceHistory.Event>)
    requires store.Valid()
    modifies store
    ensures store.Valid() && r != FenceHistory.Corrupt
    ensures FenceDisk.HeadsOf(store.files) == FenceHistory.Run(old(FenceDisk.HeadsOf(store.files)), events)
    ensures OpsOf(events) == if call.Operate? then [call.op] else []
    ensures call.List? ==> r != FenceHistory.Conflict
    ensures r == FenceHistory.Done && call.Operate? ==> events[0].landed
    ensures old(store.faults) <= store.faults && (r == FenceHistory.Faulted ==> old(store.faults) < store.faults)
    ensures call.Operate? && (r == FenceHistory.Done || r == FenceHistory.Conflict) ==>
      r == FenceHistory.OutcomeOf(old(FenceDisk.HeadsOf(store.files)), call.op)
    ensures call.RequireFresh? && (r == FenceHistory.Done || r == FenceHistory.Conflict) ==>
      r == FenceHistory.FreshOutcome(FenceDisk.HeadsOf(store.files), call.expected, call.now)
  {
    hide FenceHistory.Next, FenceHistory.OutcomeOf, FenceDisk.HeadsOf, FenceDisk.Sound, FenceHistory.WellFormed;
    hide FenceHistory.FreshOutcome;
    ghost var before := FenceDisk.HeadsOf(store.files);
    match call {
      case Operate(op) =>
        match op {
          case Persist(target, result, now) => r := store.PersistRenewal(target, result, now);
          case Remove(expected, now) => r := store.Remove(expected, now);
        }
        ghost var landed := FenceDisk.HeadsOf(store.files) == FenceHistory.Next(before, op);
        events := [FenceHistory.Event(op, landed)];
        OneStep(before, events[0]);
      case RequireFresh(expected, now) =>
        r := store.RequireFresh(expected, now);
        events := [];
      case List =>
        var records: seq<Record>;
        r, records := store.List();
        events := [];
    }
  }

  lemma OneStep(heads: FenceHistory.Heads, e: FenceHistory.Event)
    ensures FenceHistory.Run(heads, [e]) == FenceHistory.Apply(heads, e)
  {
    assert [e][1..] == [];
  }

  /**
   * Any sequence of calls on a new store: the heads are those of a run of the very operations
   * called, in order, each landed or not. So every whole-run law of FenceHistory (the chain of
   * each activation, exclusion, finality of removal) holds of the store, crashes included.
   */
  method Serve(calls: seq<Call>) returns (store: FenceStore.FenceStore, ghost events: seq<FenceHistory.Event>)
    ensures fresh(store) && store.Valid()
    ensures FenceDisk.HeadsOf(store.files) == FenceHistory.Run(map[], events)
    ensures OpsOf(events) == Operations(calls)
  {
    hide FenceDisk.HeadsOf, FenceDisk.Sound, FenceHistory.WellFormed, FenceHistory.Run;
    store := new FenceStore.FenceStore();
    events := [];
    NothingYet();
    for i := 0 to |calls|
      invariant fresh(store) && store.Valid()
      invariant FenceDisk.HeadsOf(store.files) == FenceHistory.Run(map[], events)
      invariant OpsOf(events) == Operations(calls[..i])
    {
      assert calls[..i + 1][..i] == calls[..i];
      var r, step := Perform(store, calls[i]);
      FenceHistory.RunAppend(map[], events, step, "");
      assert OpsOf(events + step) == OpsOf(events) + OpsOf(step);
      events := events + step;
    }
    assert calls[..|calls|] == calls;
  }

  lemma NothingYet()
    ensures FenceHistory.Run(map[], []) == map[]
  {
  }
}
