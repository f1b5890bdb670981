/**
 * The lease controller field by field instead of event by event: who renews, who waits, what each
 * renewal comes to and who returns it, in every state that a run can reach.
 */
module LeaseControllerLaws {
  import opened Basics
  import opened LeaseController

  // ---- What an event does, without the controller's own functions ----

  predicate Starts(c: Controller, e: Event) {
    e.CallStart? && (c.target.None? || c.target == Some(e.target))
  }

  /** The loop is stopped: by a stop, by a stop before one more renewal, or by a clear. */
  predicate Halts(c: Controller, e: Event) {
    e == CallStop || (e == CallStopAndRenewFresh && c.target.Some?) || (e == CallClear && c.inFlight.None?)
  }

  predicate Rings(c: Controller, e: Event) {
    e.Fires? && e.timer in c.timers
  }

  /** The waiter goes on: what it awaits has ended, or it awaits nothing. */
  predicate Wakes(c: Controller, e: Event) {
    e.Resumes? && e.waiter in c.waiters
    && match c.waiters[e.waiter]
       case StopRenewer(None, _) => true
       case StopRenewer(Some(op), _) => op < |c.operations| && c.operations[op].stage.Cleared?
       case w => w.op < |c.operations| && c.operations[w.op].stage.Cleared?
  }

  /** The renewal it awaited, if it got one. */
  function Got(c: Controller, e: Event): Option<Renewal>
    requires Wakes(c, e)
  {
    match c.waiters[e.waiter]
    case StopRenewer(None, _) => None
    case StopRenewer(Some(op), _) => c.operations[op].stage.result
    case w => c.operations[w.op].stage.result
  }

  /** The loop's own continuation wakes in the loop's current generation. */
  predicate LoopWakes(c: Controller, e: Event) {
    && Wakes(c, e)
    && var w := c.waiters[e.waiter];
       (w.Starter? || w.Ticker?) && w.generation == c.generation
  }

  /** A stopAndRenewFresh goes on to renew: its stop waited for nothing, or for a success. */
  predicate RenewsAfterStop(c: Controller, e: Event) {
    && Wakes(c, e)
    && var w := c.waiters[e.waiter];
       w.StopRenewer? && (w.stops.None? || Got(c, e).Some?)
  }

  /** The target for which a fresh renewal is wanted. */
  function Wanted(c: Controller, e: Event): Option<Target> {
    if Starts(c, e) then Some(e.target)
    else if e == CallRenewNow || Rings(c, e) then c.target
    else if RenewsAfterStop(c, e) then Some(c.waiters[e.waiter].target)
    else None
  }

  /** A renewal begins only if none is in flight; otherwise the one in flight is joined. */
  predicate Begins(c: Controller, e: Event) {
    Wanted(c, e).Some? && c.inFlight.None?
  }

  function Joined(c: Controller): nat {
    match c.inFlight
    case Some(op) => op
    case None => |c.operations|
  }

  function Newcomer(c: Controller, e: Event): Option<Waiter> {
    if Starts(c, e) then Some(Starter(Joined(c), c.generation + 1))
    else if Rings(c, e) then Some(Ticker(Joined(c), c.generation))
    else if Wanted(c, e).Some? then Some(Renewer(Joined(c)))
    else if e == CallStop && c.inFlight.Some? then Some(Stopper(c.inFlight.value))
    else if e == CallStopAndRenewFresh && c.target.Some? then Some(StopRenewer(c.inFlight, c.target.value))
    else None
  }

  /** A renewal may be stale once: the second try decides. */
  function StageAfter(stage: Stage, op: nat, e: Event): Stage {
    match stage
    case First =>
      if !e.PerformOne? || e.op != op then First
      else if e.result.Some? && (e.result.value.recovered || e.result.value.replayed) then Second
      else Settled(e.result)
    case Second =>
      if !e.PerformOne? || e.op != op then Second
      else if e.result == Some(Renewal(false, false)) then Settled(e.result)
      else Settled(None)
    case Settled(result) => if e == Finally(op) then Cleared(result) else stage
    case Cleared(_) => stage
  }

  ghost predicate OperationsFollow(c: Controller, e: Event, d: Controller) {
    && |d.operations| == |c.operations| + (if Begins(c, e) then 1 else 0)
    && (Begins(c, e) ==> d.operations[|c.operations|] == Operation(Wanted(c, e).value, First))
    && forall op: nat | op < |c.operations| ::
         d.operations[op] == Operation(c.operations[op].target, StageAfter(c.operations[op].stage, op, e))
  }

  predicate EndsFlight(c: Controller, e: Event) {
    c.inFlight.Some? && e == Finally(c.inFlight.value)
    && c.inFlight.value < |c.operations| && c.operations[c.inFlight.value].stage.Settled?
  }

  predicate Rearms(c: Controller, e: Event) {
    LoopWakes(c, e) && Got(c, e).Some?
  }

  /** All but the operations. */
  function After(c: Controller, e: Event, operations: seq<Operation>): Controller {
    var left := if Wakes(c, e) then c.waiters - {e.waiter} else c.waiters;
    var disarms := Starts(c, e) || Halts(c, e) || Rings(c, e);
    Controller(
      if Starts(c, e) then Some(e.target) else if Halts(c, e) && e == CallClear then None else c.target,
      if Begins(c, e) then Some(|c.operations|) else if EndsFlight(c, e) then None else c.inFlight,
      if Rearms(c, e) then Some(c.nextTimer) else if disarms then None else c.timer,
      Starts(c, e) || (c.running && !Halts(c, e) && !(LoopWakes(c, e) && Got(c, e).None?)),
      if Starts(c, e) || Halts(c, e) then c.generation + 1 else c.generation,
      operations,
      if Rearms(c, e) then map[c.nextTimer := c.generation] else if disarms then map[] else c.timers,
      if Rearms(c, e) then c.nextTimer + 1 else c.nextTimer,
      match Newcomer(c, e) case Some(w) => left[c.nextWaiter := w] case None => left,
      if Newcomer(c, e).Some? then c.nextWaiter + 1 else c.nextWaiter,
      if Returns(c, e) then c.returned + [Got(c, e).value] else c.returned)
  }

  /** A start or a renewal call returns the renewal it awaited. */
  predicate Returns(c: Controller, e: Event) {
    && Wakes(c, e)
    && var w := c.waiters[e.waiter];
       (w.Starter? || w.Renewer?) && Got(c, e).Some?
  }

  ghost predicate Follows(c: Controller, e: Event, d: Controller) {
    OperationsFollow(c, e, d) && d == After(c, e, d.operations)
  }

  lemma TimersOff(c: Controller)
    requires Invariant(c)
    ensures (if c.timer.Some? then c.timers - {c.timer.value} else c.timers) == map[]
  {
    hide OneInFlight, OnlyFresh, WaitersKnown;
  }

  lemma StartFollows(c: Controller, target: Target)
    requires Invariant(c)
    ensures Follows(c, CallStart(target), Step(c, CallStart(target)))
  {
    hide Invariant;
    TimersOff(c);
  }

  lemma RenewNowFollows(c: Controller)
    requires Invariant(c)
    ensures Follows(c, CallRenewNow, Step(c, CallRenewNow))
  {
    hide OnlyFresh, WaitersKnown, Driven;
  }

  lemma HaltsFollow(c: Controller, e: Event)
    requires Invariant(c) && (e.CallStop? || e.CallStopAndRenewFresh? || e.CallClear?)
    ensures Follows(c, e, Step(c, e))
  {
    hide Invariant;
    TimersOff(c);
  }

  lemma OperationFollows(c: Controller, e: Event)
    requires Invariant(c) && (e.PerformOne? || e.Finally?)
    ensures Follows(c, e, Step(c, e))
  {
    hide OnlyFresh, WaitersKnown, Driven;
  }

  lemma FireFollows(c: Controller, timer: nat)
    requires Invariant(c)
    ensures Follows(c, Fires(timer), Step(c, Fires(timer)))
  {
    hide OnlyFresh, WaitersKnown;
    if timer in c.timers {
      FiredTimerIsCurrent(c, timer);
      assert c.timers - {timer} == map[];
    }
  }

  lemma WakesIsResumable(c: Controller, id: nat)
    ensures Wakes(c, Resumes(id)) <==> CanResume(c, id)
    ensures CanResume(c, id) && OperationOf(c.waiters[id]).Some? ==> Got(c, Resumes(id)) == ResultFor(c, id)
  {
  }

  /** The loop's continuations, current or not. */
  lemma LoopFollows(c: Controller, id: nat)
    requires Invariant(c) && CanResume(c, id) && (c.waiters[id].Starter? || c.waiters[id].Ticker?)
    ensures Follows(c, Resumes(id), Step(c, Resumes(id)))
  {
    hide OnlyFresh, WaitersKnown, OneInFlight, Driven, Wakes, Got;
    WakesIsResumable(c, id);
    if c.waiters[id].generation == c.generation {
      assert Driver(c, id);
      DriverLeaves(c, id);
      assert c.timer.None? && c.timers == map[] by {
        Lonely(c.(waiters := c.waiters - {id}));
      }
      assert map[][c.nextTimer := c.generation] == map[c.nextTimer := c.generation];
    }
  }

  lemma Lonely(c: Controller)
    requires Undriven(c)
    ensures c.timer.None? && c.timers == map[]
  {
  }

  /** A bystander resumes: it returns, or goes away. */
  lemma BystanderFollows(c: Controller, id: nat)
    requires Invariant(c) && (CanResume(c, id) ==> c.waiters[id].Renewer? || c.waiters[id].Stopper?)
    ensures Follows(c, Resumes(id), Step(c, Resumes(id)))
  {
    hide Invariant, Wakes, Got;
    WakesIsResumable(c, id);
  }

  lemma StopRenewerFollows(c: Controller, id: nat)
    requires Invariant(c) && CanResume(c, id) && c.waiters[id].StopRenewer?
    ensures Follows(c, Resumes(id), Step(c, Resumes(id)))
  {
    hide Invariant, Wakes, Got;
    WakesIsResumable(c, id);
  }

  lemma ResumeFollows(c: Controller, id: nat)
    requires Invariant(c)
    ensures Follows(c, Resumes(id), Step(c, Resumes(id)))
  {
    hide Invariant, Step, Follows, CanResume;
    if !CanResume(c, id) {
      BystanderFollows(c, id);
    } else {
      Known(c, id);
      match c.waiters[id] {
        case Starter(_, _) => LoopFollows(c, id);
        case Ticker(_, _) => LoopFollows(c, id);
        case StopRenewer(_, _) => StopRenewerFollows(c, id);
        case _ => BystanderFollows(c, id);
      }
    }
  }

  lemma Known(c: Controller, id: nat)
    requires CanResume(c, id)
    ensures id in c.waiters
  {
  }

  /** Every step in every reachable state does exactly what these descriptions say. */
  lemma StepIsExplained(c: Controller, e: Event)
    requires Invariant(c)
    ensures Follows(c, e, Step(c, e))
  {
    hide Invariant, Follows, Step;
    match e {
      case CallStart(target) => StartFollows(c, target);
      case CallRenewNow => RenewNowFollows(c);
      case PerformOne(_, _) => OperationFollows(c, e);
      case Finally(_) => OperationFollows(c, e);
      case Resumes(waiter) => ResumeFollows(c, waiter);
      case Fires(timer) => FireFollows(c, timer);
      case _ => HaltsFollow(c, e);
    }
  }

  // ---- What an operation comes to ----

  /** How the tries of an operation that had begun ended, in order. */
  function Tries(events: seq<Event>, op: nat): seq<Option<Renewal>>
    decreases |events|
  {
    if events == [] then []
    else
      var n := |events| - 1;
      var last := events[n];
      Tries(events[..n], op) +
      if last.PerformOne? && last.op == op && op < |Run(NEW_CONTROLLER, events[..n]).operations| then [last.result]
      else []
  }

  /** The first two tries decide: fresh, failed, or stale and then fresh or not. */
  predicate Decides(tries: seq<Option<Renewal>>, stage: Stage) {
    if tries == [] then stage == First
    else if tries[0].None? then Ended(stage, None)
    else if !tries[0].value.recovered && !tries[0].value.replayed then Ended(stage, tries[0])
    else if |tries| == 1 then stage == Second
    else if tries[1] == Some(Renewal(false, false)) then Ended(stage, tries[1])
    else Ended(stage, None)
  }

  predicate Ended(stage: Stage, result: Option<Renewal>) {
    stage == Settled(result) || stage == Cleared(result)
  }

  lemma StageDecides(tries: seq<Option<Renewal>>, stage: Stage, op: nat, e: Event)
    requires Decides(tries, stage)
    ensures Decides(tries + (if e.PerformOne? && e.op == op then [e.result] else []), StageAfter(stage, op, e))
  {
    var more := tries + if e.PerformOne? && e.op == op then [e.result] else [];
    assert forall k | 0 <= k < |tries| :: more[k] == tries[k];
  }

  lemma {:induction false} RunSplits(c: Controller, events: seq<Event>, e: Event)
    ensures Run(c, events + [e]) == Step(Run(c, events), e)
    decreases |events|
  {
    hide Step;
    if events == [] {
      assert events + [e] == [e] && [e][1..] == [];
    } else {
      assert (events + [e])[1..] == events[1..] + [e];
      RunSplits(Step(c, events[0]), events[1..], e);
    }
  }

  /**
   * After any run, an operation is where its first two tries put it, and one that has not begun
   * has not been tried.
   */
  lemma {:induction false} TwoTriesDecide(events: seq<Event>, op: nat)
    ensures var c := Run(NEW_CONTROLLER, events);
      if op < |c.operations| then Decides(Tries(events, op), c.operations[op].stage) else Tries(events, op) == []
    decreases |events|
  {
    hide Step, Run, Tries, Decides, StageAfter, Invariant, Wanted;
    if events == [] {
      NothingTried(op);
    } else {
      var n := |events| - 1;
      var init, e := events[..n], events[n];
      var c := Run(NEW_CONTROLLER, init);
      TwoTriesDecide(init, op);
      assert events == init + [e];
      RunSplits(NEW_CONTROLLER, init, e);
      NewIsOnTarget();
      RunKeepsInvariant(NEW_CONTROLLER, init);
      StepIsExplained(c, e);
      FirstIsUntried();
      TriesGrow(init, e, op);
      if op < |c.operations| {
        StageDecides(Tries(init, op), c.operations[op].stage, op, e);
      }
    }
  }

  lemma NothingTried(op: nat)
    ensures Run(NEW_CONTROLLER, []) == NEW_CONTROLLER && Tries([], op) == []
  {
  }

  lemma TriesGrow(events: seq<Event>, e: Event, op: nat)
    ensures var hit := e.PerformOne? && e.op == op && op < |Run(NEW_CONTROLLER, events).operations|;
      Tries(events + [e], op) == Tries(events, op) + if hit then [e.result] else []
  {
    hide Run;
    assert (events + [e])[..|events|] == events;
  }

  lemma FirstIsUntried()
    ensures Decides([], First)
  {
  }
}
