/**
 * The lease controller's state between microtasks. An operation is one performFreshRenewal
 * promise: it renews at most twice, settles, and its `finally` clears the slot before any
 * waiter resumes. Targets are opaque; the durable side of a renewal is module LeaseRenewal.
 */
module LeaseController {
  import opened Basics

  type Target = string

  /** What the caller of a renewal learns about its freshness. */
  datatype Renewal = Renewal(recovered: bool, replayed: bool)

  predicate IsFresh(r: Renewal) {
    !r.recovered && !r.replayed
  }

  datatype Stage =
    | First
    | Second
    | Settled(result: Option<Renewal>)
    | Cleared(result: Option<Renewal>)

  datatype Operation = Operation(target: Target, stage: Stage)

  /** Who awaits an operation, and what it does then. */
  datatype Waiter =
    | Starter(op: nat, generation: nat)
    | Renewer(op: nat)
    | Stopper(op: nat)
    | StopRenewer(stops: Option<nat>, target: Target)
    | Ticker(op: nat, generation: nat)

  datatype Controller = Controller(
    target: Option<Target>,
    inFlight: Option<nat>,
    timer: Option<nat>,
    running: bool,
    generation: nat,
    operations: seq<Operation>,
    timers: map<nat, nat>,
    nextTimer: nat,
    waiters: map<nat, Waiter>,
    nextWaiter: nat,
    returned: seq<Renewal>)

  const NEW_CONTROLLER := Controller(None, None, None, false, 0, [], map[], 0, map[], 0, [])

  predicate Live(stage: Stage) {
    stage.First? || stage.Second?
  }

  function ClearTimer(c: Controller): Controller {
    if c.timer.None? then c else c.(timers := c.timers - {c.timer.value}, timer := None)
  }

  function Schedule(c: Controller, generation: nat): Controller {
    var d := ClearTimer(c);
    d.(timer := Some(c.nextTimer), timers := d.timers[c.nextTimer := generation], nextTimer := c.nextTimer + 1)
  }

  /** The operation a caller of renewFresh awaits: the one in flight, or the next one. */
  function Awaited(c: Controller): nat {
    if c.inFlight.Some? then c.inFlight.value else |c.operations|
  }

  function RenewFresh(c: Controller, target: Target): Controller {
    if c.inFlight.Some? then c
    else c.(inFlight := Some(|c.operations|), operations := c.operations + [Operation(target, First)])
  }

  function Wait(c: Controller, w: Waiter): Controller {
    c.(waiters := c.waiters[c.nextWaiter := w], nextWaiter := c.nextWaiter + 1)
  }

  // ---- Calls ----

  function Start(c: Controller, target: Target): Controller {
    if c.target.Some? && c.target.value != target then c
    else
      var d := ClearTimer(c).(target := Some(target), running := true, generation := c.generation + 1);
      Wait(RenewFresh(d, target), Starter(Awaited(d), d.generation))
  }

  function RenewNow(c: Controller): Controller {
    if c.target.None? then c
    else Wait(RenewFresh(c, c.target.value), Renewer(Awaited(c)))
  }

  function Halt(c: Controller): Controller {
    ClearTimer(c.(running := false, generation := c.generation + 1))
  }

  function Stop(c: Controller): Controller {
    if c.inFlight.None? then Halt(c) else Wait(Halt(c), Stopper(c.inFlight.value))
  }

  function StopAndRenewFresh(c: Controller): Controller {
    if c.target.None? then c else Wait(Halt(c), StopRenewer(c.inFlight, c.target.value))
  }

  function Clear(c: Controller): Controller {
    if c.inFlight.Some? then c else Halt(c).(target := None)
  }

  // ---- The operation ----

  /** One performOne ends: with a renewal, or with any failure on its way. */
  function PerformOneEnds(c: Controller, op: nat, result: Option<Renewal>): Controller {
    if op >= |c.operations| || !Live(c.operations[op].stage) then c
    else
      var operation := c.operations[op];
      var stage :=
        if result.None? then Settled(None)
        else if IsFresh(result.value) then Settled(result)
        else if operation.stage.First? then Second
        else Settled(None);
      c.(operations := c.operations[op := operation.(stage := stage)])
  }

  function FinallyRuns(c: Controller, op: nat): Controller {
    if op >= |c.operations| || !c.operations[op].stage.Settled? then c
    else
      var operation := c.operations[op];
      c.(operations := c.operations[op := operation.(stage := Cleared(operation.stage.result))],
         inFlight := if c.inFlight == Some(op) then None else c.inFlight)
  }

  // ---- Continuations ----

  function OperationOf(w: Waiter): Option<nat> {
    match w
    case StopRenewer(stops, _) => stops
    case _ => Some(w.op)
  }

  predicate CanResume(c: Controller, id: nat) {
    && id in c.waiters
    && var op := OperationOf(c.waiters[id]);
       op.Some? ==> op.value < |c.operations| && c.operations[op.value].stage.Cleared?
  }

  /** What the awaited operation came to; a bare stop waits for nothing and succeeds. */
  function ResultFor(c: Controller, id: nat): Option<Renewal>
    requires CanResume(c, id) && OperationOf(c.waiters[id]).Some?
  {
    c.operations[OperationOf(c.waiters[id]).value].stage.result
  }

  function Return(c: Controller, r: Renewal): Controller {
    c.(returned := c.returned + [r])
  }

  function ResumeDriver(c: Controller, generation: nat, result: Option<Renewal>): Controller {
    if result.Some? then
      if c.running && generation == c.generation then Schedule(c, generation) else c
    else if generation == c.generation then c.(running := false)
    else c
  }

  function Resume(c: Controller, id: nat): Controller {
    if !CanResume(c, id) then c
    else
      var d := c.(waiters := c.waiters - {id});
      match c.waiters[id]
      case Starter(_, generation) =>
        var e := ResumeDriver(d, generation, ResultFor(c, id));
        if ResultFor(c, id).Some? then Return(e, ResultFor(c, id).value) else e
      case Renewer(_) => if ResultFor(c, id).Some? then Return(d, ResultFor(c, id).value) else d
      case Stopper(_) => d
      case StopRenewer(stops, target) =>
        if stops.Some? && ResultFor(c, id).None? then d
        else Wait(RenewFresh(d, target), Renewer(Awaited(d)))
      case Ticker(_, generation) => ResumeDriver(d, generation, ResultFor(c, id))
  }

  /** The timer callback: it forgets the timer, then renews only for its own generation. */
  function TimerFires(c: Controller, id: nat): Controller {
    if id !in c.timers then c
    else
      var generation := c.timers[id];
      var d := c.(timers := c.timers - {id}, timer := None);
      if !c.running || generation != c.generation || c.target.None? then d
      else Wait(RenewFresh(d, c.target.value), Ticker(Awaited(d), generation))
  }

  datatype Event =
    | CallStart(target: Target)
    | CallRenewNow
    | CallStop
    | CallStopAndRenewFresh
    | CallClear
    | PerformOne(op: nat, result: Option<Renewal>)
    | Finally(op: nat)
    | Resumes(waiter: nat)
    | Fires(timer: nat)

  function Step(c: Controller, e: Event): Controller {
    match e
    case CallStart(target) => Start(c, target)
    case CallRenewNow => RenewNow(c)
    case CallStop => Stop(c)
    case CallStopAndRenewFresh => StopAndRenewFresh(c)
    case CallClear => Clear(c)
    case PerformOne(op, result) => PerformOneEnds(c, op, result)
    case Finally(op) => FinallyRuns(c, op)
    case Resumes(waiter) => Resume(c, waiter)
    case Fires(timer) => TimerFires(c, timer)
  }

  function Run(c: Controller, events: seq<Event>): Controller
    decreases |events|
  {
    if events == [] then c else Run(Step(c, events[0]), events[1..])
  }

  // ---- Invariants ----

  /** Only the operation in the slot can be live, and it stays there until its `finally`. */
  ghost predicate OneInFlight(c: Controller) {
    && (c.inFlight.Some? ==> c.inFlight.value < |c.operations|)
    && (forall i :: 0 <= i < |c.operations| && !c.operations[i].stage.Cleared? ==> c.inFlight == Some(i))
    && (c.inFlight.Some? ==> !c.operations[c.inFlight.value].stage.Cleared?)
  }

  /** Whatever an operation settles with is fresh, and so is everything returned. */
  ghost predicate OnlyFresh(c: Controller) {
    && (forall o <- c.operations ::
          (o.stage.Settled? || o.stage.Cleared?) && o.stage.result.Some? ==> IsFresh(o.stage.result.value))
    && (forall r <- c.returned :: IsFresh(r))
  }

  /** A continuation of the current generation that will reschedule when it resumes. */
  predicate Driver(c: Controller, id: nat) {
    id in c.waiters && (c.waiters[id].Starter? || c.waiters[id].Ticker?)
    && c.waiters[id].generation == c.generation
  }

  /**
   * At most one timer is live, it is the one the controller knows and of the current
   * generation; and the controller runs exactly while a timer or one continuation drives it.
   */
  ghost predicate Driven(c: Controller) {
    && c.timers == (if c.timer.Some? then map[c.timer.value := c.generation] else map[])
    && (c.timer.Some? ==> forall id :: !Driver(c, id))
    && (forall i, j :: Driver(c, i) && Driver(c, j) ==> i == j)
    && (c.running <==> c.timer.Some? || exists id :: Driver(c, id))
    && (c.running ==> c.target.Some?)
    && (forall id <- c.waiters :: id < c.nextWaiter)
    && (forall id <- c.waiters | c.waiters[id].Starter? || c.waiters[id].Ticker? ::
          c.waiters[id].generation <= c.generation)
  }

  /** Whatever is awaited has begun. */
  ghost predicate WaitersKnown(c: Controller) {
    forall id <- c.waiters | OperationOf(c.waiters[id]).Some? :: OperationOf(c.waiters[id]).value < |c.operations|
  }

  ghost predicate Invariant(c: Controller) {
    OneInFlight(c) && OnlyFresh(c) && Driven(c) && WaitersKnown(c)
  }

  lemma RenewFreshKeepsSlot(c: Controller, target: Target)
    requires OneInFlight(c)
    ensures OneInFlight(RenewFresh(c, target))
  {
  }

  lemma PerformOneKeepsSlot(c: Controller, op: nat, result: Option<Renewal>)
    requires OneInFlight(c)
    ensures OneInFlight(PerformOneEnds(c, op, result))
  {
  }

  lemma FinallyKeepsSlot(c: Controller, op: nat)
    requires OneInFlight(c)
    ensures OneInFlight(FinallyRuns(c, op))
  {
  }

  lemma StepKeepsOneInFlight(c: Controller, e: Event)
    requires OneInFlight(c)
    ensures OneInFlight(Step(c, e))
  {
    hide OneInFlight, RenewFresh, PerformOneEnds, FinallyRuns, ResultFor;
    forall d: Controller, t: Target | OneInFlight(d) ensures OneInFlight(RenewFresh(d, t)) {
      RenewFreshKeepsSlot(d, t);
    }
    forall x: Controller, y: Controller {:trigger SameSlot(x, y)} | OneInFlight(x) && SameSlot(x, y)
      ensures OneInFlight(y)
    {
      SlotOnly(x, y);
    }
    match e {
      case CallStart(target) =>
        if c.target.None? || c.target.value == target {
          var d := ClearTimer(c).(target := Some(target), running := true, generation := c.generation + 1);
          assert SameSlot(c, d) && SameSlot(RenewFresh(d, target), Step(c, e));
        }
      case CallRenewNow =>
        if c.target.Some? {
          assert SameSlot(RenewFresh(c, c.target.value), Step(c, e));
        }
      case CallStop => assert SameSlot(c, Step(c, e));
      case CallStopAndRenewFresh => assert SameSlot(c, Step(c, e));
      case CallClear => assert SameSlot(c, Step(c, e));
      case PerformOne(op, result) => PerformOneKeepsSlot(c, op, result);
      case Finally(op) => FinallyKeepsSlot(c, op);
      case Resumes(id) =>
        if CanResume(c, id) {
          var d := c.(waiters := c.waiters - {id});
          assert SameSlot(c, d);
          if c.waiters[id].StopRenewer? {
            var renewed := RenewFresh(d, c.waiters[id].target);
            assert SameSlot(renewed, Wait(renewed, Renewer(Awaited(d))));
          } else {
            assert SameSlot(d, Step(c, e));
          }
        }
      case Fires(timer) =>
        if timer in c.timers {
          var d := c.(timers := c.timers - {timer}, timer := None);
          assert SameSlot(c, d);
          if c.target.Some? {
            assert SameSlot(RenewFresh(d, c.target.value),
              Wait(RenewFresh(d, c.target.value), Ticker(Awaited(d), c.timers[timer])));
          }
        }
    }
  }

  ghost predicate SameSlot(x: Controller, y: Controller) {
    x.inFlight == y.inFlight && x.operations == y.operations
  }

  lemma SlotOnly(x: Controller, y: Controller)
    requires OneInFlight(x) && SameSlot(x, y)
    ensures OneInFlight(y)
  {
  }

  ghost predicate SameResults(x: Controller, y: Controller) {
    x.operations == y.operations && x.returned == y.returned
  }

  lemma RenewFreshIsUnsettled(c: Controller, target: Target)
    requires OnlyFresh(c)
    ensures forall d: Controller | SameResults(RenewFresh(c, target), d) :: OnlyFresh(d)
  {
  }

  lemma ResumeReturnsFresh(c: Controller, id: nat)
    requires OnlyFresh(c)
    ensures OnlyFresh(Resume(c, id))
  {
    hide Schedule;
    if CanResume(c, id) {
      var d := c.(waiters := c.waiters - {id});
      if OperationOf(c.waiters[id]).Some? {
        assert c.operations[OperationOf(c.waiters[id]).value] in c.operations;
      }
      if c.waiters[id].StopRenewer? {
        RenewFreshIsUnsettled(d, c.waiters[id].target);
      }
      forall generation: nat, result: Option<Renewal> ensures SameResults(d, ResumeDriver(d, generation, result)) {
        ResumeDriverSettlesNothing(d, generation, result);
      }
    }
  }

  lemma OperationSettlesFresh(c: Controller, op: nat, result: Option<Renewal>)
    requires OnlyFresh(c)
    ensures OnlyFresh(PerformOneEnds(c, op, result)) && OnlyFresh(FinallyRuns(c, op))
  {
    if op < |c.operations| {
      assert c.operations[op] in c.operations;
    }
  }

  lemma ResumeDriverSettlesNothing(c: Controller, generation: nat, result: Option<Renewal>)
    ensures SameResults(c, ResumeDriver(c, generation, result))
  {
  }

  lemma StepKeepsOnlyFresh(c: Controller, e: Event)
    requires OnlyFresh(c)
    ensures OnlyFresh(Step(c, e))
  {
    hide Resume, PerformOneEnds, FinallyRuns;
    match e {
      case PerformOne(op, result) => OperationSettlesFresh(c, op, result);
      case Finally(op) => OperationSettlesFresh(c, op, None);
      case CallStart(target) =>
        var d := ClearTimer(c).(target := Some(target), running := true, generation := c.generation + 1);
        RenewFreshIsUnsettled(d, target);
      case CallRenewNow =>
        if c.target.Some? {
          RenewFreshIsUnsettled(c, c.target.value);
        }
      case Resumes(waiter) => ResumeReturnsFresh(c, waiter);
      case Fires(timer) =>
        if timer in c.timers && c.target.Some? {
          RenewFreshIsUnsettled(c.(timers := c.timers - {timer}, timer := None), c.target.value);
        }
      case _ =>
    }
  }

  /** Nothing drives the controller: no timer is live and no continuation is current. */
  ghost predicate Undriven(c: Controller) {
    && c.timers == map[] && c.timer.None?
    && (forall id :: !Driver(c, id))
    && (forall id <- c.waiters :: id < c.nextWaiter)
    && (forall id <- c.waiters | c.waiters[id].Starter? || c.waiters[id].Ticker? ::
          c.waiters[id].generation <= c.generation)
  }

  lemma HaltUndrives(c: Controller)
    requires Driven(c)
    ensures Undriven(Halt(c)) && !Halt(c).running
  {
    assert c.timer.Some? ==> c.timers - {c.timer.value} == map[];
  }

  lemma UndrivenIsDriven(c: Controller)
    requires Undriven(c) && !c.running
    ensures Driven(c)
  {
  }

  lemma ScheduleDrives(c: Controller)
    requires Undriven(c) && c.running && c.target.Some?
    ensures Driven(Schedule(c, c.generation))
  {
    var d := Schedule(c, c.generation);
    assert forall id :: Driver(d, id) == Driver(c, id);
  }

  /** A waiter of the current generation takes over; other waiters drive nothing. */
  lemma WaiterDrives(c: Controller, w: Waiter)
    requires Undriven(c) && c.running && c.target.Some?
    requires (w.Starter? || w.Ticker?) && w.generation == c.generation
    ensures Driven(Wait(c, w))
  {
    var d := Wait(c, w);
    assert Driver(d, c.nextWaiter);
    forall id | Driver(d, id) ensures id == c.nextWaiter {
      assert id != c.nextWaiter ==> Driver(c, id);
    }
  }

  lemma BystanderWaits(c: Controller, w: Waiter)
    requires Driven(c) && !w.Starter? && !w.Ticker?
    ensures Driven(Wait(c, w))
  {
    var d := Wait(c, w);
    assert forall id :: Driver(d, id) == Driver(c, id);
  }

  lemma RenewFreshDrivesNothing(c: Controller, target: Target)
    ensures Driven(c) ==> Driven(RenewFresh(c, target))
    ensures Undriven(c) ==> Undriven(RenewFresh(c, target))
  {
    var d := RenewFresh(c, target);
    assert forall id :: Driver(d, id) == Driver(c, id);
  }

  lemma BystanderLeaves(c: Controller, id: nat)
    requires Driven(c) && !Driver(c, id)
    ensures Driven(c.(waiters := c.waiters - {id}))
  {
    var d := c.(waiters := c.waiters - {id});
    assert forall i :: Driver(d, i) == Driver(c, i);
  }

  lemma DriverLeaves(c: Controller, id: nat)
    requires Driven(c) && Driver(c, id)
    ensures c.running && c.target.Some? && Undriven(c.(waiters := c.waiters - {id}))
  {
    var d := c.(waiters := c.waiters - {id});
    assert forall i :: Driver(d, i) ==> Driver(c, i) && i != id;
  }

  lemma StartKeepsDriven(c: Controller, target: Target)
    requires Driven(c)
    ensures Driven(Start(c, target))
  {
    hide Driven, Undriven, RenewFresh;
    if c.target.None? || c.target.value == target {
      HaltUndrives(c);
      var d := ClearTimer(c).(target := Some(target), running := true, generation := c.generation + 1);
      UndrivenUpTo(Halt(c), d);
      RenewFreshDrivesNothing(d, target);
      RenewFreshLeaves(d, target);
      WaiterDrives(RenewFresh(d, target), Starter(Awaited(d), d.generation));
    }
  }

  lemma RenewFreshLeaves(c: Controller, target: Target)
    ensures var d := RenewFresh(c, target);
      d.running == c.running && d.target == c.target && d.generation == c.generation
  {
  }

  lemma UndrivenUpTo(c: Controller, d: Controller)
    requires Undriven(c)
    requires d == c.(target := d.target, running := d.running)
    ensures Undriven(d)
  {
    assert forall id :: Driver(d, id) == Driver(c, id);
  }

  lemma ResumeDriverKeepsDriven(c: Controller, id: nat, result: Option<Renewal>)
    requires Driven(c) && id in c.waiters && (c.waiters[id].Starter? || c.waiters[id].Ticker?)
    ensures Driven(ResumeDriver(c.(waiters := c.waiters - {id}), c.waiters[id].generation, result))
  {
    hide Driven, Undriven, Schedule;
    var d := c.(waiters := c.waiters - {id});
    var generation := c.waiters[id].generation;
    if generation == c.generation {
      DriverLeaves(c, id);
      if result.Some? {
        ScheduleDrives(d);
      } else {
        UndrivenUpTo(d, d.(running := false));
        UndrivenIsDriven(d.(running := false));
      }
    } else {
      BystanderLeaves(c, id);
    }
  }

  lemma ResumeKeepsDriven(c: Controller, id: nat)
    requires Driven(c)
    ensures Driven(Resume(c, id))
  {
    hide Driven, RenewFresh, ResumeDriver;
    if CanResume(c, id) {
      var w := c.waiters[id];
      var d := c.(waiters := c.waiters - {id});
      if w.Starter? || w.Ticker? {
        var e := ResumeDriver(d, w.generation, ResultFor(c, id));
        ResumeDriverKeepsDriven(c, id, ResultFor(c, id));
        ReturnDrivesNothing(e);
      } else {
        BystanderLeaves(c, id);
        ReturnDrivesNothing(d);
        if w.StopRenewer? {
          RenewFreshDrivesNothing(d, w.target);
          BystanderWaits(RenewFresh(d, w.target), Renewer(Awaited(d)));
        }
      }
    }
  }

  lemma ReturnDrivesNothing(c: Controller)
    requires Driven(c)
    ensures forall r :: Driven(Return(c, r))
  {
    forall r ensures Driven(Return(c, r)) {
      assert forall id :: Driver(Return(c, r), id) == Driver(c, id);
    }
  }

  /** A timer that fires is never stale: it is of the current generation and it renews. */
  lemma FiredTimerIsCurrent(c: Controller, id: nat)
    requires Driven(c) && id in c.timers
    ensures c.running && c.timers[id] == c.generation && c.target.Some? && c.timer == Some(id)
    ensures Undriven(c.(timers := c.timers - {id}, timer := None))
  {
    var d := c.(timers := c.timers - {id}, timer := None);
    assert forall i :: Driver(d, i) == Driver(c, i);
    assert c.timers - {id} == map[];
  }

  lemma FireKeepsDriven(c: Controller, id: nat)
    requires Driven(c)
    ensures Driven(TimerFires(c, id))
  {
    hide Driven, Undriven, RenewFresh;
    if id in c.timers {
      FiredTimerIsCurrent(c, id);
      var d := c.(timers := c.timers - {id}, timer := None);
      RenewFreshDrivesNothing(d, c.target.value);
      RenewFreshLeaves(d, c.target.value);
      WaiterDrives(RenewFresh(d, c.target.value), Ticker(Awaited(d), c.timers[id]));
    }
  }

  lemma HaltKeepsDriven(c: Controller)
    requires Driven(c)
    ensures Driven(Halt(c)) && Driven(Halt(c).(target := None))
  {
    HaltUndrives(c);
    UndrivenUpTo(Halt(c), Halt(c).(target := None));
    UndrivenIsDriven(Halt(c));
    UndrivenIsDriven(Halt(c).(target := None));
  }

  lemma OperationsDriveNothing(c: Controller, e: Event)
    requires Driven(c) && (e.PerformOne? || e.Finally?)
    ensures Driven(Step(c, e))
  {
    var d := Step(c, e);
    assert forall id :: Driver(d, id) == Driver(c, id);
  }

  lemma StepKeepsDriven(c: Controller, e: Event)
    requires Driven(c)
    ensures Driven(Step(c, e))
  {
    hide Driven, Halt, RenewFresh;
    match e {
      case CallStart(target) => StartKeepsDriven(c, target);
      case CallRenewNow =>
        if c.target.Some? {
          RenewFreshDrivesNothing(c, c.target.value);
          BystanderWaits(RenewFresh(c, c.target.value), Renewer(Awaited(c)));
        }
      case CallStop =>
        HaltKeepsDriven(c);
        if c.inFlight.Some? {
          BystanderWaits(Halt(c), Stopper(c.inFlight.value));
        }
      case CallStopAndRenewFresh =>
        HaltKeepsDriven(c);
        if c.target.Some? {
          BystanderWaits(Halt(c), StopRenewer(c.inFlight, c.target.value));
        }
      case CallClear => HaltKeepsDriven(c);
      case PerformOne(_, _) => OperationsDriveNothing(c, e);
      case Finally(_) => OperationsDriveNothing(c, e);
      case Resumes(waiter) => ResumeKeepsDriven(c, waiter);
      case Fires(timer) => FireKeepsDriven(c, timer);
    }
  }

  lemma StepKeepsWaitersKnown(c: Controller, e: Event)
    requires WaitersKnown(c) && OneInFlight(c)
    ensures WaitersKnown(Step(c, e))
  {
    hide Schedule, PerformOneEnds, FinallyRuns, Resume;
    match e {
      case PerformOne(op, result) => OperationKeepsWaitersKnown(c, op, result);
      case Finally(op) => OperationKeepsWaitersKnown(c, op, None);
      case Resumes(id) => ResumeKeepsWaitersKnown(c, id);
      case _ =>
    }
  }

  lemma OperationKeepsWaitersKnown(c: Controller, op: nat, result: Option<Renewal>)
    requires WaitersKnown(c)
    ensures WaitersKnown(PerformOneEnds(c, op, result)) && WaitersKnown(FinallyRuns(c, op))
  {
  }

  lemma ResumeKeepsWaitersKnown(c: Controller, id: nat)
    requires WaitersKnown(c) && OneInFlight(c)
    ensures WaitersKnown(Resume(c, id))
  {
    hide Schedule, ResumeDriver;
    if CanResume(c, id) {
      var d := c.(waiters := c.waiters - {id});
      forall generation: nat, result: Option<Renewal> ensures SameAim(d, ResumeDriver(d, generation, result)) {
        ResumeDriverAims(d, generation, result);
      }
    }
  }

  lemma StepKeepsInvariant(c: Controller, e: Event)
    requires Invariant(c)
    ensures Invariant(Step(c, e))
  {
    hide Step, OneInFlight, OnlyFresh, Driven, WaitersKnown;
    StepKeepsOneInFlight(c, e);
    StepKeepsOnlyFresh(c, e);
    StepKeepsDriven(c, e);
    StepKeepsWaitersKnown(c, e);
  }

  lemma {:induction false} RunKeepsInvariant(c: Controller, events: seq<Event>)
    requires Invariant(c)
    ensures Invariant(Run(c, events))
    decreases |events|
  {
    hide Step, Invariant;
    if events != [] {
      StepKeepsInvariant(c, events[0]);
      RunKeepsInvariant(Step(c, events[0]), events[1..]);
    }
  }

  /**
   * In every reachable state at most one renewal is live and it is the one in the slot, at
   * most one timer is live and it is of the current generation, the controller runs only
   * while something will reschedule it, and nothing stale was ever returned.
   */
  lemma ControllerSafety(events: seq<Event>)
    ensures var c := Run(NEW_CONTROLLER, events);
      && (forall i | 0 <= i < |c.operations| && Live(c.operations[i].stage) :: c.inFlight == Some(i))
      && (forall s <- c.timers, t <- c.timers :: s == t && c.timers[s] == c.generation)
      && (c.running <==> c.timers != map[] || exists id :: Driver(c, id))
      && (forall r <- c.returned :: IsFresh(r))
  {
    hide Run;
    RunKeepsInvariant(NEW_CONTROLLER, events);
    var c := Run(NEW_CONTROLLER, events);
    assert c.timer.Some? ==> c.timer.value in c.timers;
  }

  predicate NoStart(events: seq<Event>) {
    forall e <- events :: !e.CallStart?
  }

  lemma OnlyStartRuns(c: Controller, e: Event)
    requires !c.running && !e.CallStart?
    ensures !Step(c, e).running
  {
  }

  /** Once stopped, whatever else happens, no timer is live until the next start. */
  lemma {:induction false} StoppedStaysStopped(c: Controller, events: seq<Event>)
    requires Invariant(c) && !c.running && NoStart(events)
    ensures !Run(c, events).running && Run(c, events).timers == map[]
    decreases |events|
  {
    hide Step, OneInFlight, OnlyFresh, WaitersKnown;
    if events != [] {
      OnlyStartRuns(c, events[0]);
      StepKeepsInvariant(c, events[0]);
      StoppedStaysStopped(Step(c, events[0]), events[1..]);
    }
  }

  // ---- For the current target ----

  /** A pending stopAndRenewFresh whose awaited operation failed: it will renew nothing. */
  predicate Hopeless(c: Controller, w: Waiter)
    requires w.StopRenewer?
  {
    && w.stops.Some? && w.stops.value < |c.operations|
    && c.operations[w.stops.value].stage == Cleared(None)
  }

  /** The pending stopAndRenewFresh of this waiter will renew, unless what it awaits still fails. */
  predicate WillRenew(c: Controller, id: nat) {
    id in c.waiters && c.waiters[id].StopRenewer? && !Hopeless(c, c.waiters[id])
  }

  /** A renewal that has not ended is for a target the controller no longer has. */
  ghost predicate Astray(c: Controller) {
    exists o <- c.operations :: !o.stage.Cleared? && c.target != Some(o.target)
  }

  /** What is in flight, and what a pending stopAndRenewFresh will renew, is the current target. */
  ghost predicate OnTarget(c: Controller) {
    && !Astray(c)
    && (forall id | WillRenew(c, id) :: c.target == Some(c.waiters[id].target))
  }

  /** A `clear` that takes effect while a stopAndRenewFresh is going to renew. */
  ghost predicate Disturbs(c: Controller, e: Event) {
    e.CallClear? && c.inFlight.None? && exists id :: WillRenew(c, id)
  }

  ghost predicate Undisturbed(c: Controller, events: seq<Event>)
    decreases |events|
  {
    events == [] || (!Disturbs(c, events[0]) && Undisturbed(Step(c, events[0]), events[1..]))
  }

  lemma AimOnly(c: Controller, d: Controller)
    requires OnTarget(c) && SameAim(c, d)
    ensures OnTarget(d)
  {
    assert forall id :: WillRenew(d, id) == WillRenew(c, id);
  }

  lemma RenewFreshStaysOnTarget(c: Controller, target: Target)
    requires OnTarget(c) && c.target == Some(target)
    ensures OnTarget(RenewFresh(c, target))
  {
    var d := RenewFresh(c, target);
    assert forall o <- d.operations :: o in c.operations || o == Operation(target, First);
    assert forall id :: WillRenew(d, id) ==> WillRenew(c, id);
  }

  lemma WaitStaysOnTarget(c: Controller, w: Waiter)
    requires OnTarget(c) && (w.StopRenewer? ==> c.target == Some(w.target))
    ensures OnTarget(Wait(c, w))
  {
    var d := Wait(c, w);
    assert forall id :: WillRenew(d, id) ==> id == c.nextWaiter || WillRenew(c, id);
  }

  lemma StageMoves(c: Controller, d: Controller, op: nat, stage: Stage)
    requires OnTarget(c) && op < |c.operations| && !c.operations[op].stage.Cleared?
    requires d.operations == c.operations[op := c.operations[op].(stage := stage)]
    requires d.waiters == c.waiters && d.target == c.target
    ensures OnTarget(d)
  {
    assert forall id :: WillRenew(d, id) ==> WillRenew(c, id);
    forall o <- d.operations | !o.stage.Cleared? ensures d.target == Some(o.target) {
      var i :| 0 <= i < |d.operations| && d.operations[i] == o;
      assert c.operations[i] in c.operations;
    }
  }

  lemma OperationStaysOnTarget(c: Controller, op: nat, result: Option<Renewal>)
    requires OnTarget(c)
    ensures OnTarget(PerformOneEnds(c, op, result)) && OnTarget(FinallyRuns(c, op))
  {
    hide OnTarget;
    if op < |c.operations| && !c.operations[op].stage.Cleared? {
      var d, e := PerformOneEnds(c, op, result), FinallyRuns(c, op);
      if Live(c.operations[op].stage) {
        StageMoves(c, d, op, d.operations[op].stage);
      } else {
        StageMoves(c, e, op, e.operations[op].stage);
      }
    }
  }

  /** With nothing in flight and nobody going to renew, the target is free. */
  lemma NothingAims(c: Controller, target: Option<Target>)
    requires OneInFlight(c) && c.inFlight.None? && forall id :: !WillRenew(c, id)
    ensures OnTarget(c.(target := target))
  {
    var d := c.(target := target);
    assert forall id :: WillRenew(d, id) == WillRenew(c, id);
  }

  lemma StepStaysOnTarget(c: Controller, e: Event)
    requires OnTarget(c) && OneInFlight(c) && Driven(c) && !Disturbs(c, e)
    ensures OnTarget(Step(c, e))
  {
    hide OnTarget, OneInFlight, Driven, RenewFresh, Resume, PerformOneEnds, FinallyRuns, WillRenew;
    match e {
      case CallStart(target) => StartStaysOnTarget(c, target);
      case CallRenewNow =>
        if c.target.Some? {
          RenewFreshStaysOnTarget(c, c.target.value);
          WaitStaysOnTarget(RenewFresh(c, c.target.value), Renewer(Awaited(c)));
        }
      case CallStop =>
        AimOnly(c, Halt(c));
        if c.inFlight.Some? {
          WaitStaysOnTarget(Halt(c), Stopper(c.inFlight.value));
        }
      case CallStopAndRenewFresh =>
        AimOnly(c, Halt(c));
        if c.target.Some? {
          WaitStaysOnTarget(Halt(c), StopRenewer(c.inFlight, c.target.value));
        }
      case CallClear =>
        if c.inFlight.None? {
          NothingAims(c, None);
          AimOnly(c.(target := None), Clear(c));
        }
      case PerformOne(op, result) => OperationStaysOnTarget(c, op, result);
      case Finally(op) => OperationStaysOnTarget(c, op, None);
      case Resumes(waiter) => ResumeStaysOnTarget(c, waiter);
      case Fires(timer) => FireStaysOnTarget(c, timer);
    }
  }

  lemma StartStaysOnTarget(c: Controller, target: Target)
    requires OnTarget(c) && OneInFlight(c)
    ensures OnTarget(Start(c, target))
  {
    hide RenewFresh, OneInFlight;
    if c.target.None? || c.target.value == target {
      var d := ClearTimer(c).(target := Some(target), running := true, generation := c.generation + 1);
      if c.target.None? {
        NobodyAims(c);
        NothingAims(c, Some(target));
      }
      AimOnly(c.(target := Some(target)), d);
      hide OnTarget;
      RenewFreshStaysOnTarget(d, target);
      WaitStaysOnTarget(RenewFresh(d, target), Starter(Awaited(d), d.generation));
    }
  }

  lemma NobodyAims(c: Controller)
    requires OnTarget(c) && OneInFlight(c) && c.target.None?
    ensures c.inFlight.None? && forall id :: !WillRenew(c, id)
  {
    assert forall i | 0 <= i < |c.operations| :: c.operations[i] in c.operations;
  }

  lemma FireStaysOnTarget(c: Controller, timer: nat)
    requires OnTarget(c)
    ensures OnTarget(TimerFires(c, timer))
  {
    hide OnTarget, RenewFresh;
    if timer in c.timers {
      var d := c.(timers := c.timers - {timer}, timer := None);
      AimOnly(c, d);
      if c.target.Some? {
        RenewFreshStaysOnTarget(d, c.target.value);
        WaitStaysOnTarget(RenewFresh(d, c.target.value), Ticker(Awaited(d), c.timers[timer]));
      }
    }
  }

  lemma ResumeStaysOnTarget(c: Controller, id: nat)
    requires OnTarget(c)
    ensures OnTarget(Resume(c, id))
  {
    hide ResumeDriver, RenewFresh, WillRenew;
    if CanResume(c, id) {
      var d := c.(waiters := c.waiters - {id});
      FewerAim(c, id);
      forall generation: nat, result: Option<Renewal> ensures SameAim(d, ResumeDriver(d, generation, result)) {
        ResumeDriverAims(d, generation, result);
      }
      if c.waiters[id].StopRenewer? {
        StopRenewerResumes(c, id);
      } else {
        AimOnly(d, Resume(c, id));
      }
    }
  }

  lemma FewerAim(c: Controller, id: nat)
    requires OnTarget(c)
    ensures OnTarget(c.(waiters := c.waiters - {id}))
  {
    var d := c.(waiters := c.waiters - {id});
    assert forall i :: WillRenew(d, i) ==> WillRenew(c, i);
  }

  lemma StopRenewerResumes(c: Controller, id: nat)
    requires OnTarget(c) && CanResume(c, id) && c.waiters[id].StopRenewer?
    ensures OnTarget(Resume(c, id))
  {
    hide RenewFresh, Astray;
    var d := c.(waiters := c.waiters - {id});
    FewerAim(c, id);
    if WillRenew(c, id) {
      assert c.target == Some(c.waiters[id].target);
      hide OnTarget;
      RenewFreshStaysOnTarget(d, c.waiters[id].target);
      RenewFreshLeaves(d, c.waiters[id].target);
      WaitStaysOnTarget(RenewFresh(d, c.waiters[id].target), Renewer(Awaited(d)));
    }
  }

  ghost predicate SameAim(c: Controller, d: Controller) {
    c.operations == d.operations && c.waiters == d.waiters && c.target == d.target
  }

  lemma ResumeDriverAims(c: Controller, generation: nat, result: Option<Renewal>)
    ensures SameAim(c, ResumeDriver(c, generation, result))
  {
  }

  /** Undisturbed runs renew only the current target. */
  lemma {:induction false} UndisturbedStaysOnTarget(c: Controller, events: seq<Event>)
    requires Invariant(c) && OnTarget(c) && Undisturbed(c, events)
    ensures OnTarget(Run(c, events))
    decreases |events|
  {
    hide Step, OneInFlight, OnlyFresh, Driven, OnTarget, WaitersKnown, Disturbs;
    if events != [] {
      StepKeepsInvariant(c, events[0]);
      StepStaysOnTarget(c, events[0]);
      UndisturbedStaysOnTarget(Step(c, events[0]), events[1..]);
    }
  }

  /**
   * Each disturbance counts: when the slot is free, a clear leads the pending call to renew a
   * dropped target.
   */
  lemma ClearDuringStopAndRenew(c: Controller, id: nat)
    requires Invariant(c) && c.inFlight.None? && WillRenew(c, id)
    ensures CanResume(c, id)
    ensures var d := Resume(Clear(c), id);
      d.inFlight.Some? && d.target.None? && Astray(d)
  {
    hide OnlyFresh, Driven;
    var d := Resume(Clear(c), id);
    assert OperationOf(c.waiters[id]).Some? ==> c.operations[OperationOf(c.waiters[id]).value].stage.Cleared?;
    assert d.operations[|c.operations|] == Operation(c.waiters[id].target, First);
    assert d.operations[|c.operations|] in d.operations;
  }

  ghost predicate NoClear(events: seq<Event>) {
    forall e <- events :: !e.CallClear?
  }

  /** Nothing that can follow the run's states, short of another clear, renews a dropped target. */
  ghost predicate NeverAstray(c: Controller, events: seq<Event>) {
    forall i, more | 0 <= i <= |events| && NoClear(more) :: !Astray(Run(c, events[..i] + more))
  }

  /**
   * In any run from the new controller, what is being renewed is for the current target, however
   * the run goes on short of another clear, if and only if no effective clear met a
   * stopAndRenewFresh that was going to renew.
   */
  lemma RenewalsAreForTheCurrentTarget(events: seq<Event>)
    ensures NeverAstray(NEW_CONTROLLER, events) <==> Undisturbed(NEW_CONTROLLER, events)
  {
    hide Run, Undisturbed, Astray, NoClear;
    NewIsOnTarget();
    if Undisturbed(NEW_CONTROLLER, events) {
      forall i, more | 0 <= i <= |events| && NoClear(more) ensures !Astray(Run(NEW_CONTROLLER, events[..i] + more)) {
        CutIsUndisturbed(NEW_CONTROLLER, events, i, more);
        UndisturbedStaysOnTarget(NEW_CONTROLLER, events[..i] + more);
      }
    } else {
      var i, more := DisturbanceLeadsAstray(NEW_CONTROLLER, events);
    }
  }

  lemma NewIsOnTarget()
    ensures Invariant(NEW_CONTROLLER) && OnTarget(NEW_CONTROLLER)
  {
  }

  lemma {:induction false} CutIsUndisturbed(c: Controller, events: seq<Event>, i: nat, more: seq<Event>)
    requires i <= |events| && Undisturbed(c, events) && NoClear(more)
    ensures Undisturbed(c, events[..i] + more)
    decreases i, |more|
  {
    hide Step;
    var cut := events[..i] + more;
    if i > 0 {
      assert cut[1..] == events[1..][..i - 1] + more;
      CutIsUndisturbed(Step(c, events[0]), events[1..], i - 1, more);
    } else if more != [] {
      assert cut == more && more[0] in more;
      assert events[..0] + more[1..] == more[1..] && [][..0] + more[1..] == more[1..];
      CutIsUndisturbed(Step(c, more[0]), [], 0, more[1..]);
    }
  }

  lemma {:induction false} DisturbanceLeadsAstray(c: Controller, events: seq<Event>) returns (i: nat, more: seq<Event>)
    requires Invariant(c) && !Undisturbed(c, events)
    ensures i <= |events| && NoClear(more) && Astray(Run(c, events[..i] + more))
    decreases |events|
  {
    hide Invariant, Astray;
    if Disturbs(c, events[0]) {
      var id :| WillRenew(c, id);
      ClearDuringStopAndRenew(c, id);
      i, more := 1, [Resumes(id)];
      TwoSteps(c, events[0], Resumes(id));
      assert events[..1] + more == [events[0], Resumes(id)];
    } else {
      StepKeepsInvariant(c, events[0]);
      var j;
      j, more := DisturbanceLeadsAstray(Step(c, events[0]), events[1..]);
      i := j + 1;
      assert (events[..i] + more)[1..] == events[1..][..j] + more;
    }
  }

  lemma TwoSteps(c: Controller, first: Event, second: Event)
    ensures Run(c, [first, second]) == Step(Step(c, first), second)
  {
    hide Step;
    assert [first, second][1..] == [second] && [second][1..] == [];
    assert Run(Step(c, first), [second]) == Run(Step(Step(c, first), second), []);
  }

  /** Such a state is reached by a start, its first renewal and a stopAndRenewFresh. */
  lemma DisturbedRun(target: Target)
    ensures var c := Run(NEW_CONTROLLER, [CallStart(target), PerformOne(0, Some(Renewal(false, false))),
                                          Finally(0), Resumes(0), CallStopAndRenewFresh]);
      && c.inFlight.None? && WillRenew(c, 1) && CanResume(c, 1)
      && Astray(Resume(Clear(c), 1))
  {
    var c1 := Step(NEW_CONTROLLER, CallStart(target));
    var c2 := Step(c1, PerformOne(0, Some(Renewal(false, false))));
    var c3 := Step(c2, Finally(0));
    var c4 := Step(c3, Resumes(0));
    var c5 := Step(c4, CallStopAndRenewFresh);
    var renewed, done := PerformOne(0, Some(Renewal(false, false))), Finally(0);
    var events := [CallStart(target), renewed, done, Resumes(0), CallStopAndRenewFresh];
    assert events[1..] == [renewed, done, Resumes(0), CallStopAndRenewFresh];
    assert [renewed, done, Resumes(0), CallStopAndRenewFresh][1..] == [done, Resumes(0), CallStopAndRenewFresh];
    assert [done, Resumes(0), CallStopAndRenewFresh][1..] == [Resumes(0), CallStopAndRenewFresh];
    assert [Resumes(0), CallStopAndRenewFresh][1..] == [CallStopAndRenewFresh];
    assert Run(c4, [CallStopAndRenewFresh]) == Run(c5, []) == c5;
    assert Run(c3, [Resumes(0), CallStopAndRenewFresh]) == c5;
    assert Run(c2, [done, Resumes(0), CallStopAndRenewFresh]) == c5;
    assert Run(c1, [renewed, done, Resumes(0), CallStopAndRenewFresh]) == c5;
    assert Run(NEW_CONTROLLER, events) == c5;
    RunKeepsInvariant(NEW_CONTROLLER, events);
    ClearDuringStopAndRenew(c5, 1);
  }
}
