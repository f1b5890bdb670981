/** The lease controller object: its methods and callbacks, each proved against its value. */
module LeaseControllerRuntime {
  import opened Basics
  import opened LeaseController

  class LeaseControllerRuntime {
    var target: Option<Target>
    var inFlight: Option<nat>
    var timer: Option<nat>
    var running: bool
    var generation: nat
    // Promises, armed timers and continuations, which the language runtime keeps.
    var operations: seq<Operation>
    var timers: map<nat, nat>
    var nextTimer: nat
    var waiters: map<nat, Waiter>
    var nextWaiter: nat
    var returned: seq<Renewal>

    ghost function View(): Controller
      reads this
    {
      Controller(target, inFlight, timer, running, generation, operations, timers, nextTimer,
        waiters, nextWaiter, returned)
    }

    ghost predicate Valid()
      reads this
    {
      Invariant(View())
    }

    constructor ()
      ensures Valid() && View() == NEW_CONTROLLER
    {
      target, inFlight, timer, running, generation := None, None, None, false, 0;
      operations, timers, nextTimer := [], map[], 0;
      waiters, nextWaiter, returned := map[], 0, [];
    }

    method ClearScheduledTimer()
      modifies this`timer, this`timers
      ensures View() == ClearTimer(old(View()))
    {
      if timer.None? {
        return;
      }
      timers := timers - {timer.value};
      timer := None;
    }

    method ScheduleRenewal(forGeneration: nat)
      modifies this`timer, this`timers, this`nextTimer
      ensures View() == Schedule(old(View()), forGeneration)
    {
      ClearScheduledTimer();
      timer := Some(nextTimer);
      timers := timers[nextTimer := forGeneration];
      nextTimer := nextTimer + 1;
    }

    /** renewFresh: joins the operation in flight or begins one. */
    method Renew(wanted: Target) returns (op: nat)
      modifies this`inFlight, this`operations
      ensures View() == RenewFresh(old(View()), wanted) && op == Awaited(old(View()))
    {
      if inFlight.Some? {
        return inFlight.value;
      }
      op := |operations|;
      operations := operations + [Operation(wanted, First)];
      inFlight := Some(op);
    }

    method Enqueue(w: Waiter)
      modifies this`waiters, this`nextWaiter
      ensures View() == Wait(old(View()), w)
    {
      waiters := waiters[nextWaiter := w];
      nextWaiter := nextWaiter + 1;
    }

    method OnStart(wanted: Target)
      requires Valid()
      modifies this
      ensures Valid() && View() == Start(old(View()), wanted)
    {
      hide Invariant;
      ghost var before := View();
      if target.Some? && target.value != wanted {
        return;
      }
      ClearScheduledTimer();
      target, running, generation := Some(wanted), true, generation + 1;
      var op := Renew(wanted);
      Enqueue(Starter(op, generation));
      StepKeepsInvariant(before, CallStart(wanted));
    }

    method OnRenewNow()
      requires Valid()
      modifies this
      ensures Valid() && View() == RenewNow(old(View()))
    {
      hide Invariant;
      ghost var before := View();
      if target.None? {
        return;
      }
      var op := Renew(target.value);
      Enqueue(Renewer(op));
      StepKeepsInvariant(before, CallRenewNow);
    }

    method HaltNow()
      modifies this`running, this`generation, this`timer, this`timers
      ensures View() == Halt(old(View()))
    {
      running := false;
      generation := generation + 1;
      ClearScheduledTimer();
    }

    method OnStop()
      requires Valid()
      modifies this
      ensures Valid() && View() == Stop(old(View()))
    {
      hide Invariant;
      ghost var before := View();
      HaltNow();
      if inFlight.Some? {
        Enqueue(Stopper(inFlight.value));
      }
      StepKeepsInvariant(before, CallStop);
    }

    method OnStopAndRenewFresh()
      requires Valid()
      modifies this
      ensures Valid() && View() == StopAndRenewFresh(old(View()))
    {
      hide Invariant;
      ghost var before := View();
      if target.None? {
        return;
      }
      HaltNow();
      Enqueue(StopRenewer(inFlight, target.value));
      StepKeepsInvariant(before, CallStopAndRenewFresh);
    }

    method OnClear()
      requires Valid()
      modifies this
      ensures Valid() && View() == Clear(old(View()))
    {
      hide Invariant;
      ghost var before := View();
      if inFlight.Some? {
        return;
      }
      HaltNow();
      target := None;
      StepKeepsInvariant(before, CallClear);
    }

    /** performFreshRenewal: one renewal ends; a stale first one is followed by a second. */
    method OnPerformOneEnds(op: nat, result: Option<Renewal>)
      requires Valid()
      modifies this
      ensures Valid() && View() == PerformOneEnds(old(View()), op, result)
    {
      hide Invariant;
      ghost var before := View();
      if op >= |operations| || !Live(operations[op].stage) {
        return;
      }
      var operation := operations[op];
      var stage: Stage;
      if result.Some? && !result.value.recovered && !result.value.replayed {
        stage := Settled(result);
      } else if result.Some? && operation.stage.First? {
        stage := Second;
      } else {
        stage := Settled(None);
      }
      operations := operations[op := operation.(stage := stage)];
      StepKeepsInvariant(before, PerformOne(op, result));
    }

    method OnFinally(op: nat)
      requires Valid()
      modifies this
      ensures Valid() && View() == FinallyRuns(old(View()), op)
    {
      hide Invariant;
      ghost var before := View();
      if op >= |operations| || !operations[op].stage.Settled? {
        return;
      }
      operations := operations[op := operations[op].(stage := Cleared(operations[op].stage.result))];
      if inFlight == Some(op) {
        inFlight := None;
      }
      StepKeepsInvariant(before, Finally(op));
    }

    method ContinueDriver(forGeneration: nat, result: Option<Renewal>)
      modifies this`running, this`timer, this`timers, this`nextTimer
      ensures View() == ResumeDriver(old(View()), forGeneration, result)
    {
      if result.Some? {
        if running && forGeneration == generation {
          ScheduleRenewal(forGeneration);
        }
      } else if forGeneration == generation {
        running := false;
      }
    }

    method OnResume(id: nat)
      requires Valid()
      modifies this
      ensures Valid() && View() == Resume(old(View()), id)
    {
      hide Invariant;
      ghost var before := View();
      if id !in waiters {
        return;
      }
      var waiter := waiters[id];
      var op := OperationOf(waiter);
      if op.Some? && (op.value >= |operations| || !operations[op.value].stage.Cleared?) {
        return;
      }
      var result := if op.Some? then operations[op.value].stage.result else None;
      waiters := waiters - {id};
      match waiter {
        case Starter(_, forGeneration) =>
          ContinueDriver(forGeneration, result);
          if result.Some? {
            returned := returned + [result.value];
          }
        case Renewer(_) =>
          if result.Some? {
            returned := returned + [result.value];
          }
        case Stopper(_) =>
        case StopRenewer(stops, wanted) =>
          if stops.None? || result.Some? {
            var next := Renew(wanted);
            Enqueue(Renewer(next));
          }
        case Ticker(_, forGeneration) => ContinueDriver(forGeneration, result);
      }
      StepKeepsInvariant(before, Resumes(id));
    }

    method OnTimer(id: nat)
      requires Valid()
      modifies this
      ensures Valid() && View() == TimerFires(old(View()), id)
    {
      hide Invariant;
      ghost var before := View();
      if id !in timers {
        return;
      }
      var forGeneration := timers[id];
      timers := timers - {id};
      timer := None;
      if running && forGeneration == generation && target.Some? {
        var op := Renew(target.value);
        Enqueue(Ticker(op, forGeneration));
      }
      StepKeepsInvariant(before, Fires(id));
    }
  }
}
