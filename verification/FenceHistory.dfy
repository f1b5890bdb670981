/**
 * The fence store seen from outside: one durable head record per activation, changed
 * atomically by renewals and removals. Module FenceStore shows that the file protocol,
 * interrupted anywhere, implements exactly these steps.
 */
module FenceHistory {
  import opened Basics
  import opened FenceRecord

  type Heads = map<string, Record>

  /** `Faulted` is any crash or I/O exception; the rest are the store's own answers. */
  datatype Outcome = Done | Conflict | Corrupt | Unsafe | Faulted

  /** What an operation decides once the files are repaired and read. */
  datatype Plan = Refuse(reason: Outcome) | Keep | Write(next: Record)

  function Lookup(heads: Heads, a: string): Option<Record> {
    if a in heads then Some(heads[a]) else None
  }

  predicate CompetesWith(other: Record, candidate: Data) {
    && Active(other)
    && (other.data.executorId == candidate.executorId || other.data.operationId == candidate.operationId)
  }

  predicate Competes(heads: Heads, candidate: Data) {
    exists a <- heads :: a != candidate.activationId && CompetesWith(heads[a], candidate)
  }

  /** The record a renewal would write on top of `current`. */
  function Renewed(current: Option<Record>, candidate: Data, timestamp: int): Record {
    Record(
      1,
      (if current.Some? then current.value.generation else 0) + 1,
      RenewalStatus(candidate),
      candidate,
      if current.Some? then current.value.createdAt else timestamp,
      timestamp,
      None)
  }

  function Tombstone(current: Record, removedAt: int): Record {
    current.(generation := current.generation + 1, status := Removed,
             updatedAt := removedAt, removedAt := Some(removedAt))
  }

  /** The comparison of a candidate with a live head, before any clock is read. */
  function CompareRequest(current: Record, candidate: Data): (plan: Plan)
    ensures plan.Refuse? ==> plan.reason == Conflict
  {
    if !SameFrozenTuple(current.data, candidate) then Refuse(Conflict)
    else if current.data.requestHash == candidate.requestHash then
      if !SameServerRenewal(current.data, candidate) then Refuse(Conflict)
      else if current.data.recovered == candidate.recovered then Keep
      else if current.data.recovered || !candidate.recovered then Refuse(Conflict)
      else Write(current)
    else if !MonotonicRenewal(current.data, candidate) then Refuse(Conflict)
    else Write(current)
  }

  /** The clock, generation, validity and successor guards, in source order. */
  function FinishRenewal(current: Option<Record>, candidate: Data, now: Option<int>): (plan: Plan)
    ensures !plan.Keep? && plan != Refuse(Done)
  {
    if now.None? then Refuse(Unsafe)
    else if current.Some? && now.value < current.value.updatedAt then Refuse(Conflict)
    else
      var next := Renewed(current, candidate, now.value);
      if !SafeInteger(next.generation) then Refuse(Conflict)
      else if !ValidRecord(next) then Refuse(Corrupt)
      else if current.Some? && !ValidSuccessor(current.value, next) then Refuse(Conflict)
      else Write(next)
  }

  function PersistPlan(current: Option<Record>, competing: bool, candidate: Data, now: Option<int>): Plan {
    if current.Some? && !Active(current.value) then Refuse(Conflict)
    else if competing then Refuse(Conflict)
    else if current.None? then FinishRenewal(None, candidate, now)
    else
      match CompareRequest(current.value, candidate)
      case Refuse(reason) => Refuse(reason)
      case Keep => Keep
      case Write(_) => FinishRenewal(current, candidate, now)
  }

  function RemovePlan(current: Option<Record>, exact: Record, now: Option<int>): Plan {
    if current.Some? && !Active(current.value) && ValidRemovalSuccessor(exact, current.value) then Keep
    else if current.None? || !Active(current.value) || current.value != exact then Refuse(Conflict)
    else if now.None? then Refuse(Unsafe)
    else if now.value < current.value.updatedAt then Refuse(Conflict)
    else
      var tombstone := Tombstone(current.value, now.value);
      if !SafeInteger(tombstone.generation) then Refuse(Conflict)
      else if !ValidRecord(tombstone) then Refuse(Corrupt)
      else Write(tombstone)
  }

  datatype Operation =
    | Persist(target: Target, result: RenewalResult, now: Option<int>)
    | Remove(expected: Record, now: Option<int>)

  function PlanOf(heads: Heads, op: Operation): Plan {
    match op
    case Persist(target, result, now) =>
      var candidate := RenewalData(target, result);
      if candidate.None? then Refuse(Unsafe)
      else
        PersistPlan(Lookup(heads, target.activationId), Competes(heads, candidate.value), candidate.value, now)
    case Remove(expected, now) =>
      if !ValidRecord(expected) || !Active(expected) then Refuse(Unsafe)
      else RemovePlan(Lookup(heads, expected.data.activationId), expected, now)
  }

  /** The answer of requireFresh: only the exact, fresh, unexpired head passes. */
  function FreshOutcome(heads: Heads, expected: Record, now: Option<int>): Outcome {
    if !ValidRecord(expected) || !Active(expected) then Unsafe
    else if now.None? then Unsafe
    else if
      || Lookup(heads, expected.data.activationId) != Some(expected)
      || expected.status != Fresh
      || now.value >= ParseMs(expected.data.leaseExpiresAt)
    then Conflict
    else Done
  }

  function Subject(op: Operation): string {
    match op
    case Persist(target, _, _) => target.activationId
    case Remove(expected, _) => expected.data.activationId
  }

  function OutcomeOf(heads: Heads, op: Operation): Outcome {
    match PlanOf(heads, op)
    case Refuse(reason) => reason
    case Keep => Done
    case Write(_) => Done
  }

  function Next(heads: Heads, op: Operation): Heads {
    match PlanOf(heads, op)
    case Write(next) => heads[Subject(op) := next]
    case _ => heads
  }

  ghost predicate Exclusive(heads: Heads) {
    forall a <- heads, b <- heads :: a != b && Active(heads[a]) && Active(heads[b]) ==>
      && heads[a].data.executorId != heads[b].data.executorId
      && heads[a].data.operationId != heads[b].data.operationId
  }

  ghost predicate WellFormed(heads: Heads) {
    && (forall a <- heads :: ValidRecord(heads[a]) && heads[a].data.activationId == a)
    && Exclusive(heads)
  }

  /**
   * A renewal is written exactly when it is a valid successor: the request, monotonicity
   * and clock guards together accept `next` if and only if the repair-time successor rule
   * would. So the explicit successor guard and the record validation never refuse.
   */
  lemma RenewalGuardsAreSuccessorRule(current: Record, candidate: Data, now: int)
    requires ValidRecord(current) && ValidData(candidate)
    ensures var next := Renewed(Some(current), candidate, now);
      PersistPlan(Some(current), false, candidate, Some(now)) == Write(next)
      <==> ValidSuccessor(current, next) && SafeInteger(next.generation)
    ensures PersistPlan(Some(current), false, candidate, Some(now)) != Refuse(Corrupt)
    ensures Active(current) && CompareRequest(current, candidate).Write? && current.updatedAt <= now
      ==> ValidSuccessor(current, Renewed(Some(current), candidate, now))
  {
  }

  /** A write on top of `current`: valid, of activation `a`, and a successor or a live first record. */
  predicate Succeeds(current: Option<Record>, a: string, next: Record) {
    && ValidRecord(next)
    && next.data.activationId == a
    && if current.Some? then ValidSuccessor(current.value, next) else next.generation == 1 && Active(next)
  }

  lemma PersistWrites(current: Option<Record>, competing: bool, candidate: Data, now: Option<int>)
    requires ValidData(candidate) && (current.Some? ==> ValidRecord(current.value))
    ensures var plan := PersistPlan(current, competing, candidate, now);
      && plan != Refuse(Corrupt) && plan != Refuse(Faulted)
      && (plan.Write? ==> Succeeds(current, candidate.activationId, plan.next))
  {
    hide ValidData;
    if current.Some? && now.Some? {
      hide ValidRecord, ValidSuccessor, CompareRequest;
      RenewalGuardsAreSuccessorRule(current.value, candidate, now.value);
    }
  }

  lemma RemovalWrites(current: Option<Record>, exact: Record, now: Option<int>)
    requires ValidRecord(exact) && (current.Some? ==> ValidRecord(current.value))
    ensures var plan := RemovePlan(current, exact, now);
      && plan != Refuse(Corrupt) && plan != Refuse(Faulted)
      && (plan.Write? ==> current.Some? && Succeeds(current, exact.data.activationId, plan.next))
  {
    hide ValidData, SameServerRenewal, MonotonicRenewal;
  }

  /** Every head an operation writes is valid and succeeds the head it replaces. */
  lemma WritesAreSuccessors(heads: Heads, op: Operation)
    requires WellFormed(heads)
    ensures PlanOf(heads, op) != Refuse(Corrupt)
    ensures PlanOf(heads, op) != Refuse(Faulted)
    ensures PlanOf(heads, op).Write? ==>
      var next := PlanOf(heads, op).next;
      && ValidRecord(next)
      && next.data.activationId == Subject(op)
      && if Subject(op) in heads then ValidSuccessor(heads[Subject(op)], next)
         else next.generation == 1 && Active(next)
  {
    hide RenewalData, Competes, ValidRecord, ValidSuccessor, PersistPlan, RemovePlan, Exclusive;
    match op
    case Persist(target, result, now) =>
      var candidate := RenewalData(target, result);
      if candidate.Some? {
        PersistWrites(Lookup(heads, target.activationId), Competes(heads, candidate.value), candidate.value, now);
      }
    case Remove(expected, now) =>
      if ValidRecord(expected) {
        RemovalWrites(Lookup(heads, expected.data.activationId), expected, now);
      }
  }

  /** No operation lets two live fences share an executor or an operation. */
  lemma OperationKeepsWellFormed(heads: Heads, op: Operation)
    requires WellFormed(heads)
    ensures WellFormed(Next(heads, op))
  {
    hide ValidRecord, ValidSuccessor, CompareRequest, FinishRenewal, RenewalData, Competes;
    WritesAreSuccessors(heads, op);
    var a := Subject(op);
    if PlanOf(heads, op).Write? {
      var next := PlanOf(heads, op).next;
      forall b <- heads | b != a && Active(heads[b]) && Active(next)
        ensures next.data.executorId != heads[b].data.executorId
        ensures next.data.operationId != heads[b].data.operationId
      {
        PersistWasUncontested(heads, op);
        NotCompeting(heads, next.data, b);
      }
    }
  }

  lemma PersistWasUncontested(heads: Heads, op: Operation)
    requires PlanOf(heads, op).Write? && Active(PlanOf(heads, op).next)
    ensures op.Persist? && !Competes(heads, PlanOf(heads, op).next.data)
    ensures PlanOf(heads, op).next.data.activationId == Subject(op)
  {
    hide ValidRecord, ValidSuccessor, Competes;
  }

  lemma NotCompeting(heads: Heads, candidate: Data, b: string)
    requires !Competes(heads, candidate) && b in heads && b != candidate.activationId
    ensures !CompetesWith(heads[b], candidate)
  {
  }

  /** One attempt of an operation; `landed` is false when it stopped before its commit shadow. */
  datatype Event = Event(op: Operation, landed: bool)

  function Apply(heads: Heads, e: Event): Heads {
    if e.landed then Next(heads, e.op) else heads
  }

  function Run(heads: Heads, events: seq<Event>): Heads
    decreases |events|
  {
    if events == [] then heads else Run(Apply(heads, events[0]), events[1..])
  }

  /** The event changes the head of `a`. */
  predicate Moves(heads: Heads, e: Event, a: string) {
    e.landed && Subject(e.op) == a && PlanOf(heads, e.op).Write?
  }

  function Written(heads: Heads, e: Event, a: string): seq<Record> {
    if Moves(heads, e, a) then [PlanOf(heads, e.op).next] else []
  }

  /** The successive heads of activation `a` written during a run. */
  function Trail(heads: Heads, events: seq<Event>, a: string): seq<Record>
    decreases |events|
  {
    if events == [] then [] else Written(heads, events[0], a) + Trail(Apply(heads, events[0]), events[1..], a)
  }

  function Before(heads: Heads, a: string): seq<Record> {
    if a in heads then [heads[a]] else []
  }

  /** Exclusion and validity hold in every state of every run, crashes included. */
  lemma {:induction false} RunKeepsWellFormed(heads: Heads, events: seq<Event>)
    requires WellFormed(heads)
    ensures WellFormed(Run(heads, events))
    decreases |events|
  {
    if events != [] {
      OperationKeepsWellFormed(heads, events[0].op);
      RunKeepsWellFormed(Apply(heads, events[0]), events[1..]);
    }
  }

  /** The heads one activation passes through form a chain ending in its current head. */
  lemma {:induction false} TrailIsChain(heads: Heads, events: seq<Event>, a: string)
    requires WellFormed(heads)
    ensures var history := Before(heads, a) + Trail(heads, events, a);
      && Chain(history)
      && (forall r <- history :: ValidRecord(r) && r.data.activationId == a)
      && (a in Run(heads, events) <==> history != [])
      && (history != [] ==> history[|history| - 1] == Run(heads, events)[a])
      && (a !in heads && history != [] ==> history[0].generation == 1)
    decreases |events|
  {
    hide PlanOf, ValidRecord, ValidSuccessor, WellFormed, Chain, Trail, Apply, Next;
    if events == [] {
      TrailOfNone(heads, a);
      ChainOfOne(Before(heads, a));
      assert Before(heads, a) + [] == Before(heads, a);
      if a in heads {
        WellFormedHead(heads, a);
      }
    } else {
      var e := events[0];
      var after := Apply(heads, e);
      ApplyKeepsWellFormed(heads, e);
      TrailIsChain(after, events[1..], a);
      var rest := Before(after, a) + Trail(after, events[1..], a);
      TrailStep(heads, events, a);
      if Moves(heads, e, a) && a in heads {
        WellFormedHead(heads, a);
        ChainPrepend(heads[a], rest);
      }
    }
  }

  lemma TrailOfNone(heads: Heads, a: string)
    ensures Trail(heads, [], a) == []
  {
  }

  lemma ApplyKeepsWellFormed(heads: Heads, e: Event)
    requires WellFormed(heads)
    ensures WellFormed(Apply(heads, e))
  {
    hide Next;
    OperationKeepsWellFormed(heads, e.op);
  }

  lemma TrailStep(heads: Heads, events: seq<Event>, a: string)
    requires WellFormed(heads) && events != []
    ensures var e, after := events[0], Apply(heads, events[0]);
      var rest := Before(after, a) + Trail(after, events[1..], a);
      if Moves(heads, e, a) then
        && rest != []
        && Before(heads, a) + Trail(heads, events, a) == (if a in heads then [heads[a]] + rest else rest)
        && (if a in heads then ValidSuccessor(heads[a], rest[0]) else rest[0].generation == 1)
      else Before(heads, a) + Trail(heads, events, a) == rest && (a in heads <==> a in after)
  {
    hide PlanOf, ValidRecord, ValidSuccessor, WellFormed;
    var e := events[0];
    WritesAreSuccessors(heads, e.op);
    var after := Apply(heads, e);
    var trail := Trail(after, events[1..], a);
    if Moves(heads, e, a) {
      assert Trail(heads, events, a) == [PlanOf(heads, e.op).next] + trail == Before(after, a) + trail;
    } else {
      assert Trail(heads, events, a) == [] + trail == trail;
      assert Before(after, a) == Before(heads, a);
    }
  }

  lemma ChainOfOne(s: seq<Record>)
    requires |s| <= 1
    ensures Chain(s)
  {
  }

  lemma WellFormedHead(heads: Heads, a: string)
    requires WellFormed(heads) && a in heads
    ensures ValidRecord(heads[a]) && heads[a].data.activationId == a
  {
  }

  /**
   * The whole life of one activation: generations count 1, 2, 3, ..., every later head
   * keeps the frozen tuple and never moves its times back, and a tombstone is final.
   */
  lemma LifeOfAnActivation(events: seq<Event>, a: string, i: nat, j: nat)
    requires i < j < |Trail(map[], events, a)|
    ensures var life := Trail(map[], events, a);
      && life[i].generation == i + 1
      && life[j].generation == j + 1
      && Follows(life[i], life[j])
      && Active(life[i])
  {
    hide Trail, Run, ValidRecord, Chain;
    var life := Trail(map[], events, a);
    TrailIsChain(map[], events, a);
    assert Before(map[], a) + life == life;
    ChainFollows(life, i, j);
    ChainFollows(life, 0, j);
  }

  lemma {:induction false} RunAppend(heads: Heads, events: seq<Event>, more: seq<Event>, a: string)
    ensures Run(heads, events + more) == Run(Run(heads, events), more)
    ensures Trail(heads, events + more, a) == Trail(heads, events, a) + Trail(Run(heads, events), more, a)
    decreases |events|
  {
    hide Apply, Written;
    if events == [] {
      assert events + more == more;
    } else {
      assert (events + more)[1..] == events[1..] + more;
      RunAppend(Apply(heads, events[0]), events[1..], more, a);
    }
  }

  lemma TrailOfOne(heads: Heads, event: Event, a: string)
    ensures Trail(heads, [event], a) == Written(heads, event, a)
  {
    hide Apply, Written;
    assert [event][1..] == [];
  }

  /** Nothing that happens after a removal changes that activation's head. */
  lemma RemovalIsFinal(events: seq<Event>, more: seq<Event>, a: string)
    requires a in Run(map[], events) && !Active(Run(map[], events)[a])
    ensures a in Run(map[], events + more)
    ensures Run(map[], events + more)[a] == Run(map[], events)[a]
  {
    RunKeepsWellFormed(map[], events);
    var middle := Run(map[], events);
    TrailIsChain(middle, more, a);
    RunAppend(map[], events, more, a);
    var history := Before(middle, a) + Trail(middle, more, a);
    assert |history| > 1 ==> ValidSuccessor(history[0], history[1]);
  }

  /** A record without its local clock readings. */
  function EraseClock(r: Record): Record {
    r.(createdAt := 0, updatedAt := 0, removedAt := if r.removedAt.Some? then Some(0) else None)
  }

  ghost predicate SameUpToClock(x: Heads, y: Heads) {
    && x.Keys == y.Keys
    && forall a <- x :: EraseClock(x[a]) == EraseClock(y[a])
  }

  function At(op: Operation, now: Option<int>): Operation {
    op.(now := now)
  }

  datatype Attempt = Attempt(now: Option<int>, landed: bool)

  /** The heads left by attempts of the same call that each stopped somewhere. */
  function Attempted(heads: Heads, op: Operation, attempts: seq<Attempt>): Heads
    decreases |attempts|
  {
    if attempts == [] then heads
    else Attempted(Apply(heads, Event(At(op, attempts[0].now), attempts[0].landed)), op, attempts[1..])
  }

  lemma PersistAgain(current: Option<Record>, competing: bool, candidate: Data, now: Option<int>, again: Option<int>)
    requires ValidData(candidate) && (current.Some? ==> ValidRecord(current.value))
    requires PersistPlan(current, competing, candidate, now).Write?
    ensures !competing
    ensures var next := PersistPlan(current, competing, candidate, now).next;
      next.data == candidate && Active(next) && PersistPlan(Some(next), false, candidate, again) == Keep
  {
    hide ValidData, ValidSuccessor;
  }

  lemma StillUncontested(heads: Heads, candidate: Data, next: Record)
    requires !Competes(heads, candidate) && next.data == candidate
    ensures !Competes(heads[candidate.activationId := next], candidate)
  {
    var after := heads[candidate.activationId := next];
    forall b <- after | b != candidate.activationId ensures !CompetesWith(after[b], candidate) {
      assert b in heads;
    }
  }

  /** Repeating a call whose effect is already durable changes nothing and succeeds. */
  lemma RepeatIsKeep(heads: Heads, op: Operation, again: Option<int>)
    requires WellFormed(heads)
    requires PlanOf(heads, op).Write?
    ensures PlanOf(Next(heads, op), At(op, again)) == Keep
  {
    match op
    case Persist(target, result, now) =>
      hide PersistPlan, RenewalData, Competes, Exclusive;
      var candidate := RenewalData(target, result).value;
      var current := Lookup(heads, target.activationId);
      PersistAgain(current, Competes(heads, candidate), candidate, now, again);
      StillUncontested(heads, candidate, PlanOf(heads, op).next);
    case Remove(_, _) =>
      hide ValidData, Exclusive;
  }

  /** Crashing attempts of one call leave the old heads or those of one landed attempt. */
  lemma {:induction false} AttemptsLandAtMostOnce(heads: Heads, op: Operation, attempts: seq<Attempt>)
    requires WellFormed(heads)
    ensures var left := Attempted(heads, op, attempts);
      || left == heads
      || exists t: Option<int> :: PlanOf(heads, At(op, t)).Write? && left == Next(heads, At(op, t))
    decreases |attempts|
  {
    if attempts != [] {
      var first := At(op, attempts[0].now);
      var after := Apply(heads, Event(first, attempts[0].landed));
      if after == heads {
        AttemptsLandAtMostOnce(heads, op, attempts[1..]);
      } else {
        LandedAttemptsStay(heads, op, attempts[0].now, attempts[1..]);
        assert PlanOf(heads, At(op, attempts[0].now)).Write?;
      }
    }
  }

  lemma {:induction false} LandedAttemptsStay(heads: Heads, op: Operation, t: Option<int>, attempts: seq<Attempt>)
    requires WellFormed(heads) && PlanOf(heads, At(op, t)).Write?
    ensures Attempted(Next(heads, At(op, t)), op, attempts) == Next(heads, At(op, t))
    decreases |attempts|
  {
    if attempts != [] {
      RepeatIsKeep(heads, At(op, t), attempts[0].now);
      assert At(At(op, t), attempts[0].now) == At(op, attempts[0].now);
      LandedAttemptsStay(heads, op, t, attempts[1..]);
    }
  }

  /** What a write contains does not depend on the clock, only whether it is allowed does. */
  lemma WriteUpToClock(heads: Heads, op: Operation, s: Option<int>, t: Option<int>)
    requires WellFormed(heads)
    requires OutcomeOf(heads, At(op, s)) == Done && OutcomeOf(heads, At(op, t)) == Done
    ensures PlanOf(heads, At(op, s)).Write? <==> PlanOf(heads, At(op, t)).Write?
    ensures SameUpToClock(Next(heads, At(op, s)), Next(heads, At(op, t)))
  {
    hide ValidRecord, ValidSuccessor, CompareRequest, WellFormed, RenewalData, Competes;
    PlanUpToClock(heads, op, s, t);
    assert Subject(At(op, s)) == Subject(At(op, t));
  }

  lemma PlanUpToClock(heads: Heads, op: Operation, s: Option<int>, t: Option<int>)
    requires OutcomeOf(heads, At(op, s)) == Done && OutcomeOf(heads, At(op, t)) == Done
    ensures var x, y := PlanOf(heads, At(op, s)), PlanOf(heads, At(op, t));
      (x == Keep && y == Keep) || (x.Write? && y.Write? && EraseClock(x.next) == EraseClock(y.next))
  {
    hide ValidRecord, ValidSuccessor, RenewalData, Competes;
  }

  /**
   * Retry is exactly-once. Let one uncrashed call at time `once` succeed. After any number
   * of crashed attempts, a completing call at time `now` succeeds exactly when an earlier
   * attempt already landed or the call would have succeeded at `now` on its own, and then
   * the heads equal those of the single call up to local clock readings.
   */
  lemma RetryIsExactlyOnce(
    heads: Heads, op: Operation, once: Option<int>, attempts: seq<Attempt>, now: Option<int>)
    requires WellFormed(heads)
    requires OutcomeOf(heads, At(op, once)) == Done
    ensures var left := Attempted(heads, op, attempts);
      && (OutcomeOf(left, At(op, now)) == Done
          <==> left != heads || OutcomeOf(heads, At(op, now)) == Done)
      && (OutcomeOf(left, At(op, now)) == Done ==>
            SameUpToClock(Next(left, At(op, now)), Next(heads, At(op, once))))
  {
    hide PlanOf, WellFormed, Attempted, SameUpToClock;
    var left := Attempted(heads, op, attempts);
    AttemptsLandAtMostOnce(heads, op, attempts);
    if left == heads {
      if OutcomeOf(heads, At(op, now)) == Done {
        WriteUpToClock(heads, op, now, once);
      }
    } else {
      var t: Option<int> :| PlanOf(heads, At(op, t)).Write? && left == Next(heads, At(op, t));
      RepeatIsKeep(heads, At(op, t), now);
      assert At(At(op, t), now) == At(op, now);
      WriteUpToClock(heads, op, t, once);
    }
  }
}
