/**
 * No acknowledged renewal is lost: any number of renewal tasks, the transport journal and the
 * fence store, interleaved step by step with other fence operations and crashes anywhere.
 * The journal keeps its contract: an entry stays until `complete` names its hash, and a
 * renewal's answer carries the reference and hash of an entry that was made. Module
 * LeaseJournal shows that the transport's lawful log of each reference keeps it.
 */
module LeaseRenewal {
  import opened Basics
  import opened FenceRecord
  import FenceHistory

  /** performOne between its awaits. */
  datatype Task =
    | Renewing(target: Target)
    | Persisting(target: Target, result: RenewalResult)
    | Completing(target: Target, result: RenewalResult)

  /** One journalled renewal request. */
  datatype Receipt = Receipt(reference: Digest, hash: string)

  datatype World = World(
    events: seq<FenceHistory.Event>,
    journal: map<Digest, string>,
    issued: set<Receipt>,
    acknowledged: set<Receipt>,
    tasks: map<nat, Task>)

  const START := World([], map[], {}, {}, map[])

  function Heads(w: World): FenceHistory.Heads {
    FenceHistory.Run(map[], w.events)
  }

  function ReceiptOf(result: RenewalResult): Receipt {
    Receipt(result.requestReference, result.requestHash)
  }

  datatype Step =
    | Spawns(id: nat, target: Target)
    | Journals(session: string, activation: string, hash: string)
    | Renews(id: nat, result: RenewalResult)
    | Persists(id: nat, now: Option<int>, landed: bool, returned: bool)
    | Completes(id: nat, dropped: bool)
    | Fails(id: nat)
    | OtherFenceOperation(event: FenceHistory.Event)
    | Crashes

  /** The journal enters an outbound request under a reference that is free. */
  function OnJournals(w: World, reference: Digest, hash: string): World {
    if reference in w.journal then w
    else w.(journal := w.journal[reference := hash], issued := w.issued + {Receipt(reference, hash)})
  }

  /** The transport answers from the record of some request it journalled. */
  function OnRenews(w: World, id: nat, result: RenewalResult): World {
    if id !in w.tasks || !w.tasks[id].Renewing? then w
    else
      var target := w.tasks[id].target;
      var reference := RequestReference(target.sessionId, target.activationId);
      if result.requestReference == reference && ReceiptOf(result) in w.issued
      then w.(tasks := w.tasks[id := Persisting(target, result)])
      else w.(tasks := w.tasks - {id})
  }

  /** persistRenewal: its effect and its answer part ways when it faults. */
  function OnPersists(w: World, id: nat, now: Option<int>, landed: bool, returned: bool): World {
    if id !in w.tasks || !w.tasks[id].Persisting? then w
    else
      var target, result := w.tasks[id].target, w.tasks[id].result;
      var op := FenceHistory.Persist(target, result, now);
      var d := w.(events := w.events + [FenceHistory.Event(op, landed)]);
      if landed && returned && FenceHistory.OutcomeOf(Heads(w), op).Done?
      then d.(tasks := w.tasks[id := Completing(target, result)])
      else d.(tasks := w.tasks - {id})
  }

  /** completeRequest: drops the entry only when it still has this hash, or fails before that. */
  function OnCompletes(w: World, id: nat, dropped: bool): World {
    if id !in w.tasks || !w.tasks[id].Completing? then w
    else
      var receipt := ReceiptOf(w.tasks[id].result);
      var d := w.(tasks := w.tasks - {id});
      if !dropped || receipt.reference !in w.journal || w.journal[receipt.reference] != receipt.hash then d
      else d.(journal := w.journal - {receipt.reference}, acknowledged := w.acknowledged + {receipt})
  }

  function OnSpawns(w: World, id: nat, target: Target): World {
    if id in w.tasks then w else w.(tasks := w.tasks[id := Renewing(target)])
  }

  function Perform(w: World, step: Step): World {
    match step
    case Spawns(id, target) => OnSpawns(w, id, target)
    case Journals(session, activation, hash) => OnJournals(w, RequestReference(session, activation), hash)
    case Renews(id, result) => OnRenews(w, id, result)
    case Persists(id, now, landed, returned) => OnPersists(w, id, now, landed, returned)
    case Completes(id, dropped) => OnCompletes(w, id, dropped)
    case Fails(id) => w.(tasks := w.tasks - {id})
    case OtherFenceOperation(event) => w.(events := w.events + [event])
    case Crashes => w.(tasks := map[])
  }

  function PerformAll(w: World, steps: seq<Step>): World
    decreases |steps|
  {
    if steps == [] then w else PerformAll(Perform(w, steps[0]), steps[1..])
  }

  /** The durable chain of the receipt's activation contains a record of this very request. */
  ghost predicate Fenced(events: seq<FenceHistory.Event>, receipt: Receipt) {
    && receipt.reference.RequestReference?
    && exists i :: FencedAt(FenceHistory.Trail(map[], events, receipt.reference.activation), receipt, i)
  }

  ghost predicate FencedAt(life: seq<Record>, receipt: Receipt, i: int) {
    && 0 <= i < |life|
    && life[i].data.requestReference == receipt.reference
    && life[i].data.requestHash == receipt.hash
  }

  /** Completing tasks and acknowledged receipts are backed by the durable chain. */
  ghost predicate Safe(w: World) {
    && (forall receipt <- w.acknowledged :: Fenced(w.events, receipt))
    && (forall id <- w.tasks | w.tasks[id].Completing? :: Fenced(w.events, ReceiptOf(w.tasks[id].result)))
  }

  /** A journalled renewal is in the journal until it is acknowledged. */
  ghost predicate Conserved(w: World) {
    forall receipt <- w.issued ::
      || (receipt.reference in w.journal && w.journal[receipt.reference] == receipt.hash)
      || receipt in w.acknowledged
  }

  lemma FencedStays(events: seq<FenceHistory.Event>, event: FenceHistory.Event, receipt: Receipt)
    requires Fenced(events, receipt)
    ensures Fenced(events + [event], receipt)
  {
    var a := receipt.reference.activation;
    var life := FenceHistory.Trail(map[], events, a);
    var i :| FencedAt(life, receipt, i);
    FenceHistory.RunAppend(map[], events, [event], a);
    assert FencedAt(FenceHistory.Trail(map[], events + [event], a), receipt, i);
  }

  /** persistRenewal answers only when the request's record is durable: written now or found. */
  lemma AnsweredMeansFenced(events: seq<FenceHistory.Event>, op: FenceHistory.Operation)
    requires op.Persist?
    requires FenceHistory.OutcomeOf(FenceHistory.Run(map[], events), op).Done?
    ensures Fenced(events + [FenceHistory.Event(op, true)], ReceiptOf(op.result))
  {
    hide FenceHistory.PlanOf, FenceHistory.Trail, FenceHistory.Run, Chain, ValidRecord;
    var a := op.target.activationId;
    var heads := FenceHistory.Run(map[], events);
    var event := FenceHistory.Event(op, true);
    var before := FenceHistory.Trail(map[], events, a);
    FenceHistory.RunAppend(map[], events, [event], a);
    FenceHistory.TrailOfOne(heads, event, a);
    PlanCarriesRequest(heads, op);
    var after := FenceHistory.Trail(map[], events + [event], a);
    if FenceHistory.PlanOf(heads, op).Write? {
      assert FencedAt(after, ReceiptOf(op.result), |before|);
    } else {
      FenceHistory.TrailIsChain(map[], events, a);
      assert FenceHistory.Before(map[], a) + before == before;
      assert FencedAt(after, ReceiptOf(op.result), |before| - 1);
    }
  }

  lemma PlanCarriesRequest(heads: FenceHistory.Heads, op: FenceHistory.Operation)
    requires op.Persist? && FenceHistory.OutcomeOf(heads, op).Done?
    ensures var a, plan := op.target.activationId, FenceHistory.PlanOf(heads, op);
      && !plan.Refuse?
      && ReceiptOf(op.result).reference == RequestReference(op.target.sessionId, a)
      && (plan.Write? ==> plan.next.data.requestReference == op.result.requestReference
                          && plan.next.data.requestHash == op.result.requestHash)
      && (plan.Keep? ==> a in heads
                         && heads[a].data.requestReference == op.result.requestReference
                         && heads[a].data.requestHash == op.result.requestHash)
  {
    hide ValidRecord, ValidSuccessor, ValidTarget, ValidLeaseWindow, FenceHistory.Competes;
  }

  lemma StepKeepsSafe(w: World, step: Step)
    requires Safe(w)
    ensures Safe(Perform(w, step))
  {
    hide Fenced;
    var d := Perform(w, step);
    if step.Persists? && step.id in w.tasks && w.tasks[step.id].Persisting? {
      var task := w.tasks[step.id];
      var op := FenceHistory.Persist(task.target, task.result, step.now);
      EventKeepsFenced(w, FenceHistory.Event(op, step.landed));
      if step.landed && step.returned && FenceHistory.OutcomeOf(Heads(w), op).Done? {
        AnsweredMeansFenced(w.events, op);
      }
    } else if step.OtherFenceOperation? {
      EventKeepsFenced(w, step.event);
    }
  }

  lemma EventKeepsFenced(w: World, event: FenceHistory.Event)
    requires Safe(w)
    ensures forall receipt | Fenced(w.events, receipt) :: Fenced(w.events + [event], receipt)
  {
    forall receipt | Fenced(w.events, receipt) ensures Fenced(w.events + [event], receipt) {
      FencedStays(w.events, event, receipt);
    }
  }

  lemma StepConserves(w: World, step: Step)
    requires Conserved(w)
    ensures Conserved(Perform(w, step))
    ensures w.acknowledged <= Perform(w, step).acknowledged && w.issued <= Perform(w, step).issued
  {
  }

  /**
   * In every run, crashes included, a renewal's journal entry is completed only if the durable
   * fence chain of that activation contains a record with its reference and hash.
   */
  lemma {:induction false} NoAcknowledgedRenewalIsLost(w: World, steps: seq<Step>)
    requires Safe(w)
    ensures Safe(PerformAll(w, steps))
    decreases |steps|
  {
    hide Safe, Perform;
    if steps != [] {
      StepKeepsSafe(w, steps[0]);
      NoAcknowledgedRenewalIsLost(Perform(w, steps[0]), steps[1..]);
    }
  }

  lemma {:induction false} RunConserves(w: World, steps: seq<Step>)
    requires Conserved(w)
    ensures Conserved(PerformAll(w, steps))
    decreases |steps|
  {
    hide Conserved, Perform;
    if steps != [] {
      StepConserves(w, steps[0]);
      RunConserves(Perform(w, steps[0]), steps[1..]);
    }
  }

  /** A record of this very request is its activation's head, or an earlier generation of it. */
  ghost predicate ReachesHead(w: World, receipt: Receipt, r: Record) {
    && receipt.reference.RequestReference?
    && receipt.reference.activation in Heads(w)
    && r.data.requestReference == receipt.reference
    && r.data.requestHash == receipt.hash
    && (Heads(w)[receipt.reference.activation] == r || Follows(r, Heads(w)[receipt.reference.activation]))
  }

  lemma FencedReachesHead(w: World, receipt: Receipt)
    requires Fenced(w.events, receipt)
    ensures exists r: Record :: ReachesHead(w, receipt, r)
  {
    hide FenceHistory.Trail, FenceHistory.Run, ValidRecord, Chain, Follows, ValidSuccessor;
    var a := receipt.reference.activation;
    var life := FenceHistory.Trail(map[], w.events, a);
    var i :| FencedAt(life, receipt, i);
    FenceHistory.TrailIsChain(map[], w.events, a);
    assert FenceHistory.Before(map[], a) + life == life;
    if i < |life| - 1 {
      ChainFollows(life, i, |life| - 1);
    }
    assert ReachesHead(w, receipt, life[i]);
  }

  /**
   * So nothing journalled ever vanishes: after any run each journalled renewal is either still
   * in the journal or recorded in its activation's chain, and then the activation's current
   * head is that record or one that follows it.
   */
  lemma JournalledRenewalsSurvive(steps: seq<Step>, receipt: Receipt)
    requires receipt in PerformAll(START, steps).issued
    ensures var w := PerformAll(START, steps);
      || (receipt.reference in w.journal && w.journal[receipt.reference] == receipt.hash)
      || exists r: Record :: ReachesHead(w, receipt, r)
  {
    hide PerformAll, Fenced, ReachesHead;
    var w := PerformAll(START, steps);
    NoAcknowledgedRenewalIsLost(START, steps);
    RunConserves(START, steps);
    if receipt in w.acknowledged {
      FencedReachesHead(w, receipt);
    }
  }

  // ---- Exactly what is journalled and acknowledged ----

  ghost predicate InJournal(w: World, receipt: Receipt) {
    receipt.reference in w.journal && w.journal[receipt.reference] == receipt.hash
  }

  ghost predicate Enters(w: World, step: Step, receipt: Receipt) {
    && step.Journals? && receipt.hash == step.hash
    && receipt.reference == RequestReference(step.session, step.activation) && receipt.reference !in w.journal
  }

  /** The last await of a renewal whose record was persisted fulfils, and the entry is still its own. */
  ghost predicate Acknowledges(w: World, step: Step, receipt: Receipt) {
    && step.Completes? && step.dropped && step.id in w.tasks && w.tasks[step.id].Completing?
    && w.tasks[step.id].result.requestReference == receipt.reference
    && w.tasks[step.id].result.requestHash == receipt.hash
    && InJournal(w, receipt)
  }

  /** The task's next await is this one. */
  ghost predicate Awaits(w: World, id: nat, task: Task) {
    id in w.tasks && w.tasks[id] == task
  }

  /** The answer is for the task's own target and for a request that was journalled. */
  predicate Answers(w: World, target: Target, result: RenewalResult) {
    && result.requestReference == RequestReference(target.sessionId, target.activationId)
    && Receipt(result.requestReference, result.requestHash) in w.issued
  }

  /** How the task got there: spawned, answered, or persisted for certain; and nothing ended it. */
  ghost predicate Proceeds(w: World, step: Step, id: nat, task: Task) {
    match task
    case Renewing(target) => step == Spawns(id, target) && id !in w.tasks
    case Persisting(target, result) =>
      step == Renews(id, result) && Awaits(w, id, Renewing(target)) && Answers(w, target, result)
    case Completing(target, result) =>
      && step.Persists? && step.id == id && step.landed && step.returned
      && Awaits(w, id, Persisting(target, result))
      && FenceHistory.OutcomeOf(Heads(w), FenceHistory.Persist(target, result, step.now)).Done?
  }

  /** The step is the task's own next one, or ends it. */
  predicate Moves(step: Step, id: nat, task: Task) {
    match step
    case Renews(i, _) => i == id && task.Renewing?
    case Persists(i, _, _, _) => i == id && task.Persisting?
    case Completes(i, _) => i == id && task.Completing?
    case Fails(i) => i == id
    case Crashes => true
    case _ => false
  }

  /**
   * The journal, the acknowledged renewals and the tasks change exactly so, and the fence store
   * sees exactly the calls of the tasks and of others.
   */
  lemma StepIsExplained(w: World, step: Step)
    ensures var d := Perform(w, step);
      && (forall receipt :: receipt in d.acknowledged <==> receipt in w.acknowledged || Acknowledges(w, step, receipt))
      && (forall receipt :: InJournal(d, receipt) <==>
            (InJournal(w, receipt) && !Acknowledges(w, step, receipt)) || Enters(w, step, receipt))
      && (forall receipt :: receipt in d.issued <==> receipt in w.issued || Enters(w, step, receipt))
      && (forall id: nat, task :: Awaits(d, id, task) <==>
            (Awaits(w, id, task) && !Moves(step, id, task)) || Proceeds(w, step, id, task))
      && d.events == w.events +
           match step
           case OtherFenceOperation(event) => [event]
           case Persists(id, now, landed, _) =>
             if id in w.tasks && w.tasks[id].Persisting?
             then [FenceHistory.Event(FenceHistory.Persist(w.tasks[id].target, w.tasks[id].result, now), landed)]
             else []
           case _ => []
  {
    hide FenceHistory.OutcomeOf, FenceHistory.Run;
    assert w.events + [] == w.events;
  }

  /** A journalled renewal that nothing interrupts is persisted, acknowledged and gone. */
  lemma UninterruptedIsAcknowledged(w: World, id: nat, target: Target, result: RenewalResult, now: Option<int>)
    requires id !in w.tasks && InJournal(w, ReceiptOf(result))
    requires Answers(w, target, result)
    requires FenceHistory.OutcomeOf(Heads(w), FenceHistory.Persist(target, result, now)).Done?
    ensures var steps := [Spawns(id, target), Renews(id, result), Persists(id, now, true, true), Completes(id, true)];
      var d := PerformAll(w, steps);
      && ReceiptOf(result) in d.acknowledged && result.requestReference !in d.journal && id !in d.tasks
      && d.events == w.events + [FenceHistory.Event(FenceHistory.Persist(target, result, now), true)]
  {
    hide FenceHistory.OutcomeOf, FenceHistory.Run;
    var a, b, c := Renews(id, result), Persists(id, now, true, true), Completes(id, true);
    var w1 := Perform(w, Spawns(id, target));
    var w2 := Perform(w1, a);
    var w3 := Perform(w2, b);
    assert [Spawns(id, target), a, b, c][1..] == [a, b, c];
    assert [a, b, c][1..] == [b, c] && [b, c][1..] == [c] && [c][1..] == [];
    assert PerformAll(w3, [c]) == PerformAll(Perform(w3, c), []) == Perform(w3, c);
    assert PerformAll(w2, [b, c]) == Perform(w3, c);
    assert PerformAll(w1, [a, b, c]) == Perform(w3, c);
  }
}
