/**
 * The journal of LeaseRenewal is the one that TransportReplay keeps. For one renewal reference,
 * the transport's lawful log and the world of controllers and fences run side by side: a
 * creation, a completion and an answer taken by a task are steps of both.
 */
module LeaseJournal {
  import opened Basics
  import opened FenceRecord
  import opened LeaseRenewal
  import opened ReplayLog

  /** Both happen at once, or only the world moves, or only the log grows. */
  datatype Move = Both(item: Item, step: Step) | Alone(step: Step) | Quiet(item: Item)

  datatype Pair = Pair(world: World, log: seq<Item>)

  const BEGIN := Pair(START, [])

  /** The world's step for an item on the reference of this session and activation. */
  ghost predicate Matches(p: Pair, item: Item, step: Step, session: string, activation: string) {
    var r := RequestReference(session, activation);
    match item
    case Created(request) => step == Journals(session, activation, request.requestHash)
    case Answered(answer, requestHash) =>
      && answer.Success? && step.Renews? && ReceiptOf(step.result) == Receipt(r, requestHash)
      && step.id in p.world.tasks && p.world.tasks[step.id].Renewing?
      && r == RequestReference(p.world.tasks[step.id].target.sessionId, p.world.tasks[step.id].target.activationId)
    case Completed =>
      && step.Completes? && step.dropped && step.id in p.world.tasks && p.world.tasks[step.id].Completing?
      && HashOf(Replay(p.log)).Some?
      && ReceiptOf(p.world.tasks[step.id].result) == Receipt(r, HashOf(Replay(p.log)).value)
    case _ => false
  }

  /** The world's step leaves the journal of `r` alone and takes no answer about it. */
  predicate Elsewhere(w: World, step: Step, r: Digest) {
    match step
    case Journals(session, activation, _) => RequestReference(session, activation) != r
    case Renews(_, result) => result.requestReference != r
    case Completes(id, dropped) =>
      id in w.tasks && w.tasks[id].Completing? && ReceiptOf(w.tasks[id].result).reference == r ==> !dropped
    case _ => true
  }

  /** What may happen next: lawful for the log, and the same on both sides. */
  ghost predicate Fits(p: Pair, move: Move, session: string, activation: string) {
    match move
    case Both(item, step) => Legal(Replay(p.log), item) && Matches(p, item, step, session, activation)
    case Alone(step) => Elsewhere(p.world, step, RequestReference(session, activation))
    case Quiet(item) => Legal(Replay(p.log), item) && !item.Created? && !item.Completed?
  }

  function Make(p: Pair, move: Move): Pair {
    match move
    case Both(item, step) => Pair(Perform(p.world, step), p.log + [item])
    case Alone(step) => Pair(Perform(p.world, step), p.log)
    case Quiet(item) => Pair(p.world, p.log + [item])
  }

  ghost predicate FitsAll(p: Pair, moves: seq<Move>, session: string, activation: string)
    decreases |moves|
  {
    moves == []
    || (Fits(p, moves[0], session, activation) && FitsAll(Make(p, moves[0]), moves[1..], session, activation))
  }

  function MakeAll(p: Pair, moves: seq<Move>): Pair
    decreases |moves|
  {
    if moves == [] then p else MakeAll(Make(p, moves[0]), moves[1..])
  }

  /** The journal holds the same request on both sides. */
  ghost predicate SameEntry(p: Pair, r: Digest) {
    HashOf(Replay(p.log)) == if r in p.world.journal then Some(p.world.journal[r]) else None
  }

  /** Whatever was journalled or last recorded was issued. */
  ghost predicate KnownRequests(p: Pair, r: Digest) {
    var t := Replay(p.log);
    && (HashOf(t).Some? ==> Receipt(r, HashOf(t).value) in p.world.issued)
    && (t.latestHash.Some? ==> Receipt(r, t.latestHash.value) in p.world.issued)
  }

  ghost predicate CompletedAt(log: seq<Item>, k: int, hash: string) {
    0 <= k < |log| && log[k].Completed? && HashOf(Replay(log[..k])) == Some(hash)
  }

  /** Whatever was completed was acknowledged. */
  ghost predicate KnownCompletions(p: Pair, r: Digest) {
    forall k, hash :: CompletedAt(p.log, k, hash) ==> Receipt(r, hash) in p.world.acknowledged
  }

  ghost predicate Linked(p: Pair, r: Digest) {
    && Lawful(p.log) && SameEntry(p, r) && KnownRequests(p, r) && KnownCompletions(p, r)
    && (Replay(p.log).response.Some? ==> HashOf(Replay(p.log)).Some?)
    && (Replay(p.log).posted ==> HashOf(Replay(p.log)).Some?)
  }

  lemma LogMoves(log: seq<Item>, item: Item)
    requires Lawful(log) && Legal(Replay(log), item)
    ensures Lawful(log + [item]) && Replay(log + [item]) == Tell(Replay(log), item)
    ensures forall k, hash :: CompletedAt(log + [item], k, hash) <==>
              CompletedAt(log, k, hash) || (k == |log| && item.Completed? && HashOf(Replay(log)) == Some(hash))
  {
    hide Legal, Lawful, Replay;
    LawfulAppend(log, item);
    var longer := log + [item];
    forall k, hash
      ensures CompletedAt(longer, k, hash) <==>
                CompletedAt(log, k, hash) || (k == |log| && item.Completed? && HashOf(Replay(log)) == Some(hash))
    {
      if 0 <= k < |log| {
        assert longer[..k] == log[..k];
      } else if k == |log| {
        assert longer[..k] == log;
      }
    }
  }

  /** An item that neither creates nor completes leaves the journal's request as it is. */
  lemma RequestHolds(t: Told, item: Item)
    requires Legal(t, item) && !item.Created? && !item.Completed?
    requires t.posted ==> HashOf(t).Some?
    ensures HashOf(Tell(t, item)) == HashOf(t)
    ensures Tell(t, item).latestHash == t.latestHash || (Tell(t, item).latestHash == HashOf(t) && HashOf(t).Some?)
    ensures Tell(t, item).posted || Tell(t, item).response.Some? ==> HashOf(t).Some? || t.posted || t.response.Some?
  {
  }

  lemma AloneKeepsLink(p: Pair, step: Step, r: Digest)
    requires Linked(p, r) && Elsewhere(p.world, step, r)
    ensures Linked(Pair(Perform(p.world, step), p.log), r)
  {
    hide Lawful, Replay, CompletedAt, FenceHistory.OutcomeOf, FenceHistory.Run;
  }

  lemma QuietKeepsLink(p: Pair, item: Item, r: Digest)
    requires Linked(p, r) && Legal(Replay(p.log), item) && !item.Created? && !item.Completed?
    ensures Linked(Pair(p.world, p.log + [item]), r)
  {
    hide Lawful, Replay, CompletedAt, Legal, Tell;
    LogMoves(p.log, item);
    RequestHolds(Replay(p.log), item);
  }

  /** What both sides do agrees: the creation takes, the answer is accepted, the completion drops. */
  lemma BothTakeEffect(p: Pair, item: Item, step: Step, session: string, activation: string)
    requires Linked(p, RequestReference(session, activation))
    requires Legal(Replay(p.log), item) && Matches(p, item, step, session, activation)
    ensures var r, after := RequestReference(session, activation), Perform(p.world, step);
      match item
      case Created(request) => r !in p.world.journal && after.journal == p.world.journal[r := request.requestHash]
      case Answered(_, _) =>
        var target := p.world.tasks[step.id].target;
        after == p.world.(tasks := p.world.tasks[step.id := Persisting(target, step.result)])
      case Completed => r in p.world.journal && after.journal == p.world.journal - {r}
                        && Receipt(r, p.world.journal[r]) in after.acknowledged
      case _ => true
  {
    hide Lawful, Replay, CompletedAt;
  }

  lemma CreationKeepsLink(p: Pair, request: Request, session: string, activation: string)
    requires Linked(p, RequestReference(session, activation)) && Legal(Replay(p.log), Created(request))
    ensures var step := Journals(session, activation, request.requestHash);
      Linked(Pair(Perform(p.world, step), p.log + [Created(request)]), RequestReference(session, activation))
  {
    hide Lawful, Replay, CompletedAt;
    LogMoves(p.log, Created(request));
  }

  lemma CompletionKeepsLink(p: Pair, step: Step, session: string, activation: string)
    requires Linked(p, RequestReference(session, activation)) && Legal(Replay(p.log), Completed)
    requires Matches(p, Completed, step, session, activation)
    ensures Linked(Pair(Perform(p.world, step), p.log + [Completed]), RequestReference(session, activation))
  {
    hide Lawful, Replay, CompletedAt;
    LogMoves(p.log, Completed);
  }

  lemma MoveKeepsLink(p: Pair, move: Move, session: string, activation: string)
    requires Linked(p, RequestReference(session, activation)) && Fits(p, move, session, activation)
    ensures Linked(Make(p, move), RequestReference(session, activation))
  {
    hide Linked, Legal, Perform, Replay, Elsewhere;
    var r := RequestReference(session, activation);
    match move
    case Alone(step) => AloneKeepsLink(p, step, r);
    case Quiet(item) => QuietKeepsLink(p, item, r);
    case Both(item, step) =>
      if item.Created? {
        CreationKeepsLink(p, item.request, session, activation);
      } else if item.Completed? {
        CompletionKeepsLink(p, step, session, activation);
      } else {
        QuietKeepsLink(p, item, r);
        BothTakeEffect(p, item, step, session, activation);
        SameWorldLink(Pair(p.world, p.log + [item]), Perform(p.world, step), r);
      }
  }

  lemma SameWorldLink(p: Pair, w: World, r: Digest)
    requires Linked(p, r) && w == p.world.(tasks := w.tasks)
    ensures Linked(Pair(w, p.log), r)
  {
    hide Lawful, Replay, CompletedAt;
  }

  /** Whatever both sides do, their journals stay one. */
  lemma {:induction false} JournalsStayOne(p: Pair, moves: seq<Move>, session: string, activation: string)
    requires Linked(p, RequestReference(session, activation)) && FitsAll(p, moves, session, activation)
    ensures Linked(MakeAll(p, moves), RequestReference(session, activation))
    decreases |moves|
  {
    hide Linked, Fits, Make;
    if moves != [] {
      MoveKeepsLink(p, moves[0], session, activation);
      JournalsStayOne(Make(p, moves[0]), moves[1..], session, activation);
    }
  }

  lemma {:induction false} WorldStaysSafe(p: Pair, moves: seq<Move>)
    requires Safe(p.world)
    ensures Safe(MakeAll(p, moves).world)
    decreases |moves|
  {
    hide Safe, Perform;
    if moves != [] {
      if !moves[0].Quiet? {
        StepKeepsSafe(p.world, moves[0].step);
      }
      WorldStaysSafe(Make(p, moves[0]), moves[1..]);
    }
  }

  lemma BeginIsLinked(r: Digest)
    ensures Linked(BEGIN, r) && Safe(BEGIN.world)
  {
  }

  /**
   * The two models together: however the transport's log of a renewal reference and the world
   * interleave, every request that the journal ever completed under that reference has a
   * record with its hash in the durable fence chain of the activation.
   */
  lemma CompletedRequestsAreFenced(moves: seq<Move>, session: string, activation: string, k: int, hash: string)
    requires FitsAll(BEGIN, moves, session, activation)
    requires CompletedAt(MakeAll(BEGIN, moves).log, k, hash)
    ensures Lawful(MakeAll(BEGIN, moves).log)
    ensures Fenced(MakeAll(BEGIN, moves).world.events, Receipt(RequestReference(session, activation), hash))
  {
    hide Lawful, Fenced, CompletedAt, MakeAll, FitsAll;
    BeginIsLinked(RequestReference(session, activation));
    JournalsStayOne(BEGIN, moves, session, activation);
    WorldStaysSafe(BEGIN, moves);
  }
}
